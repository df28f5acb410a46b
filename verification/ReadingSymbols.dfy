/** Reading back the symbols of a block, and with them the whole block. */
module ReadingSymbols {
  import opened Common
  import opened Bits
  import opened BitIO
  import opened HuffmanCodes
  import opened Mtf
  import opened Parser
  import opened BlockFormat
  import opened Reading
  import opened ReadingTables
  import opened KraftSum

  /** A table whose codes fit. */
  ghost predicate Fits(len: seq<byte>, alphaSize: nat) {
    Table(len, alphaSize) && Kraft(len, Longest(len)) <= Pow2(Longest(len))
  }

  /** Where a symbol is being read: its block, the bytes so far, and its place in the groups. */
  datatype Spot = Spot(k: Codes, d: Decoder, groupNo: nat, groupPos: nat)

  ghost predicate GoodSpot(p: Spot) {
    GoodCodes(p.k) && Sound(Letters(p.k.c), p.d) && p.groupNo < |p.k.c.sels|
  }

  /** t is the table at p. */
  ghost predicate TableAt(p: Spot, t: Tables) {
    && |t.limit| == MAX_CODE_LEN && |t.base| == MAX_CODE_LEN && |t.perm| == MAX_ALPHA_SIZE
    && forall i {:trigger Seal(i)} :: Seal(i) ==> GoodSpot(p) && t == TableOf(CurrentTable(p.k, p.groupNo))
  }

  ghost predicate TestsCode(p: Spot, zn: nat, zvec: nat, c: Ctl)
    requires GoodSpot(p)
  {
    Shortest(CurrentTable(p.k, p.groupNo)) <= zn && c == OnCode(p.k, p.d, p.groupNo, p.groupPos, zn, zvec)
  }

  /** c tests a code of zn bits at p. */
  ghost predicate CodeAt(p: Spot, zn: nat, zvec: nat, c: Ctl) {
    && Good(c)
    && forall i {:trigger Seal(i)} :: Seal(i) ==> GoodSpot(p) && TestsCode(p, zn, zvec, c)
  }

  /** c comes after the symbol at p. */
  ghost predicate SymAt(p: Spot, sym: nat, c: Ctl) {
    && Good(c)
    && forall i {:trigger Seal(i)} :: Seal(i) ==>
      GoodSpot(p) && sym < AlphaSize(p.k.c.inUse) && c == OnSym(p.k, p.d, p.groupNo, p.groupPos, sym)
  }

  lemma CodeHit(p: Spot, zn: nat, zvec: nat, t: Tables, sym: nat, c: Ctl, end: Ctl)
    requires TableAt(p, t) && CodeAt(p, zn, zvec, c) && SymAt(p, sym, end) && zn <= LONGEST_CODE && zvec <= t.limit[zn]
    requires 0 <= zvec - t.base[zn] < MAX_ALPHA_SIZE && t.perm[zvec - t.base[zn]] == sym
    ensures c == end
  {
    assert Seal(0);
    HitIs(p.k, p.d, p.groupNo, p.groupPos, zn, zvec, t, sym);
  }

  lemma HitIs(k: Codes, d: Decoder, groupNo: nat, groupPos: nat, zn: nat, zvec: nat, t: Tables, sym: nat)
    requires GoodCodes(k) && Sound(Letters(k.c), d) && groupNo < |k.c.sels| && sym < AlphaSize(k.c.inUse)
    requires Shortest(CurrentTable(k, groupNo)) <= zn <= LONGEST_CODE && t == TableOf(CurrentTable(k, groupNo))
    requires zvec <= t.limit[zn] && 0 <= zvec - t.base[zn] < MAX_ALPHA_SIZE && t.perm[zvec - t.base[zn]] == sym
    ensures OnCode(k, d, groupNo, groupPos, zn, zvec) == OnSym(k, d, groupNo, groupPos, sym)
  {
  }

  lemma CodeLonger(p: Spot, zn: nat, zvec: nat, t: Tables, c: Ctl, zn': nat)
    requires TableAt(p, t) && CodeAt(p, zn, zvec, c) && zn <= LONGEST_CODE && zvec > t.limit[zn] && zn' == zn + 1
    ensures GoodSpot(p) && Shortest(CurrentTable(p.k, p.groupNo)) <= zn
    ensures c == Mtf2(p.k, p.d, p.groupNo, p.groupPos, zn', zvec)
  {
    assert Seal(0);
  }

  lemma CodeBit(p: Spot, zn: nat, zvec: nat, t: Tables, c: Ctl, b: bool, zn': nat, v: nat) returns (next: Ctl)
    requires TableAt(p, t) && CodeAt(p, zn, zvec, c) && zn <= LONGEST_CODE && zvec > t.limit[zn]
    requires zn' == zn + 1 && v == 2 * zvec + Bit(b)
    ensures CodeAt(p, zn', v, next) && Reads(c, [b], next)
  {
    CodeLonger(p, zn, zvec, t, c, zn');
    next := OnCode(p.k, p.d, p.groupNo, p.groupPos, zn', v);
    NextBit(p, zn', zvec, c, b, v, next);
  }

  lemma NextBit(p: Spot, zn: nat, zvec: nat, c: Ctl, b: bool, v: nat, next: Ctl)
    requires GoodSpot(p) && Good(c) && c == Mtf2(p.k, p.d, p.groupNo, p.groupPos, zn, zvec)
    requires Shortest(CurrentTable(p.k, p.groupNo)) <= zn && v == 2 * zvec + Bit(b)
    requires next == OnCode(p.k, p.d, p.groupNo, p.groupPos, zn, v)
    ensures Reads(c, [b], next)
  {
    LongerDelivered(p.k, p.d, p.groupNo, p.groupPos, zn, zvec, Bit(b), v);
    ReadsFlag(c, b, next);
  }

  lemma LongerDelivered(k: Codes, d: Decoder, groupNo: nat, groupPos: nat, zn: nat, zvec: nat, bit: nat, v: nat)
    requires Good(Mtf2(k, d, groupNo, groupPos, zn, zvec)) && v == 2 * zvec + bit
    ensures Deliver(Mtf2(k, d, groupNo, groupPos, zn, zvec), bit) == OnCode(k, d, groupNo, groupPos, zn, v)
  {
    var c := Mtf2(k, d, groupNo, groupPos, zn, zvec);
    assert Deliver(c, bit) == DeliverSymbol(c, bit);
  }

  /** What a successful search has found at its first code. */
  lemma SearchCases(t: Tables, zn: nat, zvec: int, rest: bits, sym: int)
    requires |t.limit| == MAX_CODE_LEN && |t.base| == MAX_CODE_LEN && |t.perm| == MAX_ALPHA_SIZE
    requires Search(t, zn, zvec, rest) == Found(sym, [])
    ensures zn <= LONGEST_CODE
    ensures zvec <= t.limit[zn] ==>
      rest == [] && 0 <= zvec - t.base[zn] < MAX_ALPHA_SIZE && t.perm[zvec - t.base[zn]] == sym
    ensures zvec > t.limit[zn] ==> rest != [] && Search(t, zn + 1, 2 * zvec + Bit(rest[0]), rest[1..]) == Found(sym, [])
  {
  }

  /** The rest of a word, of which zn bits have been read, leads to its symbol. */
  lemma {:induction false} ReadsRest(p: Spot, zn: nat, zvec: nat, rest: bits, sym: nat, t: Tables, c: Ctl, end: Ctl)
    requires TableAt(p, t) && CodeAt(p, zn, zvec, c) && SymAt(p, sym, end)
    requires Search(t, zn, zvec, rest) == Found(sym, [])
    ensures Reads(c, rest, end)
    decreases |rest|
  {
    SearchCases(t, zn, zvec, rest, sym);
    if zvec <= t.limit[zn] {
      CodeHit(p, zn, zvec, t, sym, c, end);
      ReadsNone(end);
    } else {
      var b, more := rest[0], rest[1..];
      var v := 2 * zvec + Bit(b);
      var next := CodeBit(p, zn, zvec, t, c, b, zn + 1, v);
      ReadsRest(p, zn + 1, v, more, sym, t, next, end);
      assert rest == [b] + more;
      ReadsThen(c, [b], next, more, end);
    }
  }

  /** The first bits of a word, as many as the shortest code has. */
  lemma WordStart(p: Spot, first: bits, lo: nat) returns (c: Ctl)
    requires GoodSpot(p) && lo == Shortest(CurrentTable(p.k, p.groupNo)) == |first|
    ensures CodeAt(p, lo, Value(first), c) && Reads(Mtf1(p.k, p.d, p.groupNo, p.groupPos), first, c)
  {
    var m := Mtf1(p.k, p.d, p.groupNo, p.groupPos);
    c := OnCode(p.k, p.d, p.groupNo, p.groupPos, lo, Value(first));
    ReadsOne(m, first);
  }

  lemma SymbolFound(p: Spot, len: seq<byte>, sym: nat, lo: nat) returns (t: Tables, first: bits, rest: bits)
    requires GoodSpot(p) && len == CurrentTable(p.k, p.groupNo) && sym < |len| && Fits(len, AlphaSize(p.k.c.inUse))
    requires lo == Shortest(len)
    ensures Word(len, lo, sym) == first + rest && |first| == lo
    ensures TableAt(p, t) && Search(t, lo, Value(first), rest) == Found(sym, [])
  {
    t := TableOf(len);
    TableOfFor(len, AlphaSize(p.k.c.inUse));
    first, rest := WordSearch(t, len, lo, Longest(len), sym);
  }

  lemma WordSearch(t: Tables, len: seq<byte>, lo: nat, hi: nat, sym: nat) returns (first: bits, rest: bits)
    requires TablesFor(t, len, lo, hi) && CodeSet(len, lo, hi) && sym < |len|
    ensures Word(len, lo, sym) == first + rest && |first| == lo && Search(t, lo, Value(first), rest) == Found(sym, [])
  {
    var w := Word(len, lo, sym);
    first, rest := w[..lo], w[lo..];
    SearchFinds(t, len, lo, hi, sym, lo, []);
    assert rest + [] == rest;
  }

  lemma SymIs(p: Spot, sym: nat, end: Ctl)
    requires GoodSpot(p) && sym < AlphaSize(p.k.c.inUse) && end == OnSym(p.k, p.d, p.groupNo, p.groupPos, sym)
    ensures SymAt(p, sym, end)
  {
  }

  /** A whole word. */
  lemma ReadsWordOf(p: Spot, len: seq<byte>, sym: nat, end: Ctl)
    requires GoodSpot(p) && len == CurrentTable(p.k, p.groupNo) && sym < |len| && Fits(len, AlphaSize(p.k.c.inUse))
    requires end == OnSym(p.k, p.d, p.groupNo, p.groupPos, sym)
    ensures Reads(Mtf1(p.k, p.d, p.groupNo, p.groupPos), Word(len, Shortest(len), sym), end)
  {
    var lo := Shortest(len);
    SymIs(p, sym, end);
    var t, first, rest := SymbolFound(p, len, sym, lo);
    var c := WordStart(p, first, lo);
    ReadsSplit(p, lo, Value(first), first, rest, sym, t, Mtf1(p.k, p.d, p.groupNo, p.groupPos), c, end);
  }

  lemma ReadsSplit(p: Spot, lo: nat, zvec: nat, first: bits, rest: bits, sym: nat, t: Tables, m: Ctl, c: Ctl, end: Ctl)
    requires TableAt(p, t) && CodeAt(p, lo, zvec, c) && SymAt(p, sym, end)
    requires Reads(m, first, c) && Search(t, lo, zvec, rest) == Found(sym, [])
    ensures Reads(m, first + rest, end)
  {
    ReadsRest(p, lo, zvec, rest, sym, t, c, end);
    ReadsThen(m, first, c, rest, end);
  }

  /** All tables fit, and the symbols end with the one that ends the block. */
  ghost predicate Sendable(k: Codes, syms: seq<int>) {
    && GoodCodes(k) && Coded(k.lens, k.c.sels, syms) && syms != []
    && (forall t :: 0 <= t < |k.lens| ==> Fits(k.lens[t], AlphaSize(k.c.inUse)))
    && (forall i :: 0 <= i < |syms| ==> 0 <= syms[i] < AlphaSize(k.c.inUse))
    && (forall i :: 0 <= i < |syms| - 1 ==> syms[i] != Letters(k.c).eob)
  }

  /** Symbol i is in group g, with q more to come in that group. */
  ghost predicate InGroup(i: nat, g: nat, q: nat) { q < GROUP_SIZE && i + q + 1 == GROUP_SIZE * (g + 1) }

  lemma GroupNumber(i: nat, g: nat, q: nat)
    requires InGroup(i, g, q)
    ensures i / GROUP_SIZE == g
  {
  }

  /** Decoding the symbols s from d on gives the column. */
  ghost predicate FeedsTo(k: Codes, d: Decoder, s: seq<int>, col: seq<byte>) {
    forall i {:trigger Seal(i)} :: Seal(i) ==> GoodCoding(k.c) && GivesColumn(Letters(k.c), d, s, col)
  }

  ghost predicate GivesColumn(a: Alphabet, d: Decoder, s: seq<int>, col: seq<byte>) {
    Sound(a, d) && Syms(a, s) && Feed(a, d, s) == Done(col)
  }

  lemma FeedCases(a: Alphabet, d: Decoder, syms: seq<int>, i: nat, j: nat, col: seq<byte>)
    requires i < |syms| && j == i + 1 && GivesColumn(a, d, syms[i..], col) && (j < |syms| ==> syms[i] != a.eob)
    ensures var r := OnSymbol(a, d, syms[i]);
      if j == |syms| then r == Done(col) else r.More? && GivesColumn(a, r.d, syms[j..], col)
  {
    assert syms[i..][0] == syms[i] && syms[i..][1..] == syms[j..];
    var r := OnSymbol(a, d, syms[i]);
    if r.More? { assert Feed(a, d, syms[i..]) == Feed(a, r.d, syms[j..]); }
    if j == |syms| { assert syms[j..] == []; }
  }

  /** After a symbol there is a place for the next one, or the block is complete. */
  lemma AfterSymbol(k: Codes, d: Decoder, syms: seq<int>, i: nat, j: nat, g: nat, q: nat, col: seq<byte>)
    returns (next: Ctl, d': Decoder, g': nat, q': nat)
    requires Sendable(k, syms) && i < |syms| && GoodSpot(Spot(k, d, g, q)) && j == i + 1 && InGroup(i, g, q)
    requires GivesColumn(Letters(k.c), d, syms[i..], col) && k.c.h.orig < |col|
    ensures next == OnSym(k, d, g, q, syms[i])
    ensures j == |syms| ==> next == Output(k.c.h, col)
    ensures j < |syms| ==>
      && next == Mtf1(k, d', g', q') && InGroup(j, g', q')
      && GoodSpot(Spot(k, d', g', q')) && GivesColumn(Letters(k.c), d', syms[j..], col)
  {
    var r := OnSymbol(Letters(k.c), d, syms[i]);
    next, d', g', q' := OnSym(k, d, g, q, syms[i]), d, g, q;
    FeedCases(Letters(k.c), d, syms, i, j, col);
    if r.More? {
      d' := r.d;
      if q == 0 { g', q' := g + 1, GROUP_SIZE - 1; } else { q' := q - 1; }
    }
  }

  /** The word of symbol i. */
  ghost function WordAt(k: Codes, syms: seq<int>, i: nat, g: nat): bits
    requires GoodCodes(k) && Coded(k.lens, k.c.sels, syms) && i < |syms| && g < |k.c.sels|
  {
    var len := k.lens[k.c.sels[g]];
    Word(len, Shortest(len), syms[i])
  }

  lemma ReadsSymbol(k: Codes, d: Decoder, syms: seq<int>, i: nat, g: nat, q: nat, end: Ctl)
    requires Sendable(k, syms) && i < |syms| && GoodSpot(Spot(k, d, g, q)) && end == OnSym(k, d, g, q, syms[i])
    ensures Reads(Mtf1(k, d, g, q), WordAt(k, syms, i, g), end)
  {
    var len := k.lens[k.c.sels[g]];
    assert len == CurrentTable(k, g);
    ReadsWordOf(Spot(k, d, g, q), len, syms[i], end);
  }

  /** Reading symbol i. */
  lemma SymbolStep(k: Codes, d: Decoder, syms: seq<int>, i: nat, j: nat, g: nat, q: nat, col: seq<byte>)
    returns (next: Ctl, d': Decoder, g': nat, q': nat)
    requires Sendable(k, syms) && i < |syms| && GoodSpot(Spot(k, d, g, q)) && j == i + 1 && InGroup(i, g, q)
    requires FeedsTo(k, d, syms[i..], col) && k.c.h.orig < |col|
    ensures Reads(Mtf1(k, d, g, q), WordAt(k, syms, i, g), next)
    ensures j == |syms| ==> next == Output(k.c.h, col)
    ensures j < |syms| ==>
      && next == Mtf1(k, d', g', q') && InGroup(j, g', q')
      && GoodSpot(Spot(k, d', g', q')) && FeedsTo(k, d', syms[j..], col)
  {
    assert Seal(0);
    next, d', g', q' := AfterSymbol(k, d, syms, i, j, g, q, col);
    ReadsSymbol(k, d, syms, i, g, q, next);
  }

  /** The symbols from the i-th on, to the end of the block. */
  lemma {:induction false} ReadsSymbols(k: Codes, d: Decoder, syms: seq<int>, i: nat, g: nat, q: nat, col: seq<byte>)
    requires Sendable(k, syms) && i < |syms| && GoodSpot(Spot(k, d, g, q)) && InGroup(i, g, q)
    requires FeedsTo(k, d, syms[i..], col) && k.c.h.orig < |col|
    ensures Reads(Mtf1(k, d, g, q), SymbolBits(k.lens, k.c.sels, syms, i), Output(k.c.h, col))
    decreases |syms| - i
  {
    var j := i + 1;
    GroupNumber(i, g, q);
    var w, rest := WordAt(k, syms, i, g), SymbolBits(k.lens, k.c.sels, syms, j);
    assert SymbolBits(k.lens, k.c.sels, syms, i) == w + rest;
    var next, d', g', q' := SymbolStep(k, d, syms, i, j, g, q, col);
    if j < |syms| {
      ReadsSymbols(k, d', syms, j, g', q', col);
      ReadsThen(Mtf1(k, d, g, q), w, next, rest, Output(k.c.h, col));
    } else {
      assert w + rest == w;
    }
  }

  /** From the tables on, a block's symbols take the machine to its last column. */
  lemma ReadsBlock(k: Codes, syms: seq<int>, col: seq<byte>)
    requires Sendable(k, syms) && |k.c.sels| < 0x8000 && k.c.h.crc < WORD && !k.c.h.randomised && k.c.h.orig < |col|
    requires k.c.h.orig <= 10 + 100_000 * k.c.h.level
    requires GivesColumn(Letters(k.c), Start(), syms, col)
    ensures Reads(BlockHdr(k.c.h.level, 1), BlockBits(k, syms), Output(k.c.h, col))
  {
    var h, m1 := k.c.h, Mapping1(k.c.h, []);
    ReadsHeader(h);
    ReadsBody(k, syms, col);
    ReadsThen(BlockHdr(h.level, 1), HeaderBits(h), m1, BodyBits(k, syms), Output(h, col));
    FourBits(BlockMagic(), WordBits(h.crc), [false], Spell(h.orig, 24), BodyBits(k, syms));
  }

  lemma FourBits(a: bits, b: bits, c: bits, d: bits, e: bits)
    ensures a + b + c + d + e == a + (b + (c + (d + e)))
  {
  }

  ghost function HeaderBits(h: Hdr): bits { BlockMagic() + WordBits(h.crc) + [false] + Spell(h.orig, 24) }

  lemma ReadsHeader(h: Hdr)
    requires GoodHdr(h) && h.crc < WORD && !h.randomised && h.orig <= 10 + 100_000 * h.level
    ensures Reads(BlockHdr(h.level, 1), HeaderBits(h), Mapping1(h, []))
  {
    var c0, c1, c2, c3, c4 := BlockHdr(h.level, 1), BlockCrc(h.level, 1, 0), RandBit(h.level, h.crc),
      OrigPtr(h.(orig := 0), 1), Mapping1(h, []);
    ReadsBlockMagic(h.level);
    ReadsWord(h.level, h.crc);
    ReadsFlag(c2, false, c3);
    ReadsOrigPtr(h.(orig := 0), h.orig);
    ReadsThen(c0, BlockMagic(), c1, WordBits(h.crc), c2);
    ReadsThen(c0, BlockMagic() + WordBits(h.crc), c2, [false], c3);
    ReadsThen(c0, BlockMagic() + WordBits(h.crc) + [false], c3, Spell(h.orig, 24), c4);
  }

  lemma ReadsFourParts(c0: Ctl, m: bits, c1: Ctl, s: bits, c2: Ctl, t: bits, c3: Ctl, y: bits, c4: Ctl)
    requires Reads(c0, m, c1) && Reads(c1, s, c2) && Reads(c2, t, c3) && Reads(c3, y, c4)
    ensures Reads(c0, m + (s + (t + y)), c4)
  {
    ReadsThen(c2, t, c3, y, c4);
    ReadsThen(c1, s, c2, t + y, c4);
    ReadsThen(c0, m, c1, s + (t + y), c4);
  }

  lemma FirstSymbol(k: Codes, syms: seq<int>, col: seq<byte>)
    requires Sendable(k, syms) && GivesColumn(Letters(k.c), Start(), syms, col)
    ensures OnTables(k.c, k.lens) == Mtf1(k, Start(), 0, GROUP_SIZE - 1)
    ensures GoodSpot(Spot(k, Start(), 0, GROUP_SIZE - 1))
    ensures FeedsTo(k, Start(), syms[0..], col)
  {
    assert syms[0..] == syms;
  }

  lemma ReadsBody(k: Codes, syms: seq<int>, col: seq<byte>)
    requires Sendable(k, syms) && |k.c.sels| < 0x8000 && k.c.h.orig < |col|
    requires GivesColumn(Letters(k.c), Start(), syms, col)
    ensures Reads(Mapping1(k.c.h, []), BodyBits(k, syms), Output(k.c.h, col))
  {
    var c := k.c;
    ReadsMap(c.h, c.inUse);
    ReadsSelectors(c);
    ReadsTables(c, [], k.lens, k.lens);
    FirstSymbol(k, syms, col);
    ReadsSymbols(k, Start(), syms, 0, 0, GROUP_SIZE - 1, col);
    ReadsFourParts(Mapping1(c.h, []), MapBits(c.inUse), Selector1(c.h, c.inUse), SelectorBits(c.nGroups, c.sels),
      Coding1(c, []), TablesBits(k.lens), OnTables(c, k.lens), SymbolBits(k.lens, c.sels, syms, 0), Output(c.h, col));
  }
}
