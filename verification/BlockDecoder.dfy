/**
 * BZ2_decompress over its own data: the bit buffer, the tables for each group, the
 * sliding list and the column in tt. However the caller divides the input, a call
 * takes the steps of `Parser` that the bits at hand allow, and no more.
 */
module BlockDecoder {
  import opened Common
  import opened Counting
  import opened Bits
  import opened BitIO
  import opened HuffmanCodes
  import opened Mtf
  import opened MtfDecoder
  import opened Parser

  // ---- The tables of one group ----

  ghost predicate TableReady(t: Tables, minLen: nat, len: seq<byte>) {
    len != [] && minLen == Parser.Shortest(len) && TablesFor(t, len, Parser.Shortest(len), Longest(len))
  }

  /** The least and the greatest length. */
  method MinMax(len: seq<byte>) returns (minLen: nat, maxLen: nat)
    requires len != [] && forall i :: 0 <= i < |len| ==> 1 <= len[i] <= LONGEST_CODE
    ensures minLen == Parser.Shortest(len) && maxLen == Longest(len)
  {
    minLen, maxLen := 32, 0;
    var i := 0;
    while i < |len|
      invariant 0 <= i <= |len| && forall k :: 0 <= k < i ==> minLen <= len[k] <= maxLen
      invariant if i == 0 then minLen == 32 && maxLen == 0 else minLen in len && maxLen in len
    {
      if len[i] > maxLen { maxLen := len[i]; }
      if len[i] < minLen { minLen := len[i]; }
      i := i + 1;
    }
  }

  method MakeTable(len: seq<byte>, ghost alphaSize: nat) returns (t: Tables, minLen: nat)
    requires Table(len, alphaSize)
    ensures TableReady(t, minLen, len)
  {
    var maxLen;
    minLen, maxLen := MinMax(len);
    var limit, base, perm := new int[MAX_CODE_LEN], new int[MAX_CODE_LEN], new int[MAX_ALPHA_SIZE];
    var length := new byte[|len|](i requires 0 <= i < |len| => len[i]);
    assert length[..] == len;
    CreateDecodeTables(limit, base, perm, length, minLen, maxLen);
    t := Tables(limit[..], base[..], perm[..]);
  }

  /** Any tables for the lengths answer a search alike. */
  lemma SameTest(t: Tables, len: seq<byte>, alphaSize: nat, zn: nat)
    requires Table(len, alphaSize) && TablesFor(t, len, Parser.Shortest(len), Longest(len))
    requires Parser.Shortest(len) <= zn <= LONGEST_CODE
    ensures t.limit[zn] == TableOf(len).limit[zn] && t.base[zn] == TableOf(len).base[zn]
  {
    var lo, hi := Parser.Shortest(len), Longest(len);
    TableOfFor(len, alphaSize);
    LimitAt(t, len, lo, hi, zn);
    LimitAt(TableOf(len), len, lo, hi, zn);
    BaseAt(t, len, lo, hi, zn);
    BaseAt(TableOf(len), len, lo, hi, zn);
  }

  lemma SameSymbol(t: Tables, len: seq<byte>, alphaSize: nat, zn: nat, zvec: int)
    requires Table(len, alphaSize) && TablesFor(t, len, Parser.Shortest(len), Longest(len))
    requires Parser.Shortest(len) <= zn <= LONGEST_CODE
    requires zvec <= t.limit[zn] && 0 <= zvec - t.base[zn] < MAX_ALPHA_SIZE
    ensures 0 <= t.perm[zvec - t.base[zn]] < alphaSize
    ensures t.perm[zvec - t.base[zn]] == TableOf(len).perm[zvec - t.base[zn]]
  {
    var lo, hi, p := Parser.Shortest(len), Longest(len), zvec - t.base[zn];
    PlaceInRange(t, len, lo, hi, zn, zvec);
    TableOfFor(len, alphaSize);
    PermAt(t, len, lo, hi, Row(len, p));
    PermAt(TableOf(len), len, lo, hi, Row(len, p));
  }

  /** The tables of the group at hand. */
  ghost predicate TableFor(k: Codes, groupNo: nat, t: Tables) {
    && GoodCodes(k) && groupNo < |k.c.sels|
    && var len := CurrentTable(k, groupNo); TablesFor(t, len, Parser.Shortest(len), Longest(len))
  }

  /** GET_MTF_VAL's test, on any tables for the lengths: a longer code, or none. */
  lemma OnLonger(k: Codes, d: Decoder, groupNo: nat, groupPos: nat, zn: nat, zvec: nat, t: Tables)
    requires TableFor(k, groupNo, t) && Sound(Letters(k.c), d) && Parser.Shortest(CurrentTable(k, groupNo)) <= zn
    requires zn <= LONGEST_CODE ==> zvec > t.limit[zn]
    ensures OnCode(k, d, groupNo, groupPos, zn, zvec) == if zn > LONGEST_CODE then BadData
      else Mtf2(k, d, groupNo, groupPos, zn + 1, zvec)
  {
    if zn <= LONGEST_CODE { SameTest(t, CurrentTable(k, groupNo), AlphaSize(k.c.inUse), zn); }
  }

  /** A code within the limit of its length. */
  lemma OnHit(k: Codes, d: Decoder, groupNo: nat, groupPos: nat, zn: nat, zvec: nat, t: Tables, at: int)
    requires TableFor(k, groupNo, t) && Sound(Letters(k.c), d)
    requires Parser.Shortest(CurrentTable(k, groupNo)) <= zn <= LONGEST_CODE
    requires zvec <= t.limit[zn] && at == zvec - t.base[zn]
    ensures 0 <= at < MAX_ALPHA_SIZE ==> 0 <= t.perm[at] < AlphaSize(k.c.inUse)
    ensures OnCode(k, d, groupNo, groupPos, zn, zvec) ==
      if 0 <= at < MAX_ALPHA_SIZE then OnSym(k, d, groupNo, groupPos, t.perm[at]) else BadData
  {
    var len := CurrentTable(k, groupNo);
    SameTest(t, len, AlphaSize(k.c.inUse), zn);
    if 0 <= at < MAX_ALPHA_SIZE { SameSymbol(t, len, AlphaSize(k.c.inUse), zn, zvec); }
  }

  // ---- What a place outside the symbols leads to ----

  ghost predicate Head(c: Ctl) { Good(c) && Waiting(c) && !InSymbols(c) }

  lemma FromHeader(c: Ctl, v: nat)
    requires Good(c) && InHeader(c)
    ensures var r := DeliverHeader(c, v); !InSymbols(r) && !r.Output?
  {
  }

  lemma FromCoding(c: Ctl, v: nat)
    requires Head(c) && !InHeader(c)
    ensures var r := DeliverCoding(c, v); !r.Mtf2? && !r.Output? && (r.Mtf1? ==> r.d == Start())
  {
  }

  lemma FromHead(c: Ctl, v: nat)
    requires Head(c)
    ensures var r := Parser.Deliver(c, v); !r.Mtf2? && !r.Output? && (r.Mtf1? ==> r.d == Start())
  {
    if InHeader(c) { FromHeader(c, v); } else { FromCoding(c, v); }
  }

  /** The next place does not depend on what has been decoded. */
  lemma SameNext(k: Codes, d: Decoder, d': Decoder, groupNo: int, groupPos: nat)
    requires GoodCodes(k) && Sound(Letters(k.c), d) && Sound(Letters(k.c), d') && -1 <= groupNo < |k.c.sels|
    requires (groupNo < 0 ==> groupPos == 0)
    ensures var r, r' := NextSym(k, d, groupNo, groupPos), NextSym(k, d', groupNo, groupPos);
      (r.BadData? && r' == r) || (r.Mtf1? && r.d == d && r.codes == k && r' == Mtf1(k, d', r.groupNo, r.groupPos))
  {
  }

  /** The place after a symbol of the given outcome. */
  ghost function Onward(k: Codes, groupNo: nat, groupPos: nat, r: Outcome): Ctl
    requires GoodCodes(k) && groupNo < |k.c.sels| && (r.More? ==> Sound(Letters(k.c), r.d))
  {
    match r
    case DataError => BadData
    case More(d) => NextSym(k, d, groupNo, groupPos)
    case Done(out) => if k.c.h.orig >= |out| then BadData else Output(k.c.h, out)
  }

  lemma SymbolBits(c: Ctl, v: nat, zn: nat, zvec: nat)
    requires Good(c) && InSymbols(c)
    requires zn == (if c.Mtf1? then Parser.Shortest(CurrentTable(c.codes, c.groupNo)) else c.zn)
    requires zvec == if c.Mtf1? then v else 2 * c.zvec + v
    ensures GoodCodes(c.codes) && Sound(Letters(c.codes.c), c.d) && c.groupNo < |c.codes.c.sels|
    ensures Parser.Shortest(CurrentTable(c.codes, c.groupNo)) <= zn <= LONGEST_CODE + 1
    ensures DeliverSymbol(c, v) == OnCode(c.codes, c.d, c.groupNo, c.groupPos, zn, zvec)
  {
  }

  class DState {
    const reader: Reader
    const br: BlockReader
    /** The place, and what is saved there. While symbols are read, the list and the column are in br. */
    var place: Ctl
    var tables: seq<Tables>
    var minLens: seq<nat>

    ghost predicate AllTables(lens: seq<seq<byte>>)
      reads this
    {
      |tables| == |minLens| == |lens| && forall t :: 0 <= t < |lens| ==> TableReady(tables[t], minLens[t], lens[t])
    }

    /** br is set for the symbols of a block. */
    ghost predicate SymbolsSet(k: Codes)
      reads this, br, br.Parts()
    {
      var holds := GoodCodes(k) && AllTables(k.lens) && Fits(k);
      holds
    }

    /** The map, the bounds and the list are those of the block. */
    ghost predicate Fits(k: Codes)
      requires GoodCodes(k)
      reads this, br, br.Parts()
    {
      var n := |Used(k.c.inUse, 256)|;
      && br.Valid() && br.eob == n + 1 && br.nblockMAX == 100_000 * k.c.h.level
      && br.seqToUnseq[..n] == Used(k.c.inUse, 256) && Closed(br.cache.List(), n)
    }

    ghost predicate Set()
      reads this, br, br.Parts()
    {
      && (InSymbols(place) ==> SymbolsSet(place.codes) && place.d == Start())
      && (place.Output? ==> br.Valid())
    }

    /** The place as `Parser` sees it. */
    ghost function Where(): Ctl
      requires Set()
      reads this, br, br.Parts()
    {
      if place.Mtf1? then Mtf1(place.codes, br.State(), place.groupNo, place.groupPos)
      else if place.Mtf2? then Mtf2(place.codes, br.State(), place.groupNo, place.groupPos, place.zn, place.zvec)
      else if place.Output? then Output(place.h, br.Out())
      else place
    }

    ghost predicate Valid()
      reads this, reader, br, br.Parts()
    {
      var holds := Sound0() && Set() && Good(Where());
      holds
    }

    constructor (tt: array<int>)
      requires tt.Length == LARGEST_BLOCK
      ensures Valid() && Where() == Magic(1) && reader.Unread() == [] && br.tt == tt
      ensures fresh(reader) && fresh(br.Parts() - {tt})
    {
      reader := new Reader();
      br := new BlockReader(tt);
      place, tables, minLens := Magic(1), [], [];
    }

    /** The bits that the place asks for. */
    method NeedNow() returns (n: nat)
      requires Valid() && Waiting(place)
      ensures n == Need(Where())
    {
      n :=
        if place.Mtf1? then minLens[place.codes.c.sels[place.groupNo]]
        else if place.Selector1? then 3
        else if place.Selector2? then 15
        else if place.Coding1? then 5
        else if place.Magic? || place.BlockHdr? || place.BlockCrc? || place.OrigPtr? || place.EndHdr?
          || place.StreamCrc? then 8
        else 1;
    }

    /** The tables, the map and the list for a block's symbols. */
    method BeginSymbols(k: Codes)
      requires br.Shape() && br.tt.Length == LARGEST_BLOCK && GoodCodes(k)
      modifies this`tables, this`minLens, br.Parts()
      ensures br.Shape() && SymbolsSet(k) && br.State() == Start()
    {
      var nInUse := MakeMapsD(k.c.inUse, br.seqToUnseq);
      ghost var un := br.seqToUnseq[..];
      tables, minLens := [], [];
      var t := 0;
      while t < |k.lens|
        invariant br.Shape() && br.seqToUnseq[..] == un && 0 <= t == |tables| == |minLens| <= |k.lens|
        invariant forall i :: 0 <= i < t ==> TableReady(tables[i], minLens[i], k.lens[i])
      {
        var table, minLen := MakeTable(k.lens[t], AlphaSize(k.c.inUse));
        tables, minLens := tables + [table], minLens + [minLen];
        t := t + 1;
      }
      br.Begin(nInUse + 1, 100_000 * k.c.h.level);
      assert br.seqToUnseq[..] == un;
    }

    /** The next place, and at the end of the tables all that the symbols need. */
    method Settle(next: Ctl)
      requires Sound0() && Good(next) && !next.Mtf2? && !next.Output? && (next.Mtf1? ==> next.d == Start())
      modifies this`place, this`tables, this`minLens, br.Parts()
      ensures Valid() && Where() == next
    {
      place := next;
      if next.Mtf1? { BeginSymbols(next.codes); }
    }

    /** The code after bits of a place outside the symbols. */
    method OnHead(v: nat)
      requires Valid() && Waiting(place) && !InSymbols(place)
      modifies this`place, this`tables, this`minLens, br.Parts()
      ensures Valid() && Where() == Parser.Deliver(old(Where()), v)
    {
      FromHead(place, v);
      var next := if InHeader(place) then DeliverHeader(place, v) else DeliverCoding(place, v);
      Settle(next);
    }

    /** What does not depend on the place. */
    ghost predicate Sound0()
      reads this, reader, br, br.Parts()
    {
      reader.Valid() && br.Shape() && br.tt.Length == LARGEST_BLOCK
    }

    method Fail()
      requires Sound0()
      modifies this`place
      ensures Valid() && Where() == BadData
    {
      place := BadData;
    }

    /** On to the next symbol. */
    method GoOn(k: Codes, groupNo: nat, groupPos: nat)
      requires Sound0() && SymbolsSet(k) && groupNo < |k.c.sels| && Sound(Letters(k.c), Start())
      requires Sound(Letters(k.c), br.State())
      modifies this`place
      ensures Valid() && Where() == NextSym(k, br.State(), groupNo, groupPos)
    {
      SameNext(k, Start(), br.State(), groupNo, groupPos);
      place := NextSym(k, Start(), groupNo, groupPos);
    }

    method EndBlock(h: Hdr)
      requires Sound0() && br.Valid() && GoodHdr(h)
      modifies this`place
      ensures Valid() && Where() == if h.orig >= |br.Out()| then BadData else Output(h, br.Out())
    {
      place := if h.orig >= br.nblock then BadData else Output(h, []);
    }

    /** br holds the outcome of a symbol. */
    ghost predicate Holds(status: Status, k: Codes, r: Outcome)
      reads this, br, br.Parts()
    {
      match r
      case DataError => status.Corrupt?
      case More(d) => status.Reading? && SymbolsSet(k) && br.State() == d
      case Done(out) => status.Finished? && br.Valid() && br.Out() == out
    }

    /** Symbols of group groupNo are being read. */
    ghost predicate AtSymbol(k: Codes, groupNo: nat)
      reads this, reader, br, br.Parts()
    {
      var holds := Sound0() && SymbolsSet(k) && groupNo < |k.c.sels| && Sound(Letters(k.c), br.State());
      holds
    }

    /** br after one symbol: an error, the end of the block, or the next state. */
    method Symbol(k: Codes, ghost groupNo: nat, sym: int) returns (status: Status)
      requires AtSymbol(k, groupNo) && 0 <= sym < AlphaSize(k.c.inUse)
      modifies br.Parts()
      ensures Sound0() && Holds(status, k, OnSymbol(Letters(k.c), old(br.State()), sym))
    {
      ghost var a := br.Letters();
      SameOutcome(a, Letters(k.c), br.State(), sym, br.eob - 1);
      status := br.OnSym(sym);
      if status.Reading? {
        assert br.Letters() == a;
        assert br.seqToUnseq[..] == a.unmap;
      }
    }

    method Proceed(status: Status, k: Codes, groupNo: nat, groupPos: nat, ghost r: Outcome)
      requires Sound0() && GoodCodes(k) && groupNo < |k.c.sels| && Holds(status, k, r)
      requires (r.More? ==> Sound(Letters(k.c), r.d))
      modifies this`place
      ensures Valid() && Where() == Onward(k, groupNo, groupPos, r)
    {
      match status
      case Corrupt => Fail();
      case Reading => GoOn(k, groupNo, groupPos);
      case Finished => EndBlock(k.c.h);
    }

    /** One symbol. */
    method TakeSymbol(k: Codes, groupNo: nat, groupPos: nat, sym: int)
      requires AtSymbol(k, groupNo) && 0 <= sym < AlphaSize(k.c.inUse)
      modifies this`place, br.Parts()
      ensures Valid() && Where() == OnSym(k, old(br.State()), groupNo, groupPos, sym)
    {
      ghost var r := OnSymbol(Letters(k.c), br.State(), sym);
      var status := Symbol(k, groupNo, sym);
      Proceed(status, k, groupNo, groupPos, r);
    }

    method Lengthen(k: Codes, groupNo: nat, groupPos: nat, zn: nat, zvec: nat)
      requires AtSymbol(k, groupNo) && Parser.Shortest(CurrentTable(k, groupNo)) <= zn <= LONGEST_CODE + 1
      modifies this`place
      ensures Valid() && Where() == Mtf2(k, br.State(), groupNo, groupPos, zn, zvec)
    {
      place := Mtf2(k, Start(), groupNo, groupPos, zn, zvec);
    }

    /** GET_MTF_VAL's test on a code of zn bits. */
    method Test(k: Codes, groupNo: nat, groupPos: nat, zn: nat, zvec: nat)
      requires AtSymbol(k, groupNo) && Parser.Shortest(CurrentTable(k, groupNo)) <= zn <= LONGEST_CODE + 1
      modifies this`place, br.Parts()
      ensures Valid() && Where() == OnCode(k, old(br.State()), groupNo, groupPos, zn, zvec)
    {
      var t := tables[k.c.sels[groupNo]];
      if zn > LONGEST_CODE || zvec > t.limit[zn] {
        OnLonger(k, br.State(), groupNo, groupPos, zn, zvec, t);
        if zn > LONGEST_CODE { Fail(); } else { Lengthen(k, groupNo, groupPos, zn + 1, zvec); }
      } else {
        Hit(k, groupNo, groupPos, zn, zvec, t);
      }
    }

    method Hit(k: Codes, groupNo: nat, groupPos: nat, zn: nat, zvec: nat, t: Tables)
      requires AtSymbol(k, groupNo) && TableFor(k, groupNo, t)
      requires Parser.Shortest(CurrentTable(k, groupNo)) <= zn <= LONGEST_CODE && zvec <= t.limit[zn]
      modifies this`place, br.Parts()
      ensures Valid() && Where() == OnCode(k, old(br.State()), groupNo, groupPos, zn, zvec)
    {
      var at := zvec - t.base[zn];
      OnHit(k, br.State(), groupNo, groupPos, zn, zvec, t, at);
      if at < 0 || at >= MAX_ALPHA_SIZE { Fail(); } else { TakeSymbol(k, groupNo, groupPos, t.perm[at]); }
    }

    /** The code after bits of a symbol. */
    method OnSymbolBits(v: nat)
      requires Valid() && InSymbols(place)
      modifies this`place, br.Parts()
      ensures Valid() && Where() == DeliverSymbol(old(Where()), v)
    {
      var k, groupNo, groupPos := place.codes, place.groupNo, place.groupPos;
      var zn, zvec := if place.Mtf1? then minLens[k.c.sels[groupNo]] else place.zn, if place.Mtf1? then v
        else 2 * place.zvec + v;
      SymbolBits(Where(), v, zn, zvec);
      Test(k, groupNo, groupPos, zn, zvec);
    }

    method OnBits(v: nat)
      requires Valid() && Waiting(place)
      modifies this`place, this`tables, this`minLens, br.Parts()
      ensures Valid() && Where() == Parser.Deliver(old(Where()), v)
    {
      if InSymbols(place) { OnSymbolBits(v); } else { OnHead(v); }
    }

    /** GET_BITS of as many bits as the place asks for. */
    method Fetch() returns (ok: bool, n: nat, v: nat)
      requires Valid() && Waiting(place)
      modifies reader
      ensures Valid() && Where() == old(Where()) && n == Need(Where())
      ensures ok == (n <= |old(reader.Unread())|)
      ensures ok ==> v == Value(old(reader.Unread())[..n]) && reader.Unread() == old(reader.Unread())[n..]
      ensures !ok ==> reader.Unread() == old(reader.Unread()) && reader.input == []
    {
      n := NeedNow();
      ok, v := reader.GetBits(n);
    }

    /** GET_BITS, and the code up to the next place; or a return for want of input. */
    method Step() returns (ok: bool)
      requires Valid() && Waiting(place)
      modifies this`place, this`tables, this`minLens, reader, br.Parts()
      ensures Valid() && Parse(Where(), reader.Unread()) == Parse(old(Where()), old(reader.Unread()))
      ensures if ok then |reader.Unread()| < |old(reader.Unread())| else Stuck()
    {
      ghost var c, s := Where(), reader.Unread();
      var n, v;
      ok, n, v := Fetch();
      if ok {
        OnBits(v);
        ParseOn(c, s, n, v, Where(), reader.Unread());
      } else {
        ParseStuck(c, s);
      }
    }

    /** All input has been taken in, and there are fewer bits than the place asks for. */
    ghost predicate Stuck()
      requires Valid()
      reads this, reader, br, br.Parts()
    {
      Parse(Where(), reader.Unread()) == Stop(Where(), reader.Unread()) && reader.input == []
    }

    /** BZ2_decompress has reported an error. */
    predicate Failed()
      reads this`place
    {
      place.BadMagic? || place.BadData?
    }

    /** One call of BZ2_decompress, unless it has reported an error before. */
    method Decompress()
      requires Valid() && !Failed()
      modifies this`place, this`tables, this`minLens, reader, br.Parts()
      ensures Valid() && Stop(Where(), reader.Unread()) == Parse(old(Where()), old(reader.Unread()))
      ensures Waiting(place) ==> reader.input == []
    {
      ghost var goal := Parse(Where(), reader.Unread());
      while Waiting(place)
        invariant Valid() && Parse(Where(), reader.Unread()) == goal
        decreases |reader.Unread()|
      {
        var ok := Step();
        if !ok { return; }
      }
      ParseStuck(Where(), reader.Unread());
    }
  }
}
