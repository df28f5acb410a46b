/** A whole block: tables chosen, codes numbered, every field written. */
module SendBlock {
  import opened Common
  import opened Bits
  import opened BitIO
  import opened KraftSum
  import opened HuffmanCodes
  import opened CodeLengths
  import opened TableChoice
  import opened Mtf
  import opened Parser
  import opened BlockFormat
  import opened ReadingSymbols
  import opened Transmit

  method Extremes(len: seq<byte>) returns (minLen: nat, maxLen: nat)
    requires len != [] && LengthsIn(len, 1, LONGEST_CODE)
    ensures minLen == Shortest(len) && maxLen == Longest(len)
  {
    minLen, maxLen := 32, 0;
    var i := 0;
    while i < |len|
      invariant 0 <= i <= |len| && (i == 0 ==> minLen == 32 && maxLen == 0)
      invariant (i > 0 ==> minLen == Shortest(len[..i]) && maxLen == Longest(len[..i]))
    {
      ExtremesSnoc(len, i, i + 1);
      if len[i] > maxLen { maxLen := len[i]; }
      if len[i] < minLen { minLen := len[i]; }
      i := i + 1;
    }
    assert len[..i] == len;
  }

  lemma ExtremesSnoc(len: seq<byte>, i: nat, next: nat)
    requires i < |len| && next == i + 1
    ensures i == 0 ==> Shortest(len[..next]) == len[i] == Longest(len[..next])
    ensures i > 0 ==>
      Shortest(len[..next]) == (if len[i] < Shortest(len[..i]) then len[i] as int else Shortest(len[..i]))
    ensures i > 0 ==> Longest(len[..next]) == (if len[i] > Longest(len[..i]) then len[i] as int else Longest(len[..i]))
  {
    assert len[..next][..i] == len[..i] && len[..next][i] == len[i];
  }

  /** Every table has its codes. */
  ghost predicate Ready(lens: seq<seq<byte>>, codes: seq<seq<int>>, alphaSize: nat) {
    && |codes| == |lens|
    && forall k {:trigger Seal(k)} :: Seal(k) ==> forall t :: 0 <= t < |lens| ==>
      Fits(lens[t], alphaSize) && CodesOf(codes[t], lens[t])
  }

  lemma ReadyAt(lens: seq<seq<byte>>, codes: seq<seq<int>>, alphaSize: nat, t: nat)
    requires Ready(lens, codes, alphaSize) && t < |lens|
    ensures Fits(lens[t], alphaSize) && CodesOf(codes[t], lens[t])
  {
    assert Seal(0);
  }

  ghost predicate CodesOf(code: seq<int>, len: seq<byte>) {
    len != [] && |code| == |len| && forall i :: 0 <= i < |len| ==> code[i] == Code(len, Shortest(len), i)
  }

  method NumberCodes(len: seq<byte>) returns (code: seq<int>)
    requires len != [] && LengthsIn(len, 1, LONGEST_CODE)
    ensures CodesOf(code, len)
  {
    var minLen, maxLen := Extremes(len);
    var c := new int[|len|](_ => 0);
    var l := new byte[|len|](i requires 0 <= i < |len| => len[i]);
    assert l[..] == len;
    AssignCodes(c, l, minLen, maxLen);
    code := c[..];
  }

  method NumberAll(lens: seq<seq<byte>>, ghost alphaSize: nat) returns (codes: seq<seq<int>>)
    requires forall t :: 0 <= t < |lens| ==> Fits(lens[t], alphaSize)
    ensures Ready(lens, codes, alphaSize)
  {
    codes := [];
    while |codes| < |lens|
      invariant |codes| <= |lens| && forall t :: 0 <= t < |codes| ==> CodesOf(codes[t], lens[t])
    {
      var code := NumberCodes(lens[|codes|]);
      codes := codes + [code];
    }
  }

  /** One symbol's word. */
  method PutWordOf(w: Writer, len: seq<byte>, code: seq<int>, sym: nat, ghost alphaSize: nat)
    requires w.Valid() && Fits(len, alphaSize) && CodesOf(code, len) && sym < alphaSize
    modifies w
    ensures w.Valid() && w.Written() == old(w.Written()) + Word(len, Shortest(len), sym)
  {
    assert CodeSet(len, Shortest(len), Longest(len));
    CodeFits(len, Shortest(len), Longest(len), sym);
    w.Put(len[sym], code[sym]);
  }

  /** The block data proper: groups of 50, each with the table its selector names. */
  method PutSymbols(w: Writer, lens: seq<seq<byte>>, codes: seq<seq<int>>, sels: seq<nat>, syms: seq<int>,
                    ghost alphaSize: nat)
    requires w.Valid() && Coded(lens, sels, syms) && Ready(lens, codes, alphaSize)
    modifies w
    ensures w.Valid() && w.Written() == old(w.Written()) + SymbolBits(lens, sels, syms, 0)
  {
    ghost var was, whole, done := w.Written(), SymbolBits(lens, sels, syms, 0), [];
    var gs, selCtr := 0, 0;
    while gs < |syms|
      invariant 0 <= gs <= |syms| && (gs < |syms| ==> gs == GROUP_SIZE * selCtr) && 0 <= selCtr
      invariant w.Valid() && w.Written() == was + done && whole == done + SymbolBits(lens, sels, syms, gs)
    {
      var ge := gs + GROUP_SIZE - 1;
      if ge >= |syms| { ge := |syms| - 1; }
      var next := ge + 1;
      done := PutGroup(w, lens, codes, sels, syms, gs, ge, next, selCtr, alphaSize, was, done, whole);
      gs, selCtr := next, selCtr + 1;
    }
    assert done + [] == done;
  }

  method PutGroup(w: Writer, lens: seq<seq<byte>>, codes: seq<seq<int>>, sels: seq<nat>, syms: seq<int>, gs: nat,
                  ge: nat, ghost next: nat, selCtr: nat, ghost alphaSize: nat, ghost was: bits, ghost done0: bits,
                  ghost whole: bits) returns (ghost done: bits)
    requires w.Valid() && Coded(lens, sels, syms) && Ready(lens, codes, alphaSize)
    requires gs <= ge < |syms| && gs == GROUP_SIZE * selCtr && ge < gs + GROUP_SIZE && next == ge + 1
    requires w.Written() == was + done0 && whole == done0 + SymbolBits(lens, sels, syms, gs)
    modifies w
    ensures w.Valid() && w.Written() == was + done && whole == done + SymbolBits(lens, sels, syms, next)
  {
    done := done0;
    var i := gs;
    while i <= ge
      invariant gs <= i <= ge + 1 && w.Valid() && w.Written() == was + done
      invariant whole == done + SymbolBits(lens, sels, syms, i)
    {
      assert i / GROUP_SIZE == selCtr;
      var len, code := lens[sels[selCtr]], codes[sels[selCtr]];
      ReadyAt(lens, codes, alphaSize, sels[selCtr]);
      ghost var word, j := Word(len, Shortest(len), syms[i]), i + 1;
      assert SymbolBits(lens, sels, syms, i) == word + SymbolBits(lens, sels, syms, j);
      PutWordOf(w, len, code, syms[i], alphaSize);
      Grow(was, done, word, SymbolBits(lens, sels, syms, j), whole);
      done := done + word;
      i := i + 1;
    }
  }

  // ---- The block as a whole ----

  /** Complete lengths fit. */
  lemma CompleteFits(len: seq<byte>, alphaSize: nat)
    requires |len| == alphaSize && 3 <= alphaSize <= 258 && CompleteLengths(len, MAX_LEN)
    ensures Fits(len, alphaSize)
  {
    KraftRescale(len, Longest(len), MAX_LEN);
  }

  method BytesOfAll(lens: seq<seq<int>>, ghost alphaSize: nat) returns (r: seq<seq<byte>>)
    requires 3 <= alphaSize <= 258
    requires forall t :: 0 <= t < |lens| ==> |lens[t]| == alphaSize && CompleteLengths(lens[t], MAX_LEN)
    ensures r == lens && forall t :: 0 <= t < |r| ==> Fits(r[t], alphaSize)
  {
    r := [];
    while |r| < |lens|
      invariant |r| <= |lens| && forall t :: 0 <= t < |r| ==> r[t] == lens[t] && Fits(r[t], alphaSize)
    {
      var len := AsBytes(lens[|r|]);
      CompleteFits(len, alphaSize);
      r := r + [len];
    }
  }

  /** The symbols of a block: the last one, and no other, ends it. */
  ghost predicate BlockSymbols(syms: seq<int>, eob: nat) {
    && 0 < |syms| <= LARGEST_BLOCK + 1 && (forall i :: 0 <= i < |syms| ==> 0 <= syms[i] <= eob)
    && forall i :: 0 <= i < |syms| - 1 ==> syms[i] != eob
  }

  /** One selector for each group of 50 symbols, the last of which may be short. */
  ghost predicate EnoughGroups(nSelectors: nat, nMTF: nat) {
    GROUP_SIZE * (nSelectors - 1) < nMTF <= GROUP_SIZE * nSelectors
  }

  lemma NowSendable(k: Codes, syms: seq<int>)
    requires GoodHdr(k.c.h) && GoodUse(k.c.inUse) && 2 <= k.c.nGroups == |k.lens| <= MAX_GROUPS
    requires BlockSymbols(syms, |Used(k.c.inUse, 256)| + 1) && Selected(k.c.sels, k.c.nGroups, |syms|, |syms|)
    requires forall t :: 0 <= t < |k.lens| ==> Fits(k.lens[t], AlphaSize(k.c.inUse))
    ensures Sendable(k, syms) && EnoughGroups(|k.c.sels|, |syms|) && |k.c.sels| <= MAX_SELECTORS
    ensures AllIn(k.c.sels, Tables0(k.c.nGroups))
  {
    SelectorsNamed(k.c.nGroups, k.c.sels);
  }

  /** sendMTFValues: the tables are chosen and the body of the block is written. */
  method SendMTFValues(w: Writer, inUse: seq<bool>, mtfv: seq<int>, mtfFreq: seq<nat>, nInUse: nat, ghost h: Hdr)
    returns (ghost k: Codes)
    requires w.Valid() && GoodHdr(h) && GoodUse(inUse) && nInUse == |Used(inUse, 256)|
    requires BlockSymbols(mtfv, nInUse + 1) && mtfFreq == Counts(mtfv, nInUse + 2)
    modifies w
    ensures w.Valid() && k.c.h == h && k.c.inUse == inUse && Sendable(k, mtfv)
    ensures EnoughGroups(|k.c.sels|, |mtfv|) && |k.c.sels| <= MAX_SELECTORS
    ensures Chosen(mtfv, nInUse + 2, k.c.nGroups, k.c.sels, k.lens)
    ensures w.Written() == old(w.Written()) + BodyBits(k, mtfv)
  {
    var alphaSize := nInUse + 2;
    ghost var was := w.Written();
    var nGroups, sels, ilens := ChooseTables(mtfv, mtfFreq, alphaSize);
    var lens := BytesOfAll(ilens, alphaSize);
    k := Codes(Coding(h, inUse, nGroups, sels), lens);
    NowSendable(k, mtfv);
    var codes := NumberAll(lens, alphaSize);
    PutMap(w, inUse);
    PutSelectors(w, nGroups, sels);
    PutTables(w, lens);
    PutSymbols(w, lens, codes, sels, mtfv, alphaSize);
    FiveParts(was, MapBits(inUse), SelectorBits(nGroups, sels), TablesBits(lens), SymbolBits(lens, sels, mtfv, 0));
  }

  lemma FiveParts(was: bits, a: bits, b: bits, c: bits, d: bits)
    ensures was + a + b + c + d == was + (a + (b + (c + d)))
  {
  }

  /** The part of compressBlock that writes a block: its header, CRC, origPtr and body. */
  method PutBlock(w: Writer, blockCRC: nat, origPtr: nat, inUse: seq<bool>, mtfv: seq<int>, mtfFreq: seq<nat>,
                  nInUse: nat, ghost level: nat)
    returns (ghost k: Codes)
    requires w.Valid() && 1 <= level <= 9 && blockCRC < WORD && origPtr < 0x100_0000
    requires GoodUse(inUse) && nInUse == |Used(inUse, 256)| && BlockSymbols(mtfv, nInUse + 1)
    requires mtfFreq == Counts(mtfv, nInUse + 2)
    modifies w
    ensures w.Valid() && k.c.h == Hdr(level, blockCRC, false, origPtr) && k.c.inUse == inUse && Sendable(k, mtfv)
    ensures EnoughGroups(|k.c.sels|, |mtfv|) && |k.c.sels| <= MAX_SELECTORS
    ensures Chosen(mtfv, nInUse + 2, k.c.nGroups, k.c.sels, k.lens)
    ensures w.Written() == old(w.Written()) + BlockBits(k, mtfv)
  {
    ghost var was, h := w.Written(), Hdr(level, blockCRC, false, origPtr);
    PutHeader(w, blockCRC, origPtr, h);
    k := SendMTFValues(w, inUse, mtfv, mtfFreq, nInUse, h);
    HeaderThen(was, h, BodyBits(k, mtfv));
  }

  lemma HeaderThen(was: bits, h: Hdr, body: bits)
    ensures was + HeaderBits(h) + body ==
      was + (BlockMagic() + (WordBits(h.crc) + ([false] + (Spell(h.orig, 24) + body))))
  {
    FourBits(BlockMagic(), WordBits(h.crc), [false], Spell(h.orig, 24), body);
    assert was + HeaderBits(h) + body == was + (HeaderBits(h) + body);
  }

  method PutHeader(w: Writer, blockCRC: nat, origPtr: nat, ghost h: Hdr)
    requires w.Valid() && blockCRC < WORD && origPtr < 0x100_0000 && h.crc == blockCRC && h.orig == origPtr
    modifies w
    ensures w.Valid() && w.Written() == old(w.Written()) + HeaderBits(h)
  {
    ghost var was := w.Written();
    Powers();
    PutMagic(w);
    w.PutWord(blockCRC);
    PutFlag(w, false);
    w.Put(24, origPtr);
    FourParts(was, BlockMagic(), WordBits(h.crc), [false], Spell(h.orig, 24));
  }

  method PutMagic(w: Writer)
    requires w.Valid()
    modifies w
    ensures w.Valid() && w.Written() == old(w.Written()) + BlockMagic()
  {
    ghost var was := w.Written();
    Powers();
    w.Put(8, 0x31);
    w.Put(8, 0x41);
    w.Put(8, 0x59);
    w.Put(8, 0x26);
    w.Put(8, 0x53);
    w.Put(8, 0x59);
    SixParts(was, Spell(0x31, 8), Spell(0x41, 8), Spell(0x59, 8), Spell(0x26, 8), Spell(0x53, 8), Spell(0x59, 8));
  }
}
