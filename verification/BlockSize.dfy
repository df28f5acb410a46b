/**
 * How long a compressed block can be: it fits into what its block leaves free of
 * the array that holds both.
 */
module BlockSize {
  import opened Common
  import opened Bits
  import opened BitIO
  import opened HuffmanCodes
  import opened Parser
  import opened BlockFormat
  import opened ReadingSymbols
  import opened SendBlock

  lemma {:induction false} GroupsSize(inUse: seq<bool>, i: nat)
    requires |inUse| == 256 && i <= 16
    ensures |GroupsFrom(inUse, i)| <= 16 * (16 - i)
    decreases 16 - i
  {
    if i < 16 { GroupsSize(inUse, i + 1); }
  }

  lemma {:induction false} UnarySize(mtf: seq<nat>, n: nat)
    requires forall i :: 0 <= i < |mtf| ==> mtf[i] < n
    ensures |UnaryAll(mtf)| <= n * |mtf|
  {
    if mtf != [] {
      UnarySize(mtf[1..], n);
      assert n * |mtf| == n * |mtf[1..]| + n;
    }
  }

  lemma {:induction false} StepsSize(curr: int, to: int)
    requires 1 <= curr <= LONGEST_CODE && 1 <= to <= LONGEST_CODE
    ensures |Steps(curr, to)| == 1 + 2 * (if curr < to then to - curr else curr - to)
    decreases if curr < to then to - curr else curr - to
  {
    if curr < to { StepsSize(curr + 1, to); }
    if curr > to { StepsSize(curr - 1, to); }
  }

  lemma {:induction false} LengthsSize(curr: int, len: seq<byte>)
    requires 1 <= curr <= LONGEST_CODE && LengthsIn(len, 1, LONGEST_CODE)
    ensures |LengthsFrom(curr, len)| <= 39 * |len|
    decreases |len|
  {
    if len != [] {
      StepsSize(curr, len[0]);
      LengthsSize(len[0], len[1..]);
    }
  }

  lemma {:induction false} TablesSize(lens: seq<seq<byte>>, alphaSize: nat)
    requires forall t :: 0 <= t < |lens| ==> lens[t] != [] && Table(lens[t], alphaSize)
    ensures |TablesBits(lens)| <= (5 + 39 * MAX_ALPHA_SIZE) * |lens|
  {
    if lens != [] {
      TablesSize(lens[1..], alphaSize);
      LengthsSize(lens[0][0], lens[0]);
    }
  }

  lemma {:induction false} SymbolsSize(lens: seq<seq<byte>>, sels: seq<nat>, syms: seq<int>, i: nat)
    requires Coded(lens, sels, syms) && i <= |syms|
    requires forall t :: 0 <= t < |lens| ==> LengthsIn(lens[t], 1, LONGEST_CODE)
    ensures |SymbolBits(lens, sels, syms, i)| <= LONGEST_CODE * (|syms| - i)
    decreases |syms| - i
  {
    if i < |syms| {
      SymbolsSize(lens, sels, syms, i + 1);
      OneSymbol(lens, sels, syms, i);
    }
  }

  lemma OneSymbol(lens: seq<seq<byte>>, sels: seq<nat>, syms: seq<int>, i: nat)
    requires Coded(lens, sels, syms) && i < |syms|
    requires forall t :: 0 <= t < |lens| ==> LengthsIn(lens[t], 1, LONGEST_CODE)
    ensures |SymbolBits(lens, sels, syms, i)| <= LONGEST_CODE + |SymbolBits(lens, sels, syms, i + 1)|
  {
    var t := sels[i / GROUP_SIZE];
    assert LengthsIn(lens[t], 1, LONGEST_CODE);
  }

  /** A bound on the bits of a block of n bytes. */
  function MostBits(n: nat): nat { 60_823 + 21 * n }

  lemma SelectorsSize(nGroups: nat, sels: seq<nat>, nMTF: nat)
    requires nGroups <= MAX_GROUPS && AllIn(sels, Tables0(nGroups)) && EnoughGroups(|sels|, nMTF)
    ensures |SelectorBits(nGroups, sels)| <= 18 + 5 + nMTF
  {
    UnarySize(DoMtf(Tables0(nGroups), sels), nGroups);
    MulMono(nGroups, MAX_GROUPS, |sels|);
  }

  lemma MapSize(inUse: seq<bool>)
    requires |inUse| == 256
    ensures |MapBits(inUse)| <= 272
  {
    GroupsSize(inUse, 0);
  }

  lemma PartsSize(k: Codes, syms: seq<int>)
    requires Sendable(k, syms) && EnoughGroups(|k.c.sels|, |syms|)
    ensures |BodyBits(k, syms)| <= 272 + (23 + |syms|) + (5 + 39 * MAX_ALPHA_SIZE) * |k.lens| + LONGEST_CODE * |syms|
  {
    MapSize(k.c.inUse);
    SelectorsNamed(k.c.nGroups, k.c.sels);
    SelectorsSize(k.c.nGroups, k.c.sels, |syms|);
    TablesSize(k.lens, AlphaSize(k.c.inUse));
    SymbolsSize(k.lens, k.c.sels, syms, 0);
    FourSizes(MapBits(k.c.inUse), SelectorBits(k.c.nGroups, k.c.sels), TablesBits(k.lens),
      SymbolBits(k.lens, k.c.sels, syms, 0));
  }

  lemma FourSizes(a: bits, b: bits, c: bits, d: bits)
    ensures |a + (b + (c + d))| == |a| + |b| + |c| + |d|
  {
  }

  lemma HeadSize(a: bits, b: bits, c: bits, body: bits)
    requires |a| == 48 && |b| == 32 && |c| == 24
    ensures |a + (b + ([false] + (c + body)))| == 105 + |body|
  {
  }

  lemma WholeSize(k: Codes, syms: seq<int>)
    requires Sendable(k, syms)
    ensures |BlockBits(k, syms)| == 105 + |BodyBits(k, syms)|
  {
    HeadSize(BlockMagic(), WordBits(k.c.h.crc), Spell(k.c.h.orig, 24), BodyBits(k, syms));
  }

  lemma BlockBitsBound(k: Codes, syms: seq<int>, n: nat)
    requires Sendable(k, syms) && EnoughGroups(|k.c.sels|, |syms|) && |syms| <= n + 1
    ensures |BlockBits(k, syms)| <= MostBits(n)
  {
    PartsSize(k, syms);
    WholeSize(k, syms);
    Total(|BlockBits(k, syms)|, |BodyBits(k, syms)|, |k.lens|, |syms|, n);
  }

  lemma Total(all: nat, body: nat, groups: nat, nMTF: nat, n: nat)
    requires all == 105 + body && body <= 272 + (23 + nMTF) + (5 + 39 * MAX_ALPHA_SIZE) * groups + LONGEST_CODE * nMTF
    requires groups <= MAX_GROUPS && nMTF <= n + 1
    ensures all <= MostBits(n)
  {
  }

  const OVERSHOOT := 34

  /** The bytes of arr2 behind a block of nblock bytes. */
  function Room(level: nat, nblock: nat): int { 4 * (100_000 * level + OVERSHOOT) - nblock }

  /** With up to 32 bits held over, the header of the stream, its trailer and padding, the block still fits. */
  lemma BlockFits(level: nat, nblock: nat, bytes: nat, nbits: nat)
    requires 1 <= level && nblock <= 100_000 * level && 8 * bytes <= nbits <= 32 + 32 + MostBits(nblock) + 80 + 7
    ensures bytes <= Room(level, nblock)
  {
  }
}
