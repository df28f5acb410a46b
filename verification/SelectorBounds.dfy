/**
 * The decompressor stores selectors in an array of MAX_SELECTORS entries, but takes
 * their number from 15 bits of the stream and checks only that it is not 0. Which
 * entries it writes, and so exactly when it stays within the array.
 */
module SelectorBounds {
  import opened Common
  import opened Bits
  import opened BlockFormat
  import opened Parser
  import opened Reading
  import opened ReadingTables
  import opened ReadingSymbols
  import opened Stream

  /** The machine from place c on, as long as it is reading selectors. */
  ghost function Selecting(c: Ctl, s: bits): (r: Ctl)
    requires Good(c)
    ensures Good(r)
    decreases |s|
  {
    if !c.Selector3? || s == [] then c else Selecting(Deliver(c, Bit(s[0])), s[1..])
  }

  /** After the bits s, a 0 makes the machine write entry i of selectorMtf. */
  ghost predicate Stores(c: Ctl, s: bits, i: nat)
    requires Good(c)
  {
    Selecting(c, s).Selector3? && |Selecting(c, s).selMtf| == i
  }

  ghost function Begin(h: Hdr, inUse: seq<bool>, nGroups: nat, nSelectors: nat): Ctl {
    Selector3(h, inUse, nGroups, nSelectors, [], 0)
  }

  /** The number of selectors is fixed while they are read. */
  lemma {:induction false} SameNumber(c: Ctl, s: bits)
    requires Good(c) && c.Selector3?
    ensures Selecting(c, s).Selector3? ==> Selecting(c, s).nSelectors == c.nSelectors
    decreases |s|
  {
    if s != [] {
      var next := Deliver(c, Bit(s[0]));
      if next.Selector3? { SameNumber(next, s[1..]); } else { assert Selecting(next, s[1..]) == next; }
    }
  }

  /** A stream of 0 bits fills entry after entry. */
  lemma {:induction false} ZerosStore(c: Ctl, k: nat)
    requires Good(c) && c.Selector3? && c.j == 0 && |c.selMtf| + k < c.nSelectors
    ensures Stores(c, Zeros(k), |c.selMtf| + k)
    decreases k
  {
    if k > 0 {
      var next := Deliver(c, 0);
      assert next == Selector3(c.h, c.inUse, c.nGroups, c.nSelectors, c.selMtf + [0], 0);
      assert Zeros(k)[1..] == Zeros(k - 1);
      ZerosStore(next, k - 1);
    }
  }

  /** Over all streams, the entries written are those below the number given. */
  lemma EntriesWritten(h: Hdr, inUse: seq<bool>, nGroups: nat, nSelectors: nat, i: nat)
    requires Good(Selector2(h, inUse, nGroups)) && nSelectors >= 1
    ensures (exists s :: Stores(Begin(h, inUse, nGroups, nSelectors), s, i)) <==> i < nSelectors
  {
    var c := Begin(h, inUse, nGroups, nSelectors);
    if i < nSelectors { ZerosStore(c, i); }
    forall s | Stores(c, s, i) ensures i < nSelectors { SameNumber(c, s); }
  }

  /** The writes stay within selectorMtf exactly if the stream gives no more than MAX_SELECTORS. */
  lemma SelectorsInBounds(h: Hdr, inUse: seq<bool>, nGroups: nat, nSelectors: nat)
    requires Good(Selector2(h, inUse, nGroups)) && nSelectors >= 1
    ensures (forall s, i: nat :: Stores(Begin(h, inUse, nGroups, nSelectors), s, i) ==> i < MAX_SELECTORS) <==>
      nSelectors <= MAX_SELECTORS
  {
    var c := Begin(h, inUse, nGroups, nSelectors);
    forall s, i: nat | Stores(c, s, i) ensures i < nSelectors { SameNumber(c, s); }
    if nSelectors > MAX_SELECTORS { ZerosStore(c, MAX_SELECTORS); }
  }

  // ---- A stream that fails ----

  /** A stream up to its selectors: one block, two tables, n selectors. */
  ghost function StreamWith(n: nat, h: Hdr, inUse: seq<bool>): bits
    requires |inUse| == 256
  {
    StreamHeader(h.level) + (HeaderBits(h) + (MapBits(inUse) + (Spell(2, 3) + Spell(n, 15))))
  }

  lemma ReadsNumberOf(n: nat, h: Hdr, inUse: seq<bool>)
    requires GoodHdr(h) && GoodUse(inUse) && 1 <= n < 0x8000
    requires h.crc < WORD && !h.randomised && h.orig <= 10 + 100_000 * h.level
    ensures Reads(Magic(1), StreamWith(n, h, inUse), Begin(h, inUse, 2, n))
  {
    ReadsStreamHeader(h.level);
    ReadsHeader(h);
    ReadsMap(h, inUse);
    ReadsNumbers(Coding(h, inUse, 2, [0]), n);
    ReadsFourParts(Magic(1), StreamHeader(h.level), BlockHdr(h.level, 1), HeaderBits(h), Mapping1(h, []),
      MapBits(inUse), Selector1(h, inUse), Spell(2, 3) + Spell(n, 15), Begin(h, inUse, 2, n));
  }

  /** A 0 for each entry: the machine has filled k of them and is about to fill the next. */
  lemma {:induction false} ReadsZeros(c: Ctl, k: nat) returns (end: Ctl)
    requires Good(c) && c.Selector3? && c.j == 0 && |c.selMtf| + k < c.nSelectors
    ensures Reads(c, Zeros(k), end) && end.Selector3? && |end.selMtf| == |c.selMtf| + k
    ensures end == Selector3(c.h, c.inUse, c.nGroups, c.nSelectors, end.selMtf, 0)
    decreases k
  {
    if k == 0 {
      ReadsNone(c);
      end := c;
    } else {
      var next := Selector3(c.h, c.inUse, c.nGroups, c.nSelectors, c.selMtf + [0], 0);
      ReadsFlag(c, false, next);
      end := ReadsZeros(next, k - 1);
      assert Zeros(k) == [false] + Zeros(k - 1);
      ReadsThen(c, [false], next, Zeros(k - 1), end);
    }
  }

  /** For any number n, the stream that takes the machine from its start to where a 0 writes entry i. */
  lemma WritesEntry(h: Hdr, inUse: seq<bool>, n: nat, i: nat) returns (filled: seq<nat>)
    requires GoodHdr(h) && GoodUse(inUse) && h.crc < WORD && !h.randomised && h.orig <= 10 + 100_000 * h.level
    requires i < n < 0x8000
    ensures |filled| == i
    ensures Reads(Magic(1), StreamWith(n, h, inUse) + Zeros(i), Selector3(h, inUse, 2, n, filled, 0))
  {
    var start := Begin(h, inUse, 2, n);
    ReadsNumberOf(n, h, inUse);
    var c := ReadsZeros(start, i);
    ReadsThen(Magic(1), StreamWith(n, h, inUse), start, Zeros(i), c);
    filled := c.selMtf;
  }

  /**
   * A stream that fails, given from its first bit: a block with 18003 selectors, all of them
   * the first table's. One more 0, and entry 18002 is written in an array of 18002.
   */
  lemma OneTooMany(h: Hdr, inUse: seq<bool>, n: nat, i: nat) returns (filled: seq<nat>)
    requires GoodHdr(h) && GoodUse(inUse) && h.crc < WORD && !h.randomised && h.orig <= 10 + 100_000 * h.level
    requires n == 18_003 && i == 18_002
    ensures |filled| == i == MAX_SELECTORS
    ensures Reads(Magic(1), StreamWith(n, h, inUse) + Zeros(i), Selector3(h, inUse, 2, n, filled, 0))
    ensures Stores(Begin(h, inUse, 2, n), Zeros(i), i)
  {
    filled := WritesEntry(h, inUse, n, i);
    ZerosStore(Begin(h, inUse, 2, n), i);
  }
}
