/**
 * inflate_table's loop: enters the codes one after the other, in the root table
 * or in the sub-table of their first bits.
 */
module InflateLoop {
  import opened Common
  import opened Counting
  import opened Bits
  import opened KraftSum
  import opened HuffmanCodes
  import opened SortedCodes
  import opened InflateEntries
  import opened InflateSize

  datatype CodeType = Codes | Lens | Dists

  const ENOUGH_LENS := 852
  const ENOUGH_DISTS := 592

  // ---- One round of the loop ----

  /** huff is the k-th code, of length len, lowest bit first. */
  ghost predicate At(c: Job, k: nat, huff: nat, len: nat) {
    k < |c.u| && len == LenAt(c.u, k) && huff < Pow2(len) && LowFirst(huff, len) == WordAt(c.u, k)
  }

  /** The table being filled, once all codes before the n-th are entered. */
  ghost predicate Target(c: Job, t: seq<Entry>, k: nat, next: nat, curr: nat, drop: nat, low: int, n: nat) {
    forall i {:trigger Key(i)} :: Key(i) ==>
      && k < |c.u|
      && if Long(c, k) then drop == c.root && low == Low(c, k) && Current(c, t, k, next, curr, n) && Enough(c, k, curr)
        else next == 0 && curr == c.root && drop == 0 && low == -1 && |t| == Pow2(c.root)
  }

  function ShiftedRight(v: nat, n: nat): (r: nat)
    ensures Pow2(n) >= 1 && r == v / Pow2(n)
  {
    Pow2Mono(0, n);
    Quotient(v, Pow2(n))
  }

  function Quotient(v: nat, p: nat): (r: nat)
    requires p >= 1
    ensures r == v / p
  {
    v / p
  }

  /** The n low bits of v. */
  function Masked(v: nat, n: nat): (r: nat)
    ensures Pow2(n) >= 1 && r == v % Pow2(n)
  {
    Pow2Mono(0, n);
    Remainder(v, Pow2(n))
  }

  function Remainder(v: nat, p: nat): (r: nat)
    requires p >= 1
    ensures r == v % p
  {
    v % p
  }

  /** The low m bits of v and the others. */
  lemma SplitLow(v: nat, m: nat, n: nat, both: nat, lo: nat, hi: nat)
    requires both == m + n && v < Pow2(both) && Pow2(m) >= 1 && lo == v % Pow2(m) && hi == v / Pow2(m)
    ensures LowFirst(v, both) == LowFirst(lo, m) + LowFirst(hi, n) && lo < Pow2(m) && hi < Pow2(n)
  {
    Pow2Add(m, n);
    HighPart(v, Pow2(m), Pow2(n), lo, hi);
    LowFirstParts(v, lo, hi, m, n, both);
  }

  lemma HighPart(v: nat, p: nat, q: nat, lo: nat, hi: nat)
    requires p >= 1 && v < p * q && lo == v % p && hi == v / p
    ensures lo < p && v == lo + p * hi && hi < q
  {
    if hi >= q { MulMono(q, hi, p); }
  }

  lemma Halved(w: bits, x: bits, y: bits, m: nat)
    requires w == x + y && m == |x|
    ensures w[..m] == x && w[m..] == y
  {
  }

  /** The bits of a code that index the table being filled, and those that index the root. */
  lemma IndexBits(c: Job, k: nat, huff: nat, len: nat, lo: nat, hi: nat)
    requires Good(c) && At(c, k, huff, len) && Long(c, k) && lo == Masked(huff, c.root)
    requires hi == ShiftedRight(huff, c.root)
    ensures LowFirst(hi, len - c.root) == Rest(c, k) && lo == Low(c, k) && hi < Pow2(len - c.root)
  {
    SplitLow(huff, c.root, len - c.root, len, lo, hi);
    Halved(WordAt(c.u, k), LowFirst(lo, c.root), LowFirst(hi, len - c.root), c.root);
    LowDistinct(c, k, k);
    LowFirstInjective(lo, Low(c, k), c.root);
  }

  /** The bits of a code that index the table being filled. */
  ghost function Part(c: Job, k: nat): bits
    requires k < |c.u|
  {
    if Long(c, k) then Rest(c, k) else WordAt(c.u, k)
  }

  lemma IndexIs(c: Job, k: nat, huff: nat, len: nat, drop: nat, h: nat)
    requires Good(c) && At(c, k, huff, len) && drop == (if Long(c, k) then c.root else 0)
    requires h == ShiftedRight(huff, drop)
    ensures drop < len && h < Pow2(len - drop) && LowFirst(h, len - drop) == Part(c, k)
  {
    if Long(c, k) {
      IndexBits(c, k, huff, len, Masked(huff, drop), h);
    } else {
      CodeAtFits(c.u, c.max, k);
      assert Pow2(0) == 1;
    }
  }

  /** The table has room for every index of the code. */
  lemma RoomFor(c: Job, t: seq<Entry>, k: nat, next: nat, curr: nat, drop: nat, low: int)
    requires Good(c) && k < |c.u| && Target(c, t, k, next, curr, drop, low, k)
    ensures drop == (if Long(c, k) then c.root else 0) && LenAt(c.u, k) - drop <= curr && next + Pow2(curr) == |t|
  {
    assert Key(0);
  }

  lemma PartEntered(c: Job, t: seq<Entry>, t2: seq<Entry>, k: nat, next: nat, curr: nat, drop: nat, low: int,
                    after: nat)
    requires Good(c) && after == k + 1 <= |c.u| && AllEntered(c, t, k) && Target(c, t, k, next, curr, drop, low, k)
    requires drop <= LenAt(c.u, k)
    requires Filled(t, t2, next, Part(c, k), curr, Leaf(c.work[k], LenAt(c.u, k) - drop))
    ensures AllEntered(c, t2, after) && Target(c, t2, k, next, curr, drop, low, after)
  {
    RoomFor(c, t, k, next, curr, drop, low);
    assert Key(0);
    if Long(c, k) { EnterLong(c, t, t2, k, after, next, curr); } else { EnterShort(c, t, t2, k, after); }
  }

  method EnterCode(t: seq<Entry>, sym: int, huff: nat, len: nat, next: nat, curr: nat, drop: nat, ghost c: Job,
                   ghost k: nat, ghost low: int, ghost after: nat)
    returns (t2: seq<Entry>)
    requires Good(c) && At(c, k, huff, len) && sym == c.work[k] && after == k + 1
    requires AllEntered(c, t, k) && Target(c, t, k, next, curr, drop, low, k)
    ensures AllEntered(c, t2, after) && Target(c, t2, k, next, curr, drop, low, after) && |t2| == |t|
  {
    RoomFor(c, t, k, next, curr, drop, low);
    var h := ShiftedRight(huff, drop);
    IndexIs(c, k, huff, len, drop, h);
    var a, here := len - drop, Leaf(sym, len - drop);
    t2 := Fill(t, next, h, a, curr, here);
    PartEntered(c, t, t2, k, next, curr, drop, low, after);
  }

  // ---- The next code ----

  /** Appending zeros to a number's spelling doubles it as often. */
  lemma SpellShifted(x: nat, n: nat, d: nat, both: nat, y: nat)
    requires x < Pow2(n) && both == n + d && y == x * Pow2(d)
    ensures Spell(y, both) == Spell(x, n) + Zeros(d)
  {
    var s := Spell(x, n) + Zeros(d);
    ValueSpell(x, n);
    ValueZeros(d);
    ValueAppend(Spell(x, n), Zeros(d));
    SpellValue(s);
  }

  lemma ZerosAbove(v: nat, n: nat, d: nat, both: nat)
    requires v < Pow2(n) && both == n + d
    ensures LowFirst(v, both) == LowFirst(v, n) + Zeros(d) && v < Pow2(both)
  {
    LowFirstParts(v, v, 0, n, d, both);
    LowFirstZero(d);
    Pow2Mono(n, both);
  }

  /** A code that is not the last one of its length, counted on. */
  lemma CountedOn(c: Job, k: nat, huff: nat, huff2: nat, len: nat)
    requires Good(c) && At(c, k, huff, len) && CountsOn(huff, huff2, len) && CodeAt(c.u, k) + 1 < Pow2(len)
    ensures LowFirst(huff2, len) == Spell(CodeAt(c.u, k) + 1, len)
  {
    CodeAtFits(c.u, c.max, k);
    CountedWord(LowFirst(huff, len), LowFirst(huff2, len), CodeAt(c.u, k), len);
  }

  lemma CountedWord(w: bits, w2: bits, v: nat, n: nat)
    requires w == Spell(v, n) && v + 1 < Pow2(n) && |w2| == n && (w != Ones(n) ==> Value(w2) == Value(w) + 1)
    ensures w2 == Spell(v + 1, n)
  {
    ValueSpell(v, n);
    NotOnes(w, n);
    SpellValue(w2);
  }

  lemma NotOnes(w: bits, n: nat)
    requires Value(w) + 1 < Pow2(n)
    ensures w != Ones(n)
  {
    ValueOnes(n);
  }

  lemma NextFits(x: nat, len: nat, m: nat, y: nat)
    requires len <= m && y == x * Pow2(m - len) && y < Pow2(m)
    ensures x < Pow2(len)
  {
    Pow2Add(len, m - len);
    if x >= Pow2(len) { MulMono(Pow2(len), x, Pow2(m - len)); }
  }

  lemma Advance(c: Job, k: nat, next: nat, huff: nat, huff2: nat, len: nat, m: nat)
    requires Good(c) && next == k + 1 < |c.u| && At(c, k, huff, len) && CountsOn(huff, huff2, len)
    requires m == LenAt(c.u, next)
    ensures At(c, next, huff2, m)
  {
    var x := CodeAt(c.u, k) + 1;
    NextCode(c.u, k, next);
    CodeAtFits(c.u, c.max, next);
    NextFits(x, len, m, CodeAt(c.u, next));
    CountedOn(c, k, huff, huff2, len);
    ZerosAbove(huff2, len, m - len, m);
    SpellShifted(x, len, m - len, m, CodeAt(c.u, next));
  }

  lemma OnesAre(w: bits, n: nat)
    requires n == |w| && Value(w) + 1 == Pow2(n)
    ensures w == Ones(n)
  {
    ValueOnes(n);
    SpellValue(w);
    SpellValue(Ones(n));
  }

  /** After the last code of a complete set there is nothing left to fill. */
  lemma NothingLeft(c: Job, k: nat, huff: nat, huff2: nat, len: nat)
    requires Good(c) && Full(c.u, c.max) && k == |c.u| - 1 && At(c, k, huff, len) && CountsOn(huff, huff2, len)
    ensures huff2 == 0
  {
    LastCode(c.u, c.max, k);
    CodeAtFits(c.u, c.max, k);
    ValueSpell(CodeAt(c.u, k), len);
    OnesAre(LowFirst(huff, len), len);
  }

  // ---- The counts ----

  lemma StillCounted(c: Job, count: seq<nat>, k: nat, len: nat)
    requires k < |c.u| && len == LenAt(c.u, k) && Remaining(count, c.u, k, len)
    ensures count[len] >= 1
  {
    CodeAtIs(c.u, k);
  }

  /** The length of the next code, as the counts give it. */
  lemma CountedDown(c: Job, count: seq<nat>, count2: seq<nat>, k: nat, next: nat, len: nat)
    requires Good(c) && next == k + 1 && k < |c.u| && len == LenAt(c.u, k) && Remaining(count, c.u, k, len)
    requires |count2| == 16 && count[len] == count2[len] + 1
    requires forall b :: 0 <= b < 16 && b != len ==> count2[b] == count[b]
    ensures
      if count2[len] != 0 then next < |c.u| && LenAt(c.u, next) == len && Remaining(count2, c.u, next, len)
      else if len == c.max then next == |c.u|
      else next < |c.u| && Remaining(count2, c.u, next, LenAt(c.u, next))
  {
    CodeAtIs(c.u, k);
    CountBelowStep(c.u, len);
    if count2[len] != 0 {
      PlaceBound(c.u, len);
      LenFromPlace(c.u, next, len);
    } else if len == c.max {
      AllBelow(c.u, len + 1);
    } else {
      CodeAtFits(c.u, c.max, k);
      CountAtLeastOne(c.u, c.max);
      CountBelowMono(c.u, len + 1, c.max);
      PlaceBound(c.u, c.max);
      NextLength(c, count2, next, len);
    }
  }

  lemma NextLength(c: Job, count: seq<nat>, next: nat, len: nat)
    requires Good(c) && next < |c.u| && |count| == 16 && 1 <= len <= 15 && next == CountBelow(c.u, len + 1)
    requires forall b :: len < b <= 15 ==> count[b] == Count(c.u, b)
    ensures Remaining(count, c.u, next, LenAt(c.u, next))
  {
    var m: int := LenAt(c.u, next);
    CodeAtIs(c.u, next);
    CodeAtFits(c.u, c.max, next);
    CountBelowStep(c.u, m);
    if m <= len { CountBelowMono(c.u, m + 1, len + 1); }
    CountBelowMono(c.u, len + 1, m);
  }

  // ---- The loop ----

  /** The loop is about to enter the k-th code. */
  ghost predicate Turn(c: Job, t: seq<Entry>, count: seq<nat>, k: nat, huff: nat, len: nat, next: nat, curr: nat,
                       drop: nat, low: int) {
    At(c, k, huff, len) && Remaining(count, c.u, k, len) && AllEntered(c, t, k)
      && Target(c, t, k, next, curr, drop, low, k)
  }

  /** The symbols in the order of their codes. */
  ghost predicate Sorted(c: Job, lens: seq<byte>) {
    |c.u| <= |c.work| && forall k {:trigger c.work[k]} :: 0 <= k < |c.u| ==>
      0 <= c.work[k] < |lens| && lens[c.work[k]] == LenAt(c.u, k)
  }

  /** The source's test for a new sub-table. */
  lemma TestsNewTop(c: Job, t: seq<Entry>, k: nat, next: nat, huff: nat, len: nat, at: nat, curr: nat, drop: nat,
                    low: int, tip: nat)
    requires Good(c) && next == k + 1 && At(c, next, huff, len) && Target(c, t, k, at, curr, drop, low, next)
    requires tip == Masked(huff, c.root)
    ensures NewTop(c, next) <==> len > c.root && tip != low
    ensures Long(c, next) ==> tip == Low(c, next)
  {
    assert Key(0);
    if Long(c, next) {
      IndexBits(c, next, huff, len, tip, ShiftedRight(huff, c.root));
      if Long(c, k) { LowDistinct(c, k, next); }
    }
  }

  lemma SameTable(c: Job, t: seq<Entry>, k: nat, next: nat, at: nat, curr: nat, drop: nat, low: int)
    requires Good(c) && next == k + 1 < |c.u| && Target(c, t, k, at, curr, drop, low, next) && !NewTop(c, next)
    ensures Target(c, t, next, at, curr, drop, low, next)
  {
    assert Key(0);
    LenMono(c.u, k, next);
    if Long(c, next) { LowDistinct(c, k, next); }
  }

  predicate NoRoom(typ: CodeType, used: nat) {
    (typ == Lens && used >= ENOUGH_LENS) || (typ == Dists && used >= ENOUGH_DISTS)
  }

  lemma HoldsRoot(c: Job, t: seq<Entry>, k: nat)
    requires AllEntered(c, t, k) && k > 0
    ensures Pow2(c.root) <= |t|
  {
    assert Key(0);
    assert Entered(c, t, 0);
  }

  lemma Started(c: Job, t: seq<Entry>, k: nat, next: nat, curr: nat, drop: nat, low: int)
    requires k < |c.u| && Long(c, k) && Current(c, t, k, next, curr, k) && Enough(c, k, curr) && drop == c.root
    requires low == Low(c, k)
    ensures Target(c, t, k, next, curr, drop, low, k)
  {
  }

  /** One code of one bit leaves one root entry over. */
  ghost predicate Lone(c: Job) { c.u == [1] && c.max == 1 && c.root == 1 }

  lemma LoneShort(c: Job, k: nat)
    requires Good(c) && k < |c.u| && Long(c, k) && (Full(c.u, c.max) || Lone(c))
    ensures Full(c.u, c.max)
  {
    CodeAtFits(c.u, c.max, k);
  }

  /** A new sub-table behind the last one. */
  method NewSubTable(t: seq<Entry>, count: seq<nat>, huff: nat, len: nat, max: nat, root: nat, low: nat,
                     typ: CodeType, ghost c: Job, ghost k: nat)
    returns (t2: seq<Entry>, next: nat, curr: nat, full: bool)
    requires Good(c) && max == c.max && root == c.root && At(c, k, huff, len) && Remaining(count, c.u, k, len)
    requires AllEntered(c, t, k) && (Full(c.u, c.max) || Lone(c))
    requires NewTop(c, k) && low == Low(c, k)
    ensures full <==> NoRoom(typ, |t| + Pow2(SubBits(c, k)))
    ensures !full ==> |t2| == |t| + Pow2(SubBits(c, k)) && Turn(c, t2, count, k, huff, len, next, curr, root, low)
  {
    NewTopIsNew(c, k);
    LoneShort(c, k);
    curr := SubTableBits(count, len, root, max, c, k);
    SizeIs(c, k, curr, if curr > 0 then curr - 1 else 0);
    full := NoRoom(typ, |t| + Pow2(curr));
    t2, next := t, |t|;
    if !full {
      HoldsRoot(c, t, k);
      Extend(c, t, k, curr);
      t2 := Extended(t, low, curr);
      Started(c, t2, k, next, curr, root, low);
    }
  }

  /** Enters a code and counts on. */
  method OneCode(t: seq<Entry>, count: seq<nat>, lens: seq<byte>, work: seq<int>, huff: nat, sym: nat, len: nat,
                 next: nat, curr: nat, drop: nat, max: nat, ghost c: Job, ghost low: int, ghost after: nat)
    returns (t2: seq<Entry>, huff2: nat, count2: seq<nat>, len2: nat, done: bool)
    requires Good(c) && max == c.max && work == c.work && Sorted(c, lens) && after == sym + 1
    requires Turn(c, t, count, sym, huff, len, next, curr, drop, low)
    ensures AllEntered(c, t2, after) && Target(c, t2, sym, next, curr, drop, low, after) && CountsOn(huff, huff2, len)
    ensures |t2| == |t|
    ensures if done then after == |c.u| && len2 == len
      else after < |c.u| && At(c, after, huff2, len2) && Remaining(count2, c.u, after, len2)
  {
    t2 := EnterCode(t, work[sym], huff, len, next, curr, drop, c, sym, low, after);
    CodeAtFits(c.u, c.max, sym);
    huff2 := BackIncrement(huff, len);
    StillCounted(c, count, sym, len);
    count2, len2, done := count[len := count[len] - 1], len, false;
    CountedDown(c, count, count2, sym, after, len);
    if count2[len] == 0 {
      if len == max {
        done := true;
        return;
      }
      len2 := lens[work[sym + 1]];
    }
    Advance(c, sym, after, huff, huff2, len, len2);
  }

  lemma FirstTurn(c: Job, t: seq<Entry>, count: seq<nat>, huff: nat, len: nat, next: nat, curr: nat, drop: nat,
                  low: int)
    requires Good(c) && len == LenAt(c.u, 0) && huff == 0 && next == 0 && curr == c.root && drop == 0 && low == -1
    requires |t| == Pow2(c.root) && |count| == 16 && forall b :: 1 <= b < 16 ==> count[b] == Count(c.u, b)
    ensures Turn(c, t, count, 0, huff, len, next, curr, drop, low)
  {
    FirstCode(c.u);
    CodeAtFits(c.u, c.max, 0);
    CodeAtIs(c.u, 0);
    LowFirstZero(len);
    ValueZeros(len);
    SpellValue(Zeros(len));
    Pow2Mono(0, len);
  }

  lemma LoneNotFull(c: Job)
    requires Good(c) && Lone(c)
    ensures !Full(c.u, c.max)
  {
    var u := c.u;
    assert u[..|u| - 1] == [];
    assert Kraft(u, c.max) == Kraft(u[..|u| - 1], c.max) + Pow2(c.max - u[|u| - 1]);
  }

  lemma LoneEnd(c: Job, t: seq<Entry>, k: nat, huff: nat, huff2: nat, len: nat, next: nat, curr: nat, drop: nat,
                low: int)
    requires Good(c) && Lone(c) && k == 0 && At(c, k, huff, len) && CountsOn(huff, huff2, len)
    requires AllEntered(c, t, 1) && Target(c, t, k, next, curr, drop, low, 1)
    ensures huff2 == 1 && next == 0 && drop == 0 && len == 1 && |t| == 2 && t[0] == Leaf(c.work[0], 1)
    ensures !Full(c.u, c.max)
  {
    assert Key(0);
    LoneNotFull(c);
    FirstCode(c.u);
    assert LenAt(c.u, 0) == 1;
    assert Entered(c, t, 0);
    assert Spell(0, 1) == [false] && LowFirst(0, 1) == [false] && Pow2(1) == 2;
    assert Ones(1)[0];
    assert Value([false]) == 0;
    assert huff2 == 0 || huff2 == 1;
  }

  /** What the loop leaves: every code entered, or the one code of one bit and no other. */
  ghost predicate Made(c: Job, t: seq<Entry>) {
    if Full(c.u, c.max) then AllEntered(c, t, |c.u|) else c.work != [] && t == [Leaf(c.work[0], 1), Invalid(1)]
  }

  lemma SizeStep(c: Job, k: nat, size: nat)
    requires k < |c.u| && size == k + 1
    ensures TableSize(c, size) == TableSize(c, k) + if NewTop(c, k) then Pow2(SubBits(c, k)) else 0
  {
  }

  lemma TurnIs(c: Job, t: seq<Entry>, count: seq<nat>, k: nat, huff: nat, len: nat, next: nat, curr: nat, drop: nat,
               low: int)
    requires At(c, k, huff, len) && Remaining(count, c.u, k, len) && AllEntered(c, t, k)
    requires Target(c, t, k, next, curr, drop, low, k)
    ensures Turn(c, t, count, k, huff, len, next, curr, drop, low)
  {
  }

  /** The table for the next code: the one at hand, or a new one. */
  method TableFor(t: seq<Entry>, count: seq<nat>, huff: nat, len: nat, next: nat, curr: nat, drop: nat, low: int,
                  max: nat, root: nat, typ: CodeType, ghost c: Job, ghost before: nat, ghost k: nat, ghost size: nat)
    returns (t2: seq<Entry>, next2: nat, curr2: nat, drop2: nat, low2: int, full: bool)
    requires Good(c) && max == c.max && root == c.root && k == before + 1 && At(c, k, huff, len)
    requires Remaining(count, c.u, k, len)
    requires AllEntered(c, t, k) && Target(c, t, before, next, curr, drop, low, k) && (Full(c.u, c.max) || Lone(c))
    requires size == k + 1 <= |c.u| && |t| == TableSize(c, k) && !NoRoom(typ, |t|)
    ensures full <==> NoRoom(typ, TableSize(c, size))
    ensures !full ==>
      |t2| == TableSize(c, size) && Turn(c, t2, count, k, huff, len, next2, curr2, drop2, low2)
  {
    hide TableSize, SubBits, Turn, At, Remaining, AllEntered, Target, Full, Lone, Good, NoRoom;
    SizeStep(c, k, size);
    var tip := Masked(huff, root);
    TestsNewTop(c, t, before, k, huff, len, next, curr, drop, low, tip);
    if len > root && tip != low {
      t2, next2, curr2, full := NewSubTable(t, count, huff, len, max, root, tip, typ, c, k);
      drop2, low2 := root, tip;
    } else {
      SameTable(c, t, before, k, next, curr, drop, low);
      TurnIs(c, t, count, k, huff, len, next, curr, drop, low);
      t2, next2, curr2, drop2, low2, full := t, next, curr, drop, low, false;
    }
  }

  /** The entry that one code of one bit leaves over. */
  method FillLast(t: seq<Entry>, huff: nat, len: nat, next: nat, drop: nat, ghost c: Job, ghost k: nat,
                  ghost huff0: nat, ghost curr: nat, ghost low: int)
    returns (t2: seq<Entry>)
    requires Good(c) && (Full(c.u, c.max) || Lone(c)) && k == |c.u| - 1 && At(c, k, huff0, len)
    requires CountsOn(huff0, huff, len)
    requires AllEntered(c, t, |c.u|) && Target(c, t, k, next, curr, drop, low, |c.u|)
    ensures Made(c, t2) && |t2| == |t|
  {
    if Full(c.u, c.max) {
      NothingLeft(c, k, huff0, huff, len);
    } else {
      LoneEnd(c, t, k, huff0, huff, len, next, curr, drop, low);
    }
    t2 := t;
    if huff != 0 { t2 := t[next + huff := Invalid(len - drop)]; }
  }

  lemma SizeStarts(c: Job)
    requires Good(c)
    ensures TableSize(c, 1) == Pow2(c.root)
  {
    assert !NewTop(c, 0);
  }

  lemma TooLarge(c: Job, typ: CodeType, n: nat)
    requires n <= |c.u| && NoRoom(typ, TableSize(c, n))
    ensures NoRoom(typ, TableSize(c, |c.u|))
  {
    SizeMono(c, n, |c.u|);
  }

  /** Between two turns: the tables begun by the codes up to the k-th are there. */
  ghost predicate Going(c: Job, typ: CodeType, t: seq<Entry>, count: seq<nat>, k: nat, huff: nat, len: nat, next: nat,
                        curr: nat, drop: nat, low: int) {
    k < |c.u| && forall i {:trigger Gate(i)} :: Gate(i) ==>
      && Turn(c, t, count, k, huff, len, next, curr, drop, low) && !NoRoom(typ, |t|) && |t| == TableSize(c, k + 1)
  }

  lemma GoingIs(c: Job, typ: CodeType, t: seq<Entry>, count: seq<nat>, k: nat, huff: nat, len: nat, next: nat,
                curr: nat, drop: nat, low: int, size: nat)
    requires Going(c, typ, t, count, k, huff, len, next, curr, drop, low) && size == k + 1
    ensures Turn(c, t, count, k, huff, len, next, curr, drop, low) && !NoRoom(typ, |t|)
    ensures size <= |c.u| && |t| == TableSize(c, size)
  {
    assert Gate(0);
  }

  lemma GoesOn(c: Job, typ: CodeType, t: seq<Entry>, count: seq<nat>, k: nat, huff: nat, len: nat, next: nat,
               curr: nat, drop: nat, low: int, size: nat)
    requires Turn(c, t, count, k, huff, len, next, curr, drop, low) && !NoRoom(typ, |t|)
    requires size == k + 1 <= |c.u| && |t| == TableSize(c, size)
    ensures Going(c, typ, t, count, k, huff, len, next, curr, drop, low)
  {
    hide TableSize;
  }

  /** One turn: a code is entered, and after the last one the table is done; or the next has a table to go to. */
  method OneTurn(typ: CodeType, t: seq<Entry>, count: seq<nat>, lens: seq<byte>, work: seq<int>, sym: nat, huff: nat,
                 len: nat, next: nat, curr: nat, drop: nat, low: int, max: nat, root: nat, ghost c: Job,
                 ghost after: nat)
    returns (t2: seq<Entry>, count2: seq<nat>, huff2: nat, len2: nat, next2: nat, curr2: nat, drop2: nat, low2: int,
             done: bool, full: bool)
    requires Good(c) && max == c.max && root == c.root && work == c.work && Sorted(c, lens)
    requires (Full(c.u, c.max) || Lone(c)) && after == sym + 1
    requires Going(c, typ, t, count, sym, huff, len, next, curr, drop, low)
    ensures done ==> Made(c, t2) && |t2| == TableSize(c, |c.u|) && !NoRoom(typ, |t2|)
    ensures !done && full ==> NoRoom(typ, TableSize(c, |c.u|))
    ensures !done && !full ==> after < |c.u| && Going(c, typ, t2, count2, after, huff2, len2, next2, curr2, drop2, low2)
  {
    hide Turn, At, Remaining, AllEntered, Target, CountsOn, Made, TableSize, NoRoom, Sorted, Full, Lone, Good, Going;
    GoingIs(c, typ, t, count, sym, huff, len, next, curr, drop, low, after);
    next2, curr2, drop2, low2, full := next, curr, drop, low, false;
    ghost var size := after + 1;
    t2, huff2, count2, len2, done :=
      OneCode(t, count, lens, work, huff, sym, len, next, curr, drop, max, c, low, after);
    if done {
      t2 := FillLast(t2, huff2, len2, next, drop, c, sym, huff, curr, low);
    } else {
      t2, next2, curr2, drop2, low2, full :=
        TableFor(t2, count2, huff2, len2, next, curr, drop, low, max, root, typ, c, sym, after, size);
      if full { TooLarge(c, typ, size); } else {
        GoesOn(c, typ, t2, count2, after, huff2, len2, next2, curr2, drop2, low2, size);
      }
    }
  }

  /** The loop over all codes; 1 if the table would grow too large. */
  method EnterCodes(typ: CodeType, lens: seq<byte>, count0: seq<nat>, work: seq<int>, min: nat, max: nat, root: nat,
                    ghost c: Job)
    returns (ret: int, table: seq<Entry>)
    requires Good(c) && max == c.max && root == c.root && work == c.work && Sorted(c, lens) && min == LenAt(c.u, 0)
    requires Full(c.u, c.max) || Lone(c)
    requires |count0| == 16 && forall b :: 1 <= b < 16 ==> count0[b] == Count(c.u, b)
    ensures ret == if NoRoom(typ, TableSize(c, |c.u|)) then 1 else 0
    ensures ret == 0 ==> Made(c, table) && |table| == TableSize(c, |c.u|)
  {
    hide Turn, Going, Made, TableSize, Full, Lone, NoRoom;
    table := seq(Pow2(root), _ => Invalid(0));
    SizeStarts(c);
    if NoRoom(typ, |table|) {
      TooLarge(c, typ, 1);
      return 1, table;
    }
    var huff: nat, sym: nat, len: nat, next: nat, curr: nat, drop: nat, low: int := 0, 0, min, 0, root, 0, -1;
    var count, full, done := count0, false, false;
    FirstTurn(c, table, count, huff, len, next, curr, drop, low);
    GoesOn(c, typ, table, count, sym, huff, len, next, curr, drop, low, 1);
    while true
      invariant sym < |c.u| && Going(c, typ, table, count, sym, huff, len, next, curr, drop, low)
      decreases |c.u| - sym
    {
      table, count, huff, len, next, curr, drop, low, done, full :=
        OneTurn(typ, table, count, lens, work, sym, huff, len, next, curr, drop, low, max, root, c, sym + 1);
      if done { return 0, table; }
      if full { return 1, table; }
      sym := sym + 1;
    }
  }
}
