/**
 * gen_bitlen: code lengths for deflate's trees. Lengths beyond the limit are cut
 * to it, and the counts of lengths are then repaired. The cut nodes are exactly
 * twice what the Kraft sum exceeds 1 by, so the repair ends with a complete code.
 */
module DeflateLengths {
  import opened Common

  // ---- The Kraft sum of a table of counts, in units of 2^-limit ----

  /** The share of the lengths below n. */
  ghost function Weigh(bl: seq<int>, limit: nat, n: nat): int
    requires n <= limit + 1 <= |bl|
  {
    if n == 0 then 0 else Weigh(bl, limit, n - 1) + bl[n - 1] * Pow2(limit - (n - 1))
  }

  ghost function KraftOf(bl: seq<int>, limit: nat): int
    requires limit < |bl|
  {
    Weigh(bl, limit, limit + 1)
  }

  lemma {:induction false} WeighUpdate(bl: seq<int>, limit: nat, n: nat, b: nat, v: int)
    requires n <= limit + 1 <= |bl| && b <= limit
    ensures Weigh(bl[b := v], limit, n) == Weigh(bl, limit, n) + if b < n then (v - bl[b]) * Pow2(limit - b) else 0
    decreases n
  {
    if n > 0 {
      WeighUpdate(bl, limit, n - 1, b, v);
      if b == n - 1 {
        var p := Pow2(limit - b);
        assert v * p == bl[b] * p + (v - bl[b]) * p;
      }
    }
  }

  /** The number of codes of the lengths below n. */
  ghost function Total(bl: seq<int>, n: nat): int
    requires n <= |bl|
  {
    if n == 0 then 0 else Total(bl, n - 1) + bl[n - 1]
  }

  lemma {:induction false} TotalUpdate(bl: seq<int>, n: nat, b: nat, v: int)
    requires n <= |bl| && b < |bl|
    ensures Total(bl[b := v], n) == Total(bl, n) + if b < n then v - bl[b] else 0
    decreases n
  {
    if n > 0 { TotalUpdate(bl, n - 1, b, v); }
  }

  ghost predicate Counts(bl: seq<int>) { forall b :: 0 <= b < |bl| ==> 0 <= bl[b] }

  /** With no length between lo and n, what lies below n lies below lo. */
  lemma {:induction false} NoneBetween(bl: seq<int>, limit: nat, lo: nat, n: nat)
    requires lo <= n <= limit + 1 <= |bl| && forall b :: lo <= b < n ==> bl[b] == 0
    ensures Weigh(bl, limit, n) == Weigh(bl, limit, lo) && Total(bl, n) == Total(bl, lo)
    decreases n
  {
    if lo < n { NoneBetween(bl, limit, lo, n - 1); }
  }

  // ---- The repair ----

  /** Counts that may still be repaired: overflow / 2 above a complete code. */
  ghost predicate Repairable(bl: seq<int>, limit: nat, overflow: int, leaves: nat) {
    && 1 <= limit < |bl| && Counts(bl) && bl[0] == 0 && 0 <= overflow
    && 2 * KraftOf(bl, limit) == 2 * Pow2(limit) + overflow && Weigh(bl, limit, limit) <= Pow2(limit)
    && Total(bl, limit + 1) == leaves <= Pow2(limit) && NoneLonger(bl, limit)
  }

  /** No length is beyond the limit. */
  ghost predicate NoneLonger(bl: seq<int>, limit: nat) { forall b :: limit < b < |bl| ==> bl[b] == 0 }

  /** While there is overflow, some code is shorter than the limit, and some code has it. */
  lemma LeafToMove(bl: seq<int>, limit: nat, overflow: int, leaves: nat)
    requires Repairable(bl, limit, overflow, leaves) && overflow > 0
    ensures bl[limit] >= 1 && overflow >= 2 && exists b :: 1 <= b < limit && bl[b] > 0
  {
    assert Pow2(0) == 1;
    if forall b :: 1 <= b < limit ==> bl[b] == 0 {
      NoneBetween(bl, limit, 0, limit);
      assert false;
    }
    assert KraftOf(bl, limit) == Weigh(bl, limit, limit) + bl[limit];
  }

  /** One leaf moves down and takes an overflowing one as its brother. */
  lemma MoveLeaf(bl: seq<int>, limit: nat, overflow: int, leaves: nat, b: nat, now: seq<int>, left: int)
    requires Repairable(bl, limit, overflow, leaves) && overflow > 0 && 1 <= b < limit && bl[b] > 0
    requires left == overflow - 2
    requires now == bl[b := bl[b] - 1][b + 1 := bl[b := bl[b] - 1][b + 1] + 2][limit :=
      bl[b := bl[b] - 1][b + 1 := bl[b := bl[b] - 1][b + 1] + 2][limit] - 1]
    ensures Repairable(now, limit, left, leaves)
  {
    LeafToMove(bl, limit, overflow, leaves);
    var c := b + 1;
    var x := bl[b := bl[b] - 1];
    var y := x[c := x[c] + 2];
    assert now == y[limit := y[limit] - 1];
    var p, q := Pow2(limit - b), Pow2(limit - c);
    assert p == 2 * q && Pow2(0) == 1;
    WeighUpdate(bl, limit, limit + 1, b, bl[b] - 1);
    WeighUpdate(x, limit, limit + 1, c, x[c] + 2);
    WeighUpdate(y, limit, limit + 1, limit, y[limit] - 1);
    WeighUpdate(bl, limit, limit, b, bl[b] - 1);
    WeighUpdate(x, limit, limit, c, x[c] + 2);
    WeighUpdate(y, limit, limit, limit, y[limit] - 1);
    TotalUpdate(bl, limit + 1, b, bl[b] - 1);
    TotalUpdate(x, limit + 1, c, x[c] + 2);
    TotalUpdate(y, limit + 1, limit, y[limit] - 1);
  }

  /** The repair loop. It always finds a leaf to move, and ends with a complete code. */
  method Repair(bl: array<int>, limit: nat, overflow0: int, ghost leaves: nat)
    requires Repairable(bl[..], limit, overflow0, leaves) && overflow0 > 0
    modifies bl
    ensures Repairable(bl[..], limit, 0, leaves)
  {
    var overflow := overflow0;
    while overflow > 0
      invariant Repairable(bl[..], limit, overflow, leaves)
      decreases overflow
    {
      ghost var was := bl[..];
      LeafToMove(was, limit, overflow, leaves);
      var bits := limit - 1;
      while bl[bits] == 0
        invariant 1 <= bits < limit && forall b :: bits < b < limit ==> bl[b] == 0
        decreases bits
      {
        assert was[bits] == 0;
        bits := bits - 1;
      }
      bl[bits] := bl[bits] - 1;
      bl[bits + 1] := bl[bits + 1] + 2;
      bl[limit] := bl[limit] - 1;
      MoveLeaf(was, limit, overflow, leaves, bits, bl[..], overflow - 2);
      overflow := overflow - 2;
    }
  }

  // ---- The first pass ----

  /**
   * The nodes of a tree, parents before children. `at` is the place of a node in
   * the order; `one` and `two` are the places of the children of an inner node.
   */
  datatype Tree = Tree(order: seq<int>, dad: seq<int>, at: seq<int>, one: seq<int>, two: seq<int>, maxCode: int)

  ghost predicate InnerNode(t: Tree, v: int) { v > t.maxCode }

  ghost predicate Shaped(t: Tree) {
    && |t.dad| == |t.at| == |t.one| == |t.two| && 0 < |t.order| && 0 <= t.maxCode
    && forall k {:trigger Seal(k)} :: Seal(k) ==> AllShaped(t)
  }

  ghost predicate AllShaped(t: Tree) {
    && |t.dad| == |t.at| == |t.one| == |t.two| && 0 < |t.order|
    && (forall i :: 0 <= i < |t.order| ==> NodeAt(t, i, t.order[i]))
    && InnerNode(t, t.order[0])
    && (forall i {:trigger t.order[i]} :: 0 < i < |t.order| ==> ChildAt(t, i, t.dad[t.order[i]]))
    && (forall i {:trigger t.order[i]} :: 0 <= i < |t.order| && InnerNode(t, t.order[i]) ==> ParentAt(t, i, t.order[i]))
  }

  ghost predicate NodeAt(t: Tree, i: int, v: int) { 0 <= v < |t.dad| && v < |t.at| && t.at[v] == i }

  lemma NodeHas(t: Tree, i: int)
    requires Shaped(t) && 0 <= i < |t.order|
    ensures NodeAt(t, i, t.order[i]) && (i == 0 ==> InnerNode(t, t.order[i]))
    ensures i > 0 ==> ChildAt(t, i, t.dad[t.order[i]])
    ensures InnerNode(t, t.order[i]) ==> ParentAt(t, i, t.order[i])
  {
    assert Seal(0);
  }

  /** The node at i is a child of p, which comes before it. */
  ghost predicate ChildAt(t: Tree, i: int, p: int) {
    0 <= p < |t.at| && p < |t.one| && p < |t.two| && InnerNode(t, p) && 0 <= t.at[p] < i && t.at[p] < |t.order|
      && t.order[t.at[p]] == p && (t.one[p] == i || t.two[p] == i)
  }

  /** The inner node p at i has two children after it. */
  ghost predicate ParentAt(t: Tree, i: int, p: int) {
    && 0 <= p < |t.one| && p < |t.two| && i < t.one[p] < t.two[p] < |t.order|
    && 0 <= i && IsChild(t, t.order[t.one[p]], p) && IsChild(t, t.order[t.two[p]], p)
  }

  ghost predicate IsChild(t: Tree, v: int, p: int) { 0 <= v < |t.dad| && t.dad[v] == p }

  /** How many children of p come before place i. */
  ghost function Kids(t: Tree, p: int, i: int): int
    requires 0 <= p < |t.one| && p < |t.two|
  {
    (if t.one[p] < i then 1 else 0) + if t.two[p] < i then 1 else 0
  }

  /** The share of a node of length n. */
  ghost function Share(limit: nat, n: int): int { if 0 <= n <= limit then Pow2(limit - n) else 0 }

  /** What is still owed to the children of the inner nodes before place i, in half units. */
  ghost predicate Owed(t: Tree, len: seq<int>, limit: nat, i: int, val: seq<int>, short: seq<int>) {
    && Shaped(t) && |val| == |short| == |len| == |t.dad| && 0 <= i <= |t.order|
    && forall k {:trigger Key(k)} :: Key(k) ==> OwedAll(t, len, limit, i, val, short)
  }

  ghost predicate OwedAll(t: Tree, len: seq<int>, limit: nat, i: int, val: seq<int>, short: seq<int>)
    requires Shaped(t) && |val| == |short| == |len| == |t.dad| && 0 <= i <= |t.order|
  {
    && (forall v :: 0 <= v < |t.dad| ==> val[v] == if InnerNode(t, v)
      && Before(t, v, i) then (2 - Kids(t, v, i)) * Share(limit, len[v]) else 0)
    && (forall v :: 0 <= v < |t.dad| ==> short[v] == if len[v] < limit then val[v] else 0)
  }

  /** v is in the tree, at a place before i. */
  ghost predicate Before(t: Tree, v: int, i: int)
    requires 0 <= v < |t.at|
  {
    0 <= t.at[v] < i && t.at[v] < |t.order| && t.order[t.at[v]] == v
  }

  /** Lengths given so far are within the limit, and only the root's is 0. */
  ghost predicate Within(t: Tree, len: seq<int>, limit: nat, i: int) {
    && |len| == |t.dad| == |t.at|
    && forall k {:trigger Key(k)} :: Key(k) ==>
      forall v :: 0 <= v < |t.dad| && Before(t, v, i) ==> 0 <= len[v] <= limit && (0 < t.at[v] ==> 1 <= len[v])
  }

  lemma WithinAt(t: Tree, len: seq<int>, limit: nat, i: int, v: int)
    requires Within(t, len, limit, i) && 0 <= v < |t.dad| && Before(t, v, i)
    ensures 0 <= len[v] <= limit
  {
    assert Key(0);
  }

  lemma WithinStep(t: Tree, len: seq<int>, limit: nat, i: int, next: int, n: int, bits: int)
    requires Within(t, len, limit, i) && Shaped(t) && 0 <= i < |t.order| && next == i + 1 && n == t.order[i]
    requires NodeAt(t, i, n) && 1 <= bits <= limit
    ensures Within(t, len[n := bits], limit, next)
  {
    assert Key(0);
  }

  /** The invariant of the pass after i nodes. */
  ghost predicate Passed(t: Tree, len: seq<int>, bl: seq<int>, limit: nat, i: int, overflow: int, val: seq<int>,
                         short: seq<int>, leaves: nat) {
    && Owed(t, len, limit, i, val, short) && Within(t, len, limit, i)
    && 1 <= limit < |bl| && Counts(bl) && bl[0] == 0 && 0 <= overflow
    && 2 * KraftOf(bl, limit) + Sum(val) == 2 * Pow2(limit) + overflow
    && 2 * Weigh(bl, limit, limit) + Sum(short) <= 2 * Pow2(limit)
    && Total(bl, limit + 1) == leaves && NoneLonger(bl, limit)
  }

  /** The length a child gets, and whether it was cut. */
  function Cut(len: int, limit: nat): int { if len + 1 > limit then limit else len + 1 }

  lemma ShareOfChild(limit: nat, len: int)
    requires 0 <= len <= limit && 1 <= limit
    ensures len < limit ==> Share(limit, len) == 2 * Share(limit, Cut(len, limit))
    ensures Share(limit, limit) == 1 && Share(limit, len) >= 1
  {
    Pow2Mono(0, limit - len);
    assert Pow2(0) == 1;
    if len < limit { assert Pow2(limit - len) == 2 * Pow2(limit - (len + 1)); }
  }

  /** Only the parent's number of children changes when the node at i is passed. */
  lemma KidsStep(t: Tree, v: int, i: int, next: int)
    requires Shaped(t) && 0 < i < |t.order| && next == i + 1 && 0 <= v < |t.dad| && InnerNode(t, v) && Before(t, v, i)
    requires NodeAt(t, i, t.order[i])
    ensures Kids(t, v, next) == Kids(t, v, i) + if v == t.dad[t.order[i]] then 1 else 0
    ensures v == t.dad[t.order[i]] ==> Kids(t, v, i) <= 1
  {
    NodeHas(t, i);
    NodeHas(t, t.at[v]);
  }

  lemma OwedStep(t: Tree, len: seq<int>, limit: nat, i: int, next: int, val: seq<int>, short: seq<int>, n: int,
                 p: int, bits: int, v2: seq<int>, s2: seq<int>)
    requires Owed(t, len, limit, i, val, short) && 0 < i < |t.order| && next == i + 1 && n == t.order[i]
    requires NodeAt(t, i, n) && p == t.dad[n] && ChildAt(t, i, p)
    requires v2 == val[p := val[p] - Share(limit, len[p])][n := if InnerNode(t, n) then 2 * Share(limit, bits) else 0]
    requires s2 == short
      [p := if len[p] < limit then short[p] - Share(limit, len[p]) else 0]
      [n := if InnerNode(t, n) && bits < limit then 2 * Share(limit, bits) else 0]
    ensures Owed(t, len[n := bits], limit, next, v2, s2)
  {
    NodeHas(t, i);
    assert Key(0);
    var len2 := len[n := bits];
    forall v | 0 <= v < |t.dad|
      ensures v2[v] == (if InnerNode(t, v) && Before(t, v, next) then (2 - Kids(t, v, next)) * Share(limit, len2[v])
        else 0)
    {
      if v == n {
      } else {
        assert Before(t, v, next) <==> Before(t, v, i);
        if InnerNode(t, v) && Before(t, v, i) {
          KidsStep(t, v, i, next);
          OneFewer(Kids(t, v, i), Kids(t, v, next), Share(limit, len[v]));
        }
      }
    }
  }

  lemma OneFewer(k: int, m: int, s: int)
    ensures m == k ==> (2 - m) * s == (2 - k) * s
    ensures m == k + 1 ==> (2 - m) * s == (2 - k) * s - s
  {
  }

  /** How many of the first i nodes are leaves. */
  ghost function LeafCount(t: Tree, i: int): nat
    requires i <= |t.order|
  {
    if i <= 0 then 0 else LeafCount(t, i - 1) + if InnerNode(t, t.order[i - 1]) then 0 else 1
  }

  lemma {:induction false} WeighBlank(bl: seq<int>, limit: nat, n: nat)
    requires n <= limit + 1 <= |bl| && forall b :: 0 <= b < n ==> bl[b] == 0
    ensures Weigh(bl, limit, n) == 0 && Total(bl, n) == 0
  {
    if n > 0 { WeighBlank(bl, limit, n - 1); }
  }

  lemma {:induction false} SumAllZero(s: seq<int>)
    requires forall i :: 0 <= i < |s| ==> s[i] == 0
    ensures Sum(s) == 0
  {
    if s != [] { SumAllZero(s[..|s| - 1]); }
  }

  /** The root alone. */
  lemma PassStarts(t: Tree, len: seq<int>, bl: seq<int>, limit: nat) returns (val: seq<int>, short: seq<int>)
    requires Shaped(t) && |len| == |t.dad| && 1 <= limit < |bl| && (forall b :: 0 <= b < |bl| ==> bl[b] == 0)
    requires 0 <= t.order[0] < |len| && len[t.order[0]] == 0
    ensures Passed(t, len, bl, limit, 1, 0, val, short, LeafCount(t, 1))
  {
    var root, unit := t.order[0], 2 * Pow2(limit);
    NodeHas(t, 0);
    val, short := Blank(|len|)[root := unit], Blank(|len|)[root := unit];
    SumBlank(|len|);
    SumUpdate(Blank(|len|), root, unit);
    WeighBlank(bl, limit, limit + 1);
    WeighBlank(bl, limit, limit);
    assert LeafCount(t, 1) == LeafCount(t, 0) == 0;
    forall v | 0 <= v < |t.dad|
      ensures val[v] == (if InnerNode(t, v) && Before(t, v, 1) then (2 - Kids(t, v, 1)) * Share(limit, len[v])
        else 0) {}
  }

  /** What one node does to the sums. */
  lemma PassSums(limit: nat, lp: int, bits: int, kraft: int, weigh: int, sumVal: int, sumShort: int, overflow: int,
                 inner: bool)
    requires 1 <= limit && 0 <= lp <= limit && bits == Cut(lp, limit)
    requires 2 * kraft + sumVal == 2 * Pow2(limit) + overflow && 2 * weigh + sumShort <= 2 * Pow2(limit)
    ensures var kraft2 := kraft + if inner then 0 else Share(limit, bits);
      var sumVal2 := sumVal - Share(limit, lp) + if inner then 2 * Share(limit, bits) else 0;
      2 * kraft2 + sumVal2 == 2 * Pow2(limit) + overflow + if lp + 1 > limit then 1 else 0
    ensures var weigh2 := weigh + if !inner && bits < limit then Share(limit, bits) else 0;
      var sumShort2 := sumShort - (if lp < limit then Share(limit, lp) else 0) + if inner
        && bits < limit then 2 * Share(limit, bits) else 0;
      2 * weigh2 + sumShort2 <= 2 * Pow2(limit)
  {
    ShareOfChild(limit, lp);
  }

  lemma NotOwed(t: Tree, len: seq<int>, limit: nat, i: int, val: seq<int>, short: seq<int>, n: int)
    requires Owed(t, len, limit, i, val, short) && i < |t.order| && n == t.order[i] && NodeAt(t, i, n)
    ensures val[n] == 0 && short[n] == 0
  {
    assert Key(0);
  }

  lemma ShortNone(t: Tree, len: seq<int>, limit: nat, i: int, val: seq<int>, short: seq<int>, p: int)
    requires Owed(t, len, limit, i, val, short) && 0 <= p < |len| && len[p] >= limit
    ensures short[p] == 0
  {
    assert Key(0);
  }

  lemma OwedSums(val: seq<int>, p: int, n: int, v1: seq<int>, v2: seq<int>)
    requires 0 <= p < |val| && 0 <= n < |val| && p != n && val[n] == 0 && |v1| == |v2| == |val|
    requires v1 == val[p := v1[p]] && v2 == v1[n := v2[n]]
    ensures Sum(v2) == Sum(val) - val[p] + v1[p] + v2[n]
  {
    SumUpdate(val, p, v1[p]);
    SumUpdate(v1, n, v2[n]);
  }

  lemma CountStep(bl: seq<int>, limit: nat, bits: int)
    requires limit < |bl| && 0 <= bits <= limit
    ensures var b2 := bl[bits := bl[bits] + 1];
      && KraftOf(b2, limit) == KraftOf(bl, limit) + Share(limit, bits)
      && Weigh(b2, limit, limit) == Weigh(bl, limit, limit) + (if bits < limit then Share(limit, bits) else 0)
      && Total(b2, limit + 1) == Total(bl, limit + 1) + 1
  {
    WeighUpdate(bl, limit, limit + 1, bits, bl[bits] + 1);
    WeighUpdate(bl, limit, limit, bits, bl[bits] + 1);
    TotalUpdate(bl, limit + 1, bits, bl[bits] + 1);
  }

  lemma PassStep(t: Tree, len: seq<int>, bl: seq<int>, limit: nat, i: int, next: int, overflow: int,
                 val: seq<int>, short: seq<int>, n: int, p: int, lp: int, bits: int, bl2: seq<int>)
    returns (v2: seq<int>, s2: seq<int>)
    requires 0 < i < |t.order| && next == i + 1 && Passed(t, len, bl, limit, i, overflow, val, short, LeafCount(t, i))
    requires n == t.order[i] && NodeAt(t, i, n) && p == t.dad[n] && ChildAt(t, i, p) && lp == len[p] && 0 <= lp <= limit
    requires bits == Cut(lp, limit) && bl2 == if InnerNode(t, n) then bl else bl[bits := bl[bits] + 1]
    ensures Passed(t, len[n := bits], bl2, limit, next, overflow + if lp + 1 > limit then 1 else 0, v2, s2,
                   LeafCount(t, next))
  {
    NotOwed(t, len, limit, i, val, short, n);
    if lp >= limit { ShortNone(t, len, limit, i, val, short, p); }
    var v1, s1 := val[p := val[p] - Share(limit, lp)],
      short[p := if lp < limit then short[p] - Share(limit, lp) else 0];
    v2 := v1[n := if InnerNode(t, n) then 2 * Share(limit, bits) else 0];
    s2 := s1[n := if InnerNode(t, n) && bits < limit then 2 * Share(limit, bits) else 0];
    OwedSums(val, p, n, v1, v2);
    OwedSums(short, p, n, s1, s2);
    PassSums(limit, lp, bits, KraftOf(bl, limit), Weigh(bl, limit, limit), Sum(val), Sum(short), overflow,
      InnerNode(t, n));
    CountStep(bl, limit, bits);
    OwedStep(t, len, limit, i, next, val, short, n, p, bits, v2, s2);
    WithinStep(t, len, limit, i, next, n, bits);
  }

  /** When all nodes have been passed, nothing is owed. */
  lemma PassEnds(t: Tree, len: seq<int>, bl: seq<int>, limit: nat, overflow: int, val: seq<int>, short: seq<int>,
                 leaves: nat)
    requires Passed(t, len, bl, limit, |t.order|, overflow, val, short, leaves) && leaves <= Pow2(limit)
    ensures Repairable(bl, limit, overflow, leaves)
  {
    NothingOwed(t, len, limit, val, short);
  }

  lemma NothingOwed(t: Tree, len: seq<int>, limit: nat, val: seq<int>, short: seq<int>)
    requires Owed(t, len, limit, |t.order|, val, short)
    ensures Sum(val) == 0 && Sum(short) == 0
  {
    assert Key(0);
    forall v | 0 <= v < |t.dad| ensures val[v] == 0 && short[v] == 0 {
      if InnerNode(t, v) && Before(t, v, |t.order|) {
        NodeHas(t, t.at[v]);
        assert Kids(t, v, |t.order|) == 2;
      }
    }
    SumAllZero(val);
    SumAllZero(short);
  }

  /** One more than its parent's length, cut to the limit; a leaf is counted. */
  method GiveLength(len: array<int>, bl: array<int>, n: int, p: int, limit: nat, maxCode: int)
    returns (bits: int, over: int)
    requires len != bl && 0 <= n < len.Length && 0 <= p < len.Length && 0 <= len[p] <= limit < bl.Length
    modifies len, bl
    ensures bits == Cut(old(len[p]), limit) && over == (if old(len[p]) + 1 > limit then 1 else 0)
    ensures len[..] == old(len[..])[n := bits]
    ensures bl[..] == if n > maxCode then old(bl[..]) else old(bl[..])[bits := old(bl[..])[bits] + 1]
  {
    bits, over := len[p] + 1, 0;
    if bits > limit { bits, over := limit, 1; }
    len[n] := bits;
    if n > maxCode { return; }
    bl[bits] := bl[bits] + 1;
  }

  // ---- Counting leaves by length ----

  /** The leaves at places from lo to before hi that have length b. */
  ghost function Having(t: Tree, len: seq<int>, b: int, lo: int, hi: int): set<int>
    requires |len| == |t.dad| == |t.at|
  {
    set v | 0 <= v < |len| && v <= t.maxCode && lo <= t.at[v] < hi && Before(t, v, hi) && len[v] == b
  }

  ghost predicate Tallied(t: Tree, len: seq<int>, bl: seq<int>, limit: nat, lo: int, hi: int) {
    && |len| == |t.dad| == |t.at| && limit < |bl|
    && forall k {:trigger Gate(k)} :: Gate(k) ==> forall b :: 1 <= b <= limit ==> |Having(t, len, b, lo, hi)| == bl[b]
  }

  lemma TalliedNone(t: Tree, len: seq<int>, bl: seq<int>, limit: nat, lo: int, hi: int)
    requires Shaped(t) && |len| == |t.dad| && limit < |bl| && (forall b :: 1 <= b <= limit ==> bl[b] == 0)
    requires lo == hi || (lo == 0 && hi == 1)
    ensures Tallied(t, len, bl, limit, lo, hi)
  {
    NodeHas(t, 0);
    forall b | 1 <= b <= limit ensures |Having(t, len, b, lo, hi)| == bl[b] {
      assert Having(t, len, b, lo, hi) == {};
    }
  }

  /** An inner node is not counted. */
  lemma TalliedSkip(t: Tree, len: seq<int>, bl: seq<int>, limit: nat, lo: int, hi: int, i: int, n: int)
    requires Tallied(t, len, bl, limit, lo, hi) && 0 <= i < |t.order| && i == lo - 1 && n == t.order[i]
    requires NodeAt(t, i, n) && InnerNode(t, n)
    ensures Tallied(t, len, bl, limit, i, hi)
  {
    assert Gate(0);
    forall b | 1 <= b <= limit ensures |Having(t, len, b, i, hi)| == bl[b] {
      assert Having(t, len, b, i, hi) == Having(t, len, b, lo, hi);
    }
  }

  /** One more place, above the ones counted or below them. */
  lemma TalliedStep(t: Tree, len: seq<int>, bl: seq<int>, limit: nat, lo: int, hi: int, i: int, lo2: int, hi2: int,
                    n: int, bits: int, bl2: seq<int>)
    requires Tallied(t, len, bl, limit, lo, hi) && 0 <= lo <= hi <= |t.order| && 1 <= bits <= limit
    requires (i == hi && lo2 == lo && hi2 == hi + 1) || (i == lo - 1 && lo2 == i && hi2 == hi)
    requires 0 <= i < |t.order| && n == t.order[i] && NodeAt(t, i, n) && |bl2| == |bl|
    requires bl2 == if InnerNode(t, n) then bl else bl[bits := bl[bits] + 1]
    ensures Tallied(t, len[n := bits], bl2, limit, lo2, hi2)
  {
    assert Gate(0);
    var len2 := len[n := bits];
    forall b | 1 <= b <= limit ensures |Having(t, len2, b, lo2, hi2)| == bl2[b] {
      HavingStep(t, len, len2, lo, hi, i, lo2, hi2, n, bits, b);
    }
  }

  lemma HavingStep(t: Tree, len: seq<int>, len2: seq<int>, lo: int, hi: int, i: int, lo2: int, hi2: int, n: int,
                   bits: int, b: int)
    requires |len| == |t.dad| == |t.at| && 0 <= lo <= hi <= |t.order|
    requires (i == hi && lo2 == lo && hi2 == hi + 1) || (i == lo - 1 && lo2 == i && hi2 == hi)
    requires 0 <= i < |t.order| && n == t.order[i] && NodeAt(t, i, n) && len2 == len[n := bits]
    ensures |Having(t, len2, b, lo2, hi2)| == |Having(t, len, b, lo, hi)| + if b == bits && !InnerNode(t, n) then 1
      else 0
  {
    var was, now := Having(t, len, b, lo, hi), Having(t, len2, b, lo2, hi2);
    var added := b == bits && !InnerNode(t, n);
    assert n !in was;
    forall v | 0 <= v < |len| ensures v in now <==> v in was || (added && v == n) {
      HasLength(t, len, len2, lo, hi, i, lo2, hi2, n, bits, b, v);
    }
    if added { assert now == was + {n}; } else { assert now == was; }
  }

  lemma HasLength(t: Tree, len: seq<int>, len2: seq<int>, lo: int, hi: int, i: int, lo2: int, hi2: int, n: int,
                  bits: int, b: int, v: int)
    requires |len| == |t.dad| == |t.at| && 0 <= lo <= hi <= |t.order| && 0 <= v < |len|
    requires (i == hi && lo2 == lo && hi2 == hi + 1) || (i == lo - 1 && lo2 == i && hi2 == hi)
    requires 0 <= i < |t.order| && n == t.order[i] && NodeAt(t, i, n) && len2 == len[n := bits]
    ensures v in Having(t, len2, b, lo2, hi2) <==>
      v in Having(t, len, b, lo, hi) || (b == bits && !InnerNode(t, n) && v == n)
  {
    if v != n { assert t.at[v] == i ==> !Before(t, v, hi2); }
  }

  /** The leaves before place h that are still to be given a length. */
  lemma {:induction false} NoLeafBefore(t: Tree, h: int, i: int)
    requires 0 <= i < h <= |t.order| && LeafCount(t, h) == 0
    ensures InnerNode(t, t.order[i])
    decreases h
  {
    if i < h - 1 { NoLeafBefore(t, h - 1, i); }
  }

  /** Every leaf from place h on has a length within the limit. */
  ghost predicate Given(t: Tree, len: seq<int>, limit: nat, h: int) {
    && |len| == |t.dad| == |t.at|
    && forall k {:trigger Key(k)} :: Key(k) ==>
      forall v :: 0 <= v <= t.maxCode && v < |len| && Before(t, v, |t.order|) && h <= t.at[v] ==> 1 <= len[v] <= limit
  }

  lemma GivenStep(t: Tree, len: seq<int>, limit: nat, h: int, i: int, n: int, bits: int)
    requires Given(t, len, limit, h) && 0 <= i < |t.order| && h == i + 1 && n == t.order[i] && NodeAt(t, i, n)
    requires 1 <= bits <= limit
    ensures Given(t, len[n := bits], limit, i)
  {
    assert Key(0);
  }

  lemma GivenSkip(t: Tree, len: seq<int>, limit: nat, h: int, i: int, n: int)
    requires Given(t, len, limit, h) && 0 <= i < |t.order| && h == i + 1 && n == t.order[i] && NodeAt(t, i, n)
    requires InnerNode(t, n)
    ensures Given(t, len, limit, i)
  {
    assert Key(0);
  }

  // ---- The pass itself ----

  /** v is not in the tree. */
  ghost predicate Outside(t: Tree, v: int)
    requires 0 <= v < |t.at|
  {
    !Before(t, v, |t.order|)
  }

  /** Nodes not in the tree keep their length. */
  ghost predicate Untouched(t: Tree, was: seq<int>, len: seq<int>) {
    |was| == |len| == |t.at| && forall v :: 0 <= v < |t.at| && Outside(t, v) ==> len[v] == was[v]
  }

  lemma UntouchedStep(t: Tree, was: seq<int>, len: seq<int>, i: int, n: int, bits: int)
    requires Untouched(t, was, len) && 0 <= i < |t.order| && n == t.order[i] && NodeAt(t, i, n)
    ensures Untouched(t, was, len[n := bits])
  {
  }

  // ---- Depths ----

  /** How far below the root the node at place i is. */
  ghost function DepthOf(t: Tree, i: int): nat
    requires Shaped(t) && 0 <= i < |t.order|
    decreases i
  {
    if i == 0 then 0
    else
      NodeHas(t, i);
      DepthOf(t, t.at[t.dad[t.order[i]]]) + 1
  }

  /** The first h nodes are no deeper than the limit. */
  ghost predicate Shallow(t: Tree, limit: nat, h: int) {
    Shaped(t) && h <= |t.order| && forall j :: 0 <= j < h ==> DepthOf(t, j) <= limit
  }

  /** A node's length is its depth, or else the limit; and that it had to be cut is noted. */
  ghost predicate Deep(t: Tree, len: seq<int>, limit: nat, h: int, overflow: int) {
    && Shaped(t) && |len| == |t.dad| && 0 <= h <= |t.order|
    && 0 <= overflow && (overflow == 0 <==> Shallow(t, limit, h))
    && forall j :: 0 <= j < h ==> LengthIs(t, len, j, if DepthOf(t, j) <= limit then DepthOf(t, j) else limit)
  }

  ghost predicate LengthIs(t: Tree, len: seq<int>, j: int, n: int) {
    0 <= j < |t.order| && 0 <= t.order[j] < |len| && len[t.order[j]] == n
  }

  lemma DeepStep(t: Tree, len: seq<int>, limit: nat, h: int, next: int, overflow: int, n: int, lp: int, bits: int,
                 more: int)
    requires Deep(t, len, limit, h, overflow) && 0 < h < |t.order| && next == h + 1 && n == t.order[h]
    requires NodeAt(t, h, n) && ChildAt(t, h, t.dad[n]) && lp == len[t.dad[n]] && bits == Cut(lp, limit)
    requires more == overflow + if lp + 1 > limit then 1 else 0
    ensures Deep(t, len[n := bits], limit, next, more)
  {
    var p := t.at[t.dad[n]];
    assert DepthOf(t, h) == DepthOf(t, p) + 1;
    assert LengthIs(t, len, p, if DepthOf(t, p) <= limit then DepthOf(t, p) else limit);
    assert lp + 1 > limit <==> DepthOf(t, h) > limit;
    forall j | 0 <= j < next
      ensures LengthIs(t, len[n := bits], j, if DepthOf(t, j) <= limit then DepthOf(t, j) else limit)
    {
      if j < h {
        assert LengthIs(t, len, j, if DepthOf(t, j) <= limit then DepthOf(t, j) else limit);
        NodeHas(t, j);
      }
    }
    assert Shallow(t, limit, next) <==> Shallow(t, limit, h) && DepthOf(t, h) <= limit;
  }

  lemma DeepStarts(t: Tree, len: seq<int>, limit: nat)
    requires Shaped(t) && |len| == |t.dad| && 0 <= t.order[0] < |len| && len[t.order[0]] == 0
    ensures Deep(t, len, limit, 1, 0)
  {
    assert DepthOf(t, 0) == 0;
  }

  /** Below every node there is a leaf, at least as deep. */
  lemma {:induction false} LeafBelow(t: Tree, i: int) returns (j: int)
    requires Shaped(t) && 0 <= i < |t.order|
    ensures i <= j < |t.order| && !InnerNode(t, t.order[j]) && DepthOf(t, i) <= DepthOf(t, j)
    decreases |t.order| - i
  {
    var v := t.order[i];
    NodeHas(t, i);
    if InnerNode(t, v) {
      NodeHas(t, t.one[v]);
      assert DepthOf(t, t.one[v]) == DepthOf(t, i) + 1;
      j := LeafBelow(t, t.one[v]);
    } else {
      j := i;
    }
  }

  /** If no leaf is too deep, no node is. */
  lemma ShallowLeaves(t: Tree, limit: nat)
    requires Shaped(t)
    requires forall j :: 0 <= j < |t.order| && !InnerNode(t, t.order[j]) ==> DepthOf(t, j) <= limit
    ensures Shallow(t, limit, |t.order|)
  {
    forall i | 0 <= i < |t.order| ensures DepthOf(t, i) <= limit { var j := LeafBelow(t, i); }
  }

  /** All that the pass keeps, after h nodes. */
  ghost predicate Passing(t: Tree, was: seq<int>, len: seq<int>, bl: seq<int>, limit: nat, h: int, overflow: int,
                          val: seq<int>, short: seq<int>) {
    && 0 < h <= |t.order|
    && forall k {:trigger Lock(k)} :: Lock(k) ==>
      Passed(t, len, bl, limit, h, overflow, val, short, LeafCount(t, h)) && Tallied(t, len, bl, limit, 0, h)
        && Untouched(t, was, len) && Deep(t, len, limit, h, overflow)
  }

  method ClearCounts(bl: array<int>)
    modifies bl
    ensures forall b :: 0 <= b < bl.Length ==> bl[b] == 0
  {
    var bits := 0;
    while bits < bl.Length
      invariant 0 <= bits <= bl.Length && forall b :: 0 <= b < bits ==> bl[b] == 0
    {
      bl[bits] := 0;
      bits := bits + 1;
    }
  }

  /** The node at place h. */
  method PassNode(order: seq<int>, dad: seq<int>, maxCode: int, len: array<int>, bl: array<int>, limit: nat, h: int,
                  overflow: int, ghost t: Tree, ghost was: seq<int>, ghost val: seq<int>, ghost short: seq<int>)
    returns (more: int, ghost v2: seq<int>, ghost s2: seq<int>)
    requires Shaped(t) && order == t.order && dad == t.dad && maxCode == t.maxCode && len != bl && h < |order|
    requires Passing(t, was, len[..], bl[..], limit, h, overflow, val, short)
    modifies len, bl
    ensures Passing(t, was, len[..], bl[..], limit, h + 1, more, v2, s2)
  {
    assert Lock(0);
    NodeHas(t, h);
    var n := order[h];
    var p := dad[n];
    ghost var l0, b0, next := len[..], bl[..], h + 1;
    WithinAt(t, l0, limit, h, p);
    var bits, over := GiveLength(len, bl, n, p, limit, maxCode);
    v2, s2 := PassStep(t, l0, b0, limit, h, next, overflow, val, short, n, p, l0[p], bits, bl[..]);
    TalliedStep(t, l0, b0, limit, 0, h, h, 0, next, n, bits, bl[..]);
    UntouchedStep(t, was, l0, h, n, bits);
    more := overflow + over;
    DeepStep(t, l0, limit, h, next, overflow, n, l0[p], bits, more);
  }

  /** The first pass of gen_bitlen. */
  method FirstPass(order: seq<int>, dad: seq<int>, maxCode: int, len: array<int>, bl: array<int>, limit: nat,
                   ghost t: Tree)
    returns (overflow: int)
    requires Shaped(t) && order == t.order && dad == t.dad && maxCode == t.maxCode && len.Length == |dad| && len != bl
    requires 1 <= limit < bl.Length && LeafCount(t, |order|) <= Pow2(limit)
    modifies len, bl
    ensures Repairable(bl[..], limit, overflow, LeafCount(t, |order|))
    ensures Given(t, len[..], limit, 0) && Tallied(t, len[..], bl[..], limit, 0, |order|)
    ensures Untouched(t, old(len[..]), len[..]) && Deep(t, len[..], limit, |order|, overflow)
  {
    ghost var was := len[..];
    overflow := 0;
    ClearCounts(bl);
    NodeHas(t, 0);
    len[order[0]] := 0;
    ghost var val, short := PassStarts(t, len[..], bl[..], limit);
    TalliedNone(t, len[..], bl[..], limit, 0, 1);
    UntouchedStep(t, was, was, 0, order[0], 0);
    DeepStarts(t, len[..], limit);
    var h := 1;
    while h < |order|
      invariant 1 <= h <= |order| && Passing(t, was, len[..], bl[..], limit, h, overflow, val, short)
    {
      overflow, val, short := PassNode(order, dad, maxCode, len, bl, limit, h, overflow, t, was, val, short);
      h := h + 1;
    }
    assert Lock(0);
    PassEnds(t, len[..], bl[..], limit, overflow, val, short, LeafCount(t, |order|));
    WithinGiven(t, len[..], limit);
  }

  /** Every leaf comes after the root, so its length is not 0. */
  lemma WithinGiven(t: Tree, len: seq<int>, limit: nat)
    requires Shaped(t) && Within(t, len, limit, |t.order|)
    ensures Given(t, len, limit, 0)
  {
    assert Key(0);
    NodeHas(t, 0);
  }

  // ---- Giving the repaired lengths ----

  /** The leaf at place j, if there is one there, has a code of at least that many bits. */
  ghost predicate AtLeast(t: Tree, len: seq<int>, j: int, bits: int) {
    0 <= j < |t.order| && (!InnerNode(t, t.order[j]) ==> 0 <= t.order[j] < |len| && bits <= len[t.order[j]])
  }

  /** From place h on the lengths of the leaves do not fall, from `bits` on. */
  ghost predicate RisingFrom(t: Tree, len: seq<int>, h: int, bits: int) {
    && 0 <= h <= |t.order|
    && forall k {:trigger Gate(k)} :: Gate(k) ==>
      && (forall j :: h <= j < |t.order| ==> AtLeast(t, len, j, bits))
      && forall i, j {:trigger AtLeast(t, len, j, len[t.order[i]])} ::
        h <= i < j < |t.order| && !InnerNode(t, t.order[i]) && 0 <= t.order[i] < |len| ==>
        AtLeast(t, len, j, len[t.order[i]])
  }

  /** Along the order of the nodes, the most frequent first, no leaf has a shorter code than one before it. */
  ghost predicate Rising(t: Tree, len: seq<int>) {
    forall i, j :: 0 <= i < j < |t.order| && !InnerNode(t, t.order[i]) && !InnerNode(t, t.order[j]) ==>
      && 0 <= t.order[i] < |len| && 0 <= t.order[j] < |len| && len[t.order[i]] <= len[t.order[j]]
  }

  lemma RisingNext(t: Tree, len: seq<int>, h: int, bits: int, next: int)
    requires RisingFrom(t, len, h, bits) && next <= bits
    ensures RisingFrom(t, len, h, next)
  {
    assert Gate(0);
    forall j | h <= j < |t.order| ensures AtLeast(t, len, j, next) { assert AtLeast(t, len, j, bits); }
  }

  lemma RisingSkip(t: Tree, len: seq<int>, h: int, bits: int, i: int)
    requires RisingFrom(t, len, h, bits) && h == i + 1 && 0 <= i && InnerNode(t, t.order[i])
    ensures RisingFrom(t, len, i, bits)
  {
    assert Gate(0);
  }

  lemma RisingGive(t: Tree, len: seq<int>, h: int, bits: int, i: int, m: int)
    requires Shaped(t) && RisingFrom(t, len, h, bits) && h == i + 1 && 0 <= i && m == t.order[i] && NodeAt(t, i, m)
    requires |len| == |t.dad|
    ensures RisingFrom(t, len[m := bits], i, bits)
  {
    assert Gate(0);
    var now := len[m := bits];
    forall j | i < j < |t.order| ensures 0 <= t.order[j] < |len| && t.order[j] != m { NodeHas(t, j); }
    forall j | i <= j < |t.order| ensures AtLeast(t, now, j, bits) { if j > i { assert AtLeast(t, len, j, bits); } }
    forall a, j {:trigger AtLeast(t, now, j, now[t.order[a]])}
      | i <= a < j < |t.order| && !InnerNode(t, t.order[a]) && 0 <= t.order[a] < |now|
      ensures AtLeast(t, now, j, now[t.order[a]])
    {
      if a > i { assert AtLeast(t, len, j, len[t.order[a]]); } else { assert AtLeast(t, now, j, bits); }
    }
  }

  lemma RisingAll(t: Tree, len: seq<int>, h: int)
    requires Shaped(t) && |len| == |t.dad| && RisingFrom(t, len, h, 0) && LeafCount(t, h) == 0
    ensures Rising(t, len)
  {
    assert Gate(0);
    forall i, j | 0 <= i < j < |t.order| && !InnerNode(t, t.order[i]) && !InnerNode(t, t.order[j])
      ensures 0 <= t.order[i] < |len| && 0 <= t.order[j] < |len| && len[t.order[i]] <= len[t.order[j]]
    {
      NodeHas(t, i);
      if i < h { NoLeafBefore(t, h, i); }
      assert AtLeast(t, len, j, len[t.order[i]]);
    }
  }

  /** The counts of the lengths from bits + 1 on, and c of length bits. */
  ghost function GivenOut(bl: seq<int>, bits: int, c: int): (r: seq<int>)
    ensures |r| == |bl|
  {
    seq(|bl|, b requires 0 <= b < |bl| => if b > bits then bl[b] else if b == bits then c else 0)
  }

  /** From place h on every leaf has its length; before it n leaves get `bits` and the others what is shorter. */
  ghost predicate Giving(t: Tree, was: seq<int>, len: seq<int>, bl: seq<int>, limit: nat, h: int, bits: int, n: int) {
    && 0 <= h <= |t.order| && 0 <= bits <= limit < |bl| && 0 <= n <= bl[bits]
    && forall k {:trigger Lock(k)} :: Lock(k) ==>
      && Tallied(t, len, GivenOut(bl, bits, bl[bits] - n), limit, h, |t.order|) && Given(t, len, limit, h)
      && Untouched(t, was, len) && RisingFrom(t, len, h, bits)
      && LeafCount(t, h) == Total(bl, bits) + n
  }

  lemma GivingStarts(t: Tree, was: seq<int>, len: seq<int>, bl: seq<int>, limit: nat, leaves: nat)
    requires Shaped(t) && |len| == |t.dad| && Repairable(bl, limit, 0, leaves) && leaves == LeafCount(t, |t.order|)
    requires Untouched(t, was, len)
    ensures Giving(t, was, len, bl, limit, |t.order|, limit, bl[limit])
  {
    TalliedNone(t, len, GivenOut(bl, limit, 0), limit, |t.order|, |t.order|);
  }

  /** A shorter length is next. */
  lemma GivingNext(t: Tree, was: seq<int>, len: seq<int>, bl: seq<int>, limit: nat, h: int, bits: int, next: int)
    requires Giving(t, was, len, bl, limit, h, bits, 0) && bits >= 1 && next == bits - 1 && Counts(bl)
    ensures Giving(t, was, len, bl, limit, h, next, bl[next])
  {
    assert Lock(0);
    assert GivenOut(bl, bits, bl[bits]) == GivenOut(bl, next, 0);
    RisingNext(t, len, h, bits, next);
  }

  /** There is a node left while there are lengths to give. */
  lemma LeavesLeft(t: Tree, was: seq<int>, len: seq<int>, bl: seq<int>, limit: nat, h: int, bits: int, n: int)
    requires Giving(t, was, len, bl, limit, h, bits, n) && n > 0 && Counts(bl)
    ensures h > 0
  {
    assert Lock(0);
    TotalNonNegative(bl, bits);
  }

  lemma {:induction false} TotalNonNegative(bl: seq<int>, n: nat)
    requires n <= |bl| && Counts(bl)
    ensures Total(bl, n) >= 0
  {
    if n > 0 { TotalNonNegative(bl, n - 1); }
  }

  lemma GivingSkips(t: Tree, was: seq<int>, len: seq<int>, bl: seq<int>, limit: nat, h: int, bits: int, n: int,
                    i: int, m: int)
    requires Giving(t, was, len, bl, limit, h, bits, n) && h == i + 1 && 0 <= i && m == t.order[i] && NodeAt(t, i, m)
    requires InnerNode(t, m)
    ensures Giving(t, was, len, bl, limit, i, bits, n)
  {
    assert Lock(0);
    TalliedSkip(t, len, GivenOut(bl, bits, bl[bits] - n), limit, h, |t.order|, i, m);
    GivenSkip(t, len, limit, h, i, m);
    RisingSkip(t, len, h, bits, i);
  }

  lemma GivingGives(t: Tree, was: seq<int>, len: seq<int>, bl: seq<int>, limit: nat, h: int, bits: int, n: int,
                    i: int, m: int, left: int)
    requires Giving(t, was, len, bl, limit, h, bits, n) && h == i + 1 && 0 <= i && m == t.order[i] && NodeAt(t, i, m)
    requires !InnerNode(t, m)
    requires |len| == |t.dad| && Shaped(t)
    requires 1 <= bits && n > 0 && left == n - 1
    ensures Giving(t, was, len[m := bits], bl, limit, i, bits, left)
  {
    assert Lock(0);
    var out, c := GivenOut(bl, bits, bl[bits] - n), bl[bits] - left;
    assert out[bits := out[bits] + 1] == GivenOut(bl, bits, c);
    TalliedStep(t, len, out, limit, h, |t.order|, i, i, |t.order|, m, bits, GivenOut(bl, bits, c));
    GivenStep(t, len, limit, h, i, m, bits);
    UntouchedStep(t, was, len, i, m, bits);
    RisingGive(t, len, h, bits, i, m);
  }

  /** When all lengths have been given, every leaf has one. */
  lemma GivingEnds(t: Tree, was: seq<int>, len: seq<int>, bl: seq<int>, limit: nat, h: int)
    requires Giving(t, was, len, bl, limit, h, 0, 0) && bl[0] == 0 && Shaped(t)
    ensures LeafCount(t, h) == 0 && Given(t, len, limit, 0) && Tallied(t, len, bl, limit, 0, |t.order|)
    ensures Untouched(t, was, len) && (|len| == |t.dad| ==> Rising(t, len))
  {
    assert Lock(0);
    if |len| == |t.dad| { RisingAll(t, len, h); }
    assert GivenOut(bl, 0, 0) == GivenOut(bl, 0, bl[0]);
    NoLeavesBelow(t, len, limit, h, GivenOut(bl, 0, 0), bl);
  }

  lemma NoLeavesBelow(t: Tree, len: seq<int>, limit: nat, h: int, out: seq<int>, bl: seq<int>)
    requires Shaped(t) && 0 <= h <= |t.order| && LeafCount(t, h) == 0 && |out| == |bl|
    requires forall b :: 1 <= b <= limit < |bl| ==> out[b] == bl[b]
    requires Given(t, len, limit, h) && Tallied(t, len, out, limit, h, |t.order|)
    ensures Given(t, len, limit, 0) && Tallied(t, len, bl, limit, 0, |t.order|)
  {
    assert Gate(0) && Key(0);
    forall v | 0 <= v <= t.maxCode && v < |len| && Before(t, v, |t.order|) ensures h <= t.at[v] {
      if t.at[v] < h { NoLeafBefore(t, h, t.at[v]); }
    }
    forall b | 1 <= b <= limit ensures |Having(t, len, b, 0, |t.order|)| == bl[b] {
      assert Having(t, len, b, 0, |t.order|) == Having(t, len, b, h, |t.order|);
    }
  }

  /** The repaired lengths go to the leaves, the longest to the least frequent; no leaf is left over. */
  method Reassign(order: seq<int>, maxCode: int, len: array<int>, bl: array<int>, limit: nat, ghost t: Tree)
    requires Shaped(t) && order == t.order && maxCode == t.maxCode && len.Length == |t.dad| && len != bl
    requires Repairable(bl[..], limit, 0, LeafCount(t, |order|))
    modifies len
    ensures Given(t, len[..], limit, 0) && Tallied(t, len[..], bl[..], limit, 0, |order|)
    ensures Untouched(t, old(len[..]), len[..]) && Rising(t, len[..])
  {
    ghost var was, c := len[..], bl[..];
    GivingStarts(t, was, was, c, limit, LeafCount(t, |order|));
    var h, bits := |order|, limit;
    while bits != 0
      invariant 0 <= bits <= limit && Giving(t, was, len[..], c, limit, h, bits, c[bits])
    {
      h := GiveBits(order, maxCode, len, bl[bits], bits, limit, h, t, was, c);
      GivingNext(t, was, len[..], c, limit, h, bits, bits - 1);
      bits := bits - 1;
    }
    GivingEnds(t, was, len[..], c, limit, h);
    assert bl[..] == c;
  }

  /** n leaves, from place h down, get the length `bits`. */
  method GiveBits(order: seq<int>, maxCode: int, len: array<int>, count: int, bits: int, limit: nat, h0: int,
                  ghost t: Tree, ghost was: seq<int>, ghost c: seq<int>)
    returns (h: int)
    requires Shaped(t) && order == t.order && maxCode == t.maxCode && len.Length == |t.dad| && 1 <= bits && Counts(c)
    requires Giving(t, was, len[..], c, limit, h0, bits, count)
    modifies len
    ensures Giving(t, was, len[..], c, limit, h, bits, 0)
  {
    var n := count;
    h := h0;
    while n != 0
      invariant 0 <= n && Giving(t, was, len[..], c, limit, h, bits, n)
      decreases h
    {
      LeavesLeft(t, was, len[..], c, limit, h, bits, n);
      ghost var i, l0 := h - 1, len[..];
      h := h - 1;
      NodeHas(t, h);
      var m := order[h];
      if m > maxCode {
        GivingSkips(t, was, l0, c, limit, i + 1, bits, n, i, m);
      } else {
        GivingGives(t, was, l0, c, limit, i + 1, bits, n, i, m, n - 1);
        if len[m] != bits { len[m] := bits; }
        assert len[..] == l0[m := bits];
        n := n - 1;
      }
    }
  }

  /**
   * gen_bitlen. Every leaf ends with a length within the limit, bl counts the leaves
   * of each length, and the lengths make a complete code. In a tree that is nowhere
   * deeper than the limit, the lengths are the depths.
   */
  method GenBitLen(order: seq<int>, dad: seq<int>, maxCode: int, len: array<int>, bl: array<int>, limit: nat,
                   ghost t: Tree)
    requires Shaped(t) && order == t.order && dad == t.dad && maxCode == t.maxCode && len.Length == |dad| && len != bl
    requires 1 <= limit < bl.Length && LeafCount(t, |order|) <= Pow2(limit)
    modifies len, bl
    ensures Given(t, len[..], limit, 0) && Tallied(t, len[..], bl[..], limit, 0, |order|)
    ensures Untouched(t, old(len[..]), len[..])
    ensures Counts(bl[..]) && bl[0] == 0 && KraftOf(bl[..], limit) == Pow2(limit)
    ensures Total(bl[..], limit + 1) == LeafCount(t, |order|)
    ensures NoneLonger(bl[..], limit)
    ensures Shallow(t, limit, |order|) ==> Deep(t, len[..], limit, |order|, 0)
    ensures !Shallow(t, limit, |order|) ==> Rising(t, len[..])
  {
    hide Shallow;
    ghost var was := len[..];
    var overflow := FirstPass(order, dad, maxCode, len, bl, limit, t);
    if overflow == 0 { return; }
    ghost var l1 := len[..];
    Repair(bl, limit, overflow, LeafCount(t, |order|));
    assert len[..] == l1;
    Reassign(order, maxCode, len, bl, limit, t);
    UntouchedThen(t, was, l1, len[..]);
  }

  lemma UntouchedThen(t: Tree, a: seq<int>, b: seq<int>, c: seq<int>)
    requires Untouched(t, a, b) && Untouched(t, b, c)
    ensures Untouched(t, a, c)
  {
  }
}
