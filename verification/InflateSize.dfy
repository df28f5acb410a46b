/** How large inflate's tables are: the sub-tables have as many index bits as their longest code needs. */
module InflateSize {
  import opened Common
  import opened Bits
  import opened KraftSum
  import opened HuffmanCodes
  import opened SortedCodes
  import opened InflateEntries

  /** Code j is a long one with the root bits of code k. */
  ghost predicate Shares(c: Job, k: nat, j: nat) {
    k < |c.u| && j < |c.u| && Long(c, k) && Long(c, j) && Top(c, j) == Top(c, k)
  }

  /** The longest of the codes k to n - 1 that have the root bits of the k-th. */
  ghost function LongestOf(c: Job, k: nat, n: nat): (r: nat)
    requires k < n <= |c.u| && Long(c, k)
    ensures r > c.root
    decreases n
  {
    if n == k + 1 then LenAt(c.u, k)
    else
      var r := LongestOf(c, k, n - 1);
      if Shares(c, k, n - 1) && LenAt(c.u, n - 1) > r then LenAt(c.u, n - 1) else r
  }

  /** The index bits of the sub-table that the k-th code begins. */
  ghost function SubBits(c: Job, k: nat): nat
    requires k < |c.u| && Long(c, k)
  {
    LongestOf(c, k, |c.u|) - c.root
  }

  /** The entries of the root table, and of the sub-tables that the first n codes begin. */
  ghost function TableSize(c: Job, n: nat): nat
    requires n <= |c.u|
  {
    if n == 0 then Pow2(c.root)
    else TableSize(c, n - 1) + if NewTop(c, n - 1) then Pow2(SubBits(c, n - 1)) else 0
  }

  lemma {:induction false} SizeMono(c: Job, m: nat, n: nat)
    requires m <= n <= |c.u|
    ensures TableSize(c, m) <= TableSize(c, n)
    decreases n
  {
    if m < n { SizeMono(c, m, n - 1); }
  }

  lemma {:induction false} LongestIs(c: Job, k: nat, n: nat, j: nat, m: nat)
    requires k < n <= |c.u| && Long(c, k) && k <= j < |c.u| && Shares(c, k, j) && LenAt(c.u, j) == m
    requires forall i :: k <= i < n && Shares(c, k, i) ==> LenAt(c.u, i) <= m
    ensures LongestOf(c, k, n) <= m && (j < n ==> LongestOf(c, k, n) == m)
    decreases n
  {
    hide LenAt, Top, Long;
    assert Shares(c, k, k) by { SharesItself(c, k); }
    if n > k + 1 { LongestIs(c, k, n - 1, j, m); }
  }

  lemma SharesItself(c: Job, k: nat)
    requires k < |c.u| && Long(c, k)
    ensures Shares(c, k, k)
  {
  }

  /** Codes of up to n bits end before longer ones begin. */
  lemma {:induction false} EndGrows(u: seq<byte>, l: nat, n: nat)
    requires 1 <= l <= n
    ensures End(u, l) * Pow2(n - l) <= End(u, n)
    decreases n
  {
    if l == n {
      assert Pow2(0) == 1;
    } else {
      EndGrows(u, l, n - 1);
      FirstStep(u, 1, n, n - 1);
      MulDouble(End(u, l), Pow2(n - 1 - l));
    }
  }

  /** If the codes of n bits end before the root bits of the k-th code do, a longer code has these root bits. */
  lemma LastInTop(c: Job, k: nat, n: nat, curr: nat) returns (j: nat)
    requires Good(c) && Full(c.u, c.max) && k < |c.u| && Long(c, k) && n == c.root + curr && n <= c.max
    requires End(c.u, n) < (Value(Top(c, k)) + 1) * Pow2(curr) && LenAt(c.u, k) <= n
    ensures k <= j && Shares(c, k, j) && LenAt(c.u, j) > n
  {
    var w := Top(c, k) + Ones(c.max - c.root);
    j := SomeWord(c.u, c.max, w);
    CodeAtFits(c.u, c.max, j);
    ShortEnds(c, k, n, curr, j, w);
    assert WordAt(c.u, j) == w[..LenAt(c.u, j)];
    assert Top(c, j) == Top(c, k);
    if j < k { LenMono(c.u, j, k); }
  }

  /** If a code of up to n bits begins the last string of the root bits, the codes of n bits reach their end. */
  lemma ShortEnds(c: Job, k: nat, n: nat, curr: nat, j: nat, w: bits)
    requires Good(c) && k < |c.u| && Long(c, k) && n == c.root + curr && n <= c.max
    requires j < |c.u| && 1 <= LenAt(c.u, j) && w == Top(c, k) + Ones(c.max - c.root) && WordAt(c.u, j) <= w
    ensures LenAt(c.u, j) <= n ==> End(c.u, n) >= (Value(Top(c, k)) + 1) * Pow2(curr)
  {
    var l, v := LenAt(c.u, j), w[..n];
    if l <= n {
      WordBegins(c, j, l, v, w);
      CutOnes(Top(c, k), c.max - c.root, curr, v, w);
      CodeEnds(c.u, j);
      hide Pow2, Value, CodeAt, End, Good, LenAt, Top, Long, WordAt;
      TopOnes(Top(c, k), curr, v);
      BelowNext(v, l, n - l);
      EndGrows(c.u, l, n);
      EndsAfter(Value(v[..l]), Value(v), End(c.u, l), End(c.u, n), Pow2(n - l));
    }
  }

  lemma CodeEnds(u: seq<byte>, j: nat)
    requires j < |u|
    ensures CodeAt(u, j) + 1 <= End(u, LenAt(u, j))
  {
    CodeAtIs(u, j);
  }

  lemma WordBegins(c: Job, j: nat, l: nat, v: bits, w: bits)
    requires Good(c) && j < |c.u| && l == LenAt(c.u, j) <= |v| && v <= w && WordAt(c.u, j) <= w
    ensures Value(v[..l]) == CodeAt(c.u, j)
  {
    assert v[..l] == WordAt(c.u, j);
    CodeAtFits(c.u, c.max, j);
    ValueSpell(CodeAt(c.u, j), l);
  }

  lemma CutOnes(top: bits, more: nat, curr: nat, v: bits, w: bits)
    requires w == top + Ones(more) && curr <= more && v == w[..|top| + curr]
    ensures v == top + Ones(curr)
  {
  }

  lemma EndsAfter(code: nat, v: nat, end: nat, endN: nat, p: nat)
    requires v < (code + 1) * p && code + 1 <= end && end * p <= endN
    ensures v + 1 <= endN
  {
    MulMono(code + 1, end, p);
  }

  lemma BelowNext(v: bits, l: nat, d: nat)
    requires |v| == l + d
    ensures Value(v) < (Value(v[..l]) + 1) * Pow2(d)
  {
    assert v == v[..l] + v[l..];
    ValueAppend(v[..l], v[l..]);
    ValueBound(v[l..]);
    hide Value, Pow2;
    Distribute(Value(v[..l]), 1, Pow2(d));
  }

  lemma TopOnes(top: bits, curr: nat, v: bits)
    requires v == top + Ones(curr)
    ensures Value(v) + 1 == (Value(top) + 1) * Pow2(curr)
  {
    ValueAppend(top, Ones(curr));
    ValueOnes(curr);
    hide Value, Pow2;
    Distribute(Value(top), 1, Pow2(curr));
  }

  /** The look-ahead gives a sub-table exactly the bits it needs. */
  lemma SizeIs(c: Job, k: nat, curr: nat, before: nat)
    requires Good(c) && Full(c.u, c.max) && k < |c.u| && Long(c, k) && Enough(c, k, curr)
    requires LenAt(c.u, k) <= c.root + curr <= c.max
    requires LenAt(c.u, k) < c.root + curr ==> before + 1 == curr && NotYet(c, k, before)
    ensures SubBits(c, k) == curr
  {
    var j := k;
    if LenAt(c.u, k) < c.root + curr { j := LastInTop(c, k, c.root + before, before); }
    assert Key(0);
    LongestIs(c, k, |c.u|, j, c.root + curr);
  }

  /** The size depends on the lengths and the root index alone. */
  lemma {:induction false} SizeSame(c: Job, c2: Job, n: nat)
    requires c.u == c2.u && c.root == c2.root && n <= |c.u|
    ensures TableSize(c, n) == TableSize(c2, n)
    decreases n
  {
    hide LongestOf, LenAt, Top;
    if n > 0 {
      SizeSame(c, c2, n - 1);
      SameTop(c, c2, n - 1);
      if NewTop(c, n - 1) { LongestSame(c, c2, n - 1, |c.u|); }
    }
  }

  lemma SameTop(c: Job, c2: Job, k: nat)
    requires c.u == c2.u && c.root == c2.root && k < |c.u|
    ensures NewTop(c, k) <==> NewTop(c2, k)
  {
  }

  lemma {:induction false} LongestSame(c: Job, c2: Job, k: nat, n: nat)
    requires c.u == c2.u && c.root == c2.root && k < n <= |c.u| && Long(c, k)
    ensures LongestOf(c, k, n) == LongestOf(c2, k, n)
    decreases n
  {
    if n > k + 1 {
      LongestSame(c, c2, k, n - 1);
      assert Shares(c, k, n - 1) <==> Shares(c2, k, n - 1);
    }
  }
}
