/** Facts about bytes, permutations and finite sums shared by every stage. */
module Common {
  type byte = b: int | 0 <= b < 256

  const MAX_ALPHA_SIZE := 258

  /** One more than the largest number of 32 bits. */
  const WORD := 0x1_0000_0000

  /**
   * Two idioms keep proofs small. A property stated as `forall k :: Key(k) ==> P`
   * is P, but a proof sees into it only after naming a key. There are four kinds of
   * key, so that a proof that opens one property does not see into the others it
   * meets: Key for steps of the machines, Seal for what a method hands on, Gate for
   * the invariants of objects as their callers see them, Lock for what is hardly
   * ever looked into. And a predicate whose body ends in `var holds := P; holds` is
   * P, but is proved and used as a whole, and not once for each of its conjuncts.
   */
  ghost predicate Key(k: int) { true }

  ghost predicate Seal(k: int) { true }

  ghost predicate Gate(k: int) { true }

  ghost predicate Lock(k: int) { true }

  /** `s` has no repeated element. */
  ghost predicate Distinct<T>(s: seq<T>) {
    forall i, j :: 0 <= i < j < |s| ==> s[i] != s[j]
  }

  /** `p` lists 0..n-1 in some order. */
  ghost predicate IsPerm(p: seq<int>, n: nat) {
    && |p| == n
    && (forall i :: 0 <= i < n ==> 0 <= p[i] < n)
    && Distinct(p)
  }

  ghost function Elems<T>(s: seq<T>): set<T> { set x | x in s }

  /** The set {0, ..., n-1}. */
  ghost function Range(n: nat): (r: set<int>)
    ensures forall x :: x in r <==> 0 <= x < n
    ensures |r| == n
  {
    if n == 0 then {} else Range(n - 1) + {n - 1}
  }

  lemma {:induction false} DistinctSize<T>(s: seq<T>)
    requires Distinct(s)
    ensures |Elems(s)| == |s|
  {
    if s == [] {
      assert Elems(s) == {};
    } else {
      var n := |s| - 1;
      assert s == s[..n] + [s[n]];
      DistinctSize(s[..n]);
      assert Elems(s) == Elems(s[..n]) + {s[n]};
    }
  }

  lemma SubsetSize<T>(a: set<T>, b: set<T>)
    requires a <= b
    ensures |a| <= |b|
    ensures |a| == |b| ==> a == b
  {
    assert b == a + (b - a);
    assert |b| == |a| + |b - a|;
  }

  /** A permutation reaches every index. */
  lemma PermOnto(p: seq<int>, n: nat, x: int)
    requires IsPerm(p, n) && 0 <= x < n
    ensures x in p
  {
    DistinctSize(p);
    assert Elems(p) <= Range(n);
    SubsetSize(Elems(p), Range(n));
    assert x in Elems(p);
  }

  function Sum(s: seq<int>): int {
    if s == [] then 0 else Sum(s[..|s| - 1]) + s[|s| - 1]
  }

  lemma {:induction false} SumAppend(a: seq<int>, b: seq<int>)
    ensures Sum(a + b) == Sum(a) + Sum(b)
  {
    if b == [] {
      assert a + b == a;
    } else {
      var n := |b| - 1;
      assert (a + b)[..|a + b| - 1] == a + b[..n];
      SumAppend(a, b[..n]);
    }
  }

  lemma {:induction false} SumUpdate(s: seq<int>, i: int, v: int)
    requires 0 <= i < |s|
    ensures Sum(s[i := v]) == Sum(s) - s[i] + v
  {
    var n := |s| - 1;
    if i == n {
      assert s[i := v][..n] == s[..n];
    } else {
      assert s[i := v][..n] == s[..n][i := v];
      SumUpdate(s[..n], i, v);
    }
  }

  lemma MulMono(a: int, b: int, c: int)
    requires a <= b && 0 <= c
    ensures a * c <= b * c
  {
  }

  function Pow2(n: nat): nat { if n == 0 then 1 else 2 * Pow2(n - 1) }

  lemma {:induction false} Pow2Add(a: nat, b: nat)
    ensures Pow2(a + b) == Pow2(a) * Pow2(b)
  {
    if a > 0 {
      Pow2Add(a - 1, b);
      assert Pow2(a + b) == 2 * Pow2(a - 1 + b);
      assert Pow2(a) * Pow2(b) == 2 * (Pow2(a - 1) * Pow2(b)) by {
        assert Pow2(a) == 2 * Pow2(a - 1);
      }
    }
  }

  lemma Pow2Sum(a: nat, b: nat, ab: nat)
    requires ab == a + b
    ensures Pow2(ab) == Pow2(a) * Pow2(b)
  {
    Pow2Add(a, b);
  }

  lemma {:induction false} Pow2Mono(a: nat, b: nat)
    requires a <= b
    ensures 1 <= Pow2(a) <= Pow2(b)
    decreases b
  {
    if a < b {
      Pow2Mono(a, b - 1);
    } else if a > 0 {
      Pow2Mono(a - 1, b - 1);
    }
  }

  lemma SmallPowers()
    ensures Pow2(2) == 4 && Pow2(3) == 8 && Pow2(5) == 32 && Pow2(15) == 0x8000
  {
    Pow2Add(5, 5);
    Pow2Add(10, 5);
  }

  // ---- Sequences ----

  function Swapped(s: seq<int>, i: int, j: int): (r: seq<int>)
    requires 0 <= i < |s| && 0 <= j < |s|
    ensures |r| == |s|
  {
    s[i := s[j]][j := s[i]]
  }

  lemma Associates<T>(ab: seq<T>, a: seq<T>, b: seq<T>, c: seq<T>)
    requires ab == a + b
    ensures ab + c == a + (b + c)
  {
  }

  function Blank(n: nat): (s: seq<int>)
    ensures |s| == n
  {
    seq(n, _ => 0)
  }

  lemma {:induction false} SumBlank(n: nat)
    ensures Sum(Blank(n)) == 0
  {
    if n > 0 {
      assert Blank(n)[..n - 1] == Blank(n - 1);
      SumBlank(n - 1);
    }
  }

  /** Numbers below 256 as bytes. */
  function AsBytes(len: seq<int>): (r: seq<byte>)
    requires forall i :: 0 <= i < |len| ==> 0 <= len[i] < 256
    ensures |r| == |len| && r == len
  {
    seq(|len|, i requires 0 <= i < |len| => len[i])
  }
}
