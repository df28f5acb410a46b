/** The Kraft sum of a set of code lengths, scaled to a whole number. */
module KraftSum {
  import opened Common

  /** Sum over the symbols of 2^(scale - length). */
  ghost function Kraft(len: seq<int>, scale: nat): nat
    requires forall i :: 0 <= i < |len| ==> 0 <= len[i] <= scale
  {
    if len == [] then 0 else Kraft(len[..|len| - 1], scale) + Pow2(scale - len[|len| - 1])
  }

  lemma {:induction false} KraftDoubles(len: seq<int>, scale: nat)
    requires forall i :: 0 <= i < |len| ==> 0 <= len[i] <= scale
    ensures Kraft(len, scale + 1) == 2 * Kraft(len, scale)
  {
    if len != [] { KraftDoubles(len[..|len| - 1], scale); }
  }

  lemma {:induction false} KraftRescale(len: seq<int>, a: nat, b: nat)
    requires a <= b && forall i :: 0 <= i < |len| ==> 0 <= len[i] <= a
    ensures Kraft(len, a) == Pow2(a) <==> Kraft(len, b) == Pow2(b)
    decreases b
  {
    if a < b {
      KraftRescale(len, a, b - 1);
      KraftDoubles(len, b - 1);
    }
  }

  lemma {:induction false} KraftIsSum(len: seq<int>, scale: nat, val: seq<int>)
    requires |val| == |len| && forall i :: 0 <= i < |len| ==> 0 <= len[i] <= scale && val[i] == Pow2(scale - len[i])
    ensures Kraft(len, scale) == Sum(val)
  {
    if len != [] { KraftIsSum(len[..|len| - 1], scale, val[..|val| - 1]); }
  }

  /** The share of the codes no longer than n, scaled to 2^n. */
  ghost function Partial(len: seq<int>, n: nat): nat
    requires forall i :: 0 <= i < |len| ==> 0 <= len[i]
  {
    if len == [] then 0
    else Partial(len[..|len| - 1], n) + if len[|len| - 1] <= n then Pow2(n - len[|len| - 1]) else 0
  }

  lemma {:induction false} PartialWithinKraft(len: seq<int>, n: nat, scale: nat)
    requires n <= scale && forall i :: 0 <= i < |len| ==> 0 <= len[i] <= scale
    ensures Partial(len, n) * Pow2(scale - n) <= Kraft(len, scale)
  {
    if len != [] {
      var init, l := len[..|len| - 1], len[|len| - 1];
      PartialWithinKraft(init, n, scale);
      if l <= n {
        Pow2Add(n - l, scale - n);
        Distribute(Partial(init, n), Pow2(n - l), Pow2(scale - n));
      }
    }
  }

  lemma Distribute(a: int, b: int, c: int)
    ensures (a + b) * c == a * c + b * c
  {
  }

  lemma MulCancel(a: int, b: int, c: int)
    requires a * c <= b * c && c >= 1
    ensures a <= b
  {
    if a > b {
      MulMono(b + 1, a, c);
      Distribute(b, 1, c);
    }
  }

  /** A set of lengths that satisfies Kraft leaves room for every code. */
  lemma KraftBoundsPartial(len: seq<int>, n: nat, scale: nat)
    requires n <= scale && forall i :: 0 <= i < |len| ==> 0 <= len[i] <= scale
    requires Kraft(len, scale) <= Pow2(scale)
    ensures Partial(len, n) <= Pow2(n)
  {
    var d := scale - n;
    PartialWithinKraft(len, n, scale);
    Pow2Add(n, d);
    Pow2Mono(0, d);
    MulCancel(Partial(len, n), Pow2(n), Pow2(d));
  }
}
