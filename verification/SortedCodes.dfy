/**
 * The codes of section 3.2.2 of RFC 1951 in the order in which inflate enters them
 * in its tables: by length, then by symbol. Each code is the one before it plus
 * one, extended with zeros to its own length.
 */
module SortedCodes {
  import opened Common
  import opened Counting
  import opened Bits
  import opened KraftSum
  import opened HuffmanCodes

  /** The lengths of the codes, none of them 0. */
  ghost predicate Ordered(u: seq<byte>, max: nat) { CodeSet(u, 1, max) && max <= 15 }

  /** Codes that fill the code space exactly. */
  ghost predicate Full(u: seq<byte>, max: nat) { Ordered(u, max) && Kraft(u, max) == Pow2(max) }

  /** The length of the k-th code. */
  ghost function LenAt(u: seq<byte>, k: nat): byte
    requires k < |u|
  {
    u[Row(u, k)]
  }

  ghost function CodeAt(u: seq<byte>, k: nat): nat
    requires k < |u|
  {
    Code(u, 1, Row(u, k))
  }

  /** The first code of length n beyond those of length n: where longer codes begin. */
  ghost function End(u: seq<byte>, n: nat): nat { First(u, 1, n) + Count(u, n) }

  lemma CodeAtIs(u: seq<byte>, k: nat)
    requires k < |u|
    ensures var l := LenAt(u, k);
      CountBelow(u, l) <= k < CountBelow(u, l) + Count(u, l) && CodeAt(u, k) == First(u, 1, l) + (k - CountBelow(u, l))
  {
    var i := Row(u, k);
    assert u[..|u|] == u;
    CountPrefix(u, i, |u|, u[i]);
  }

  /** Places of different lengths do not overlap. */
  lemma LenFromPlace(u: seq<byte>, k: nat, l: nat)
    requires k < |u| && CountBelow(u, l) <= k < CountBelow(u, l) + Count(u, l)
    ensures LenAt(u, k) == l
  {
    CodeAtIs(u, k);
    var c: int := LenAt(u, k);
    CountBelowStep(u, c);
    CountBelowStep(u, l);
    if c < l { CountBelowMono(u, c + 1, l); }
    if l < c { CountBelowMono(u, l + 1, c); }
  }

  /** Lengths that no code has only shift the numbering. */
  lemma {:induction false} FirstSkips(u: seq<byte>, l: nat, m: nat)
    requires 1 <= l < m && forall b :: l < b < m ==> Count(u, b) == 0
    ensures First(u, 1, m) == End(u, l) * Pow2(m - l)
    decreases m
  {
    var e := End(u, l);
    if m == l + 1 {
      assert Pow2(1) == 2;
    } else {
      FirstSkips(u, l, m - 1);
      MulDouble(e, Pow2(m - 1 - l));
    }
  }

  lemma NoneBetween(u: seq<byte>, l: nat, m: nat, b: nat)
    requires CountBelow(u, l + 1) == CountBelow(u, m) && l < b < m
    ensures Count(u, b) == 0
  {
    CountBelowMono(u, l + 1, b);
    CountBelowMono(u, b + 1, m);
    CountBelowStep(u, b);
  }

  /** The codes in order. */
  lemma NextCode(u: seq<byte>, k: nat, next: nat)
    requires next == k + 1 < |u| && forall i :: 0 <= i < |u| ==> 1 <= u[i]
    ensures LenAt(u, k) <= LenAt(u, next) && CodeAt(u, next) == (CodeAt(u, k) + 1) * Pow2(LenAt(u, next) - LenAt(u, k))
    ensures LenAt(u, k) < LenAt(u, next) ==> CodeAt(u, k) + 1 == End(u, LenAt(u, k))
  {
    var l: int, m: int := LenAt(u, k), LenAt(u, next);
    CodeAtIs(u, k);
    CodeAtIs(u, next);
    CountBelowStep(u, l);
    if next < CountBelow(u, l + 1) {
      LenFromPlace(u, next, l);
      assert Pow2(0) == 1;
    } else {
      if m < l { CountBelowStep(u, m); CountBelowMono(u, m + 1, l); }
      assert m != l;
      CountBelowMono(u, l + 1, m);
      forall b | l < b < m ensures Count(u, b) == 0 { NoneBetween(u, l, m, b); }
      FirstSkips(u, l, m);
    }
  }

  /** The first code is all zeros. */
  lemma FirstCode(u: seq<byte>)
    requires u != [] && forall i :: 0 <= i < |u| ==> 1 <= u[i]
    ensures CodeAt(u, 0) == 0
  {
    CodeAtIs(u, 0);
    FirstZero(u, LenAt(u, 0));
  }

  lemma {:induction false} FirstZero(u: seq<byte>, l: nat)
    requires CountBelow(u, l) == 0
    ensures First(u, 1, l) == 0
  {
    if l > 1 {
      CountBelowStep(u, l - 1);
      FirstZero(u, l - 1);
    }
  }

  /** The last code ends the code space. */
  lemma LastCode(u: seq<byte>, max: nat, k: nat)
    requires Full(u, max) && k == |u| - 1
    ensures LenAt(u, k) == max && CodeAt(u, k) + 1 == Pow2(max)
  {
    CountAtLeastOne(u, max);
    AllBelow(u, max + 1);
    CountBelowStep(u, max);
    LenFromPlace(u, k, max);
    CodeAtIs(u, k);
    FirstIsPartial(u, 1, max);
    AllPartial(u, max);
  }

  lemma {:induction false} AllPartial(u: seq<int>, n: nat)
    requires forall i :: 0 <= i < |u| ==> 0 <= u[i] <= n
    ensures Partial(u, n) == Kraft(u, n)
  {
    if u != [] { AllPartial(u[..|u| - 1], n); }
  }

  /** Every code fits its length. */
  lemma CodeAtFits(u: seq<byte>, max: nat, k: nat)
    requires Ordered(u, max) && k < |u|
    ensures 1 <= LenAt(u, k) <= max && CodeAt(u, k) < Pow2(LenAt(u, k))
  {
    CodeFits(u, 1, max, Row(u, k));
  }

  /** The k-th code as bits. */
  ghost function WordAt(u: seq<byte>, k: nat): (w: bits)
    requires k < |u|
    ensures |w| == LenAt(u, k)
  {
    Spell(CodeAt(u, k), LenAt(u, k))
  }

  /** No code is a prefix of another. */
  lemma WordsApart(u: seq<byte>, max: nat, j: nat, k: nat)
    requires Ordered(u, max) && j < |u| && k < |u| && j != k
    ensures !(WordAt(u, j) <= WordAt(u, k))
  {
    if WordAt(u, j) <= WordAt(u, k) { PrefixFree(u, 1, max, Row(u, j), Row(u, k)); }
  }

  /** Codes grow along the order: none comes before the end of the shorter ones. */
  lemma CodeFrom(u: seq<byte>, k: nat, m: nat)
    requires k < |u| && 1 <= m < LenAt(u, k)
    ensures CodeAt(u, k) >= End(u, m) * Pow2(LenAt(u, k) - m)
  {
    CodeAtIs(u, k);
    FirstGrows(u, 1, m, LenAt(u, k));
  }

  // ---- Every string begins with a code ----

  /** Where the k-th code begins, in units of 2^-max. */
  ghost function StartOf(u: seq<byte>, max: nat, k: nat): nat
    requires k < |u| && LenAt(u, k) <= max
  {
    CodeAt(u, k) * Pow2(max - LenAt(u, k))
  }

  lemma NextStart(u: seq<byte>, max: nat, k: nat, next: nat)
    requires Ordered(u, max) && next == k + 1 < |u|
    ensures LenAt(u, k) <= max && LenAt(u, next) <= max
    ensures StartOf(u, max, next) == (CodeAt(u, k) + 1) * Pow2(max - LenAt(u, k))
  {
    CodeAtFits(u, max, k);
    CodeAtFits(u, max, next);
    NextCode(u, k, next);
    var l: int, m: int := LenAt(u, k), LenAt(u, next);
    Pow2Add(m - l, max - m);
    MulAssociates(CodeAt(u, k) + 1, Pow2(m - l), Pow2(max - m), Pow2(max - l));
  }

  lemma MulAssociates(a: nat, b: nat, c: nat, bc: nat)
    requires bc == b * c
    ensures a * b * c == a * bc
  {
  }

  /** Some code at or before the k-th contains v, if v lies before the end of the k-th. */
  lemma {:induction false} CodeContaining(u: seq<byte>, max: nat, k: nat, v: nat) returns (j: nat)
    requires Full(u, max) && k < |u| && LenAt(u, k) <= max && v < (CodeAt(u, k) + 1) * Pow2(max - LenAt(u, k))
    ensures j <= k && LenAt(u, j) <= max && StartOf(u, max, j) <= v < (CodeAt(u, j) + 1) * Pow2(max - LenAt(u, j))
  {
    j := k;
    if v < StartOf(u, max, k) {
      if k == 0 {
        FirstCode(u);
        assert false;
      }
      NextStart(u, max, k - 1, k);
      j := CodeContaining(u, max, k - 1, v);
    }
  }

  /** A full code leaves no string without one: every string of max bits begins with exactly one word. */
  lemma SomeWord(u: seq<byte>, max: nat, s: bits) returns (j: nat)
    requires Full(u, max) && |s| >= max
    ensures j < |u| && WordAt(u, j) <= s
  {
    var v, k := Value(s[..max]), |u| - 1;
    ValueBound(s[..max]);
    LastCode(u, max, k);
    assert Pow2(0) == 1;
    j := CodeContaining(u, max, k, v);
    PrefixByValue(s, max, LenAt(u, j), CodeAt(u, j), v);
  }

  lemma PrefixByValue(s: bits, max: nat, l: nat, c: nat, v: nat)
    requires l <= max <= |s| && v == Value(s[..max]) && c * Pow2(max - l) <= v < (c + 1) * Pow2(max - l)
    ensures Spell(c, l) <= s
  {
    var a, b, p := s[..l], s[l..max], Pow2(max - l);
    assert s[..max] == a + b;
    ValueAppend(a, b);
    ValueBound(b);
    Between(Value(a), c, p, Value(b), v);
    SpellValue(a);
  }

  lemma Between(a: nat, c: nat, p: nat, b: nat, v: nat)
    requires v == a * p + b && b < p && c * p <= v < (c + 1) * p
    ensures a == c
  {
    if a < c { MulMono(a + 1, c, p); Distribute(a, 1, p); }
    if c < a { MulMono(c + 1, a, p); }
  }
}
