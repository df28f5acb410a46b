/** Bit strings, most significant bit first, and the numbers they spell. */
module Bits {
  import opened Common

  type bits = seq<bool>

  function Bit(b: bool): nat { if b then 1 else 0 }

  function Value(s: bits): nat {
    if s == [] then 0 else 2 * Value(s[..|s| - 1]) + Bit(s[|s| - 1])
  }

  /** The n low bits of v. */
  function Spell(v: nat, n: nat): (s: bits)
    ensures |s| == n
    decreases n, v
  {
    if n == 0 then [] else Spell(v / 2, n - 1) + [v % 2 == 1]
  }

  lemma {:induction false} ValueBound(s: bits)
    ensures Value(s) < Pow2(|s|)
  {
    if s != [] { ValueBound(s[..|s| - 1]); }
  }

  lemma MulDouble(a: int, p: int)
    ensures a * (2 * p) == 2 * (a * p)
  {
  }

  lemma {:induction false} ValueAppend(a: bits, b: bits)
    ensures Value(a + b) == Value(a) * Pow2(|b|) + Value(b)
  {
    if b == [] {
      assert a + b == a;
    } else {
      var n, c := |b| - 1, b[..|b| - 1];
      assert (a + b)[..|a + b| - 1] == a + c;
      ValueAppend(a, c);
      MulDouble(Value(a), Pow2(n));
      assert Pow2(|b|) == 2 * Pow2(n);
    }
  }

  lemma {:induction false} ValueSpell(v: nat, n: nat)
    requires v < Pow2(n)
    ensures Value(Spell(v, n)) == v
  {
    if n > 0 {
      ValueSpell(v / 2, n - 1);
      assert Spell(v, n)[..n - 1] == Spell(v / 2, n - 1);
    }
  }

  lemma SpellSnoc(v: nat, b: bool, n: nat)
    ensures Spell(2 * v + Bit(b), n + 1) == Spell(v, n) + [b]
  {
    assert (2 * v + Bit(b)) / 2 == v && (2 * v + Bit(b)) % 2 == Bit(b);
  }

  lemma {:induction false} SpellValue(s: bits)
    ensures Spell(Value(s), |s|) == s
  {
    if s != [] {
      var n := |s| - 1;
      SpellValue(s[..n]);
      SpellSnoc(Value(s[..n]), s[n], n);
    }
  }

  /** A prefix of the spelling of v spells v without its low bits. */
  lemma SpellPrefix(v: nat, n: nat, m: nat)
    requires m <= n && v < Pow2(n)
    ensures Value(Spell(v, n)[..m]) * Pow2(n - m) <= v < Value(Spell(v, n)[..m]) * Pow2(n - m) + Pow2(n - m)
  {
    var s := Spell(v, n);
    var a, b := s[..m], s[m..];
    assert s == a + b && |b| == n - m;
    ValueSpell(v, n);
    ValueAppend(a, b);
    ValueBound(b);
  }

  // ---- Lowest bit first ----

  /** The n low bits of v, lowest first: the order in which a number is sent. */
  function LowFirst(v: nat, n: nat): (s: bits)
    ensures |s| == n
    decreases n, v
  {
    if n == 0 then [] else [v % 2 == 1] + LowFirst(v / 2, n - 1)
  }

  ghost function Reversed(s: bits): (r: bits)
    ensures |r| == |s|
  {
    seq(|s|, i requires 0 <= i < |s| => s[|s| - 1 - i])
  }

  lemma {:induction false} LowFirstReversed(v: nat, n: nat)
    ensures LowFirst(v, n) == Reversed(Spell(v, n))
    decreases n
  {
    if n > 0 {
      LowFirstReversed(v / 2, n - 1);
      var s := Spell(v / 2, n - 1);
      assert Reversed(s + [v % 2 == 1]) == [v % 2 == 1] + Reversed(s);
    }
  }

  /** A number whose bits have been reversed is sent, lowest bit first, as the number is spelled. */
  lemma SentInOrder(v: nat, n: nat)
    ensures LowFirst(Value(LowFirst(v, n)), n) == Spell(v, n)
  {
    var s := LowFirst(v, n);
    LowFirstReversed(v, n);
    LowFirstReversed(Value(s), n);
    SpellValue(s);
    assert Reversed(Reversed(Spell(v, n))) == Spell(v, n);
  }

  /** The number that a string spells lowest bit first. */
  function LowValue(s: bits): (v: nat)
    decreases |s|
  {
    if s == [] then 0 else Bit(s[0]) + 2 * LowValue(s[1..])
  }

  lemma {:induction false} LowValueBound(s: bits)
    ensures LowValue(s) < Pow2(|s|)
    decreases |s|
  {
    if s != [] { LowValueBound(s[1..]); }
  }

  lemma {:induction false} LowFirstValue(s: bits)
    ensures LowFirst(LowValue(s), |s|) == s
    decreases |s|
  {
    if s != [] {
      LowFirstValue(s[1..]);
      var v := LowValue(s);
      assert v / 2 == LowValue(s[1..]) && v % 2 == Bit(s[0]);
    }
  }

  /** Numbers below 2^n with the same bits are the same. */
  lemma {:induction false} LowFirstInjective(v: nat, h: nat, n: nat)
    requires LowFirst(v, n) == LowFirst(h, n) && v < Pow2(n) && h < Pow2(n)
    ensures v == h
    decreases n
  {
    if n > 0 {
      assert LowFirst(v, n)[0] == LowFirst(h, n)[0];
      assert LowFirst(v, n)[1..] == LowFirst(v / 2, n - 1) && LowFirst(h, n)[1..] == LowFirst(h / 2, n - 1);
      LowFirstInjective(v / 2, h / 2, n - 1);
    }
  }

  /** lo + 2^m * hi spells lo and then hi. */
  lemma {:induction false} LowFirstParts(v: nat, lo: nat, hi: nat, m: nat, n: nat, both: nat)
    requires lo < Pow2(m) && v == lo + Pow2(m) * hi && both == m + n
    ensures LowFirst(v, both) == LowFirst(lo, m) + LowFirst(hi, n)
    decreases m
  {
    if m == 0 {
      assert LowFirst(lo, 0) == [] && v == hi;
    } else {
      var p := Pow2(m - 1);
      assert Pow2(m) * hi == 2 * (p * hi);
      Halves(v, lo, p * hi);
      LowFirstParts(v / 2, lo / 2, hi, m - 1, n, both - 1);
    }
  }

  lemma Halves(v: nat, lo: nat, x: nat)
    requires v == lo + 2 * x
    ensures v / 2 == lo / 2 + x && v % 2 == lo % 2
  {
  }

  ghost function Zeros(n: nat): (s: bits)
    ensures |s| == n
  {
    seq(n, _ => false)
  }

  ghost function Ones(n: nat): (s: bits)
    ensures |s| == n
  {
    seq(n, _ => true)
  }

  lemma {:induction false} ValueZeros(n: nat)
    ensures Value(Zeros(n)) == 0
  {
    if n > 0 {
      assert Zeros(n)[..n - 1] == Zeros(n - 1);
      ValueZeros(n - 1);
    }
  }

  lemma {:induction false} ValueOnes(n: nat)
    ensures Value(Ones(n)) == Pow2(n) - 1
  {
    if n > 0 {
      assert Ones(n)[..n - 1] == Ones(n - 1);
      ValueOnes(n - 1);
    }
  }

  lemma {:induction false} LowFirstZero(n: nat)
    ensures LowFirst(0, n) == Zeros(n)
  {
    if n > 0 {
      LowFirstZero(n - 1);
      assert Zeros(n) == [false] + Zeros(n - 1);
    }
  }

  /** Counting on: the trailing ones of a string become zeros, and the zero before them a one. */
  lemma Increment(a: bits, q: nat)
    ensures Value(a + [true] + Zeros(q)) == Value(a + [false] + Ones(q)) + 1
  {
    var x, y := a + [true], a + [false];
    ValueAppend(x, Zeros(q));
    ValueAppend(y, Ones(q));
    ValueZeros(q);
    ValueOnes(q);
    assert x[..|a|] == a && y[..|a|] == a;
    Carry(Value(x), Value(y), Pow2(q));
  }

  lemma Carry(x: nat, y: nat, p: nat)
    requires x == y + 1
    ensures x * p == y * p + p
  {
  }
}
