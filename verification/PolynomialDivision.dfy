/**
 * Long division of polynomials over two elements, by the polynomial of CRC-32 (section 8 of RFC 1952):
 * a string of bits is the polynomial with these coefficients, that of the highest power first.
 */
module PolynomialDivision {
  import opened Bits

  const DEGREE := 32

  /** The exponents of the divisor, but for that of x^32. */
  predicate IsTerm(e: int) { e in {26, 23, 22, 16, 12, 11, 10, 8, 7, 5, 4, 2, 1, 0} }

  function Divisor(): (d: bits)
    ensures |d| == DEGREE
  {
    seq(DEGREE, i requires 0 <= i < DEGREE => IsTerm(DEGREE - 1 - i))
  }

  /** The sum of m and d, from the highest power of m on. */
  function Plus(m: bits, d: bits): (r: bits)
    requires |d| <= |m|
    ensures |r| == |m|
  {
    seq(|m|, i requires 0 <= i < |m| => if i < |d| then m[i] != d[i] else m[i])
  }

  /** Long division: while the highest coefficient is 1, the divisor is taken away there. */
  function Remainder(m: bits): (r: bits)
    requires |m| >= DEGREE
    ensures |r| == DEGREE
    decreases |m|
  {
    if |m| == DEGREE then m else Remainder(if m[0] then Plus(m[1..], Divisor()) else m[1..])
  }

  // ---- A register that takes the bits one by one ----

  function Step(r: bits, b: bool): (r': bits)
    requires |r| == DEGREE
    ensures |r'| == DEGREE
  {
    if r[0] != b then Plus(r[1..] + [false], Divisor()) else r[1..] + [false]
  }

  function Steps(r: bits, m: bits): (r': bits)
    requires |r| == DEGREE
    ensures |r'| == DEGREE
    decreases |m|
  {
    if m == [] then r else Steps(Step(r, m[0]), m[1..])
  }

  lemma {:induction false} StepsAppend(r: bits, m: bits, n: bits)
    requires |r| == DEGREE
    ensures Steps(r, m + n) == Steps(Steps(r, m), n)
    decreases |m|
  {
    if m == [] {
      assert m + n == n;
    } else {
      assert (m + n)[0] == m[0] && (m + n)[1..] == m[1..] + n;
      StepsAppend(Step(r, m[0]), m[1..], n);
    }
  }

  /** One step of the register is one step of the division. */
  lemma StepDivides(r: bits, m: bits)
    requires |r| == DEGREE && m != []
    ensures Remainder(Plus(m + Zeros(DEGREE), r)) == Remainder(Plus(m[1..] + Zeros(DEGREE), Step(r, m[0])))
  {
    var s, t := Plus(m + Zeros(DEGREE), r), Plus(m[1..] + Zeros(DEGREE), Step(r, m[0]));
    assert s[0] == (r[0] != m[0]);
    hide IsTerm;
    if s[0] { assert Plus(s[1..], Divisor()) == t; } else { assert s[1..] == t; }
  }

  /** The register ends with the remainder of the message, 32 zeros behind it, with what the register held on top. */
  lemma {:induction false} StepsDivide(r: bits, m: bits)
    requires |r| == DEGREE
    ensures Steps(r, m) == Remainder(Plus(m + Zeros(DEGREE), r))
    decreases |m|
  {
    if m == [] {
      assert Plus(m + Zeros(DEGREE), r) == r;
    } else {
      StepDivides(r, m);
      StepsDivide(Step(r, m[0]), m[1..]);
    }
  }
}
