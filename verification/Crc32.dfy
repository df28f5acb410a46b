/**
 * zlib's CRC-32. A 32-bit word is the sequence of its bits, least significant
 * first, and exclusive or is addition of such vectors. Everything rests on one
 * operator, the step of the register over a zero bit, being linear.
 */
module Crc32 {
  import opened Common
  import Bits
  import Division = PolynomialDivision

  const DIM := 32

  type word = w: seq<bool> | |w| == DIM witness seq(DIM, _ => false)

  function Zero(): word { seq(DIM, _ => false) }

  function Ones(): word { seq(DIM, _ => true) }

  function Xor(a: word, b: word): word { seq(DIM, i requires 0 <= i < DIM => a[i] != b[i]) }

  /** w >> k. */
  function Shr(w: word, k: nat): word
    requires k <= DIM
  {
    w[k..] + seq(k, _ => false)
  }

  lemma XorLaws(a: word, b: word, c: word)
    ensures Xor(a, Xor(b, c)) == Xor(Xor(a, b), c) && Xor(a, b) == Xor(b, a) && Xor(a, Zero()) == a
    ensures Xor(a, a) == Zero()
  {
  }

  lemma XorTwice(a: word, b: word)
    ensures Xor(Xor(a, b), b) == a
  {
  }

  lemma XorSwap(a: word, b: word, c: word)
    ensures Xor(Xor(a, b), c) == Xor(Xor(a, c), b)
  {
  }

  lemma XorFour(a: word, b: word, c: word, d: word)
    ensures Xor(Xor(a, b), Xor(c, d)) == Xor(Xor(a, c), Xor(b, d))
  {
  }

  lemma ShrXor(a: word, b: word, k: nat)
    requires k <= DIM
    ensures Shr(Xor(a, b), k) == Xor(Shr(a, k), Shr(b, k))
  {
  }

  /** The polynomial 0xedb88320, by the exponents of its terms: bit 31 - e for each e. */
  function Terms(): seq<nat> { [0, 1, 2, 4, 5, 7, 8, 10, 11, 12, 16, 22, 23, 26] }

  function Poly(): word { seq(DIM, i requires 0 <= i < DIM => 31 - i in Terms()) }

  /** The register over one zero bit. */
  function ZeroBit(c: word): word { if c[0] then Xor(Poly(), Shr(c, 1)) else Shr(c, 1) }

  /** The register over n zero bits. */
  function ZeroBits(c: word, n: nat): word
    decreases n, c
  {
    if n == 0 then c else ZeroBits(ZeroBit(c), n - 1)
  }

  lemma ZeroBitLinear(a: word, b: word)
    ensures ZeroBit(Xor(a, b)) == Xor(ZeroBit(a), ZeroBit(b))
  {
    var p, s, t := Poly(), Shr(a, 1), Shr(b, 1);
    ShrXor(a, b, 1);
    XorLaws(p, s, t);
    XorLaws(s, p, t);
    XorFour(p, s, p, t);
    XorLaws(p, p, p);
    XorLaws(Xor(s, t), Zero(), p);
  }

  lemma {:induction false} ZeroBitsLinear(a: word, b: word, n: nat)
    ensures ZeroBits(Xor(a, b), n) == Xor(ZeroBits(a, n), ZeroBits(b, n))
    decreases n
  {
    if n > 0 {
      ZeroBitLinear(a, b);
      ZeroBitsLinear(ZeroBit(a), ZeroBit(b), n - 1);
    }
  }

  lemma {:induction false} ZeroBitsAdd(c: word, m: nat, n: nat)
    ensures ZeroBits(c, m + n) == ZeroBits(ZeroBits(c, m), n)
    decreases m
  {
    if m > 0 { ZeroBitsAdd(ZeroBit(c), m - 1, n); }
  }

  lemma {:induction false} ZeroBitsZero(n: nat)
    ensures ZeroBits(Zero(), n) == Zero()
  {
    if n > 0 {
      assert Shr(Zero(), 1) == Zero();
      ZeroBitsZero(n - 1);
    }
  }

  /** Zero bits at the bottom are only shifted out. */
  lemma {:induction false} ZeroBitsShift(c: word, k: nat)
    requires k <= DIM && forall i :: 0 <= i < k ==> !c[i]
    ensures ZeroBits(c, k) == Shr(c, k)
    decreases k
  {
    if k == 0 {
      assert Shr(c, 0) == c;
    } else {
      var d := Shr(c, 1);
      assert ZeroBit(c) == d;
      ZeroBitsShift(d, k - 1);
      assert Shr(d, k - 1) == Shr(c, k);
    }
  }

  // ---- Tables ----

  /** The low n bits of w, and the others. */
  function Low(w: word, n: nat): word
    requires n <= DIM
  {
    w[..n] + seq(DIM - n, _ => false)
  }

  function High(w: word, n: nat): word
    requires n <= DIM
  {
    seq(n, _ => false) + w[n..]
  }

  lemma LowHigh(w: word, n: nat)
    requires n <= DIM
    ensures w == Xor(Low(w, n), High(w, n)) && Shr(High(w, n), n) == Shr(w, n)
  {
  }

  /** crc_table[0]: eight steps from the index. */
  function Table(index: word): word { ZeroBits(index, 8) }

  /** A table lookup and a shift are the register over eight zero bits. */
  lemma TableStep(x: word)
    ensures Xor(Table(Low(x, 8)), Shr(x, 8)) == ZeroBits(x, 8)
  {
    LowHigh(x, 8);
    ZeroBitsLinear(Low(x, 8), High(x, 8), 8);
    ZeroBitsShift(High(x, 8), 8);
  }

  // ---- Bytes ----

  /** The byte b, k bytes up in a word. */
  function InPlace(b: byte, k: nat): word
    requires k <= 3
  {
    seq(8 * k, _ => false) + Bits.LowFirst(b, 8) + seq(24 - 8 * k, _ => false)
  }

  /** The register over one byte. */
  function AfterByte(c: word, b: byte): word { ZeroBits(Xor(c, InPlace(b, 0)), 8) }

  function Register(c: word, s: seq<byte>): word {
    if s == [] then c else AfterByte(Register(c, s[..|s| - 1]), s[|s| - 1])
  }

  /** The CRC of a string. */
  function Crc(s: seq<byte>): word { Xor(Register(Ones(), s), Ones()) }

  lemma {:induction false} RegisterAppend(c: word, s: seq<byte>, t: seq<byte>)
    ensures Register(c, s + t) == Register(Register(c, s), t)
  {
    if t == [] {
      assert s + t == s;
    } else {
      var n := |t| - 1;
      assert (s + t)[..|s + t| - 1] == s + t[..n];
      RegisterAppend(c, s, t[..n]);
    }
  }

  /** DO1: a table lookup on the low byte, and a shift. */
  method DoOne(c: word, b: byte) returns (r: word)
    ensures r == AfterByte(c, b)
  {
    var x := Xor(c, InPlace(b, 0));
    TableStep(x);
    assert Shr(c, 8) == Shr(x, 8);
    r := Xor(Table(Low(x, 8)), Shr(c, 8));
  }

  lemma RegisterSnoc(c: word, buf: seq<byte>, i: nat, j: nat)
    requires i < |buf| && j == i + 1
    ensures Register(c, buf[..j]) == AfterByte(Register(c, buf[..i]), buf[i])
  {
    assert buf[..j][..i] == buf[..i];
  }

  /** Bytes i to n - 1, one after the other. */
  method OverBytes(c: word, buf: seq<byte>, i: nat, n: nat, ghost c0: word) returns (r: word)
    requires i <= n <= |buf| && c == Register(c0, buf[..i])
    ensures r == Register(c0, buf[..n])
  {
    r := c;
    var k := i;
    while k < n
      invariant i <= k <= n && r == Register(c0, buf[..k])
    {
      ghost var next := k + 1;
      RegisterSnoc(c0, buf, k, next);
      r := DoOne(r, buf[k]);
      k := k + 1;
    }
  }

  /** crc32, a byte at a time, eight bytes to a turn while there are eight. */
  method Bytewise(crc: word, buf: seq<byte>) returns (r: word)
    ensures r == Xor(Register(Xor(crc, Ones()), buf), Ones())
  {
    ghost var c0 := Xor(crc, Ones());
    var c, i := Xor(crc, Ones()), 0;
    while |buf| - i >= 8
      invariant 0 <= i <= |buf| && c == Register(c0, buf[..i])
    {
      c := OverBytes(c, buf, i, i + 8, c0);
      i := i + 8;
    }
    c := OverBytes(c, buf, i, |buf|, c0);
    assert buf[..|buf|] == buf;
    r := Xor(c, Ones());
  }

  /** A CRC may be computed in parts. */
  lemma CrcContinues(x: seq<byte>, y: seq<byte>)
    ensures Xor(Register(Xor(Crc(x), Ones()), y), Ones()) == Crc(x + y)
  {
    var r := Register(Ones(), x);
    XorTwice(r, Ones());
    RegisterAppend(Ones(), x, y);
  }

  // ---- The polynomial ----

  lemma SamePolynomial()
    ensures Poly() == Division.Divisor()
  {
    forall i | 0 <= i < DIM ensures Poly()[i] == Division.Divisor()[i] { SameTerm(31 - i); }
  }

  lemma SameTerm(e: int)
    ensures e in Terms() <==> Division.IsTerm(e)
  {
  }

  /** Bits to come, at the top of a word. */
  function OnTop(m: seq<bool>): word
    requires |m| <= DIM
  {
    m + seq(DIM - |m|, _ => false)
  }

  /** Bits that are added to the register before the steps. */
  lemma {:induction false} AddedBits(c: word, m: seq<bool>, n: nat)
    requires n == |m| <= DIM
    ensures ZeroBits(Xor(c, OnTop(m)), n) == Division.Steps(c, m)
    decreases n
  {
    if m == [] {
      assert Xor(c, OnTop(m)) == c;
    } else {
      var x, next := Xor(c, OnTop(m)), Division.Step(c, m[0]);
      SamePolynomial();
      hide Division.Divisor, Poly;
      assert ZeroBit(x) == Xor(next, OnTop(m[1..]));
      AddedBits(next, m[1..], n - 1);
    }
  }

  /** The bits of a string, each byte's lowest first. */
  function LowBits(s: seq<byte>): seq<bool> {
    if s == [] then [] else LowBits(s[..|s| - 1]) + Bits.LowFirst(s[|s| - 1], 8)
  }

  lemma {:induction false} RegisterSteps(c: word, s: seq<byte>)
    ensures Register(c, s) == Division.Steps(c, LowBits(s))
  {
    if s != [] {
      var n := |s| - 1;
      RegisterSteps(c, s[..n]);
      var r, m := Register(c, s[..n]), Bits.LowFirst(s[n], 8);
      assert InPlace(s[n], 0) == OnTop(m);
      AddedBits(r, m, 8);
      Division.StepsAppend(c, LowBits(s[..n]), m);
    }
  }

  /**
   * The CRC is the complement of the remainder of the message by the polynomial of section 8 of RFC 1952,
   * when the message has its first 32 bits complemented and 32 zeros behind it.
   */
  lemma IsRemainder(s: seq<byte>)
    ensures Crc(s) == Xor(Division.Remainder(Division.Plus(LowBits(s) + Bits.Zeros(32), Ones())), Ones())
  {
    RegisterSteps(Ones(), s);
    Division.StepsDivide(Ones(), LowBits(s));
  }

  // ---- Four bytes at a time ----

  /** The tables for a byte followed by k zero bytes, as they are generated from the first. */
  function TableK(index: word, k: nat): word {
    if k == 0 then Table(index) else Xor(Table(Low(TableK(index, k - 1), 8)), Shr(TableK(index, k - 1), 8))
  }

  lemma {:induction false} TableKBits(index: word, k: nat)
    ensures TableK(index, k) == ZeroBits(index, 8 * k + 8)
  {
    if k > 0 {
      TableKBits(index, k - 1);
      TableStep(TableK(index, k - 1));
      ZeroBitsAdd(index, 8 * k, 8);
    }
  }

  /** A byte that comes after k others can be added k bytes up before them. */
  lemma AddedEarly(x: word, b: byte, k: nat)
    requires k <= 3
    ensures Xor(ZeroBits(x, 8 * k), InPlace(b, 0)) == ZeroBits(Xor(x, InPlace(b, k)), 8 * k)
  {
    ZeroBitsLinear(x, InPlace(b, k), 8 * k);
    ZeroBitsShift(InPlace(b, k), 8 * k);
    assert Shr(InPlace(b, k), 8 * k) == InPlace(b, 0);
  }

  function WordOf(a: byte, b: byte, c: byte, d: byte): word {
    Xor(Xor(InPlace(a, 0), InPlace(b, 1)), Xor(InPlace(c, 2), InPlace(d, 3)))
  }

  /** The register over four bytes is 32 steps from their word. */
  lemma FourBytes(r: word, a: byte, b: byte, c: byte, d: byte)
    ensures AfterByte(AfterByte(AfterByte(AfterByte(r, a), b), c), d) == ZeroBits(Xor(r, WordOf(a, b, c, d)), 32)
  {
    var x0 := Xor(r, InPlace(a, 0));
    var x1 := Xor(x0, InPlace(b, 1));
    var x2 := Xor(x1, InPlace(c, 2));
    var x3 := Xor(x2, InPlace(d, 3));
    AddedEarly(x0, b, 1);
    ZeroBitsAdd(x1, 8, 8);
    AddedEarly(x1, c, 2);
    ZeroBitsAdd(x2, 16, 8);
    AddedEarly(x2, d, 3);
    ZeroBitsAdd(x3, 24, 8);
    assert x3 == Xor(r, WordOf(a, b, c, d));
  }

  /** One byte of a word, taken down to the bottom. */
  function ByteOf(x: word, k: nat): word
    requires k <= 3
  {
    Low(Shr(x, 8 * k), 8)
  }

  /** The k-th byte of a word, in its place. */
  function Slice(x: word, k: nat): word
    requires k <= 3
  {
    seq(DIM, i requires 0 <= i < DIM => 8 * k <= i < 8 * k + 8 && x[i])
  }

  lemma SliceDown(x: word, k: nat, n: nat)
    requires k <= 3 && n == 8 * k
    ensures Shr(Slice(x, k), n) == ByteOf(x, k) && forall i :: 0 <= i < n ==> !Slice(x, k)[i]
  {
  }

  lemma SliceSteps(x: word, k: nat)
    requires k <= 3
    ensures ZeroBits(Slice(x, k), 32) == TableK(ByteOf(x, k), 3 - k)
  {
    hide TableK;
    var y, n, m := Slice(x, k), 8 * k, 8 * (3 - k) + 8;
    SliceDown(x, k, n);
    ZeroBitsAdd(y, n, m);
    ZeroBitsShift(y, n);
    TableKBits(ByteOf(x, k), 3 - k);
  }

  /** DOLIT4: four table lookups are 32 steps. */
  lemma FourLookups(x: word)
    ensures Xor(Xor(TableK(ByteOf(x, 0), 3), TableK(ByteOf(x, 1), 2)),
      Xor(TableK(ByteOf(x, 2), 1), TableK(ByteOf(x, 3), 0))) == ZeroBits(x, 32)
  {
    var a, b, c, d := Slice(x, 0), Slice(x, 1), Slice(x, 2), Slice(x, 3);
    assert x == Xor(Xor(a, b), Xor(c, d));
    SliceSteps(x, 0);
    SliceSteps(x, 1);
    SliceSteps(x, 2);
    SliceSteps(x, 3);
    ZeroBitsLinear(Xor(a, b), Xor(c, d), 32);
    ZeroBitsLinear(a, b, 32);
    ZeroBitsLinear(c, d, 32);
  }

  method DoFour(r: word, a: byte, b: byte, c: byte, d: byte) returns (s: word)
    ensures s == AfterByte(AfterByte(AfterByte(AfterByte(r, a), b), c), d)
  {
    var x := Xor(r, WordOf(a, b, c, d));
    FourLookups(x);
    FourBytes(r, a, b, c, d);
    s := Xor(Xor(TableK(ByteOf(x, 0), 3), TableK(ByteOf(x, 1), 2)),
      Xor(TableK(ByteOf(x, 2), 1), TableK(ByteOf(x, 3), 0)));
  }

  lemma RegisterFour(c: word, buf: seq<byte>, i: nat)
    requires i + 4 <= |buf|
    ensures Register(c, buf[..i + 4]) ==
      AfterByte(AfterByte(AfterByte(AfterByte(Register(c, buf[..i]), buf[i]), buf[i + 1]), buf[i + 2]), buf[i + 3])
  {
    RegisterSnoc(c, buf, i, i + 1);
    RegisterSnoc(c, buf, i + 1, i + 2);
    RegisterSnoc(c, buf, i + 2, i + 3);
    RegisterSnoc(c, buf, i + 3, i + 4);
  }

  /** crc32_little: bytes up to an aligned address, then words, then the bytes left over. */
  method Wordwise(crc: word, buf: seq<byte>, misaligned: nat) returns (r: word)
    ensures r == Xor(Register(Xor(crc, Ones()), buf), Ones())
  {
    ghost var c0 := Xor(crc, Ones());
    var i := if misaligned < |buf| then misaligned else |buf|;
    assert buf[..0] == [];
    var c := OverBytes(Xor(crc, Ones()), buf, 0, i, c0);
    while |buf| - i >= 4
      invariant 0 <= i <= |buf| && c == Register(c0, buf[..i])
    {
      RegisterFour(c0, buf, i);
      c := DoFour(c, buf[i], buf[i + 1], buf[i + 2], buf[i + 3]);
      i := i + 4;
    }
    c := OverBytes(c, buf, i, |buf|, c0);
    assert buf[..|buf|] == buf;
    r := Xor(c, Ones());
  }

  // ---- Combining ----

  /** The vector with bit k alone. */
  function Unit(k: nat): word { seq(DIM, i => i == k) }

  /** The sum of the rows of mat that the first n bits of v select. */
  ghost function Selected(mat: seq<word>, v: word, n: nat): word
    requires |mat| == DIM && n <= DIM
  {
    if n == 0 then Zero() else if v[n - 1] then Xor(Selected(mat, v, n - 1), mat[n - 1]) else Selected(mat, v, n - 1)
  }

  /** mat is the operator for n zero bits. */
  ghost predicate Operator(mat: seq<word>, n: nat) {
    |mat| == DIM && forall k :: 0 <= k < DIM ==> mat[k] == ZeroBits(Unit(k), n)
  }

  lemma BelowStep(v: word, n: nat, m: nat)
    requires n < DIM && m == n + 1
    ensures Low(v, m) == if v[n] then Xor(Low(v, n), Unit(n)) else Low(v, n)
  {
  }

  lemma {:induction false} SelectedApplies(mat: seq<word>, v: word, n: nat, zeros: nat)
    requires Operator(mat, zeros) && n <= DIM
    ensures Selected(mat, v, n) == ZeroBits(Low(v, n), zeros)
    decreases n
  {
    if n == 0 {
      assert Low(v, 0) == Zero();
      ZeroBitsZero(zeros);
    } else {
      SelectedApplies(mat, v, n - 1, zeros);
      BelowStep(v, n - 1, n);
      ZeroBitsLinear(Low(v, n - 1), Unit(n - 1), zeros);
    }
  }

  lemma {:induction false} SelectedRest(mat: seq<word>, v: word, n: nat, m: nat)
    requires |mat| == DIM && n <= m <= DIM && forall i :: n <= i < DIM ==> !v[i]
    ensures Selected(mat, v, m) == Selected(mat, v, n)
    decreases m
  {
    if n < m { SelectedRest(mat, v, n, m - 1); }
  }

  /** gf2_matrix_times. */
  method MatrixTimes(mat: array<word>, vec: word, ghost zeros: nat) returns (sum: word)
    requires Operator(mat[..], zeros)
    ensures sum == ZeroBits(vec, zeros)
  {
    ghost var m := mat[..];
    var v, i := vec, 0;
    sum := Zero();
    assert Shr(vec, 0) == vec;
    while v != Zero()
      invariant 0 <= i <= DIM && v == Shr(vec, i) && sum == Selected(m, vec, i)
      decreases DIM - i
    {
      ShrNext(vec, i, i + 1);
      if v[0] { sum := Xor(sum, mat[i]); }
      v := Shr(v, 1);
      i := i + 1;
    }
    ShrGone(vec, i);
    SelectedRest(m, vec, i, DIM);
    SelectedApplies(m, vec, DIM, zeros);
    assert Low(vec, DIM) == vec;
  }

  lemma ShrNext(v: word, i: nat, j: nat)
    requires i <= DIM && Shr(v, i) != Zero() && j == i + 1
    ensures i < DIM && Shr(Shr(v, i), 1) == Shr(v, j) && Shr(v, i)[0] == v[i]
  {
    assert Shr(v, DIM) == Zero();
  }

  lemma ShrGone(v: word, i: nat)
    requires i <= DIM && Shr(v, i) == Zero()
    ensures forall k :: i <= k < DIM ==> !v[k]
  {
    forall k | i <= k < DIM ensures !v[k] { assert Shr(v, i)[k - i] == v[k]; }
  }

  /** gf2_matrix_square: the operator for twice as many zero bits. */
  method MatrixSquare(square: array<word>, mat: array<word>, ghost zeros: nat)
    requires square != mat && square.Length == DIM && Operator(mat[..], zeros)
    modifies square
    ensures Operator(square[..], 2 * zeros)
  {
    var n := 0;
    while n < DIM
      invariant 0 <= n <= DIM && forall k :: 0 <= k < n ==> square[k] == ZeroBits(Unit(k), 2 * zeros)
    {
      var row := MatrixTimes(mat, mat[n], zeros);
      assert mat[n] == mat[..][n];
      ZeroBitsAdd(Unit(n), zeros, zeros);
      square[n] := row;
      n := n + 1;
    }
  }

  /** The operator for one zero bit. */
  method OneZeroBit(odd: array<word>)
    requires odd.Length == DIM
    modifies odd
    ensures Operator(odd[..], 1)
  {
    odd[0] := Poly();
    assert Shr(Unit(0), 1) == Zero() && Xor(Poly(), Zero()) == Poly();
    assert ZeroBits(Unit(0), 1) == ZeroBits(ZeroBit(Unit(0)), 0);
    var row, n := Unit(0), 1;
    while n < DIM
      invariant 1 <= n <= DIM && row == Unit(n - 1) && forall k :: 0 <= k < n ==> odd[k] == ZeroBits(Unit(k), 1)
    {
      UnitStep(n);
      odd[n] := row;
      row := [false] + row[..DIM - 1];
      assert row == Unit(n);
      n := n + 1;
    }
  }

  lemma UnitStep(n: nat)
    requires 1 <= n < DIM
    ensures ZeroBits(Unit(n), 1) == Unit(n - 1)
  {
    assert ZeroBit(Unit(n)) == Unit(n - 1);
    assert ZeroBits(Unit(n), 1) == ZeroBits(Unit(n - 1), 0);
  }

  /** len pieces of q zero bits are a piece, if len is odd, and half as many pairs. */
  lemma HalfLength(c: word, q: nat, pair: nat, len: nat, c': word, half: nat)
    requires pair == 2 * q && half == len / 2 && c' == if len % 2 == 1 then ZeroBits(c, q) else c
    ensures ZeroBits(c', pair * half) == ZeroBits(c, q * len)
  {
    Doubling(q, pair, len, half);
    if len % 2 == 1 { ZeroBitsAdd(c, q, pair * half); }
  }

  lemma Doubling(q: nat, pair: nat, len: nat, half: nat)
    requires pair == 2 * q && half == len / 2
    ensures q * len == pair * half + if len % 2 == 1 then q else 0
  {
    assert pair * half == q * (2 * half);
    if len % 2 == 1 { assert q * (2 * half + 1) == q * (2 * half) + q; }
  }

  /** One turn of the loop: the operator for this bit of len, applied if the bit is set. */
  method Turn(mat: array<word>, c: word, len: nat, ghost q: nat, ghost pair: nat) returns (c': word)
    requires Operator(mat[..], q) && pair == 2 * q
    ensures ZeroBits(c', pair * (len / 2)) == ZeroBits(c, q * len)
  {
    c' := c;
    if len % 2 == 1 { c' := MatrixTimes(mat, c, q); }
    HalfLength(c, q, pair, len, c', len / 2);
  }

  /** crc32_combine_: len2 zero bytes applied to crc1 by squaring, and crc2 added. */
  method CombineCrc(crc1: word, crc2: word, len2: int) returns (crc: word)
    ensures len2 <= 0 ==> crc == crc1
    ensures len2 > 0 ==> crc == Xor(ZeroBits(crc1, 8 * len2), crc2)
  {
    if len2 <= 0 { return crc1; }
    var even, odd := new word[DIM](_ => Zero()), new word[DIM](_ => Zero());
    OneZeroBit(odd);
    MatrixSquare(even, odd, 1);
    MatrixSquare(odd, even, 2);
    var c, len := crc1, len2;
    ghost var half: nat, q: nat, target := 4, 8, ZeroBits(crc1, 8 * len2);
    while true
      invariant len > 0 && q == 2 * half && Operator(odd[..], half) && ZeroBits(c, q * len) == target
      decreases len
    {
      ghost var twice := 2 * q;
      MatrixSquare(even, odd, half);
      c := Turn(even, c, len, q, twice);
      len := len / 2;
      if len == 0 { break; }
      MatrixSquare(odd, even, q);
      half, q := twice, 2 * twice;
      c := Turn(odd, c, len, half, q);
      len := len / 2;
      if len == 0 { break; }
    }
    crc := Xor(c, crc2);
  }

  /** The register is linear in its start. */
  lemma {:induction false} RegisterLinear(c: word, d: word, s: seq<byte>)
    ensures Register(Xor(c, d), s) == Xor(Register(c, s), ZeroBits(d, 8 * |s|))
  {
    if s != [] {
      var n, b := |s| - 1, s[|s| - 1];
      RegisterLinear(c, d, s[..n]);
      ByteLinear(Register(c, s[..n]), ZeroBits(d, 8 * n), b);
      ZeroBitsAdd(d, 8 * n, 8);
      assert 8 * |s| == 8 * n + 8;
    }
  }

  lemma ByteLinear(r: word, z: word, b: byte)
    ensures ZeroBits(Xor(Xor(r, z), InPlace(b, 0)), 8) == Xor(ZeroBits(Xor(r, InPlace(b, 0)), 8), ZeroBits(z, 8))
  {
    XorSwap(r, z, InPlace(b, 0));
    ZeroBitsLinear(Xor(r, InPlace(b, 0)), z, 8);
  }

  /** The CRC of a concatenation, from the CRCs of its parts. */
  lemma CrcOfConcatenation(x: seq<byte>, y: seq<byte>)
    ensures Crc(x + y) == Xor(ZeroBits(Crc(x), 8 * |y|), Crc(y))
  {
    var r, one := Register(Ones(), x), Ones();
    RegisterAppend(one, x, y);
    XorLaws(one, r, one);
    XorTwice(r, one);
    assert Xor(one, Xor(r, one)) == r;
    RegisterLinear(one, Crc(x), y);
    XorLaws(Register(one, y), ZeroBits(Crc(x), 8 * |y|), one);
    XorLaws(ZeroBits(Crc(x), 8 * |y|), Register(one, y), one);
  }

  /** What crc32_combine promises: combining the CRCs of two strings gives that of the two together. */
  method CombineStrings(x: seq<byte>, y: seq<byte>) returns (crc: word)
    ensures crc == Crc(x + y)
  {
    var a := Bytewise(Zero(), x);
    var b := Bytewise(Zero(), y);
    assert Xor(Zero(), Ones()) == Ones();
    CrcOfConcatenation(x, y);
    if y == [] {
      assert x + y == x;
    }
    crc := CombineCrc(a, b, |y|);
  }
}
