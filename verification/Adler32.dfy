/**
 * zlib's Adler-32 (section 2.2 of RFC 1950): two sums modulo the largest prime
 * below 2^16, taken here over whole numbers with the source's deferred and
 * shift-based reductions.
 */
module Adler32 {
  import opened Common

  const BASE := 65521
  const NMAX := 5552

  /** The largest half of a checksum that a caller may start from, reduced or not. */
  const HALF := 0xffff

  /** The two sums. */
  datatype Sums = Sums(a: nat, b: nat)

  ghost predicate Reduced(s: Sums) { s.a < BASE && s.b < BASE }

  /** The definition: both sums are reduced after every byte. */
  ghost function Step(s: Sums, x: byte): (r: Sums)
    ensures Reduced(r)
  {
    var a := (s.a + x) % BASE;
    Sums(a, (s.b + a) % BASE)
  }

  ghost function Fold(s: Sums, buf: seq<byte>): (r: Sums)
    ensures Reduced(s) ==> Reduced(r)
  {
    if buf == [] then s else Step(Fold(s, buf[..|buf| - 1]), buf[|buf| - 1])
  }

  /** The checksum as one number. */
  function Join(a: nat, b: nat): nat { a + 0x1_0000 * b }

  // ---- Remainders ----

  /** x and y leave the same remainder. */
  ghost predicate Same(x: int, y: int) { x % BASE == y % BASE }

  lemma ModShift(x: int, q: int)
    ensures Same(x + BASE * q, x)
  {
    var r := x % BASE;
    assert x + BASE * q == BASE * (x / BASE + q) + r;
  }

  lemma ModUnique(x: int, r: int, q: int)
    requires x == BASE * q + r && 0 <= r < BASE
    ensures x % BASE == r
  {
  }

  lemma SameSum(x: int, y: int, u: int, v: int)
    requires Same(x, y) && Same(u, v)
    ensures Same(x + u, y + v)
  {
    var q := x / BASE - y / BASE + (u / BASE - v / BASE);
    assert x + u == (y + v) + BASE * q;
    ModShift(y + v, q);
  }

  /** CHOP: 65536 leaves 15. */
  function Chop(a: nat): nat { a % 0x1_0000 + 15 * (a / 0x1_0000) }

  lemma ChopSame(a: nat)
    ensures Same(Chop(a), a)
  {
    var q := a / 0x1_0000;
    assert a == Chop(a) + BASE * q;
    ModShift(Chop(a), q);
  }

  function SubtractOnce(a: nat): nat { if a >= BASE then a - BASE else a }

  lemma SubtractOnceMod(a: nat)
    requires a < 2 * BASE
    ensures SubtractOnce(a) == a % BASE
  {
  }

  /** MOD28 without division. */
  function Mod28(a: nat): nat { SubtractOnce(Chop(a)) }

  lemma Mod28Mod(a: nat)
    requires a < 0x1000_0000
    ensures Mod28(a) == a % BASE
  {
    ChopSame(a);
    SubtractOnceMod(Chop(a));
  }

  /** MOD without division. */
  function Mod(a: nat): nat { Mod28(Chop(a)) }

  lemma ModMod(a: nat)
    requires a < WORD
    ensures Mod(a) == a % BASE
  {
    ChopSame(a);
    Mod28Mod(Chop(a));
  }

  /** MOD63 without division: 2^32 leaves 225. */
  function Mod63(a: nat): nat {
    var t := a % WORD + 225 * (a / WORD);
    SubtractOnce(Chop(Chop(t)))
  }

  lemma Mod63Mod(a: nat)
    requires a < 0x8000_0000_0000_0000
    ensures Mod63(a) == a % BASE
  {
    var q := a / WORD;
    var t := a % WORD + 225 * q;
    assert a == t + BASE * (65551 * q);
    ModShift(t, 65551 * q);
    ChopSame(t);
    ChopSame(Chop(t));
    SubtractOnceMod(Chop(Chop(t)));
  }

  // ---- The checksum of a buffer ----

  /** Unreduced sums that stand for s, n bytes after the last reduction. */
  ghost predicate Stands(a: nat, b: nat, s: Sums, n: nat) {
    Same(a, s.a) && Same(b, s.b) && a <= HALF + 255 * n && 2 * b <= (n + 1) * (2 * HALF + 255 * n)
  }

  lemma StandsStep(a: nat, b: nat, s: Sums, n: nat, x: byte, m: nat)
    requires Stands(a, b, s, n) && m == n + 1
    ensures Stands(a + x, b + (a + x), Step(s, x), m)
  {
    var r, a' := (s.a + x) % BASE, a + x;
    SameSum(a, s.a, x, x);
    SameRemainder(s.a + x, r);
    SameSum(b, s.b, a', r);
    SameRemainder(s.b + r, (s.b + r) % BASE);
    Grows(n, m, b, a');
  }

  lemma SameRemainder(x: nat, r: nat)
    requires r == x % BASE
    ensures Same(x, r)
  {
  }

  lemma Grows(n: nat, m: nat, b: nat, a: nat)
    requires m == n + 1 && 2 * b <= (n + 1) * (2 * HALF + 255 * n) && a <= HALF + 255 * m
    ensures 2 * (b + a) <= (m + 1) * (2 * HALF + 255 * m)
  {
    var k := 2 * HALF + 255 * n;
    assert (m + 1) * (k + 255) == m * k + k + m * 255 + 255;
  }

  /** NMAX bytes fit in 32 bits, even from sums that are not reduced. */
  lemma NoOverflow(n: nat)
    requires n <= NMAX
    ensures HALF + 255 * n < WORD && (n + 1) * (2 * HALF + 255 * n) < 2 * WORD
  {
    MulMono(n + 1, NMAX + 1, 2 * HALF + 255 * n);
    MulMono(2 * HALF + 255 * n, 2 * HALF + 255 * NMAX, NMAX + 1);
  }

  lemma FoldNone(s: Sums)
    ensures Fold(s, []) == s
  {
  }

  lemma FoldSnoc(s: Sums, buf: seq<byte>, i: nat, j: nat)
    requires i < |buf| && j == i + 1
    ensures Fold(s, buf[..j]) == Step(Fold(s, buf[..i]), buf[i])
  {
    assert buf[..j][..i] == buf[..i];
  }

  /** The sums that a and b stand for. */
  ghost function Remainders(a: nat, b: nat): (s: Sums)
    ensures a < BASE && b < BASE ==> s == Sums(a, b)
    ensures Reduced(s)
  {
    Sums(a % BASE, b % BASE)
  }

  lemma StandsAtFirst(a: nat, b: nat)
    requires a <= HALF && b <= HALF
    ensures Stands(a, b, Remainders(a, b), 0)
  {
    SameRemainder(a, a % BASE);
    SameRemainder(b, b % BASE);
  }

  lemma InWord(a: nat, b: nat, s: Sums, n: nat)
    requires Stands(a, b, s, n) && n <= NMAX
    ensures a < WORD && b < WORD
  {
    NoOverflow(n);
  }

  /** Adds bytes i to j - 1 without a reduction; neither sum leaves 32 bits on the way. */
  method AddBytes(a0: nat, b0: nat, buf: seq<byte>, i: nat, j: nat, ghost s: Sums) returns (a: nat, b: nat)
    requires i <= j <= |buf| && j - i <= NMAX && Reduced(s) && a0 <= HALF && b0 <= HALF
    requires Fold(s, buf[..i]) == Remainders(a0, b0)
    ensures Stands(a, b, Fold(s, buf[..j]), j - i) && a < WORD && b < WORD
  {
    hide Stands, Fold, Step, Remainders;
    a, b := a0, b0;
    StandsAtFirst(a, b);
    var k := i;
    while k < j
      invariant i <= k <= j && Stands(a, b, Fold(s, buf[..k]), k - i)
    {
      ghost var next, n := k + 1, k - i;
      FoldSnoc(s, buf, k, next);
      StandsStep(a, b, Fold(s, buf[..k]), n, buf[k], n + 1);
      a := a + buf[k];
      b := b + a;
      InWord(a, b, Fold(s, buf[..next]), n + 1);
      assert a < WORD && b < WORD;
      k := k + 1;
    }
    InWord(a, b, Fold(s, buf[..j]), j - i);
  }

  /** Adds bytes i to j - 1 and reduces both sums. */
  method AddAndReduce(a0: nat, b0: nat, buf: seq<byte>, i: nat, j: nat, ghost s: Sums) returns (a: nat, b: nat)
    requires i <= j <= |buf| && j - i <= NMAX && Reduced(s) && a0 <= HALF && b0 <= HALF
    requires Fold(s, buf[..i]) == Remainders(a0, b0)
    ensures a < BASE && b < BASE && Fold(s, buf[..j]) == Sums(a, b)
  {
    a, b := AddBytes(a0, b0, buf, i, j, s);
    Settled(a, b, Fold(s, buf[..j]), j - i);
    a := ModOf(a);
    b := ModOf(b);
  }

  lemma Settled(a: nat, b: nat, s: Sums, n: nat)
    requires Stands(a, b, s, n) && Reduced(s)
    ensures a % BASE == s.a && b % BASE == s.b
  {
  }

  method ModOf(a: nat) returns (r: nat)
    requires a < WORD
    ensures r == a % BASE
  {
    ModMod(a);
    r := Mod(a);
  }

  method Mod28Of(a: nat) returns (r: nat)
    requires a < 0x1000_0000
    ensures r == a % BASE
  {
    Mod28Mod(a);
    r := Mod28(a);
  }

  /** The halves of a checksum. */
  function Lo(adler: nat): nat { adler % 0x1_0000 }

  function Hi(adler: nat): nat { adler / 0x1_0000 % 0x1_0000 }

  lemma JoinParts(a: nat, b: nat)
    requires a < 0x1_0000 && b < 0x1_0000
    ensures Lo(Join(a, b)) == a && Hi(Join(a, b)) == b
  {
  }

  /** A single byte: BASE is subtracted at most once, which is not enough for every second sum. */
  method OneByte(a0: nat, b0: nat, x: byte) returns (a: nat, b: nat)
    requires a0 <= HALF && b0 <= HALF
    ensures Remainders(a, b) == Step(Remainders(a0, b0), x)
    ensures a < BASE && b <= HALF && (b < BASE <==> b0 + a < 2 * BASE)
  {
    SubtractOnceMod(a0 + x);
    a := SubtractOnce(a0 + x);
    b := SubtractOnce(b0 + a);
    OneStep(a0, b0, x, a, b);
  }

  lemma OneStep(a0: nat, b0: nat, x: byte, a: nat, b: nat)
    requires a == (a0 + x) % BASE && b == SubtractOnce(b0 + a)
    ensures Remainders(a, b) == Step(Remainders(a0, b0), x)
  {
    SameRemainder(a0, a0 % BASE);
    SameSum(a0, a0 % BASE, x, x);
    SameRemainder(b0, b0 % BASE);
    SameSum(b0, b0 % BASE, a, a);
    if b0 + a >= BASE { ModShift(b, 1); }
  }

  method FewerThan16(a0: nat, b0: nat, buf: seq<byte>) returns (a: nat, b: nat)
    requires a0 <= HALF && b0 <= HALF && |buf| < 16
    ensures Sums(a, b) == Fold(Remainders(a0, b0), buf)
  {
    ghost var s := Remainders(a0, b0);
    assert buf[..|buf|] == buf && buf[..0] == [];
    a, b := AddBytes(a0, b0, buf, 0, |buf|, s);
    FewBytes(b, |buf|);
    Settled(a, b, Fold(s, buf), |buf|);
    SubtractOnceMod(a);
    a := SubtractOnce(a);
    b := Mod28Of(b);
  }

  method Blocks(a0: nat, b0: nat, buf: seq<byte>) returns (a: nat, b: nat)
    requires a0 <= HALF && b0 <= HALF && buf != []
    ensures Sums(a, b) == Fold(Remainders(a0, b0), buf)
  {
    hide Fold, Step, Remainders;
    ghost var s := Remainders(a0, b0);
    FoldNone(s);
    a, b := a0, b0;
    var i := 0;
    assert buf[..|buf|] == buf && buf[..0] == [];
    while |buf| - i >= NMAX
      invariant 0 <= i <= |buf| && a <= HALF && b <= HALF && Fold(s, buf[..i]) == Remainders(a, b)
      invariant i > 0 ==> a < BASE && b < BASE
    {
      var j := i + NMAX;
      a, b := AddAndReduce(a, b, buf, i, j, s);
      i := j;
    }
    if i < |buf| { a, b := AddAndReduce(a, b, buf, i, |buf|, s); }
  }

  /**
   * adler32: one byte, fewer than 16, or blocks of NMAX and a rest. Whatever it starts from,
   * both sums are right up to the remainder; and they are reduced, but for a single byte after
   * a second sum that was not.
   */
  method Adler(adler: nat, buf: seq<byte>) returns (r: nat)
    ensures Remainders(Lo(r), Hi(r)) == Fold(Remainders(Lo(adler), Hi(adler)), buf)
    ensures Lo(r) < BASE && (Hi(r) < BASE <==> |buf| != 1 || Hi(adler) + Lo(r) < 2 * BASE)
  {
    var a, b := Lo(adler), Hi(adler);
    ghost var s := Remainders(a, b);
    ghost var f := Fold(s, buf);
    if |buf| == 1 {
      assert buf[..1] == buf && buf[..0] == [];
      FoldSnoc(s, buf, 0, 1);
      a, b := OneByte(a, b, buf[0]);
    } else if |buf| < 16 {
      a, b := FewerThan16(a, b, buf);
    } else {
      a, b := Blocks(a, b, buf);
    }
    assert f == Remainders(a, b);
    JoinParts(a, b);
    r := Join(a, b);
  }

  lemma FewBytes(b: nat, n: nat)
    requires n < 16 && 2 * b <= (n + 1) * (2 * HALF + 255 * n)
    ensures b < 0x1000_0000
  {
    MulMono(n + 1, 16, 2 * HALF + 255 * n);
  }

  // ---- Combining ----

  ghost function Checksum(s: seq<byte>): Sums { Fold(Sums(1, 0), s) }

  lemma {:induction false} FoldAppend(s: Sums, x: seq<byte>, y: seq<byte>)
    ensures Fold(s, x + y) == Fold(Fold(s, x), y)
  {
    if y == [] {
      assert x + y == x;
    } else {
      var n := |y| - 1;
      assert (x + y)[..|x + y| - 1] == x + y[..n];
      FoldAppend(s, x, y[..n]);
    }
  }

  /** Starting from other sums shifts the result. */
  lemma {:induction false} FoldShift(s: Sums, y: seq<byte>, d: int, nd: int)
    requires d == s.a - 1 && nd == |y| * d
    ensures Same(Fold(s, y).a, d + Checksum(y).a) && Same(Fold(s, y).b, s.b + Checksum(y).b + nd)
  {
    if y != [] {
      var n, x := |y| - 1, y[|y| - 1];
      OneLess(|y|, n, d);
      FoldShift(s, y[..n], d, nd - d);
      ShiftStep(s.b, d, nd - d, Fold(s, y[..n]), Checksum(y[..n]), x);
    }
  }

  lemma OneLess(m: nat, n: nat, d: int)
    requires m == n + 1
    ensures n * d == m * d - d
  {
  }

  /** d is how far the first sum starts off, nd what that has made of the second so far. */
  lemma ShiftStep(b0: nat, d: int, nd: int, f: Sums, c: Sums, x: byte)
    requires Same(f.a, d + c.a) && Same(f.b, b0 + c.b + nd)
    ensures Same(Step(f, x).a, d + Step(c, x).a)
    ensures Same(Step(f, x).b, b0 + Step(c, x).b + (nd + d))
  {
    var fa, ca := Step(f, x).a, Step(c, x).a;
    SameSum(f.a, d + c.a, x, x);
    SameRemainder(f.a + x, fa);
    SameRemainder(c.a + x, ca);
    SameSum(c.a + x, ca, d, d);
    assert Same(fa, d + ca);
    SameSum(f.b, b0 + c.b + nd, fa, d + ca);
    SameRemainder(f.b + fa, Step(f, x).b);
    SameRemainder(c.b + ca, Step(c, x).b);
    SameSum(c.b + ca, Step(c, x).b, b0 + nd + d, b0 + nd + d);
  }

  lemma SubtractTwice(x: nat)
    requires x < 3 * BASE
    ensures SubtractOnce(SubtractOnce(x)) == x % BASE
  {
    if x >= 2 * BASE { ModUnique(x, x - 2 * BASE, 2); }
  }

  function SubtractUpTo3(x: nat): nat { SubtractOnce(if x >= 2 * BASE then x - 2 * BASE else x) }

  lemma SubtractUpTo3Mod(x: nat)
    requires x < 4 * BASE
    ensures SubtractUpTo3(x) == x % BASE
  {
    if x >= 3 * BASE { ModUnique(x, x - 3 * BASE, 3); } else if x >= 2 * BASE { ModUnique(x, x - 2 * BASE, 2); }
  }

  /** adler32_combine_ on the halves. */
  method CombineSums(a1: nat, b1: nat, a2: nat, b2: nat, len2: nat) returns (a: nat, b: nat)
    requires a1 < BASE && b1 < BASE && a2 < BASE && b2 < BASE && len2 < 0x8000_0000_0000_0000
    ensures a == (a1 + a2 - 1) % BASE && b == (b1 + b2 + len2 * (a1 - 1)) % BASE
  {
    Mod63Mod(len2);
    var rem := Mod63(len2);
    SmallProduct(rem, a1);
    var sum2 := ModOf(rem * a1);
    var sum1 := a1 + a2 + BASE - 1;
    sum2 := sum2 + b1 + b2 + BASE - rem;
    SumsMeant(a1, a2, b1, b2, len2, rem, sum1, sum2);
    SubtractTwice(sum1);
    SubtractUpTo3Mod(sum2);
    a, b := SubtractOnce(SubtractOnce(sum1)), SubtractUpTo3(sum2);
  }

  /** adler32_combine_. */
  method CombineAdler(adler1: nat, adler2: nat, len2: int) returns (r: nat)
    requires Lo(adler1) < BASE && Hi(adler1) < BASE && Lo(adler2) < BASE && Hi(adler2) < BASE
    requires len2 < 0x8000_0000_0000_0000
    ensures len2 < 0 ==> r == 0xffff_ffff
    ensures len2 >= 0 ==> Lo(r) == (Lo(adler1) + Lo(adler2) - 1) % BASE
    ensures len2 >= 0 ==> Hi(r) == (Hi(adler1) + Hi(adler2) + len2 * (Lo(adler1) - 1)) % BASE
  {
    if len2 < 0 { return 0xffff_ffff; }
    var a, b := CombineSums(Lo(adler1), Hi(adler1), Lo(adler2), Hi(adler2), len2);
    JoinParts(a, b);
    r := Join(a, b);
  }

  lemma SmallProduct(x: nat, y: nat)
    requires x < BASE && y < BASE
    ensures 0 <= x * y < WORD
  {
    MulMono(x, BASE - 1, y);
    MulMono(y, BASE - 1, BASE - 1);
  }

  lemma SumsMeant(a1: nat, a2: nat, b1: nat, b2: nat, len: nat, rem: nat, sum1: int, sum2: int)
    requires a1 < BASE && a2 < BASE && b1 < BASE && b2 < BASE && rem == len % BASE
    requires sum1 == a1 + a2 + BASE - 1 && sum2 == rem * a1 % BASE + b1 + b2 + BASE - rem
    ensures Same(sum1, a1 + a2 - 1) && 0 <= sum1 < 3 * BASE
    ensures Same(sum2, b1 + b2 + len * (a1 - 1)) && 0 <= sum2 < 4 * BASE
  {
    ModShift(a1 + a2 - 1, 1);
    var q, k := len / BASE, rem * a1 / BASE;
    assert len == BASE * q + rem && rem * a1 == BASE * k + rem * a1 % BASE;
    assert len * (a1 - 1) == BASE * (q * (a1 - 1)) + rem * (a1 - 1);
    assert rem * (a1 - 1) == rem * a1 - rem;
    var t := 1 - k - q * (a1 - 1);
    assert sum2 == b1 + b2 + len * (a1 - 1) + BASE * t;
    ModShift(b1 + b2 + len * (a1 - 1), t);
  }

  /** Combining the checksums of two strings gives that of the two together. */
  lemma CombineMeans(x: seq<byte>, y: seq<byte>)
    ensures var c, d, e := Checksum(x), Checksum(y), Checksum(x + y);
      e.a == (c.a + d.a - 1) % BASE && e.b == (c.b + d.b + |y| * (c.a - 1)) % BASE
  {
    var c, d := Checksum(x), Checksum(y);
    FoldAppend(Sums(1, 0), x, y);
    FoldShift(c, y, c.a - 1, |y| * (c.a - 1));
    var e := Fold(c, y);
    SmallIs(e.a, c.a + d.a - 1);
    SmallIs(e.b, c.b + d.b + |y| * (c.a - 1));
  }

  lemma SmallIs(r: nat, v: int)
    requires Same(r, v) && r < BASE
    ensures r == v % BASE
  {
  }

  /** The checksum of a whole buffer, which starts from 1. */
  method ChecksumOf(buf: seq<byte>) returns (r: nat)
    ensures Sums(Lo(r), Hi(r)) == Checksum(buf) && Lo(r) < BASE && Hi(r) < BASE
  {
    JoinParts(1, 0);
    r := Adler(1, buf);
  }

  method CombineStrings(x: seq<byte>, y: seq<byte>) returns (r: nat)
    requires |y| < 0x8000_0000_0000_0000
    ensures Sums(Lo(r), Hi(r)) == Checksum(x + y)
  {
    var p := ChecksumOf(x);
    var q := ChecksumOf(y);
    CombineMeans(x, y);
    r := CombineAdler(p, q, |y|);
  }
}
