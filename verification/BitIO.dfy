/**
 * The compressor's bit writer and the decompressor's bit reader. Both work on a
 * 32-bit buffer: the writer fills it from the top, the reader from the bottom.
 * The masks, shifts and ORs of the source are here arithmetic on whole numbers.
 */
module BitIO {
  import opened Common
  import opened Bits

  /** The bits of a string of bytes. */
  ghost function BytesBits(s: seq<byte>): (r: bits)
    ensures |r| == 8 * |s|
  {
    if s == [] then [] else BytesBits(s[..|s| - 1]) + Spell(s[|s| - 1], 8)
  }

  lemma {:induction false} BytesBitsAppend(s: seq<byte>, t: seq<byte>)
    ensures BytesBits(s + t) == BytesBits(s) + BytesBits(t)
  {
    if t == [] {
      assert s + t == s;
    } else {
      var n := |t| - 1;
      assert (s + t)[..|s + t| - 1] == s + t[..n];
      BytesBitsAppend(s, t[..n]);
    }
  }

  lemma BytesBitsOne(b: byte)
    ensures BytesBits([b]) == Spell(b, 8)
  {
    assert [b][..0] == [];
  }

  lemma BytesBitsCons(s: seq<byte>)
    requires s != []
    ensures BytesBits(s) == Spell(s[0], 8) + BytesBits(s[1..])
  {
    assert s == [s[0]] + s[1..];
    BytesBitsAppend([s[0]], s[1..]);
    BytesBitsOne(s[0]);
  }

  /** buff holds the bits `live` in its top positions, and zeros below. */
  ghost predicate TopAligned(buff: int, live: bits) {
    |live| <= 32 && buff == Value(live) * Pow2(32 - |live|)
  }

  lemma Powers()
    ensures Pow2(8) == 256 && Pow2(24) == 0x100_0000 && Pow2(32) == WORD
  {
    Pow2Add(8, 8);
    Pow2Add(16, 8);
    Pow2Add(24, 8);
  }

  /** The top byte of the buffer is the first eight live bits; shifting it out leaves the others. */
  lemma TopByte(buff: int, live: bits)
    requires TopAligned(buff, live) && |live| >= 8
    ensures 0 <= buff / 0x100_0000 < 256 && Spell(buff / 0x100_0000, 8) == live[..8]
    ensures TopAligned(buff * 256 % WORD, live[8..])
  {
    var a, b, d := live[..8], live[8..], 32 - |live|;
    assert live == a + b;
    ValueAppend(a, b);
    ValueBound(a);
    ValueBound(b);
    Powers();
    Pow2Add(|b|, d);
    var p, q, va, vb := Pow2(|b|), Pow2(d), Value(a), Value(b);
    assert p * q == 0x100_0000;
    Pow2Mono(0, d);
    Split(va, vb, p, q, buff);
    SpellValue(a);
    Pow2Add(d, 8);
  }

  /** buff = va * 2^24 + vb * q, with the second part below 2^24. */
  lemma Split(va: nat, vb: nat, p: nat, q: nat, buff: int)
    requires p * q == 0x100_0000 && buff == (va * p + vb) * q && vb < p && va < 256 && q >= 1
    ensures buff / 0x100_0000 == va && buff * 256 % WORD == vb * (q * 256)
  {
    var low := vb * q;
    Parts(va, vb, p, q, 0x100_0000);
    MulMono(vb + 1, p, q);
    assert (vb + 1) * q == low + q;
    assert vb * (q * 256) == low * 256;
    Shifted(buff, va, low);
  }

  lemma Parts(va: nat, vb: nat, p: nat, q: nat, pq: nat)
    requires p * q == pq
    ensures (va * p + vb) * q == va * pq + vb * q
  {
    assert (va * p) * q == va * (p * q);
  }

  lemma Shifted(buff: int, top: nat, low: nat)
    requires buff == top * 0x100_0000 + low && low < 0x100_0000 && top < 256
    ensures buff / 0x100_0000 == top && buff * 256 % WORD == low * 256
  {
  }

  /** Bits added below the live ones. */
  lemma Aligned(buff: int, live: bits, d: nat)
    requires |live| + d == 32
    ensures TopAligned(buff, live) <==> buff == Value(live) * Pow2(d)
  {
  }

  lemma AddBelow(buff: int, live: bits, n: nat, v: nat, d: nat, now: bits)
    requires TopAligned(buff, live) && |live| + n + d == 32 && v < Pow2(n) && now == live + Spell(v, n)
    ensures TopAligned(buff + v * Pow2(d), now)
  {
    var both := n + d;
    ValueSpell(v, n);
    ValueAppend(live, Spell(v, n));
    Pow2Sum(n, d, both);
    Aligned(buff, live, both);
    AddParts(buff, Value(now), Value(live), v, Pow2(n), Pow2(d), Pow2(both));
    Aligned(buff + v * Pow2(d), now, d);
  }

  lemma AddParts(buff: int, sum: nat, va: nat, v: nat, p: nat, q: nat, pq: nat)
    requires p * q == pq && buff == va * pq && sum == va * p + v
    ensures buff + v * q == sum * q
  {
    Parts(va, v, p, q, pq);
  }

  lemma MoveOut(zbits: seq<byte>, top: byte, live: bits, rest: bits)
    requires |live| >= 8 && Spell(top, 8) == live[..8] && rest == live[8..]
    ensures BytesBits(zbits + [top]) + rest == BytesBits(zbits) + live
  {
    BytesBitsAppend(zbits, [top]);
    BytesBitsOne(top);
    assert live == live[..8] + rest;
    Associates(BytesBits(zbits) + live[..8], BytesBits(zbits), live[..8], rest);
  }

  /** Zeros below the live bits are already there. */
  lemma PadBelow(buff: int, live: bits, n: nat)
    requires TopAligned(buff, live) && |live| + n <= 32
    ensures TopAligned(buff, live + Zeros(n))
  {
    ValueZeros(n);
    SpellValue(Zeros(n));
    Pow2Mono(0, n);
    AddBelow(buff, live, n, 0, 32 - |live| - n, live + Zeros(n));
  }

  class Writer {
    var zbits: seq<byte>
    var bsBuff: int
    var bsLive: int
    ghost var live: bits

    ghost predicate Valid()
      reads this
    {
      bsLive == |live| && TopAligned(bsBuff, live)
    }

    /** Everything written since the buffer of bytes was last emptied. */
    ghost function Written(): bits
      reads this
    {
      BytesBits(zbits) + live
    }

    constructor ()
      ensures Valid() && Written() == [] && zbits == []
    {
      zbits, bsBuff, bsLive, live := [], 0, 0, [];
    }

    /** Moves the first eight live bits out. */
    method PutByte()
      requires Valid() && |live| >= 8
      modifies this
      ensures Valid() && Written() == old(Written()) && live == old(live)[8..] && |zbits| == old(|zbits|) + 1
    {
      TopByte(bsBuff, live);
      var top: byte := bsBuff / 0x100_0000;
      MoveOut(zbits, top, live, live[8..]);
      zbits := zbits + [top];
      bsBuff := bsBuff * 256 % WORD;
      bsLive := bsLive - 8;
      live := live[8..];
    }

    /** bsW: the low n bits of v, after what is there. */
    method Put(n: nat, v: nat)
      requires Valid() && n <= 24 && v < Pow2(n)
      modifies this
      ensures Valid() && Written() == old(Written()) + Spell(v, n)
    {
      while bsLive >= 8
        invariant Valid() && Written() == old(Written())
        decreases bsLive
      {
        PutByte();
      }
      AddBelow(bsBuff, live, n, v, 32 - bsLive - n, live + Spell(v, n));
      bsBuff := bsBuff + v * Pow2(32 - bsLive - n);
      bsLive := bsLive + n;
      live := live + Spell(v, n);
    }

    /** bsPutUInt32: four bytes, the top one first. */
    method PutWord(u: nat)
      requires Valid() && u < WORD
      modifies this
      ensures Valid() && Written() == old(Written()) + WordBits(u)
    {
      Powers();
      ghost var w := Written();
      var a, b, c, d := u / 0x100_0000 % 256, u / 0x1_0000 % 256, u / 0x100 % 256, u % 256;
      Put(8, a);
      Put(8, b);
      Put(8, c);
      Put(8, d);
      FourParts(w, Spell(a, 8), Spell(b, 8), Spell(c, 8), Spell(d, 8));
    }

    /** bsFinishWrite: the last bits, padded with zeros to a whole byte. */
    method Finish()
      requires Valid()
      modifies this
      ensures bsLive <= 0 && exists k :: 0 <= k < 8 && BytesBits(zbits) == old(Written()) + Zeros(k)
    {
      ghost var whole, k := Written(), 0;
      assert whole == whole + Zeros(0);
      while bsLive > 0
        invariant TopAligned(bsBuff, live) && 0 <= k < 8 && BytesBits(zbits) + live == whole + Zeros(k)
        invariant bsLive == |live| - k && (k > 0 ==> live == [])
        decreases bsLive
      {
        if |live| < 8 {
          k := 8 - |live|;
          PadBelow(bsBuff, live, k);
          PadAll(BytesBits(zbits) + live, whole, BytesBits(zbits), live, k);
          live := live + Zeros(k);
        }
        TopByte(bsBuff, live);
        var top: byte := bsBuff / 0x100_0000;
        MoveOut(zbits, top, live, live[8..]);
        zbits := zbits + [top];
        bsBuff := bsBuff * 256 % WORD;
        bsLive := bsLive - 8;
        live := live[8..];
      }
      assert BytesBits(zbits) + live == BytesBits(zbits);
    }
  }

  ghost function WordBits(u: nat): (r: bits)
    ensures |r| == 32
  {
    Spell(u / 0x100_0000 % 256, 8) + Spell(u / 0x1_0000 % 256, 8) + Spell(u / 0x100 % 256, 8) + Spell(u % 256, 8)
  }

  lemma FourParts(w: bits, a: bits, b: bits, c: bits, d: bits)
    ensures w + a + b + c + d == w + (a + b + c + d)
  {
  }

  lemma SixParts(w: bits, a: bits, b: bits, c: bits, d: bits, e: bits, f: bits)
    ensures w + a + b + c + d + e + f == w + (a + b + c + d + e + f)
  {
  }

  lemma PadAll(now: bits, whole: bits, done: bits, live: bits, k: nat)
    requires now == done + live && now == whole + Zeros(0)
    ensures done + (live + Zeros(k)) == whole + Zeros(k)
  {
    assert now == whole;
  }

  /** The low bits of buff spell `live`; `high` is what is left above them of bits already read. */
  ghost predicate LowAligned(buff: int, high: nat, live: bits) {
    |live| <= 32 && buff == high * Pow2(|live|) + Value(live)
  }

  lemma Quotient(x: nat, q: nat, a: nat, b: nat)
    requires x == a * q + b && b < q
    ensures x / q == a && x % q == b
  {
    if x / q < a { MulMono(x / q + 1, a, q); }
    if x / q > a { MulMono(a + 1, x / q, q); }
  }

  /** Reading the first n live bits. */
  lemma TakeBits(buff: int, high: nat, live: bits, n: nat)
    requires LowAligned(buff, high, live) && n <= |live|
    ensures Pow2(|live| - n) >= 1 && Pow2(n) >= 1 && buff >= 0 && buff / Pow2(|live| - n) % Pow2(n) == Value(live[..n])
    ensures LowAligned(buff, high * Pow2(n) + Value(live[..n]), live[n..])
  {
    var a, b := live[..n], live[n..];
    assert live == a + b;
    ValueAppend(a, b);
    ValueBound(a);
    ValueBound(b);
    Pow2Add(n, |b|);
    Pow2Mono(0, n);
    Pow2Mono(0, |b|);
    TakeSplit(buff, high, Value(a), Value(b), Pow2(n), Pow2(|b|), Pow2(|live|));
  }

  lemma TakeSplit(buff: int, high: nat, va: nat, vb: nat, p: nat, q: nat, pq: nat)
    requires p * q == pq && buff == high * pq + (va * q + vb) && va < p && vb < q
    ensures buff >= 0 && buff / q % p == va && buff == (high * p + va) * q + vb
  {
    var t := high * p + va;
    Parts(high, va, p, q, pq);
    Quotient(buff, q, t, vb);
    Quotient(t, p, high, va);
  }

  /** A byte taken in below the live bits; bits pushed out at the top have been read. */
  lemma PullByte(buff: int, high: nat, live: bits, b: byte)
    requires LowAligned(buff, high, live) && |live| <= 24
    ensures Pow2(24 - |live|) >= 1
    ensures LowAligned(buff * 256 % WORD + b, high % Pow2(24 - |live|), live + Spell(b, 8))
  {
    var l, d := |live| + 8, 24 - |live|;
    Powers();
    Pow2Mono(0, d);
    Pow2Add(d, l);
    Pow2Add(|live|, 8);
    ValueBound(live);
    ValueSpell(b, 8);
    ValueAppend(live, Spell(b, 8));
    PullSplit(buff, high, Value(live), Pow2(|live|), Pow2(l), Pow2(d));
  }

  lemma PullSplit(buff: int, high: nat, v: nat, p: nat, p8: nat, q: nat)
    requires buff == high * p + v && v < p && p8 == p * 256 && q >= 1 && q * p8 == WORD
    ensures buff * 256 % WORD == (high % q) * p8 + v * 256
  {
    var k, h := high / q, high % q;
    var rest := h * p8 + v * 256;
    assert high == k * q + h;
    Parts(k, h, q, p8, WORD);
    assert high * p * 256 == high * p8;
    MulMono(h + 1, q, p8);
    assert (h + 1) * p8 == h * p8 + p8;
    Quotient(buff * 256, WORD, k, rest);
  }

  class Reader {
    var input: seq<byte>
    var bsBuff: int
    var bsLive: int
    ghost var live: bits
    ghost var high: nat

    ghost predicate Valid()
      reads this
    {
      bsLive == |live| && LowAligned(bsBuff, high, live)
    }

    /** The bits not yet read, of the buffer and of the input at hand. */
    ghost function Unread(): bits
      reads this
    {
      live + BytesBits(input)
    }

    constructor ()
      ensures Valid() && Unread() == []
    {
      input, bsBuff, bsLive, live, high := [], 0, 0, [], 0;
    }

    /** The caller provides more input. */
    method Supply(more: seq<byte>)
      requires Valid()
      modifies this`input
      ensures Valid() && Unread() == old(Unread()) + BytesBits(more)
    {
      BytesBitsAppend(input, more);
      input := input + more;
    }

    /** GET_BITS: the next n bits, or a return for want of input with nothing lost. */
    method GetBits(n: nat) returns (ok: bool, v: nat)
      requires Valid() && 1 <= n <= 24
      modifies this
      ensures Valid()
      ensures ok <==> n <= |old(Unread())|
      ensures ok ==> v == Value(old(Unread())[..n]) && Unread() == old(Unread())[n..]
      ensures !ok ==> Unread() == old(Unread()) && input == []
    {
      v := 0;
      while true
        invariant Valid() && Unread() == old(Unread())
        decreases |input|
      {
        if bsLive >= n {
          v := Take(n);
          return true, v;
        }
        if input == [] { return false, v; }
        Pull();
      }
    }

    method Take(n: nat) returns (v: nat)
      requires Valid() && n <= |live|
      modifies this`bsLive, this`high, this`live
      ensures Valid() && n <= |old(Unread())| && v == Value(old(Unread())[..n]) && Unread() == old(Unread())[n..]
    {
      TakeBits(bsBuff, high, live, n);
      FirstBits(live, BytesBits(input), n);
      v := bsBuff / Pow2(bsLive - n) % Pow2(n);
      bsLive := bsLive - n;
      high := high * Pow2(n) + Value(live[..n]);
      live := live[n..];
    }

    method Pull()
      requires Valid() && |live| <= 24 && input != []
      modifies this
      ensures Valid() && Unread() == old(Unread()) && |input| == |old(input)| - 1
    {
      var b, rest := input[0], input[1..];
      PullByte(bsBuff, high, live, b);
      BytesBitsCons(input);
      NextByte(live, Spell(b, 8), BytesBits(rest));
      bsBuff := bsBuff * 256 % WORD + b;
      high := high % Pow2(24 - |live|);
      live := live + Spell(b, 8);
      bsLive := bsLive + 8;
      input := rest;
    }
  }

  lemma FirstBits(live: bits, rest: bits, n: nat)
    requires n <= |live|
    ensures (live + rest)[..n] == live[..n] && (live + rest)[n..] == live[n..] + rest
  {
  }

  lemma NextByte(live: bits, b: bits, rest: bits)
    ensures live + (b + rest) == (live + b) + rest
  {
  }
}
