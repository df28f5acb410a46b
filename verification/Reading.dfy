/**
 * The machine reads back what the compressor wrote, part by part: each part of
 * a block takes it from one place to the next.
 */
module Reading {
  import opened Common
  import opened Bits
  import opened BitIO
  import opened Parser
  import opened BlockFormat

  /** From c, the bits s take the machine exactly to c'. */
  ghost predicate Reads(c: Ctl, s: bits, c': Ctl) {
    forall k {:trigger Key(k)} :: Key(k) ==> Good(c) && Good(c') && Parse(c, s) == Stop(c', [])
  }

  lemma ReadsNone(c: Ctl)
    requires Good(c)
    ensures Reads(c, [], c)
  {
  }

  lemma ReadsOne(c: Ctl, s: bits)
    requires Good(c) && Waiting(c) && |s| == Need(c)
    ensures Reads(c, s, Deliver(c, Value(s)))
  {
    assert s[..|s|] == s && s[|s|..] == [];
    ReadsNone(Deliver(c, Value(s)));
    assert Key(0);
  }

  lemma ReadsThen(c: Ctl, s: bits, c': Ctl, t: bits, c'': Ctl)
    requires Reads(c, s, c') && Reads(c', t, c'')
    ensures Reads(c, s + t, c'')
  {
    assert Key(0);
    ParseResumes(c, s, t);
    assert [] + t == t;
  }

  lemma ReadsThree(c0: Ctl, x: bits, c1: Ctl, y: bits, c2: Ctl, z: bits, c3: Ctl)
    requires Reads(c0, x, c1) && Reads(c1, y, c2) && Reads(c2, z, c3)
    ensures Reads(c0, x + y + z, c3)
  {
    ReadsThen(c0, x, c1, y, c2);
    ReadsThen(c0, x + y, c2, z, c3);
  }

  lemma ReadsFour(c0: Ctl, x: bits, c1: Ctl, y: bits, c2: Ctl, z: bits, c3: Ctl, u: bits, c4: Ctl)
    requires Reads(c0, x, c1) && Reads(c1, y, c2) && Reads(c2, z, c3) && Reads(c3, u, c4)
    ensures Reads(c0, x + y + z + u, c4)
  {
    ReadsThree(c0, x, c1, y, c2, z, c3);
    ReadsThen(c0, x + y + z, c3, u, c4);
  }

  lemma ReadsMore(c: Ctl, s: bits, c': Ctl, rest: bits)
    requires Reads(c, s, c')
    ensures Good(c) && Good(c') && Parse(c, s + rest) == Parse(c', rest)
  {
    assert Key(0);
    ParseResumes(c, s, rest);
    assert [] + rest == rest;
  }

  /** A field of n bits. */
  lemma ReadsField(c: Ctl, v: nat, n: nat, c': Ctl)
    requires Good(c) && Waiting(c) && n == Need(c) && v < Pow2(n) && c' == Deliver(c, v)
    ensures Reads(c, Spell(v, n), c')
  {
    ValueSpell(v, n);
    ReadsOne(c, Spell(v, n));
  }

  /** One flag. */
  lemma ReadsFlag(c: Ctl, b: bool, c': Ctl)
    requires Good(c) && Waiting(c) && Need(c) == 1 && c' == Deliver(c, Bit(b))
    ensures Reads(c, [b], c')
  {
    assert [b][..0] == [];
    assert Value([b]) == Bit(b);
    ReadsOne(c, [b]);
  }

  // ---- The block header ----

  lemma ReadsByte(c: Ctl, v: nat, c': Ctl)
    requires Good(c) && Waiting(c) && Need(c) == 8 && v < 256 && c' == Deliver(c, v)
    ensures Reads(c, Spell(v, 8), c')
  {
    Powers();
    ReadsField(c, v, 8, c');
  }

  lemma ReadsBlockByte(level: nat, k: nat, next: Ctl)
    requires 1 <= level <= 9 && 1 <= k <= 6 && next == if k < 6 then BlockHdr(level, k + 1) else BlockCrc(level, 1, 0)
    ensures Reads(BlockHdr(level, k), Spell(BlockByte(k), 8), next)
  {
    ReadsByte(BlockHdr(level, k), BlockByte(k), next);
  }

  lemma ReadsBlockMagic(level: nat)
    requires 1 <= level <= 9
    ensures Reads(BlockHdr(level, 1), BlockMagic(), BlockCrc(level, 1, 0))
  {
    var a, b, c, d, e, f := Spell(0x31, 8), Spell(0x41, 8), Spell(0x59, 8), Spell(0x26, 8), Spell(0x53, 8),
      Spell(0x59, 8);
    var end := BlockCrc(level, 1, 0);
    ReadsBlockByte(level, 1, BlockHdr(level, 2));
    ReadsBlockByte(level, 2, BlockHdr(level, 3));
    ReadsBlockByte(level, 3, BlockHdr(level, 4));
    ReadsBlockByte(level, 4, BlockHdr(level, 5));
    ReadsBlockByte(level, 5, BlockHdr(level, 6));
    ReadsBlockByte(level, 6, end);
    ReadsFour(BlockHdr(level, 1), a, BlockHdr(level, 2), b, BlockHdr(level, 3), c, BlockHdr(level, 4), d,
      BlockHdr(level, 5));
    ReadsThen(BlockHdr(level, 1), a + b + c + d, BlockHdr(level, 5), e, BlockHdr(level, 6));
    ReadsThen(BlockHdr(level, 1), a + b + c + d + e, BlockHdr(level, 6), f, end);
  }

  lemma WordParts(u: nat, a: nat, b: nat, c: nat, d: nat)
    requires u < WORD && a == u / 0x100_0000 % 256 && b == u / 0x1_0000 % 256 && c == u / 0x100 % 256 && d == u % 256
    ensures 256 * (256 * (256 * a + b) + c) + d == u
  {
  }

  lemma ReadsWord(level: nat, crc: nat)
    requires 1 <= level <= 9 && crc < WORD
    ensures Reads(BlockCrc(level, 1, 0), WordBits(crc), RandBit(level, crc))
  {
    var a, b, c, d := crc / 0x100_0000 % 256, crc / 0x1_0000 % 256, crc / 0x100 % 256, crc % 256;
    WordParts(crc, a, b, c, d);
    ReadsCrcBytes(level, a, b, c, d, crc);
  }

  lemma ReadsCrcByte(level: nat, k: nat, crc: nat, v: nat, sum: nat, next: Ctl)
    requires 1 <= level <= 9 && 1 <= k <= 4 && v < 256 && sum == 256 * crc + v
    requires next == if k < 4 then BlockCrc(level, k + 1, sum) else RandBit(level, sum)
    ensures Reads(BlockCrc(level, k, crc), Spell(v, 8), next)
  {
    ReadsByte(BlockCrc(level, k, crc), v, next);
  }

  lemma ReadsCrcBytes(level: nat, a: nat, b: nat, c: nat, d: nat, crc: nat)
    requires 1 <= level <= 9 && a < 256 && b < 256 && c < 256 && d < 256 && 256 * (256 * (256 * a + b) + c) + d == crc
    ensures Reads(BlockCrc(level, 1, 0), Spell(a, 8) + Spell(b, 8) + Spell(c, 8) + Spell(d, 8), RandBit(level, crc))
  {
    var y := 256 * a + b;
    var z := 256 * y + c;
    var c1, c2, c3, end := BlockCrc(level, 2, a), BlockCrc(level, 3, y), BlockCrc(level, 4, z), RandBit(level, crc);
    ReadsCrcByte(level, 1, 0, a, a, c1);
    ReadsCrcByte(level, 2, a, b, y, c2);
    ReadsCrcByte(level, 3, y, c, z, c3);
    ReadsCrcByte(level, 4, z, d, crc, end);
    ReadsFour(BlockCrc(level, 1, 0), Spell(a, 8), c1, Spell(b, 8), c2, Spell(c, 8), c3, Spell(d, 8), end);
  }

  /** A number spelled as two parts. */
  lemma SpellParts(high: nat, low: nat, a: nat, b: nat, v: nat)
    requires high < Pow2(a) && low < Pow2(b) && v == high * Pow2(b) + low
    ensures Spell(v, a + b) == Spell(high, a) + Spell(low, b)
  {
    ValueSpell(high, a);
    ValueSpell(low, b);
    SpellJoin(Spell(high, a), Spell(low, b), v, a + b);
  }

  lemma SpellJoin(x: bits, y: bits, v: nat, n: nat)
    requires v == Value(x) * Pow2(|y|) + Value(y) && n == |x| + |y|
    ensures Spell(v, n) == x + y
  {
    ValueAppend(x, y);
    SpellValue(x + y);
  }

  lemma SpellThree(v: nat, a: nat, b: nat, c: nat)
    requires a < 256 && b < 256 && c < 256 && v == 256 * (256 * a + b) + c
    ensures Spell(v, 24) == Spell(a, 8) + Spell(b, 8) + Spell(c, 8)
  {
    Powers();
    Pow2Add(8, 8);
    SpellParts(a, b, 8, 8, 256 * a + b);
    SpellParts(256 * a + b, c, 16, 8, v);
  }

  lemma ReadsOrigPtr(h: Hdr, orig: nat)
    requires GoodHdr(h) && h.orig == 0 && orig <= 10 + 100_000 * h.level
    ensures Reads(OrigPtr(h, 1), Spell(orig, 24), Mapping1(h.(orig := orig), []))
  {
    var a, b, c := ThreeBytes(orig);
    ReadsOrigBytes(h, a, b, c, orig);
  }

  lemma ThreeBytes(v: nat) returns (a: nat, b: nat, c: nat)
    requires v < 0x100_0000
    ensures a < 256 && b < 256 && c < 256 && v == 256 * (256 * a + b) + c
  {
    a, b, c := v / 0x1_0000, v / 0x100 % 256, v % 256;
  }

  lemma ReadsOrigByte(h: Hdr, k: nat, v: nat, orig: nat, next: Ctl)
    requires GoodHdr(h) && 1 <= k <= 3 && v < 256 && orig == 256 * h.orig + v
    requires k == 3 ==> orig <= 10 + 100_000 * h.level
    requires next == if k < 3 then OrigPtr(h.(orig := orig), k + 1) else Mapping1(h.(orig := orig), [])
    ensures Reads(OrigPtr(h, k), Spell(v, 8), next)
  {
    ReadsByte(OrigPtr(h, k), v, next);
  }

  lemma ReadsOrigBytes(h: Hdr, a: nat, b: nat, c: nat, orig: nat)
    requires GoodHdr(h) && h.orig == 0 && orig <= 10 + 100_000 * h.level
    requires a < 256 && b < 256 && c < 256 && orig == 256 * (256 * a + b) + c
    ensures Reads(OrigPtr(h, 1), Spell(orig, 24), Mapping1(h.(orig := orig), []))
  {
    SpellThree(orig, a, b, c);
    var y := 256 * a + b;
    var h1, h2 := h.(orig := a), h.(orig := y);
    var c1, c2, end := OrigPtr(h1, 2), OrigPtr(h2, 3), Mapping1(h.(orig := orig), []);
    ReadsOrigByte(h, 1, a, a, c1);
    ReadsOrigByte(h1, 2, b, y, c2);
    ReadsOrigByte(h2, 3, c, orig, end);
    ReadsThree(OrigPtr(h, 1), Spell(a, 8), c1, Spell(b, 8), c2, Spell(c, 8), end);
  }

  // ---- The bytes in use ----

  lemma {:induction false} ReadsUse16(h: Hdr, use16: seq<bool>, i: nat)
    requires GoodHdr(h) && |use16| == 16 && i < 16
    ensures Reads(Mapping1(h, use16[..i]), use16[i..], OnUse(h, use16, []))
    decreases 16 - i
  {
    var c, u := Mapping1(h, use16[..i]), use16[..i + 1];
    assert use16[..i] + [use16[i]] == u && use16[i..] == [use16[i]] + use16[i + 1..];
    if i + 1 < 16 {
      ReadsFlag(c, use16[i], Mapping1(h, u));
      ReadsUse16(h, use16, i + 1);
      ReadsThen(c, [use16[i]], Mapping1(h, u), use16[i + 1..], OnUse(h, use16, []));
    } else {
      assert u == use16 && use16[i..] == [use16[i]];
      ReadsFlag(c, use16[i], OnUse(h, use16, []));
    }
  }

  /** Within a group in use, the next flag is asked for. */
  lemma ReadsUse(h: Hdr, use16: seq<bool>, inUse: seq<bool>, i: nat, b: bool)
    requires GoodHdr(h) && |use16| == 16 && i < 16 && use16[i] && 16 * i <= |inUse| < 16 * i + 16
    ensures Reads(OnUse(h, use16, inUse), [b], OnUse(h, use16, inUse + [b]))
  {
    assert |inUse| / 16 == i;
    var c := Mapping2(h, use16, inUse);
    assert OnUse(h, use16, inUse) == c;
    ReadsFlag(c, b, OnUse(h, use16, inUse + [b]));
  }

  /** The flags of one group in use. */
  lemma {:induction false} ReadsGroup(h: Hdr, use16: seq<bool>, inUse: seq<bool>, i: nat, m: nat, end: nat)
    requires GoodHdr(h) && |use16| == 16 && |inUse| == 256 && i < 16 && use16[i] && 16 * i <= m <= end == 16 * i + 16
    ensures Reads(OnUse(h, use16, inUse[..m]), inUse[m..end], OnUse(h, use16, inUse[..end]))
    decreases end - m
  {
    var last := OnUse(h, use16, inUse[..end]);
    if m == end {
      assert inUse[m..end] == [];
      ReadsNone(last);
    } else {
      var next := m + 1;
      assert inUse[..m] + [inUse[m]] == inUse[..next] && inUse[m..end] == [inUse[m]] + inUse[next..end];
      ReadsUse(h, use16, inUse[..m], i, inUse[m]);
      ReadsGroup(h, use16, inUse, i, next, end);
      ReadsThen(OnUse(h, use16, inUse[..m]), [inUse[m]], OnUse(h, use16, inUse[..next]), inUse[next..end], last);
    }
  }

  /** A group not in use is filled up without reading. */
  lemma SkipsGroup(h: Hdr, use16: seq<bool>, inUse: seq<bool>, i: nat, m: nat, end: nat)
    requires GoodHdr(h) && |inUse| == 256 && use16 == Use16(inUse) && i < 16 && !GroupUsed(inUse, i) && m == 16 * i
    requires end == m + 16
    ensures OnUse(h, use16, inUse[..m]) == OnUse(h, use16, inUse[..end])
  {
    assert inUse[..m] + seq(16, _ => false) == inUse[..end] by {
      forall k | m <= k < end ensures !inUse[k] {}
    }
    assert m / 16 == i && m % 16 == 0;
  }

  /** The flags of group i, or none. */
  ghost function GroupPart(inUse: seq<bool>, i: nat): bits
    requires |inUse| == 256 && i < 16
  {
    if GroupUsed(inUse, i) then inUse[16 * i..16 * i + 16] else []
  }

  lemma ReadsPart(h: Hdr, use16: seq<bool>, inUse: seq<bool>, i: nat, m: nat, end: nat)
    requires GoodHdr(h) && |inUse| == 256 && use16 == Use16(inUse) && i < 16 && m == 16 * i && end == m + 16
    ensures Reads(OnUse(h, use16, inUse[..m]), GroupPart(inUse, i), OnUse(h, use16, inUse[..end]))
  {
    if GroupUsed(inUse, i) {
      ReadsGroup(h, use16, inUse, i, m, end);
    } else {
      SkipsGroup(h, use16, inUse, i, m, end);
      ReadsNone(OnUse(h, use16, inUse[..end]));
    }
  }

  /** Part after part, through the places cs. */
  lemma {:induction false} ReadsGroups(inUse: seq<bool>, cs: seq<Ctl>, i: nat, last: Ctl)
    requires |inUse| == 256 && |cs| == 17 && i <= 16 && last == cs[16] && Good(last)
    requires forall j, k {:trigger cs[j], cs[k]} :: 0 <= j < 16 && k == j + 1 ==>
      Reads(cs[j], GroupPart(inUse, j), cs[k])
    ensures Reads(cs[i], GroupsFrom(inUse, i), last)
    decreases 16 - i
  {
    if i == 16 {
      ReadsNone(last);
    } else {
      var next := i + 1;
      ReadsGroups(inUse, cs, next, last);
      ReadsThen(cs[i], GroupPart(inUse, i), cs[next], GroupsFrom(inUse, next), last);
    }
  }

  ghost function Places(h: Hdr, use16: seq<bool>, inUse: seq<bool>): (cs: seq<Ctl>)
    requires GoodHdr(h) && |use16| == 16 && |inUse| == 256
    ensures |cs| == 17
  {
    seq(17, i requires 0 <= i < 17 => OnUse(h, use16, inUse[..16 * i]))
  }

  lemma ReadsAllGroups(h: Hdr, use16: seq<bool>, inUse: seq<bool>)
    requires GoodHdr(h) && |inUse| == 256 && use16 == Use16(inUse)
    ensures Reads(OnUse(h, use16, []), GroupsFrom(inUse, 0), OnUse(h, use16, inUse))
  {
    var cs, last := Places(h, use16, inUse), OnUse(h, use16, inUse);
    assert inUse[..0] == [] && inUse[..256] == inUse;
    forall j, k | 0 <= j < 16 && k == j + 1 ensures Reads(cs[j], GroupPart(inUse, j), cs[k]) {
      ReadsPart(h, use16, inUse, j, 16 * j, 16 * k);
    }
    ReadsGroups(inUse, cs, 0, last);
  }

  lemma ReadsMap(h: Hdr, inUse: seq<bool>)
    requires GoodHdr(h) && GoodUse(inUse)
    ensures Reads(Mapping1(h, []), MapBits(inUse), Selector1(h, inUse))
  {
    var u := Use16(inUse);
    ReadsUse16(h, u, 0);
    assert u[..0] == [] && u[0..] == u;
    ReadsAllGroups(h, u, inUse);
    ReadsThen(Mapping1(h, []), u, OnUse(h, u, []), GroupsFrom(inUse, 0), OnUse(h, u, inUse));
  }
}
