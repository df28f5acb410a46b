/**
 * Worked examples that pin what both ends share: a bzip2 block of the word "hello", bit for bit,
 * and the example of section 3.2.2 of RFC 1951.
 */
module WorkedExamples {
  import opened Common
  import opened Counting
  import opened Bits
  import opened BitIO
  import opened HuffmanCodes
  import opened MtfCache
  import opened Parser
  import opened BlockFormat
  import DeflateCodes
  import Mtf

  /** n bits that spell v. */
  ghost predicate Spells(s: bits, n: nat, v: nat) { |s| == n && Value(s) == v }

  lemma Join(a: bits, n: nat, v: nat, b: bits, m: nat, w: nat, p: nat)
    requires Spells(a, n, v) && Spells(b, m, w) && p == Pow2(m)
    ensures Spells(a + b, n + m, v * p + w)
  {
    ValueAppend(a, b);
  }

  lemma Number(v: nat, n: nat)
    requires v < Pow2(n)
    ensures Spells(Spell(v, n), n, v)
  {
    ValueSpell(v, n);
  }

  lemma Powers()
    ensures Pow2(3) == 8 && Pow2(8) == 0x100 && Pow2(15) == 0x8000 && Pow2(16) == 0x1_0000 && Pow2(24) == 0x100_0000
    ensures Pow2(19) == 0x8_0000 && Pow2(32) == 0x1_0000_0000
  {
    Pow2Add(8, 8);
    Pow2Add(8, 7);
    Pow2Add(16, 3);
    Pow2Add(16, 8);
    Pow2Add(16, 16);
  }

  // ---- A block of "hello": the letters e, h, l and o, and a last column hoell ----

  function InUse(): seq<bool> { seq(256, b => b == 0x65 || b == 0x68 || b == 0x6C || b == 0x6F) }

  function Lens(): seq<byte> { [3, 3, 2, 3, 2, 3] }

  function Hello(): Codes { Codes(Coding(Hdr(9, 0x1931_653D, false, 1), InUse(), 2, [0]), [Lens(), Lens()]) }

  function Syms(): seq<int> { [2, 4, 3, 4, 0, 5] }

  lemma GroupsInUse(i: nat)
    requires i < 16
    ensures GroupUsed(InUse(), i) <==> i == 6
  {
    if i == 6 { assert InUse()[0x65]; }
  }

  lemma {:induction false} OnlyOneGroup(i: nat)
    requires i <= 16
    ensures GroupsFrom(InUse(), i) == if i <= 6 then InUse()[96..112] else []
    decreases 16 - i
  {
    if i < 16 {
      GroupsInUse(i);
      OnlyOneGroup(i + 1);
    }
  }

  lemma Blank0(n: nat)
    ensures Spells(Zeros(n), n, 0)
  {
    ValueZeros(n);
  }

  lemma OneBit(b: bool)
    ensures Spells([b], 1, Bit(b))
  {
    assert [b][..0] == [];
  }

  /** n zeros and a one after what spells v. */
  lemma Then1(s: bits, m: nat, v: nat, n: nat, p: nat) returns (r: bits)
    requires Spells(s, m, v) && p == Pow2(n)
    ensures r == s + Zeros(n) + [true] && Spells(r, m + n + 1, 2 * (v * p) + 1)
  {
    Blank0(n);
    OneBit(true);
    Join(s, m, v, Zeros(n), n, 0, p);
    Join(s + Zeros(n), m + n, v * p, [true], 1, 1, 2);
    r := s + Zeros(n) + [true];
  }

  lemma GroupBits()
    ensures Spells(Use16(InUse()), 16, 0x0200)
  {
    Blank0(0);
    Blank0(9);
    var a := Then1(Zeros(0), 0, 0, 6, 64);
    Join(a, 7, 1, Zeros(9), 9, 0, 512);
    forall i | 0 <= i < 16 ensures Use16(InUse())[i] <==> i == 6 { GroupsInUse(i); }
    assert Use16(InUse()) == a + Zeros(9);
  }

  lemma GroupSix()
    ensures Spells(InUse()[96..112], 16, 0x0489)
  {
    Blank0(0);
    var a := Then1(Zeros(0), 0, 0, 5, 32);
    var b := Then1(a, 6, 1, 2, 4);
    var c := Then1(b, 9, 9, 3, 8);
    var d := Then1(c, 13, 0x91, 2, 4);
    assert InUse()[96..112] == d;
  }

  lemma MapIs()
    ensures Spells(MapBits(InUse()), 32, 0x0200_0489)
  {
    GroupBits();
    OnlyOneGroup(0);
    GroupSix();
    Powers();
    hide Pow2, Spells;
    Join(Use16(InUse()), 16, 0x0200, InUse()[96..112], 16, 0x0489, 0x1_0000);
  }

  lemma FirstTable()
    ensures AllIn([0], Tables0(2)) && UnaryAll(DoMtf(Tables0(2), [0])) == [false]
  {
    var pos := Tables0(2);
    assert pos[0] == 0;
    assert DoMtf(pos, [0]) == [0] + DoMtf(ToFront(pos, 0), []);
    assert Unary(0) == [false];
  }

  /** Two tables, one selector, and it is the first table: "0". */
  lemma SelectorsAre()
    ensures AllIn([0], Tables0(2)) && Spells(SelectorBits(2, [0]), 19, 0x2_0002)
  {
    FirstTable();
    Powers();
    Number(2, 3);
    Number(1, 15);
    OneBit(false);
    hide Spell, Pow2, Spells, DoMtf, UnaryAll;
    Join(Spell(2, 3), 3, 2, Spell(1, 15), 15, 1, 0x8000);
    assert Pow2(1) == 2 by { PowerOne(); }
    Join(Spell(2, 3) + Spell(1, 15), 18, 0x1_0001, [false], 1, 0, 2);
  }

  lemma PowerOne()
    ensures Pow2(1) == 2
  {
  }

  lemma LengthsAre()
    ensures LengthsFrom(3, Lens()) ==
      [false] + ([false] +
        ([true, true, false] + ([true, false, false] + ([true, true, false] + [true, false, false]))))
  {
    var l := Lens();
    assert l[1..] == [3, 2, 3, 2, 3] && l[1..][1..] == [2, 3, 2, 3] && l[1..][1..][1..] == [3, 2, 3];
    assert [3, 2, 3][1..] == [2, 3] && [2, 3][1..] == [3] && [3][1..] == [];
    assert Steps(3, 3) == [false] && Steps(2, 2) == [false];
    assert Steps(3, 2) == [true, true, false] && Steps(2, 3) == [true, false, false];
  }

  lemma UpAndDown()
    ensures Spells([true, true, false], 3, 6) && Spells([true, false, false], 3, 4) && Spells([false], 1, 0)
  {
    OneBit(true);
    OneBit(false);
    Join([true], 1, 1, [true], 1, 1, 2);
    Join([true], 1, 1, [false], 1, 0, 2);
    Join([true] + [true], 2, 3, [false], 1, 0, 2);
    Join([true] + [false], 2, 2, [false], 1, 0, 2);
    assert [true] + [true] + [false] == [true, true, false] && [true] + [false] + [false] == [true, false, false];
  }

  /** From 3: as long, as long, down to 2, up to 3, down, up. */
  lemma TableIs()
    ensures Spells(TableBits(Lens()), 19, 0xCD34)
  {
    LengthsAre();
    UpAndDown();
    SmallOnes();
    Number(3, 5);
    var f, down, up := [false], [true, true, false], [true, false, false];
    hide Spell, Pow2, Spells, LengthsFrom;
    Join(down, 3, 0x6, up, 3, 0x4, 8);
    Join(up, 3, 0x4, down + up, 6, 0x34, 64);
    Join(down, 3, 0x6, up + (down + up), 9, 0x134, 512);
    Join(f, 1, 0x0, down + (up + (down + up)), 12, 0xD34, 4096);
    Join(f, 1, 0x0, f + (down + (up + (down + up))), 13, 0xD34, 8192);
    Join(Spell(3, 5), 5, 3, LengthsFrom(3, Lens()), 14, 0xD34, 0x4000);
  }

  lemma SmallOnes()
    ensures Pow2(1) == 2 && Pow2(3) == 8 && Pow2(5) == 32 && Pow2(6) == 64 && Pow2(9) == 512 && Pow2(12) == 4096
    ensures Pow2(13) == 8192 && Pow2(14) == 0x4000
  {
    Pow2Add(6, 6);
    Pow2Add(12, 2);
    Pow2Add(12, 1);
  }

  lemma TablesAre()
    ensures Spells(TablesBits([Lens(), Lens()]), 38, 0xCD34 * 0x8_0000 + 0xCD34)
  {
    TableIs();
    Powers();
    assert [Lens(), Lens()][1..] == [Lens()] && [Lens()][1..] == [];
    hide Pow2, Spells, TableBits, Lens;
    assert TablesBits([Lens(), Lens()]) == TableBits(Lens()) + (TableBits(Lens()) + []);
    assert TableBits(Lens()) + [] == TableBits(Lens());
    Join(TableBits(Lens()), 19, 0xCD34, TableBits(Lens()), 19, 0xCD34, 0x8_0000);
  }

  lemma CountNext(l: seq<byte>, i: nat, c: int)
    requires i < |l|
    ensures Count(l[..i + 1], c) == Count(l[..i], c) + if l[i] == c then 1 else 0
  {
    assert l[..i + 1][..i] == l[..i];
  }

  lemma CodesAre()
    ensures Parser.Shortest(Lens()) == 2 && Code(Lens(), 2, 0) == 4 && Code(Lens(), 2, 2) == 0
    ensures Code(Lens(), 2, 3) == 6 && Code(Lens(), 2, 4) == 1 && Code(Lens(), 2, 5) == 7
  {
    var l := Lens();
    assert l[0] == 3 && l[1] == 3 && l[2] == 2 && l[3] == 3 && l[4] == 2 && l[5] == 3;
    assert l[..0] == [] && l[..6] == l;
    hide Lens;
    CountNext(l, 0, 3);
    CountNext(l, 1, 3);
    CountNext(l, 2, 3);
    CountNext(l, 3, 3);
    CountNext(l, 4, 3);
    CountNext(l, 0, 2);
    CountNext(l, 1, 2);
    CountNext(l, 2, 2);
    CountNext(l, 3, 2);
    CountNext(l, 4, 2);
    CountNext(l, 5, 2);
    assert First(l, 2, 2) == 0 && First(l, 2, 3) == 2 * Count(l, 2);
  }

  lemma LettersInUse(n: nat)
    requires n <= 256
    ensures |Mtf.Used(InUse(), n)| ==
      (if n > 0x65 then 1 else 0) + (if n > 0x68 then 1 else 0) + (if n > 0x6C then 1 else 0) +
      if n > 0x6F then 1 else 0
  {
    if n > 0 { LettersInUse(n - 1); }
  }

  lemma HelloGood()
    ensures GoodCodes(Hello()) && Coded(Hello().lens, [0], Syms())
  {
    LettersInUse(256);
    var k := Hello();
    assert GoodCoding(k.c);
    assert AlphaSize(k.c.inUse) == 6;
    forall t | 0 <= t < 2 ensures k.lens[t] == Lens() {}
    assert Table(Lens(), 6);
  }

  lemma SymbolAt(k: nat)
    requires k < 6 && Coded([Lens(), Lens()], [0], Syms())
    ensures SymbolBits([Lens(), Lens()], [0], Syms(), k) ==
      Word(Lens(), 2, Syms()[k]) + SymbolBits([Lens(), Lens()], [0], Syms(), k + 1)
  {
    CodesAre();
    assert k / GROUP_SIZE == 0;
  }

  lemma WordIs(sym: nat, n: nat, v: nat)
    requires sym < 6 && Lens()[sym] == n && Code(Lens(), 2, sym) == v && v < Pow2(n)
    ensures Spells(Word(Lens(), 2, sym), n, v)
  {
    Number(v, n);
  }

  lemma WordsAre()
    ensures Spells(Word(Lens(), 2, 0), 3, 4) && Spells(Word(Lens(), 2, 2), 2, 0) && Spells(Word(Lens(), 2, 3), 3, 6)
    ensures Spells(Word(Lens(), 2, 4), 2, 1) && Spells(Word(Lens(), 2, 5), 3, 7)
  {
    CodesAre();
    assert Pow2(2) == 4 && Pow2(3) == 8;
    WordIs(0, 3, 4);
    WordIs(2, 2, 0);
    WordIs(3, 3, 6);
    WordIs(4, 2, 1);
    WordIs(5, 3, 7);
  }

  lemma SymbolsAre()
    requires Coded([Lens(), Lens()], [0], Syms())
    ensures Spells(SymbolBits([Lens(), Lens()], [0], Syms(), 0), 15, 0xE67)
  {
    hide Pow2, Spells, Word, SymbolBits, Coded;
    WordsAre();
    var lens, sels, syms, len := [Lens(), Lens()], [0], Syms(), Lens();
    assert syms[0] == 2 && syms[1] == 4 && syms[2] == 3 && syms[3] == 4 && syms[4] == 0 && syms[5] == 5;
    SymbolAt(0);
    SymbolAt(1);
    SymbolAt(2);
    SymbolAt(3);
    SymbolAt(4);
    SymbolAt(5);
    NoneLeft(lens, sels, syms, Word(len, 2, 5));
    MorePowers();
    Join(Word(len, 2, 0), 3, 4, SymbolBits(lens, sels, syms, 5), 3, 0x7, 8);
    Join(Word(len, 2, 4), 2, 1, SymbolBits(lens, sels, syms, 4), 6, 0x27, 64);
    Join(Word(len, 2, 3), 3, 6, SymbolBits(lens, sels, syms, 3), 8, 0x67, 256);
    Join(Word(len, 2, 4), 2, 1, SymbolBits(lens, sels, syms, 2), 11, 0x667, 2048);
    Join(Word(len, 2, 2), 2, 0, SymbolBits(lens, sels, syms, 1), 13, 0xE67, 8192);
  }

  lemma NoneLeft(lens: seq<seq<byte>>, sels: seq<nat>, syms: seq<int>, w: bits)
    requires Coded(lens, sels, syms) && |syms| == 6
    ensures w + SymbolBits(lens, sels, syms, 6) == w
  {
  }

  lemma MorePowers()
    ensures Pow2(3) == 8 && Pow2(6) == 64 && Pow2(8) == 256 && Pow2(11) == 2048 && Pow2(13) == 8192
  {
    Pow2Add(8, 3);
    Pow2Add(8, 5);
  }

  lemma LongPowers()
    ensures Pow2(15) == 0x8000
    ensures Pow2(53) == 0x20000000000000
    ensures Pow2(72) == 0x1000000000000000000
    ensures Pow2(104) == 0x100000000000000000000000000
    ensures Pow2(128) == 0x100000000000000000000000000000000
    ensures Pow2(129) == 0x200000000000000000000000000000000
    ensures Pow2(161) == 0x20000000000000000000000000000000000000000
  {
    hide Pow2;
    Powers();
    PowerOne();
    Pow2Add(15, 19);
    Pow2Add(34, 19);
    Pow2Add(53, 19);
    Pow2Add(72, 32);
    Pow2Add(104, 24);
    Pow2Add(128, 1);
    Pow2Add(129, 32);
  }

  lemma MagicIs()
    ensures Spells(BlockMagic(), 48, 0x3141_5926_5359)
  {
    hide Spell, Pow2, Spells, Value;
    Powers();
    Number(0x31, 8);
    Number(0x41, 8);
    Number(0x59, 8);
    Number(0x26, 8);
    Number(0x53, 8);
    Join(Spell(0x31, 8), 8, 0x31, Spell(0x41, 8), 8, 0x41, 0x100);
    Join(Spell(0x31, 8) + Spell(0x41, 8), 16, 0x3141, Spell(0x59, 8), 8, 0x59, 0x100);
    var a := Spell(0x31, 8) + Spell(0x41, 8) + Spell(0x59, 8);
    Join(a, 24, 0x31_4159, Spell(0x26, 8), 8, 0x26, 0x100);
    Join(a + Spell(0x26, 8), 32, 0x3141_5926, Spell(0x53, 8), 8, 0x53, 0x100);
    Join(a + Spell(0x26, 8) + Spell(0x53, 8), 40, 0x31_4159_2653, Spell(0x59, 8), 8, 0x59, 0x100);
  }

  lemma CrcBytes()
    ensures WordBits(0x1931_653D) == Spell(0x19, 8) + Spell(0x31, 8) + Spell(0x65, 8) + Spell(0x3D, 8)
  {
    hide Spell;
    var u := 0x1931_653D;
    assert u / 0x100_0000 % 256 == 0x19 && u / 0x1_0000 % 256 == 0x31 && u / 0x100 % 256 == 0x65 && u % 256 == 0x3D;
  }

  lemma CrcIs()
    ensures Spells(WordBits(0x1931_653D), 32, 0x1931_653D)
  {
    Powers();
    Number(0x19, 8);
    Number(0x31, 8);
    Number(0x65, 8);
    Number(0x3D, 8);
    CrcBytes();
    hide Spell, Pow2, Spells, WordBits;
    Join(Spell(0x19, 8), 8, 0x19, Spell(0x31, 8), 8, 0x31, 0x100);
    Join(Spell(0x19, 8) + Spell(0x31, 8), 16, 0x1931, Spell(0x65, 8), 8, 0x65, 0x100);
    Join(Spell(0x19, 8) + Spell(0x31, 8) + Spell(0x65, 8), 24, 0x19_3165, Spell(0x3D, 8), 8, 0x3D, 0x100);
  }

  lemma BodyUnfolds()
    requires GoodCodes(Hello()) && Coded(Hello().lens, [0], Syms()) && AllIn([0], Tables0(2))
    ensures BodyBits(Hello(), Syms()) == MapBits(InUse()) +
      (SelectorBits(2, [0]) + (TablesBits([Lens(), Lens()]) + SymbolBits([Lens(), Lens()], [0], Syms(), 0)))
  {
    hide MapBits, SelectorBits, TablesBits, SymbolBits, Lens, InUse, Syms;
  }

  lemma BodyIs()
    ensures GoodCodes(Hello()) && Coded(Hello().lens, [0], Syms())
    ensures Spells(BodyBits(Hello(), Syms()), 104, 0x200048940004334D0669A0E67)
  {
    HelloGood();
    hide Spells, MapBits, SelectorBits, TablesBits, SymbolBits, BodyBits, InUse, Syms;
    MapIs();
    SelectorsAre();
    TablesAre();
    SymbolsAre();
    BodyUnfolds();
    BodyParts(MapBits(InUse()), SelectorBits(2, [0]), TablesBits([Lens(), Lens()]),
      SymbolBits([Lens(), Lens()], [0], Syms(), 0));
  }

  lemma BodyParts(a: bits, b: bits, c: bits, d: bits)
    requires Spells(a, 32, 0x0200_0489) && Spells(b, 19, 0x2_0002) && Spells(c, 38, 0xCD34 * 0x8_0000 + 0xCD34)
    requires Spells(d, 15, 0xE67)
    ensures Spells(a + (b + (c + d)), 104, 0x200048940004334D0669A0E67)
  {
    LongPowers();
    hide Pow2, Spells;
    Join(c, 38, 0xCD34 * 0x8_0000 + 0xCD34, d, 15, 0xE67, 0x8000);
    Join(b, 19, 0x2_0002, c + d, 53, 0x334D0669A0E67, 0x20_0000_0000_0000);
    Join(a, 32, 0x0200_0489, b + (c + d), 72, 0x40004334D0669A0E67, 0x100_0000_0000_0000_0000);
  }

  lemma BlockParts(m: bits, a: bits, b: bits, c: bits, d: bits)
    requires Spells(m, 48, 0x3141_5926_5359) && Spells(a, 32, 0x1931_653D) && Spells(b, 1, 0) && Spells(c, 24, 1)
    requires Spells(d, 104, 0x200048940004334D0669A0E67)
    ensures Spells(m + (a + (b + (c + d))), 209, 0x6282B24CA6B23262CA7A0000010200048940004334D0669A0E67)
  {
    LongPowers();
    hide Pow2, Spells;
    Join(c, 24, 1, d, 104, 0x200048940004334D0669A0E67, 0x100000000000000000000000000);
    Join(b, 1, 0, c + d, 128, 0x10200048940004334D0669A0E67, 0x100000000000000000000000000000000);
    Join(a, 32, 0x1931_653D, b + (c + d), 129, 0x10200048940004334D0669A0E67, 0x200000000000000000000000000000000);
    Join(m, 48, 0x3141_5926_5359, a + (b + (c + d)), 161,
      0x3262CA7A0000010200048940004334D0669A0E67, 0x20000000000000000000000000000000000000000);
  }

  /** The bits of the block: its magic, CRC and origPtr, the map, one selector, two tables and six symbols. */
  lemma HelloBlock()
    ensures GoodCodes(Hello()) && Coded(Hello().lens, [0], Syms())
    ensures Spells(BlockBits(Hello(), Syms()), 209, 0x6282B24CA6B23262CA7A0000010200048940004334D0669A0E67)
  {
    BodyIs();
    MagicIs();
    CrcIs();
    OneBit(false);
    Powers();
    Number(1, 24);
    BlockParts(BlockMagic(), WordBits(0x1931_653D), [false], Spell(1, 24), BodyBits(Hello(), Syms()));
  }

  // ---- The example of RFC 1951 ----

  function Example(): seq<byte> { [3, 3, 3, 3, 3, 2, 4, 4] }

  lemma ExampleCounts(i: nat)
    requires i <= 8
    ensures Count(Example()[..i], 1) == 0
    ensures Count(Example()[..i], 2) == if i > 5 then 1 else 0
    ensures Count(Example()[..i], 3) == if i < 5 then i else 5
    ensures Count(Example()[..i], 4) == if i > 6 then i - 6 else 0
  {
    if i > 0 {
      ExampleCounts(i - 1);
      CountNext(Example(), i - 1, 1);
      CountNext(Example(), i - 1, 2);
      CountNext(Example(), i - 1, 3);
      CountNext(Example(), i - 1, 4);
    }
  }

  /** Symbols A to H of lengths 3, 3, 3, 3, 3, 2, 4 and 4 get the codes 010 to 110, 00, 1110 and 1111. */
  lemma ExampleCodes(i: nat)
    requires i < 8
    ensures Spells(DeflateCodes.Sent(Example(), i), Example()[i], if i < 5 then i + 2 else if i == 5 then 0 else i + 8)
  {
    ExampleCounts(i);
    ExampleCounts(8);
    assert Example()[..8] == Example();
    FirstThree(Example());
    assert Pow2(2) == 4 && Pow2(3) == 8 && Pow2(4) == 16;
    Number(DeflateCodes.CodeOf(Example(), i), Example()[i]);
  }

  lemma FirstThree(l: seq<byte>)
    requires Count(l, 1) == 0
    ensures First(l, 1, 2) == 0 && First(l, 1, 3) == 2 * Count(l, 2)
    ensures First(l, 1, 4) == 2 * (2 * Count(l, 2) + Count(l, 3))
  {
  }
}
