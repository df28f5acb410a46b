/**
 * BZ2_decompress as a resumable machine. A `Ctl` is where it waits for bits and
 * the locals it has saved there; `Need` is how many bits that place asks for, and
 * `Deliver` runs the code from there to the next place.
 */
module Parser {
  import opened Common
  import opened Bits
  import opened HuffmanCodes
  import opened MtfCache
  import opened Mtf

  const GROUP_SIZE := 50
  const MAX_GROUPS := 6
  const MAX_SELECTORS := 2 + 900_000 / GROUP_SIZE

  /** What precedes the tables of a block. */
  datatype Hdr = Hdr(level: nat, crc: nat, randomised: bool, orig: nat)

  /** A block's used bytes and selectors. */
  datatype Coding = Coding(h: Hdr, inUse: seq<bool>, nGroups: nat, sels: seq<nat>)

  /** All that is needed to read its symbols. */
  datatype Codes = Codes(c: Coding, lens: seq<seq<byte>>)

  datatype Ctl =
    | Magic(k: nat)
    | BlockHdr(level: nat, k: nat)
    | BlockCrc(level: nat, k: nat, crc: nat)
    | RandBit(level: nat, crc: nat)
    | OrigPtr(h: Hdr, k: nat)
    | Mapping1(h: Hdr, use16: seq<bool>)
    | Mapping2(h: Hdr, use16: seq<bool>, inUse: seq<bool>)
    | Selector1(h: Hdr, inUse: seq<bool>)
    | Selector2(h: Hdr, inUse: seq<bool>, nGroups: nat)
    | Selector3(h: Hdr, inUse: seq<bool>, nGroups: nat, nSelectors: nat, selMtf: seq<nat>, j: nat)
    | Coding1(c: Coding, lens: seq<seq<byte>>)
    | Coding2(c: Coding, lens: seq<seq<byte>>, len: seq<byte>, curr: int)
    | Coding3(c: Coding, lens: seq<seq<byte>>, len: seq<byte>, curr: int)
    | Mtf1(codes: Codes, d: Decoder, groupNo: nat, groupPos: nat)
    | Mtf2(codes: Codes, d: Decoder, groupNo: nat, groupPos: nat, zn: nat, zvec: nat)
    | EndHdr(k: nat)
    | StreamCrc(k: nat, crc: nat)
    | Output(h: Hdr, col: seq<byte>)
    | StreamEnd(crc: nat)
    | BadMagic
    | BadData

  // ---- Derived values ----

  function AlphaSize(inUse: seq<bool>): nat
    requires |inUse| == 256
  {
    |Used(inUse, 256)| + 2
  }

  function Shortest(len: seq<byte>): (lo: nat)
    requires len != []
    ensures lo in len && forall i :: 0 <= i < |len| ==> lo <= len[i]
  {
    var n, l: int := |len| - 1, len[|len| - 1];
    if n == 0 then l else var r := Shortest(len[..n]); if l < r then l else r
  }

  function Longest(len: seq<byte>): (hi: nat)
    requires len != []
    ensures hi in len && forall i :: 0 <= i < |len| ==> len[i] <= hi
  {
    var n, l: int := |len| - 1, len[|len| - 1];
    if n == 0 then l else var r := Longest(len[..n]); if l > r then l else r
  }

  /** The lengths of one table, as the reader accepts them. */
  ghost predicate Table(len: seq<byte>, alphaSize: nat) {
    |len| == alphaSize <= MAX_ALPHA_SIZE && 3 <= alphaSize && LengthsIn(len, 1, LONGEST_CODE)
  }

  ghost function TableOf(len: seq<byte>): (t: Tables)
    requires len != []
    ensures |t.limit| == MAX_CODE_LEN && |t.base| == MAX_CODE_LEN && |t.perm| == MAX_ALPHA_SIZE
  {
    TablesOf(len, Shortest(len), Longest(len))
  }

  lemma TableOfFor(len: seq<byte>, alphaSize: nat)
    requires Table(len, alphaSize)
    ensures TablesFor(TableOf(len), len, Shortest(len), Longest(len))
  {
    TablesOfFor(len, Shortest(len), Longest(len));
  }

  /** A code that passes the reader's tests has a symbol. */
  lemma SymbolInRange(len: seq<byte>, alphaSize: nat, t: Tables, zn: nat, zvec: int)
    requires Table(len, alphaSize) && t == TableOf(len) && Shortest(len) <= zn <= LONGEST_CODE
    requires zvec <= t.limit[zn] && 0 <= zvec - t.base[zn] < MAX_ALPHA_SIZE
    ensures 0 <= t.perm[zvec - t.base[zn]] < alphaSize
  {
    TableOfFor(len, alphaSize);
    PlaceInRange(t, len, Shortest(len), Longest(len), zn, zvec);
  }

  ghost predicate GoodHdr(h: Hdr) { 1 <= h.level <= 9 }

  ghost predicate GoodUse(inUse: seq<bool>) { |inUse| == 256 && 1 <= |Used(inUse, 256)| }

  ghost predicate GoodCoding(c: Coding) {
    && GoodHdr(c.h) && GoodUse(c.inUse) && 2 <= c.nGroups <= MAX_GROUPS && 1 <= |c.sels|
    && forall i :: 0 <= i < |c.sels| ==> c.sels[i] < c.nGroups
  }

  ghost predicate GoodCodes(k: Codes) {
    && GoodCoding(k.c) && |k.lens| == k.c.nGroups
    && forall t :: 0 <= t < |k.lens| ==> Table(k.lens[t], AlphaSize(k.c.inUse))
  }

  ghost function Letters(c: Coding): Alphabet
    requires GoodCoding(c)
  {
    var used := Used(c.inUse, 256);
    Alphabet(used + seq(256 - |used|, _ => 0), |used| + 1, 100_000 * c.h.level)
  }

  ghost predicate Good(c: Ctl) {
    var holds := match c
    case Magic(k) => 1 <= k <= 4
    case BlockHdr(level, k) => 1 <= level <= 9 && 1 <= k <= 6
    case BlockCrc(level, k, _) => 1 <= level <= 9 && 1 <= k <= 4
    case RandBit(level, _) => 1 <= level <= 9
    case OrigPtr(h, k) => GoodHdr(h) && 1 <= k <= 3
    case Mapping1(h, use16) => GoodHdr(h) && |use16| < 16
    case Mapping2(h, use16, inUse) => GoodHdr(h) && |use16| == 16 && |inUse| < 256
    case Selector1(h, inUse) => GoodHdr(h) && GoodUse(inUse)
    case Selector2(h, inUse, nGroups) => GoodHdr(h) && GoodUse(inUse) && 2 <= nGroups <= MAX_GROUPS
    case Selector3(h, inUse, nGroups, nSelectors, selMtf, j) =>
      && GoodHdr(h) && GoodUse(inUse) && 2 <= nGroups <= MAX_GROUPS && |selMtf| < nSelectors && j < nGroups
      && forall i :: 0 <= i < |selMtf| ==> selMtf[i] < nGroups
    case Coding1(c, lens) => GoodCoding(c) && SomeTables(c, lens)
    case Coding2(c, lens, len, curr) => GoodCoding(c) && SomeTables(c, lens) && PartTable(c, len)
      && 1 <= curr <= LONGEST_CODE
    case Coding3(c, lens, len, curr) => GoodCoding(c) && SomeTables(c, lens) && PartTable(c, len)
      && 1 <= curr <= LONGEST_CODE
    case Mtf1(codes, d, groupNo, _) => GoodCodes(codes) && Sound(Letters(codes.c), d) && groupNo < |codes.c.sels|
    case Mtf2(codes, d, groupNo, _, zn, _) =>
      && GoodCodes(codes) && Sound(Letters(codes.c), d) && groupNo < |codes.c.sels|
      && Shortest(CurrentTable(codes, groupNo)) <= zn <= LONGEST_CODE + 1
    case EndHdr(k) => 2 <= k <= 6
    case StreamCrc(k, _) => 1 <= k <= 4
    case Output(h, col) => GoodHdr(h) && h.orig < |col|
    case _ => true;
    holds
  }

  ghost predicate SomeTables(c: Coding, lens: seq<seq<byte>>)
    requires GoodCoding(c)
  {
    |lens| < c.nGroups && forall t :: 0 <= t < |lens| ==> Table(lens[t], AlphaSize(c.inUse))
  }

  ghost predicate PartTable(c: Coding, len: seq<byte>)
    requires GoodCoding(c)
  {
    |len| < AlphaSize(c.inUse) && LengthsIn(len, 1, LONGEST_CODE)
  }

  ghost function CurrentTable(k: Codes, groupNo: nat): (len: seq<byte>)
    requires GoodCodes(k) && groupNo < |k.c.sels|
    ensures Table(len, AlphaSize(k.c.inUse))
  {
    k.lens[k.c.sels[groupNo]]
  }

  // ---- The machine ----

  predicate Waiting(c: Ctl) { !(c.Output? || c.StreamEnd? || c.BadMagic? || c.BadData?) }

  /** The bits asked for. */
  ghost function Need(c: Ctl): (n: nat)
    requires Good(c) && Waiting(c)
    ensures 1 <= n <= 20
  {
    match c
    case RandBit(_, _) => 1
    case Mapping1(_, _) => 1
    case Mapping2(_, _, _) => 1
    case Selector1(_, _) => 3
    case Selector2(_, _, _) => 15
    case Selector3(_, _, _, _, _, _) => 1
    case Coding1(_, _) => 5
    case Coding2(_, _, _, _) => 1
    case Coding3(_, _, _, _) => 1
    case Mtf1(codes, _, groupNo, _) => Shortest(CurrentTable(codes, groupNo))
    case Mtf2(_, _, _, _, _, _) => 1
    case _ => 8
  }

  function MagicByte(k: nat): nat { if k == 1 then 0x42 else if k == 2 then 0x5A else 0x68 }

  function BlockByte(k: nat): nat {
    if k == 1 then 0x31 else if k == 2 then 0x41 else if k == 3 then 0x59 else if k == 4 then 0x26
      else if k == 5 then 0x53 else 0x59
  }

  function EndByte(k: nat): nat {
    if k == 1 then 0x17 else if k == 2 then 0x72 else if k == 3 then 0x45 else if k == 4 then 0x38
      else if k == 5 then 0x50 else 0x90
  }

  function OnMagic(k: nat, v: nat): (c: Ctl)
    requires Good(Magic(k))
    ensures Good(c)
  {
    if k < 4 then if v == MagicByte(k) then Magic(k + 1) else BadMagic
    else if 0x31 <= v <= 0x39 then BlockHdr(v - 0x30, 1) else BadMagic
  }

  function OnBlockHdr(level: nat, k: nat, v: nat): (c: Ctl)
    requires Good(BlockHdr(level, k))
    ensures Good(c)
  {
    if k == 1 && v == 0x17 then EndHdr(2)
    else if v != BlockByte(k) then BadData
    else if k < 6 then BlockHdr(level, k + 1) else BlockCrc(level, 1, 0)
  }

  function OnBlockCrc(level: nat, k: nat, crc: nat): (c: Ctl)
    requires Good(BlockCrc(level, k, crc))
    ensures Good(c)
  {
    if k < 4 then BlockCrc(level, k + 1, crc) else RandBit(level, crc)
  }

  function OnOrigPtr(h: Hdr, k: nat): (c: Ctl)
    requires Good(OrigPtr(h, k))
    ensures Good(c)
  {
    if k < 3 then OrigPtr(h, k + 1)
    else if h.orig > 10 + 100_000 * h.level then BadData
    else Mapping1(h, [])
  }

  /** The flags read so far, filled up over groups of 16 that are not in use. */
  function Skip(use16: seq<bool>, inUse: seq<bool>): (r: seq<bool>)
    requires |use16| == 16
    ensures inUse <= r && (|inUse| <= 256 ==> |r| <= 256) && (|r| < 256 ==> |r| % 16 != 0 || use16[|r| / 16])
    decreases 256 - |inUse|
  {
    if |inUse| >= 256 || |inUse| % 16 != 0 || use16[|inUse| / 16] then inUse
    else Skip(use16, inUse + seq(16, _ => false))
  }

  function OnGroup(h: Hdr, use16: seq<bool>, used: bool): (c: Ctl)
    requires Good(Mapping1(h, use16))
    ensures Good(c)
  {
    var u := use16 + [used];
    if |u| < 16 then Mapping1(h, u) else OnUse(h, u, [])
  }

  function OnUse(h: Hdr, use16: seq<bool>, inUse: seq<bool>): (c: Ctl)
    requires GoodHdr(h) && |use16| == 16 && |inUse| <= 256
    ensures Good(c)
  {
    var r := Skip(use16, inUse);
    if |r| < 256 then Mapping2(h, use16, r)
    else if |Used(r, 256)| == 0 then BadData
    else Selector1(h, r)
  }

  /** The selectors from their move-to-front values, with the list `pos`. */
  function UndoMtf(pos: seq<nat>, mtf: seq<nat>): (r: seq<nat>)
    requires forall i :: 0 <= i < |mtf| ==> mtf[i] < |pos|
    ensures |r| == |mtf| && forall i :: 0 <= i < |r| ==> r[i] in pos
    decreases |mtf|
  {
    if mtf == [] then []
    else
      var rest := UndoMtf(ToFront(pos, mtf[0]), mtf[1..]);
      FrontSame(pos, mtf[0]);
      [pos[mtf[0]]] + rest
  }

  lemma FrontSame(pos: seq<nat>, j: nat)
    requires j < |pos|
    ensures forall v :: v in ToFront(pos, j) ==> v in pos
  {
  }

  function Tables0(n: nat): (pos: seq<nat>)
    ensures |pos| == n && forall i :: 0 <= i < n ==> pos[i] == i
  {
    seq(n, i requires 0 <= i => i)
  }

  function OnSelector(h: Hdr, inUse: seq<bool>, nGroups: nat, nSelectors: nat, selMtf: seq<nat>, j: nat, stop: bool)
    : (c: Ctl)
    requires Good(Selector3(h, inUse, nGroups, nSelectors, selMtf, j))
    ensures Good(c)
  {
    if stop then
      var more := selMtf + [j];
      if |more| < nSelectors then Selector3(h, inUse, nGroups, nSelectors, more, 0)
      else Coding1(Coding(h, inUse, nGroups, UndoMtf(Tables0(nGroups), more)), [])
    else if j + 1 >= nGroups then BadData
    else Selector3(h, inUse, nGroups, nSelectors, selMtf, j + 1)
  }

  function OnLength(c: Coding, lens: seq<seq<byte>>, len: seq<byte>, curr: int): (r: Ctl)
    requires GoodCoding(c) && SomeTables(c, lens) && PartTable(c, len)
    ensures Good(r)
  {
    if curr < 1 || curr > LONGEST_CODE then BadData else Coding2(c, lens, len, curr)
  }

  /** A length is complete. */
  function OnStop(c: Coding, lens: seq<seq<byte>>, len: seq<byte>, curr: int): (r: Ctl)
    requires Good(Coding2(c, lens, len, curr))
    ensures Good(r)
  {
    var more := len + [curr];
    if |more| < AlphaSize(c.inUse) then OnLength(c, lens, more, curr) else OnTables(c, lens + [more])
  }

  function OnTables(c: Coding, lens: seq<seq<byte>>): (r: Ctl)
    requires GoodCoding(c) && |lens| <= c.nGroups && forall t :: 0 <= t < |lens| ==> Table(lens[t], AlphaSize(c.inUse))
    ensures Good(r)
  {
    if |lens| < c.nGroups then Coding1(c, lens) else NextSym(Codes(c, lens), Start(), -1, 0)
  }

  /** The place to read the next symbol, with the table of its group. */
  function NextSym(k: Codes, d: Decoder, groupNo: int, groupPos: nat): (c: Ctl)
    requires GoodCodes(k) && Sound(Letters(k.c), d)
    requires -1 <= groupNo < |k.c.sels| && (groupNo < 0 ==> groupPos == 0)
    ensures Good(c)
  {
    if groupPos == 0 then
      if groupNo + 1 >= |k.c.sels| then BadData else Mtf1(k, d, groupNo + 1, GROUP_SIZE - 1)
    else Mtf1(k, d, groupNo, groupPos - 1)
  }

  /** The test on a code of zn bits. */
  ghost function OnCode(k: Codes, d: Decoder, groupNo: nat, groupPos: nat, zn: nat, zvec: nat): (c: Ctl)
    requires GoodCodes(k) && Sound(Letters(k.c), d) && groupNo < |k.c.sels| && Shortest(CurrentTable(k, groupNo)) <= zn
    ensures Good(c)
  {
    var len := CurrentTable(k, groupNo);
    var t := TableOf(len);
    if zn > LONGEST_CODE then BadData
    else if zvec <= t.limit[zn] then
      if zvec - t.base[zn] < 0 || zvec - t.base[zn] >= MAX_ALPHA_SIZE then BadData
      else
        SymbolInRange(len, AlphaSize(k.c.inUse), t, zn, zvec);
        OnSym(k, d, groupNo, groupPos, t.perm[zvec - t.base[zn]])
    else Mtf2(k, d, groupNo, groupPos, zn + 1, zvec)
  }

  ghost function OnSym(k: Codes, d: Decoder, groupNo: nat, groupPos: nat, sym: nat): (c: Ctl)
    requires GoodCodes(k) && Sound(Letters(k.c), d) && groupNo < |k.c.sels| && sym < AlphaSize(k.c.inUse)
    ensures Good(c)
  {
    match OnSymbol(Letters(k.c), d, sym)
    case More(d') => NextSym(k, d', groupNo, groupPos)
    case DataError => BadData
    case Done(col) => if k.c.h.orig >= |col| then BadData else Output(k.c.h, col)
  }

  /** The parts of a stream before a block's selectors. */
  predicate InHeader(c: Ctl) {
    c.Magic? || c.BlockHdr? || c.BlockCrc? || c.RandBit? || c.OrigPtr? || c.Mapping1? || c.Mapping2? || c.EndHdr?
      || c.StreamCrc?
  }

  predicate InSymbols(c: Ctl) { c.Mtf1? || c.Mtf2? }

  function DeliverHeader(c: Ctl, v: nat): (c': Ctl)
    requires Good(c) && InHeader(c)
    ensures Good(c')
  {
    match c
    case Magic(k) => OnMagic(k, v)
    case BlockHdr(level, k) => OnBlockHdr(level, k, v)
    case BlockCrc(level, k, crc) => OnBlockCrc(level, k, 256 * crc + v)
    case RandBit(level, crc) => OrigPtr(Hdr(level, crc, v == 1, 0), 1)
    case OrigPtr(h, k) => OnOrigPtr(h.(orig := 256 * h.orig + v), k)
    case Mapping1(h, use16) => OnGroup(h, use16, v == 1)
    case Mapping2(h, use16, inUse) => OnUse(h, use16, inUse + [v == 1])
    case EndHdr(k) => if v != EndByte(k) then BadData else if k < 6 then EndHdr(k + 1) else StreamCrc(1, 0)
    case StreamCrc(k, crc) => if k < 4 then StreamCrc(k + 1, 256 * crc + v) else StreamEnd(256 * crc + v)
  }

  /** The parts of a block before its symbols. */
  function DeliverCoding(c: Ctl, v: nat): (c': Ctl)
    requires Good(c) && Waiting(c) && !InHeader(c) && !InSymbols(c)
    ensures Good(c')
  {
    match c
    case Selector1(h, inUse) => if v < 2 || v > MAX_GROUPS then BadData else Selector2(h, inUse, v)
    case Selector2(h, inUse, nGroups) => if v < 1 then BadData else Selector3(h, inUse, nGroups, v, [], 0)
    case Selector3(h, inUse, nGroups, nSelectors, selMtf, j) => OnSelector(h, inUse, nGroups, nSelectors, selMtf, j,
      v == 0)
    case Coding1(k, lens) => OnLength(k, lens, [], v)
    case Coding2(k, lens, len, curr) => if v != 0 then Coding3(k, lens, len, curr) else OnStop(k, lens, len, curr)
    case Coding3(k, lens, len, curr) => OnLength(k, lens, len, if v == 0 then curr + 1 else curr - 1)
  }

  /** The symbols of a block. */
  ghost function DeliverSymbol(c: Ctl, v: nat): (c': Ctl)
    requires Good(c) && InSymbols(c)
    ensures Good(c')
  {
    match c
    case Mtf1(codes, d, groupNo, groupPos) =>
      OnCode(codes, d, groupNo, groupPos, Shortest(CurrentTable(codes, groupNo)), v)
    case Mtf2(codes, d, groupNo, groupPos, zn, zvec) => OnCode(codes, d, groupNo, groupPos, zn, 2 * zvec + v)
  }

  /** The code that runs once the bits asked for, of value v, are there. */
  ghost function Deliver(c: Ctl, v: nat): (c': Ctl)
    requires Good(c) && Waiting(c)
    ensures Good(c')
  {
    if InHeader(c) then DeliverHeader(c, v) else if InSymbols(c) then DeliverSymbol(c, v) else DeliverCoding(c, v)
  }

  /** Where the machine stops, and the bits it leaves. */
  datatype Stop = Stop(c: Ctl, rest: bits)

  /** Runs as far as the bits at hand allow. */
  ghost function Parse(c: Ctl, s: bits): (r: Stop)
    requires Good(c)
    ensures Good(r.c)
    decreases |s|
  {
    if !Waiting(c) || |s| < Need(c) then Stop(c, s)
    else Parse(Deliver(c, Value(s[..Need(c)])), s[Need(c)..])
  }

  lemma ParseOn(c: Ctl, s: bits, n: nat, v: nat, next: Ctl, rest: bits)
    requires Good(c) && Waiting(c) && n == Need(c) <= |s| && v == Value(s[..n]) && next == Deliver(c, v)
    requires rest == s[n..]
    ensures Parse(c, s) == Parse(next, rest) && |rest| < |s|
  {
  }

  lemma ParseStuck(c: Ctl, s: bits)
    requires Good(c) && (Waiting(c) ==> |s| < Need(c))
    ensures Parse(c, s) == Stop(c, s)
  {
  }

  /** Where the machine stops, it stays until there are more bits. */
  lemma {:induction false} ParseRests(c: Ctl, s: bits)
    requires Good(c)
    ensures var r := Parse(c, s); Parse(r.c, r.rest) == r
    decreases |s|
  {
    if Waiting(c) && Need(c) <= |s| { ParseRests(Deliver(c, Value(s[..Need(c)])), s[Need(c)..]); }
  }

  lemma {:induction false} ParseConsumes(c: Ctl, s: bits)
    requires Good(c)
    ensures |Parse(c, s).rest| <= |s| && (Parse(c, s).c != c ==> |Parse(c, s).rest| < |s|)
    decreases |s|
  {
    if Waiting(c) && Need(c) <= |s| { ParseConsumes(Deliver(c, Value(s[..Need(c)])), s[Need(c)..]); }
  }

  /** It does not matter how the bits are divided over calls. */
  lemma {:induction false} ParseResumes(c: Ctl, s: bits, t: bits)
    requires Good(c)
    ensures var r := Parse(c, s); Parse(c, s + t) == Parse(r.c, r.rest + t)
    decreases |s|
  {
    if Waiting(c) && Need(c) <= |s| {
      var n := Need(c);
      assert (s + t)[..n] == s[..n] && (s + t)[n..] == s[n..] + t;
      ParseResumes(Deliver(c, Value(s[..n])), s[n..], t);
    }
  }
}
