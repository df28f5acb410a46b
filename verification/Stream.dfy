/**
 * A whole stream. `Decompress` is what BZ2_bzDecompress makes of a string of
 * bits: block after block, each checked against its CRC, and at the end all of
 * them against the combined CRC.
 */
module Stream {
  import opened Common
  import opened Bits
  import opened BitIO
  import opened Bwt
  import opened Rle
  import opened BzCrc
  import opened RleDecoder
  import opened Parser
  import opened Reading
  import opened BlockTrip

  datatype Result = Decoded(out: seq<byte>, rest: bits) | Failed

  /** The text of a block that has been read. */
  ghost function TextOf(h: Hdr, col: seq<byte>): seq<byte>
    requires h.orig < |col|
  {
    Remaining(Fetched(col, h.orig), |col|, 0)
  }

  ghost predicate RunsEnd(h: Hdr, col: seq<byte>)
    requires h.orig < |col|
  {
    Complete(Fetched(col, h.orig), |col|, 0)
  }

  /** Its runs are complete and its CRC is the one stored. A randomised block is not followed here. */
  ghost predicate Accepts(h: Hdr, col: seq<byte>)
    requires h.orig < |col|
  {
    !h.randomised && RunsEnd(h, col) && Check(Fold(INITIAL, TextOf(h, col))) == h.crc
  }

  ghost function Joined(out: seq<byte>, more: Result): Result {
    if more.Failed? then Failed else Decoded(out + more.out, more.rest)
  }

  /** What the bits decode to from place c on. */
  ghost function Decompress(c: Ctl, s: bits, combined: bv32): Result
    requires Good(c)
    decreases |s|
  {
    var r := Parse(c, s);
    match r.c
    case Output(h, col) =>
      if |r.rest| >= |s| || !Accepts(h, col) then Failed
      else Joined(TextOf(h, col),
        Decompress(BlockHdr(h.level, 1), r.rest, Combine(combined, Fold(INITIAL, TextOf(h, col)))))
    case StreamEnd(crc) => if crc == AsNumber(combined) then Decoded([], r.rest) else Failed
    case _ => Failed
  }

  // ---- What the compressor writes ----

  ghost function StreamHeader(level: nat): bits {
    Spell(0x42, 8) + Spell(0x5A, 8) + Spell(0x68, 8) + Spell(0x30 + level, 8)
  }

  ghost function EndMagic(): bits {
    Spell(0x17, 8) + Spell(0x72, 8) + Spell(0x45, 8) + Spell(0x38, 8) + Spell(0x50, 8) + Spell(0x90, 8)
  }

  ghost function Trailer(combined: bv32): bits { EndMagic() + WordBits(AsNumber(combined)) }

  /** A block that has been written: its bits, and the runs it holds. */
  datatype Piece = Piece(s: bits, runs: seq<Pair>)

  ghost predicate GoodPiece(level: nat, p: Piece) {
    && Maximal(p.runs) && p.runs != []
    && forall i {:trigger Seal(i)} :: Seal(i) ==>
      Delivers(p.s, level, Check(Fold(INITIAL, Spread(p.runs))), Flatten(p.runs))
  }

  /** The CRC of a piece's text. */
  ghost function PieceCrc(p: Piece): bv32
    requires Maximal(p.runs)
  {
    Fold(INITIAL, Spread(p.runs))
  }

  ghost predicate GoodPieces(level: nat, ps: seq<Piece>) { forall i :: 0 <= i < |ps| ==> GoodPiece(level, ps[i]) }

  ghost function PieceBits(ps: seq<Piece>): bits { if ps == [] then [] else ps[0].s + PieceBits(ps[1..]) }

  ghost function Text(level: nat, ps: seq<Piece>): seq<byte>
    requires GoodPieces(level, ps)
  {
    if ps == [] then [] else Spread(ps[0].runs) + Text(level, ps[1..])
  }

  ghost function CombineAll(level: nat, combined: bv32, ps: seq<Piece>): bv32
    requires GoodPieces(level, ps)
    decreases |ps|
  {
    if ps == [] then combined else CombineAll(level, Combine(combined, PieceCrc(ps[0])), ps[1..])
  }

  // ---- The round trip ----

  /** The text of one block, from what the machine reads. */
  lemma BlockText(col: seq<byte>, orig: nat, runs: seq<Pair>)
    requires Proper(runs) && Unwinds(orig, col, Flatten(runs))
    ensures var t := Fetched(col, orig); Remaining(t, |col|, 0) == Spread(runs) && Complete(t, |col|, 0)
  {
    var t, n := Fetched(col, orig), |col|;
    assert t[..n] == Spelling(col, orig, n);
    RleRoundTrip(t, n, runs);
  }

  lemma DecompressBlock(level: nat, p: Piece, rest: bits, combined: bv32)
    requires 1 <= level <= 9 && GoodPiece(level, p)
    ensures var more := Decompress(BlockHdr(level, 1), rest, Combine(combined, PieceCrc(p)));
      Decompress(BlockHdr(level, 1), p.s + rest, combined) == if more.Failed? then Failed
        else Decoded(Spread(p.runs) + more.out, more.rest)
  {
    var b, crc := Flatten(p.runs), PieceCrc(p);
    assert Seal(0);
    var orig, col :| Unwinds(orig, col, b)
      && Reads(BlockHdr(level, 1), p.s, Output(Hdr(level, Check(crc), false, orig), col));
    var end := Output(Hdr(level, Check(crc), false, orig), col);
    ReadsMore(BlockHdr(level, 1), p.s, end, rest);
    BlockText(col, orig, p.runs);
    SomeBits(level, p.s, end);
  }

  /** A block takes some bits. */
  lemma SomeBits(level: nat, s: bits, end: Ctl)
    requires 1 <= level <= 9 && Reads(BlockHdr(level, 1), s, end) && end.Output?
    ensures |s| > 0
  {
    assert Key(0);
  }

  lemma ReadsEndByte(k: nat, next: Ctl)
    requires 2 <= k <= 6 && next == if k < 6 then EndHdr(k + 1) else StreamCrc(1, 0)
    ensures Reads(EndHdr(k), Spell(EndByte(k), 8), next)
  {
    ReadsByte(EndHdr(k), EndByte(k), next);
  }

  lemma ReadsEndMagic(level: nat)
    requires 1 <= level <= 9
    ensures Reads(BlockHdr(level, 1), EndMagic(), StreamCrc(1, 0))
  {
    var c0, end := BlockHdr(level, 1), StreamCrc(1, 0);
    var a, b, c, d, e, f := Spell(0x17, 8), Spell(0x72, 8), Spell(0x45, 8), Spell(0x38, 8), Spell(0x50, 8),
      Spell(0x90, 8);
    ReadsByte(c0, 0x17, EndHdr(2));
    ReadsEndByte(2, EndHdr(3));
    ReadsEndByte(3, EndHdr(4));
    ReadsEndByte(4, EndHdr(5));
    ReadsEndByte(5, EndHdr(6));
    ReadsEndByte(6, end);
    ReadsFour(c0, a, EndHdr(2), b, EndHdr(3), c, EndHdr(4), d, EndHdr(5));
    ReadsThen(c0, a + b + c + d, EndHdr(5), e, EndHdr(6));
    ReadsThen(c0, a + b + c + d + e, EndHdr(6), f, end);
  }

  lemma ReadsEndCrcByte(k: nat, crc: nat, v: nat, sum: nat, next: Ctl)
    requires 1 <= k <= 4 && v < 256 && sum == 256 * crc + v
    requires next == if k < 4 then StreamCrc(k + 1, sum) else StreamEnd(sum)
    ensures Reads(StreamCrc(k, crc), Spell(v, 8), next)
  {
    ReadsByte(StreamCrc(k, crc), v, next);
  }

  lemma ReadsStreamCrc(a: nat, b: nat, c: nat, d: nat, crc: nat)
    requires a < 256 && b < 256 && c < 256 && d < 256 && 256 * (256 * (256 * a + b) + c) + d == crc
    ensures Reads(StreamCrc(1, 0), Spell(a, 8) + Spell(b, 8) + Spell(c, 8) + Spell(d, 8), StreamEnd(crc))
  {
    var y := 256 * a + b;
    var z := 256 * y + c;
    var c1, c2, c3, end := StreamCrc(2, a), StreamCrc(3, y), StreamCrc(4, z), StreamEnd(crc);
    ReadsEndCrcByte(1, 0, a, a, c1);
    ReadsEndCrcByte(2, a, b, y, c2);
    ReadsEndCrcByte(3, y, c, z, c3);
    ReadsEndCrcByte(4, z, d, crc, end);
    ReadsFour(StreamCrc(1, 0), Spell(a, 8), c1, Spell(b, 8), c2, Spell(c, 8), c3, Spell(d, 8), end);
  }

  lemma ReadsTrailer(level: nat, combined: bv32)
    requires 1 <= level <= 9
    ensures Reads(BlockHdr(level, 1), Trailer(combined), StreamEnd(AsNumber(combined)))
  {
    var u := AsNumber(combined);
    var a, b, c, d := u / 0x100_0000 % 256, u / 0x1_0000 % 256, u / 0x100 % 256, u % 256;
    WordParts(u, a, b, c, d);
    ReadsEndMagic(level);
    ReadsStreamCrc(a, b, c, d, u);
    ReadsThen(BlockHdr(level, 1), EndMagic(), StreamCrc(1, 0), WordBits(u), StreamEnd(u));
  }

  lemma ReadsMagic(k: nat, v: nat, next: Ctl)
    requires 1 <= k <= 3 && v == MagicByte(k) && next == Magic(k + 1)
    ensures Reads(Magic(k), Spell(v, 8), next)
  {
    ReadsByte(Magic(k), v, next);
  }

  lemma ReadsLevel(level: nat, v: nat)
    requires 1 <= level <= 9 && v == 0x30 + level
    ensures Reads(Magic(4), Spell(v, 8), BlockHdr(level, 1))
  {
    ReadsByte(Magic(4), v, BlockHdr(level, 1));
  }

  lemma ReadsMagics(m: bits)
    requires m == Spell(0x42, 8) + Spell(0x5A, 8) + Spell(0x68, 8)
    ensures Reads(Magic(1), m, Magic(4))
  {
    ReadsMagic(1, 0x42, Magic(2));
    ReadsMagic(2, 0x5A, Magic(3));
    ReadsMagic(3, 0x68, Magic(4));
    ReadsThree(Magic(1), Spell(0x42, 8), Magic(2), Spell(0x5A, 8), Magic(3), Spell(0x68, 8), Magic(4));
  }

  /** The level follows the magic bytes. */
  lemma ReadsAll(level: nat, m: bits, all: bits)
    requires 1 <= level <= 9 && Reads(Magic(1), m, Magic(4)) && all == m + Spell(0x30 + level, 8)
    ensures Reads(Magic(1), all, BlockHdr(level, 1))
  {
    ReadsLevel(level, 0x30 + level);
    ReadsThen(Magic(1), m, Magic(4), Spell(0x30 + level, 8), BlockHdr(level, 1));
  }

  lemma ReadsStreamHeader(level: nat)
    requires 1 <= level <= 9
    ensures Reads(Magic(1), StreamHeader(level), BlockHdr(level, 1))
  {
    var m := Spell(0x42, 8) + Spell(0x5A, 8) + Spell(0x68, 8);
    ReadsMagics(m);
    ReadsAll(level, m, StreamHeader(level));
  }

  lemma DecompressEnd(level: nat, combined: bv32, rest: bits)
    requires 1 <= level <= 9
    ensures Decompress(BlockHdr(level, 1), Trailer(combined) + rest, combined) == Decoded([], rest)
  {
    ReadsTrailer(level, combined);
    ReadsMore(BlockHdr(level, 1), Trailer(combined), StreamEnd(AsNumber(combined)), rest);
  }

  /** Blocks, then the trailer. */
  lemma {:induction false} DecompressPieces(level: nat, ps: seq<Piece>, combined: bv32, rest: bits)
    requires 1 <= level <= 9 && GoodPieces(level, ps)
    ensures Decompress(BlockHdr(level, 1), PieceBits(ps) + (Trailer(CombineAll(level, combined, ps)) + rest),
      combined) == Decoded(Text(level, ps), rest)
    decreases |ps|
  {
    var all := Trailer(CombineAll(level, combined, ps)) + rest;
    if ps == [] {
      assert PieceBits(ps) + all == all;
      DecompressEnd(level, combined, rest);
    } else {
      var p, more := ps[0], ps[1..];
      Associates(p.s + PieceBits(more), p.s, PieceBits(more), all);
      DecompressPieces(level, more, Combine(combined, PieceCrc(p)), rest);
      DecompressBlock(level, p, PieceBits(more) + all, combined);
    }
  }

  /** A whole stream decodes to the text of its blocks, and leaves what follows it. */
  lemma StreamRoundTrip(level: nat, ps: seq<Piece>, rest: bits)
    requires 1 <= level <= 9 && GoodPieces(level, ps)
    ensures Decompress(Magic(1), StreamHeader(level) + (PieceBits(ps) + (Trailer(CombineAll(level, 0, ps)) + rest)),
      0) == Decoded(Text(level, ps), rest)
  {
    var tail := PieceBits(ps) + (Trailer(CombineAll(level, 0, ps)) + rest);
    ReadsStreamHeader(level);
    ReadsMore(Magic(1), StreamHeader(level), BlockHdr(level, 1), tail);
    DecompressPieces(level, ps, 0, rest);
    SameDecompress(Magic(1), StreamHeader(level) + tail, BlockHdr(level, 1), tail, 0);
  }

  lemma SameDecompress(c: Ctl, s: bits, c': Ctl, s': bits, combined: bv32)
    requires Good(c) && Good(c') && Parse(c, s) == Parse(c', s') && |s'| <= |s|
    requires Decompress(c', s', combined).Decoded?
    ensures Decompress(c, s, combined) == Decompress(c', s', combined)
  {
  }

  // ---- A stream in the making ----

  /** What has been sent: the header once begun, the blocks, and the trailer once closed. */
  ghost function SentBits(level: nat, begun: bool, ps: seq<Piece>, closed: bool): bits
    requires GoodPieces(level, ps)
  {
    (if begun then StreamHeader(level) else []) +
      (PieceBits(ps) + if closed then Trailer(CombineAll(level, 0, ps)) else [])
  }

  /** The bytes produced so far, and the bits still in the writer, are what has been sent. */
  ghost predicate Sync(level: nat, begun: bool, ps: seq<Piece>, closed: bool, done: seq<byte>, live: bits) {
    forall i {:trigger Key(i)} :: Key(i) ==> InStep(level, begun, ps, closed, done, live)
  }

  ghost predicate InStep(level: nat, begun: bool, ps: seq<Piece>, closed: bool, done: seq<byte>, live: bits) {
    && 1 <= level <= 9 && GoodPieces(level, ps) && (!begun ==> ps == [] && !closed)
    && if closed then exists k: nat :: k < 8 && BytesBits(done) == SentBits(level, begun, ps, closed) + Zeros(k)
       else BytesBits(done) + live == SentBits(level, begun, ps, closed)
  }

  /** What has been taken in is the text of the blocks and `held`, which is not yet in one. */
  ghost predicate Account(level: nat, ps: seq<Piece>, combined: bv32, held: seq<byte>, taken: seq<byte>) {
    forall i {:trigger Key(i)} :: Key(i) ==>
      GoodPieces(level, ps) && combined == CombineAll(level, 0, ps) && taken == Text(level, ps) + held
  }

  lemma {:induction false} PieceSnoc(level: nat, ps: seq<Piece>, p: Piece)
    requires GoodPieces(level, ps) && GoodPiece(level, p)
    ensures GoodPieces(level, ps + [p]) && PieceBits(ps + [p]) == PieceBits(ps) + p.s
    ensures Text(level, ps + [p]) == Text(level, ps) + Spread(p.runs)
    decreases |ps|
  {
    if ps == [] {
      assert ps + [p] == [p] && [p][1..] == [];
    } else {
      assert (ps + [p])[0] == ps[0] && (ps + [p])[1..] == ps[1..] + [p];
      PieceSnoc(level, ps[1..], p);
    }
  }

  lemma {:induction false} CombineSnoc(level: nat, ps: seq<Piece>, p: Piece, combined: bv32)
    requires GoodPieces(level, ps) && GoodPiece(level, p) && GoodPieces(level, ps + [p])
    ensures CombineAll(level, combined, ps + [p]) == Combine(CombineAll(level, combined, ps), PieceCrc(p))
    decreases |ps|
  {
    if ps == [] {
      assert ps + [p] == [p] && [p][1..] == [];
    } else {
      assert (ps + [p])[0] == ps[0] && (ps + [p])[1..] == ps[1..] + [p];
      CombineSnoc(level, ps[1..], p, Combine(combined, PieceCrc(ps[0])));
    }
  }

  /** Bytes z and bits `left` hold what was live and what was added. */
  lemma Regrouped(done: seq<byte>, live: bits, z: seq<byte>, left: bits, add: bits)
    requires BytesBits(z) + left == live + add
    ensures BytesBits(done + z) + left == (BytesBits(done) + live) + add
  {
    BytesBitsAppend(done, z);
    assert BytesBits(done) + BytesBits(z) + left == BytesBits(done) + (BytesBits(z) + left);
  }

  lemma SyncOpens(level: nat, ps: seq<Piece>, done: seq<byte>, live: bits, z: seq<byte>, left: bits)
    requires Sync(level, false, ps, false, done, live) && BytesBits(z) + left == live + StreamHeader(level)
    ensures Sync(level, true, ps, false, done + z, left)
  {
    assert Key(0);
    Regrouped(done, live, z, left, StreamHeader(level));
  }

  lemma SentParts(h: bits, ps: bits, add: bits, pad: bits)
    ensures (h + (ps + [])) + (add + pad) == (h + (ps + add)) + pad
    ensures (h + (ps + add)) + [] == h + (ps + add) && h + ((ps + add) + []) == h + (ps + add) && add + [] == add
  {
  }

  lemma AccountBlock(level: nat, ps: seq<Piece>, combined: bv32, held: seq<byte>, taken: seq<byte>, p: Piece,
                     rest: seq<byte>)
    requires Account(level, ps, combined, held, taken) && GoodPiece(level, p) && held == Spread(p.runs) + rest
    ensures Account(level, ps + [p], Combine(combined, PieceCrc(p)), rest, taken)
  {
    assert Key(0);
    PieceSnoc(level, ps, p);
    CombineSnoc(level, ps, p, 0);
  }

  lemma AccountTakes(level: nat, ps: seq<Piece>, combined: bv32, held: seq<byte>, taken: seq<byte>, more: seq<byte>)
    requires Account(level, ps, combined, held, taken)
    ensures Account(level, ps, combined, held + more, taken + more)
  {
    assert Key(0);
    if GoodPieces(level, ps) { assert Text(level, ps) + (held + more) == Text(level, ps) + held + more; }
  }

  /** The decompressor makes `taken` of the bytes given, leaving less than a byte of padding. */
  ghost predicate Decodable(given: seq<byte>, taken: seq<byte>) {
    exists pad: bits :: |pad| < 8 && Decompress(Magic(1), BytesBits(given), 0) == Decoded(taken, pad)
  }

  /** The bytes given are those of a stream of these blocks, which hold what was taken. */
  ghost predicate StreamOf(level: nat, ps: seq<Piece>, given: seq<byte>, taken: seq<byte>) {
    && 1 <= level <= 9 && GoodPieces(level, ps) && Text(level, ps) == taken
    && exists k: nat :: k < 8 && BytesBits(given) == SentBits(level, true, ps, true) + Zeros(k)
  }

  /** A closed stream whose input is all in blocks decodes to that input. */
  lemma ClosedDecodes(level: nat, ps: seq<Piece>, combined: bv32, done: seq<byte>, live: bits, taken: seq<byte>)
    requires Sync(level, true, ps, true, done, live) && Account(level, ps, combined, [], taken)
    ensures Decodable(done, taken) && StreamOf(level, ps, done, taken)
  {
    assert Key(0);
    var k: nat :| k < 8 && BytesBits(done) == SentBits(level, true, ps, true) + Zeros(k);
    var end := Trailer(CombineAll(level, 0, ps));
    StreamRoundTrip(level, ps, Zeros(k));
    Associates(StreamHeader(level) + (PieceBits(ps) + end), StreamHeader(level), PieceBits(ps) + end, Zeros(k));
    Associates(PieceBits(ps) + end, PieceBits(ps), end, Zeros(k));
    assert Text(level, ps) + [] == Text(level, ps);
    assert |Zeros(k)| < 8;
  }
}
