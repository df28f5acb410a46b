/** The bytes by which streams and their blocks are known. */
module StreamBytes {
  import opened Common
  import opened Bits
  import opened BitIO
  import opened BzCrc
  import opened Rle
  import opened Parser
  import StreamStart
  import opened Stream

  /** A block starts with the digits of pi, and the stream ends after those of the root of pi. */
  function BlockStart(): seq<byte> { [0x31, 0x41, 0x59, 0x26, 0x53, 0x59] }

  function StreamTail(): seq<byte> { [0x17, 0x72, 0x45, 0x38, 0x50, 0x90] }

  // ---- What the decompressor takes for a block, and for the end ----

  /** A byte is read where one is asked for. */
  lemma ByteRead(c: Ctl, h: seq<byte>, rest: bits)
    requires Good(c) && Waiting(c) && Need(c) == 8 && h != []
    ensures Parse(c, BytesBits(h) + rest) == Parse(Deliver(c, h[0]), BytesBits(h[1..]) + rest)
  {
    hide BytesBits, Value, Deliver;
    var s := BytesBits(h) + rest;
    StreamStart.FirstByte(h, 0);
    assert h[0..] == h;
    assert s[..8] == BytesBits(h)[..8] && s[8..] == BytesBits(h)[8..] + rest;
    ParseOn(c, s, 8, h[0], Deliver(c, h[0]), s[8..]);
  }

  lemma BadStays(s: bits)
    ensures Parse(BadData, s) == Stop(BadData, s)
  {
  }

  lemma {:induction false} BlockFrom(level: nat, k: nat, h: seq<byte>, rest: bits)
    requires 1 <= level <= 9 && 2 <= k <= 6 && |h| == 7 - k
    ensures var r := Parse(BlockHdr(level, k), BytesBits(h) + rest);
      if h == BlockStart()[k - 1..] then r == Parse(BlockCrc(level, 1, 0), rest) else r.c.BadData?
    decreases 7 - k
  {
    hide Parse, Deliver, BytesBits;
    ByteRead(BlockHdr(level, k), h, rest);
    BlockStep(level, k, h[0]);
    assert BlockStart()[k - 1..] == [BlockStart()[k - 1]] + BlockStart()[k..] && h == [h[0]] + h[1..];
    if h[0] != BlockStart()[k - 1] {
      BadStays(BytesBits(h[1..]) + rest);
    } else if k < 6 {
      BlockFrom(level, k + 1, h[1..], rest);
    } else {
      assert BytesBits(h[1..]) + rest == rest;
    }
  }

  lemma BlockStep(level: nat, k: nat, b: byte)
    requires 1 <= level <= 9 && 2 <= k <= 6
    ensures Deliver(BlockHdr(level, k), b) == if b != BlockStart()[k - 1] then BadData
      else if k < 6 then BlockHdr(level, k + 1) else BlockCrc(level, 1, 0)
  {
  }

  lemma {:induction false} TailFrom(k: nat, h: seq<byte>, rest: bits)
    requires 2 <= k <= 6 && |h| == 7 - k
    ensures var r := Parse(EndHdr(k), BytesBits(h) + rest);
      if h == StreamTail()[k - 1..] then r == Parse(StreamCrc(1, 0), rest) else r.c.BadData?
    decreases 7 - k
  {
    hide Parse, Deliver, BytesBits;
    ByteRead(EndHdr(k), h, rest);
    TailStep(k, h[0]);
    assert StreamTail()[k - 1..] == [StreamTail()[k - 1]] + StreamTail()[k..] && h == [h[0]] + h[1..];
    if h[0] != StreamTail()[k - 1] {
      BadStays(BytesBits(h[1..]) + rest);
    } else if k < 6 {
      TailFrom(k + 1, h[1..], rest);
    } else {
      assert BytesBits(h[1..]) + rest == rest;
    }
  }

  lemma TailStep(k: nat, b: byte)
    requires 2 <= k <= 6
    ensures Deliver(EndHdr(k), b) == if b != StreamTail()[k - 1] then BadData
      else if k < 6 then EndHdr(k + 1) else StreamCrc(1, 0)
  {
  }

  /** Six bytes where a block may start: those of a block, those of the end, or an error. */
  lemma BlockOrEnd(level: nat, h: seq<byte>, rest: bits)
    requires 1 <= level <= 9 && |h| == 6
    ensures var r := Parse(BlockHdr(level, 1), BytesBits(h) + rest);
      if h == [0x31, 0x41, 0x59, 0x26, 0x53, 0x59] then r == Parse(BlockCrc(level, 1, 0), rest)
      else if h == [0x17, 0x72, 0x45, 0x38, 0x50, 0x90] then r == Parse(StreamCrc(1, 0), rest)
      else r.c.BadData?
  {
    ByteRead(BlockHdr(level, 1), h, rest);
    assert h == [h[0]] + h[1..];
    assert BlockStart() == [0x31] + BlockStart()[1..] && StreamTail() == [0x17] + StreamTail()[1..];
    if h[0] == 0x31 {
      BlockFrom(level, 2, h[1..], rest);
    } else if h[0] == 0x17 {
      TailFrom(2, h[1..], rest);
    } else {
      BadStays(BytesBits(h[1..]) + rest);
    }
  }

  // ---- What the compressor writes ----

  lemma {:induction false} SameBytes(s: seq<byte>, t: seq<byte>)
    requires BytesBits(s) == BytesBits(t)
    ensures s == t
  {
    assert |s| == |t|;
    if s != [] {
      StreamStart.FirstByte(s, 0);
      StreamStart.FirstByte(t, 0);
      assert s[0..] == s && t[0..] == t && s[0] == t[0];
      SameBytes(s[1..], t[1..]);
      assert s == [s[0]] + s[1..] && t == [t[0]] + t[1..];
    }
  }

  lemma OneByte(b: byte)
    ensures BytesBits([b]) == Spell(b, 8)
  {
    assert [b][..0] == [];
  }

  /** A stream starts with its header: "BZh" and the level. */
  lemma HeaderBytes(level: nat)
    requires 1 <= level <= 9
    ensures StreamHeader(level) == BytesBits([0x42, 0x5A, 0x68, 0x30 + level])
  {
    FourBytes(0x42, 0x5A, 0x68, 0x30 + level);
  }

  lemma FourBytes(a: byte, b: byte, c: byte, d: byte)
    ensures BytesBits([a, b, c, d]) == Spell(a, 8) + Spell(b, 8) + Spell(c, 8) + Spell(d, 8)
  {
    OneByte(a);
    OneByte(b);
    OneByte(c);
    OneByte(d);
    BytesBitsAppend([a], [b]);
    BytesBitsAppend([a] + [b], [c]);
    BytesBitsAppend([a] + [b] + [c], [d]);
    assert [a] + [b] + [c] + [d] == [a, b, c, d];
  }

  lemma TailBytes()
    ensures EndMagic() == BytesBits(StreamTail())
  {
    FourBytes(0x17, 0x72, 0x45, 0x38);
    OneByte(0x50);
    OneByte(0x90);
    BytesBitsAppend([0x17, 0x72, 0x45, 0x38], [0x50]);
    BytesBitsAppend([0x17, 0x72, 0x45, 0x38] + [0x50], [0x90]);
    assert [0x17, 0x72, 0x45, 0x38] + [0x50] + [0x90] == StreamTail();
  }

  lemma StartsWithHeader(level: nat, ps: seq<Piece>, given: seq<byte>, taken: seq<byte>)
    requires StreamOf(level, ps, given, taken)
    ensures [0x42, 0x5A, 0x68, 0x30 + level] <= given
  {
    hide Spell;
    var k: nat :| k < 8 && BytesBits(given) == SentBits(level, true, ps, true) + Zeros(k);
    HeaderBytes(level);
    assert |given| >= 4;
    BytesBitsAppend(given[..4], given[4..]);
    assert given[..4] + given[4..] == given;
    assert BytesBits(given[..4]) == BytesBits(given)[..32] == StreamHeader(level);
    SameBytes(given[..4], [0x42, 0x5A, 0x68, 0x30 + level]);
  }

  lemma PieceHasText(level: nat, p: Piece)
    requires GoodPiece(level, p)
    ensures |Spread(p.runs)| >= 1
  {
    RunsHaveText(p.runs);
  }

  lemma RunsHaveText(runs: seq<Pair>)
    requires runs != [] && Lengths(runs)
    ensures |Spread(runs)| >= 1
  {
  }

  lemma NoText(level: nat, ps: seq<Piece>)
    requires GoodPieces(level, ps) && Text(level, ps) == []
    ensures ps == []
  {
    if ps != [] { PieceHasText(level, ps[0]); }
  }

  lemma NothingCombined()
    ensures AsNumber(0) == 0 && WordBits(0) == BytesBits([0, 0, 0, 0])
  {
    assert Lock(0);
    FourBytes(0, 0, 0, 0);
  }

  lemma EmptySent(level: nat, head: seq<byte>, none: seq<byte>)
    requires 1 <= level <= 9 && head == [0x42, 0x5A, 0x68, 0x30 + level] && none == [0, 0, 0, 0]
    ensures SentBits(level, true, [], true) == BytesBits(head + (StreamTail() + none))
  {
    HeaderBytes(level);
    TailBytes();
    NothingCombined();
    BytesBitsAppend(StreamTail(), none);
    BytesBitsAppend(head, StreamTail() + none);
    hide BytesBits, Spell, StreamTail, EndMagic, StreamHeader, WordBits;
    assert PieceBits([]) == [] && CombineAll(level, 0, []) == 0;
    assert [] + Trailer(0) == EndMagic() + WordBits(0);
  }

  /** With less than a byte of padding, whole bytes are not padded. */
  lemma NotPadded(given: seq<byte>, whole: seq<byte>, k: nat)
    requires k < 8 && BytesBits(given) == BytesBits(whole) + Zeros(k)
    ensures given == whole
  {
    hide BytesBits;
    assert |BytesBits(given)| == 8 * |given| && |BytesBits(whole)| == 8 * |whole|;
    assert k == 0 && Zeros(k) == [];
    SameBytes(given, whole);
  }

  lemma NothingSent(level: nat, ps: seq<Piece>, given: seq<byte>, taken: seq<byte>) returns (k: nat)
    requires StreamOf(level, ps, given, taken) && taken == []
    ensures 1 <= level <= 9 && k < 8 && BytesBits(given) == SentBits(level, true, [], true) + Zeros(k)
  {
    hide SentBits, BytesBits;
    NoText(level, ps);
    k :| k < 8 && BytesBits(given) == SentBits(level, true, ps, true) + Zeros(k);
  }

  /** Compressing nothing gives these 14 bytes. */
  lemma EmptyStream(level: nat, ps: seq<Piece>, given: seq<byte>, taken: seq<byte>)
    requires StreamOf(level, ps, given, taken) && taken == []
    ensures given == [0x42, 0x5A, 0x68, 0x30 + level, 0x17, 0x72, 0x45, 0x38, 0x50, 0x90, 0, 0, 0, 0]
  {
    hide BytesBits, SentBits, StreamTail, GoodPieces, Text;
    var k := NothingSent(level, ps, given, taken);
    var head, none: seq<byte> := [0x42, 0x5A, 0x68, 0x30 + level], [0, 0, 0, 0];
    EmptySent(level, head, none);
    NotPadded(given, head + (StreamTail() + none), k);
    Together(level, head, none);
  }

  lemma Together(level: nat, head: seq<byte>, none: seq<byte>)
    requires 1 <= level <= 9 && head == [0x42, 0x5A, 0x68, 0x30 + level] && none == [0, 0, 0, 0]
    ensures head + (StreamTail() + none) ==
      [0x42, 0x5A, 0x68, 0x30 + level, 0x17, 0x72, 0x45, 0x38, 0x50, 0x90, 0, 0, 0, 0]
  {
  }
}
