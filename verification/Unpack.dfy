/**
 * What a decompressor puts out as it goes along, whether or not the stream turns
 * out to be sound, and how a call's share of it relates to the rest.
 */
module Unpack {
  import opened Common
  import opened Bits
  import opened BzCrc
  import opened Parser
  import Stream

  /** The stream is over, with bits after it; it is broken; it needs more bits; or a block is randomised. */
  datatype Ending = Ended(rest: bits) | Broken | Waits | Unfollowed

  datatype Yield = Yield(out: seq<byte>, end: Ending)

  ghost function Prepend(out: seq<byte>, y: Yield): Yield { Yield(out + y.out, y.end) }

  /** From place c on, with the CRCs of the blocks so far combined. */
  ghost function Unpacked(c: Ctl, s: bits, combined: bv32): Yield
    requires Good(c)
    decreases |s|, 0
  {
    var r := Parse(c, s);
    match r.c
    case Output(h, col) =>
      if h.randomised then Yield([], Unfollowed)
      else if |r.rest| >= |s| then Yield([], Broken)
      else AfterRuns(Stream.TextOf(h, col), Stream.RunsEnd(h, col), INITIAL, h, r.rest, combined)
    case StreamEnd(crc) => Yield([], if crc == AsNumber(combined) then Ended(r.rest) else Broken)
    case BadMagic => Yield([], Broken)
    case BadData => Yield([], Broken)
    case _ => Yield([], Waits)
  }

  /** From within a block: `left` of it is to come, after bytes whose CRC is crc. */
  ghost function AfterRuns(left: seq<byte>, sane: bool, crc: bv32, h: Hdr, s: bits, combined: bv32): Yield
    requires GoodHdr(h)
    decreases |s|, 1
  {
    if !sane || Check(Fold(crc, left)) != h.crc then Yield(left, Broken)
    else Prepend(left, Unpacked(BlockHdr(h.level, 1), s, Combine(combined, Fold(crc, left))))
  }

  /** All or nothing: the text of a stream that is sound up to its end. */
  ghost function Whole(y: Yield): Stream.Result {
    if y.end.Ended? then Stream.Decoded(y.out, y.end.rest) else Stream.Failed
  }

  lemma NoBlock(c: Ctl, s: bits, combined: bv32, r: Stop)
    requires Good(c) && Parse(c, s) == r && (r.c.Output? ==> |r.rest| >= |s|)
    ensures Stream.Decompress(c, s, combined) == Whole(Unpacked(c, s, combined))
  {
  }

  /** A sound stream: what it decodes to, all at once, is what is put out by the end. */
  lemma {:induction false} DecodesAlike(c: Ctl, s: bits, combined: bv32)
    requires Good(c)
    ensures Stream.Decompress(c, s, combined) == Whole(Unpacked(c, s, combined))
    decreases |s|
  {
    var r := Parse(c, s);
    if r.c.Output? && |r.rest| < |s| {
      var h, text := r.c.h, Stream.TextOf(r.c.h, r.c.col);
      var next, joined := BlockHdr(h.level, 1), Combine(combined, Fold(INITIAL, text));
      DecodesAlike(next, r.rest, joined);
      BlockAlike(c, s, combined, r, text, next, joined);
    } else {
      NoBlock(c, s, combined, r);
    }
  }

  lemma DecodedBlock(c: Ctl, s: bits, combined: bv32, r: Stop, text: seq<byte>, more: Stream.Result)
    requires Good(c) && Parse(c, s) == r && |r.rest| < |s| && r.c.Output? && r.c.h.orig < |r.c.col| && GoodHdr(r.c.h)
    requires text == Stream.TextOf(r.c.h, r.c.col)
    requires more == Stream.Decompress(BlockHdr(r.c.h.level, 1), r.rest, Combine(combined, Fold(INITIAL, text)))
    ensures Stream.Decompress(c, s, combined) == if Stream.Accepts(r.c.h, r.c.col) then Stream.Joined(text, more)
      else Stream.Failed
  {
  }

  lemma YieldedBlock(c: Ctl, s: bits, combined: bv32, r: Stop, text: seq<byte>, more: Yield)
    requires Good(c) && Parse(c, s) == r && |r.rest| < |s| && r.c.Output? && r.c.h.orig < |r.c.col| && GoodHdr(r.c.h)
    requires text == Stream.TextOf(r.c.h, r.c.col)
    requires more == Unpacked(BlockHdr(r.c.h.level, 1), r.rest, Combine(combined, Fold(INITIAL, text)))
    ensures if Stream.Accepts(r.c.h, r.c.col) then Unpacked(c, s, combined) == Prepend(text, more)
      else !Unpacked(c, s, combined).end.Ended?
  {
  }

  lemma BlockAlike(c: Ctl, s: bits, combined: bv32, r: Stop, text: seq<byte>, next: Ctl, joined: bv32)
    requires Good(c) && Parse(c, s) == r && |r.rest| < |s| && r.c.Output? && r.c.h.orig < |r.c.col| && GoodHdr(r.c.h)
    requires text == Stream.TextOf(r.c.h, r.c.col) && joined == Combine(combined, Fold(INITIAL, text))
    requires next == BlockHdr(r.c.h.level, 1)
    requires Stream.Decompress(next, r.rest, joined) == Whole(Unpacked(next, r.rest, joined))
    ensures Stream.Decompress(c, s, combined) == Whole(Unpacked(c, s, combined))
  {
    DecodedBlock(c, s, combined, r, text, Stream.Decompress(next, r.rest, joined));
    YieldedBlock(c, s, combined, r, text, Unpacked(next, r.rest, joined));
  }

  // ---- The decompressor between two calls ----

  /** Reading a block, or writing one out; with bits that have not been looked at. */
  datatype Snap =
    | Parsing(c: Ctl, unread: bits, combined: bv32)
    | Writing(left: seq<byte>, sane: bool, crc: bv32, h: Hdr, unread: bits, combined: bv32)

  ghost predicate GoodSnap(p: Snap) { if p.Parsing? then Good(p.c) else GoodHdr(p.h) }

  ghost function Coming(p: Snap, more: bits): Yield
    requires GoodSnap(p)
  {
    match p
    case Parsing(c, unread, combined) => Unpacked(c, unread + more, combined)
    case Writing(left, sane, crc, h, unread, combined) => AfterRuns(left, sane, crc, h, unread + more, combined)
  }

  ghost predicate IsToCome(p: Snap, more: bits, y: Yield)
    requires GoodSnap(p)
  {
    forall k {:trigger Key(k)} :: Key(k) ==> y == Coming(p, more)
  }

  /** What is to come if `more` bits follow those at hand. */
  ghost function ToCome(p: Snap, more: bits): (y: Yield)
    requires GoodSnap(p)
    ensures IsToCome(p, more, y)
  {
    assert IsToCome(p, more, Coming(p, more));
    var y :| IsToCome(p, more, y);
    y
  }

  /** Whatever follows, p yields `out` and then what q yields. */
  ghost predicate Leads(p: Snap, out: seq<byte>, q: Snap) {
    && GoodSnap(p) && GoodSnap(q)
    && forall k {:trigger Seal(k)} :: Seal(k) ==> forall more {:trigger ToCome(q, more)} ::
      ToCome(p, more) == Prepend(out, ToCome(q, more))
  }

  /** Whatever follows, the stream is broken, and `out` is all that it yields, or if not exact some of it. */
  ghost predicate Doomed(p: Snap, out: seq<byte>, exact: bool) {
    && GoodSnap(p)
    && forall k {:trigger Seal(k)} :: Seal(k) ==> forall more {:trigger ToCome(p, more)} ::
      var y := ToCome(p, more); y.end.Broken? && if exact then y.out == out else out <= y.out
  }

  lemma DoomedLater(p: Snap, out: seq<byte>, q: Snap, more: seq<byte>, exact: bool)
    requires Leads(p, out, q) && Doomed(q, more, exact)
    ensures Doomed(p, out + more, exact)
  {
    assert Seal(0);
    forall x {:trigger ToCome(p, x)}
      ensures var y := ToCome(p, x); y.end.Broken? && if exact then y.out == out + more else out + more <= y.out
    {
      assert ToCome(p, x) == Prepend(out, ToCome(q, x));
    }
  }

  lemma LeadsNowhere(p: Snap)
    requires GoodSnap(p)
    ensures Leads(p, [], p)
  {
    forall more {:trigger ToCome(p, more)}
      ensures ToCome(p, more) == Prepend([], ToCome(p, more)) {
        assert [] + ToCome(p, more).out == ToCome(p, more).out; }
  }

  lemma LeadsOn(p: Snap, a: seq<byte>, q: Snap, b: seq<byte>, r: Snap)
    requires Leads(p, a, q) && Leads(q, b, r)
    ensures Leads(p, a + b, r)
  {
    assert Seal(0);
    forall more {:trigger ToCome(r, more)} ensures ToCome(p, more) == Prepend(a + b, ToCome(r, more)) {
      assert ToCome(p, more) == Prepend(a, ToCome(q, more));
      assert ToCome(q, more) == Prepend(b, ToCome(r, more));
      assert a + (b + ToCome(r, more).out) == (a + b) + ToCome(r, more).out;
    }
  }

  /** A call of BZ2_decompress that does not reach the end of a block's symbols. */
  lemma ReadOn(c: Ctl, s: bits, c': Ctl, s': bits, combined: bv32)
    requires Good(c) && Good(c') && Stop(c', s') == Parse(c, s) && !c'.Output?
    ensures Leads(Parsing(c, s, combined), [], Parsing(c', s', combined))
  {
    var p, q := Parsing(c, s, combined), Parsing(c', s', combined);
    assert Key(0);
    forall more {:trigger ToCome(q, more)} ensures ToCome(p, more) == Prepend([], ToCome(q, more)) {
      ParseResumes(c, s, more);
      SameParse(c, s + more, c', s' + more, combined);
      assert [] + ToCome(q, more).out == ToCome(q, more).out;
    }
  }

  /** A call that starts no block. */
  lemma StillReading(c: Ctl, s: bits, c': Ctl, s': bits, combined: bv32)
    requires Good(c) && Good(c') && Stop(c', s') == Parse(c, s) && (c'.Output? ==> c'.h.randomised)
    ensures Leads(Parsing(c, s, combined), [], Parsing(c', s', combined))
  {
    if c'.Output? { RandomisedRead(c, s, c'.h, c'.col, s', combined); } else { ReadOn(c, s, c', s', combined); }
  }

  lemma SameParse(c: Ctl, s: bits, c': Ctl, s': bits, combined: bv32)
    requires Good(c) && Good(c') && Parse(c, s) == Parse(c', s') && !c'.Output? && !c.Output?
    ensures Unpacked(c, s, combined) == Unpacked(c', s', combined)
  {
    hide Parse, Stream.TextOf, Stream.RunsEnd;
    ParseConsumes(c, s);
    ParseConsumes(c', s');
  }

  /** A call of BZ2_decompress that reaches it. */
  lemma BlockRead(c: Ctl, s: bits, h: Hdr, col: seq<byte>, s': bits, combined: bv32, left: seq<byte>, sane: bool)
    requires Good(c) && !c.Output? && Stop(Output(h, col), s') == Parse(c, s) && GoodHdr(h) && h.orig < |col|
    requires !h.randomised
    requires left == Stream.TextOf(h, col) && sane == Stream.RunsEnd(h, col)
    ensures Leads(Parsing(c, s, combined), [], Writing(left, sane, INITIAL, h, s', combined))
  {
    hide Stream.TextOf, Stream.RunsEnd;
    var p, q := Parsing(c, s, combined), Writing(left, sane, INITIAL, h, s', combined);
    assert Key(0);
    forall more {:trigger ToCome(q, more)} ensures ToCome(p, more) == Prepend([], ToCome(q, more)) {
      ParseResumes(c, s, more);
      ParseConsumes(c, s);
      assert Parse(c, s + more) == Stop(Output(h, col), s' + more);
      assert [] + ToCome(q, more).out == ToCome(q, more).out;
    }
  }

  lemma RandomisedRead(c: Ctl, s: bits, h: Hdr, col: seq<byte>, s': bits, combined: bv32)
    requires Good(c) && Stop(Output(h, col), s') == Parse(c, s) && h.randomised && Good(Output(h, col))
    ensures Leads(Parsing(c, s, combined), [], Parsing(Output(h, col), s', combined))
  {
    var p, q := Parsing(c, s, combined), Parsing(Output(h, col), s', combined);
    assert Key(0);
    forall more {:trigger ToCome(q, more)} ensures ToCome(p, more) == Prepend([], ToCome(q, more)) {
      ParseResumes(c, s, more);
    }
  }

  /** Some of a block's bytes are written. */
  lemma WriteOn(left: seq<byte>, sane: bool, crc: bv32, h: Hdr, s: bits, combined: bv32, out: seq<byte>,
        left': seq<byte>, crc': bv32)
    requires GoodHdr(h) && left == out + left' && crc' == Fold(crc, out)
    ensures Leads(Writing(left, sane, crc, h, s, combined), out, Writing(left', sane, crc', h, s, combined))
  {
    var p, q := Writing(left, sane, crc, h, s, combined), Writing(left', sane, crc', h, s, combined);
    hide Unpacked, Parse;
    FoldAppend(crc, out, left');
    assert Key(0);
    forall more {:trigger ToCome(q, more)} ensures ToCome(p, more) == Prepend(out, ToCome(q, more)) {
      var y := Unpacked(BlockHdr(h.level, 1), s + more, Combine(combined, Fold(crc, left)));
      assert out + (left' + y.out) == (out + left') + y.out;
    }
  }

  /** The block's CRC agrees: on to the next one. */
  lemma BlockChecked(crc: bv32, h: Hdr, s: bits, combined: bv32)
    requires GoodHdr(h) && Check(crc) == h.crc
    ensures Leads(Writing([], true, crc, h, s, combined), [], Parsing(BlockHdr(h.level, 1), s, Combine(combined, crc)))
  {
    var p, q := Writing([], true, crc, h, s, combined), Parsing(BlockHdr(h.level, 1), s, Combine(combined, crc));
    assert Key(0);
    forall more {:trigger ToCome(q, more)} ensures ToCome(p, more) == Prepend([], ToCome(q, more)) {
      assert Fold(crc, []) == crc;
    }
  }

  // ---- More input ----

  ghost function Given(p: Snap, more: bits): Snap {
    match p
    case Parsing(c, unread, combined) => Parsing(c, unread + more, combined)
    case Writing(left, sane, crc, h, unread, combined) => Writing(left, sane, crc, h, unread + more, combined)
  }

  lemma GivenMore(p: Snap, x: bits, more: bits)
    requires GoodSnap(p)
    ensures ToCome(Given(p, x), more) == ToCome(p, x + more)
  {
    assert Key(0);
    assert (p.unread + x) + more == p.unread + (x + more);
  }

  lemma LeadsGiven(p: Snap, out: seq<byte>, q: Snap, x: bits)
    requires Leads(p, out, q)
    ensures Leads(Given(p, x), out, Given(q, x))
  {
    assert Seal(0);
    forall more {:trigger ToCome(Given(q, x), more)}
      ensures ToCome(Given(p, x), more) == Prepend(out, ToCome(Given(q, x), more)) {
      GivenMore(p, x, more);
      GivenMore(q, x, more);
      assert ToCome(p, x + more) == Prepend(out, ToCome(q, x + more));
    }
  }
}
