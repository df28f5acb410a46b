/**
 * BZ2_bzDecompress: the caller gives input in any pieces and takes output in any
 * pieces. Blocks are read, inverted and written out, each checked against its CRC,
 * and at the end all of them against the combined CRC.
 */
module Decompressor {
  import opened Common
  import opened Bits
  import opened BitIO
  import opened Mtf
  import opened BzCrc
  import opened RleDecoder
  import opened Parser
  import opened StreamStart
  import opened BlockDecoder
  import opened BlockOutput
  import opened Unpack

  datatype Code = Ok | StreamDone | DataError | DataErrorMagic | SequenceError | NotFollowed

  /** All of the block's text is to come. */
  ghost predicate AtBlockStart(o: Output, h: Hdr, col: seq<byte>)
    requires h.orig < |col|
    reads o, o.tt, o.table, o.table.ll16, o.table.ll4, o.cftab
  {
    var holds :=
      o.Valid() && o.Left() == Stream.TextOf(h, col) && o.Sane() == Stream.RunsEnd(h, col)
        && o.calculatedBlockCRC == INITIAL;
    holds
  }

  class DStream {
    const s: DState
    const small: bool
    /** The block being written out, and its header. */
    var o: Output?
    var h: Hdr
    var combined: bv32
    /** All the input that has come. */
    ghost var given: seq<byte>

    ghost function Parts(): set<object>
      reads this`o
    {
      {s, s.reader} + s.br.Parts() + if o == null then {} else {o, o.tt, o.table, o.table.ll16, o.table.ll4, o.cftab}
    }

    /** What a call changes. */
    ghost function Owned(): set<object>
      reads this`o
    {
      {this, s, s.reader} + s.br.Parts() + if o == null then {} else {o}
    }

    ghost predicate Ready()
      reads this`o, this`h, this`given, Parts()
    {
      var holds := s.Valid()
        && (o != null ==> o.Valid() && o.small == small && GoodHdr(h) && s.place == BlockHdr(h.level, 1))
        && Placed(given, s.place, s.reader.Unread());
      holds
    }

    ghost function Now(): Snap
      requires Ready()
      reads this`o, this`h, this`given, this`combined, Parts()
    {
      if o == null then Parsing(s.Where(), s.reader.Unread(), combined)
      else Writing(o.Left(), o.Sane(), o.calculatedBlockCRC, h, s.reader.Unread(), combined)
    }

    ghost predicate Valid()
      reads this`o, this`h, this`given, Parts()
    {
      Ready() && Settled()
    }

    /** Between calls a block that has been read is being written, unless it is a randomised one. */
    ghost predicate Settled()
      reads this`o, s
    {
      o == null && s.place.Output? ==> s.place.h.randomised
    }

    /** The stream is over, and has been reported so. */
    predicate AtStreamEnd()
      reads this`o, s
    {
      o == null && s.place.StreamEnd?
    }

    constructor (small: bool)
      ensures Valid() && !s.Failed() && !AtStreamEnd() && Now() == Parsing(Magic(1), [], 0) && fresh(Owned())
      ensures given == []
    {
      this.small := small;
      var tt := new int[LARGEST_BLOCK](_ => 0);
      s := new DState(tt);
      o, h, combined, given := null, Hdr(1, 0, false, 0), 0, [];
    }

    /** The caller provides more input. */
    method Supply(more: seq<byte>)
      requires Valid()
      modifies s.reader, this`given
      ensures Valid() && AtStreamEnd() == old(AtStreamEnd()) && Now() == Given(old(Now()), BytesBits(more))
      ensures given == old(given) + more
    {
      PlacedMore(given, s.place, s.reader.Unread(), more);
      s.reader.Supply(more);
      given := given + more;
    }

    /** The runs of the block, as the room allows. */
    method Emit(avail: nat) returns (corrupt: bool, out: seq<byte>)
      requires Ready() && o != null
      modifies o
      ensures Ready() && Leads(old(Now()), out, Now()) && |out| <= avail
      ensures corrupt ==> !o.Sane() && if small then o.Left() == [] else out == []
      ensures !corrupt ==> |out| == avail || o.Finished()
    {
      ghost var left, crc := o.Left(), o.calculatedBlockCRC;
      if small { corrupt, out := o.UnRleSmall(avail); } else { corrupt, out := o.UnRleFast(avail); }
      assert Seal(0);
      WriteOn(left, o.Sane(), crc, h, s.reader.Unread(), combined, out, o.Left(), o.calculatedBlockCRC);
    }

    /** An output side at the start of the block that has been read; the input goes on with a block header. */
    method Launch(ghost col: seq<byte>) returns (first: Output)
      requires s.Valid() && s.place.Output? && col == s.br.Out()
      modifies s`place, s.br.tt
      ensures s.Valid() && s.place == BlockHdr(old(s.place.h.level), 1) && s.reader.Unread() == old(s.reader.Unread())
      ensures fresh(first) && first.small == small && old(s.place.h).orig < |col|
      ensures AtBlockStart(first, old(s.place.h), col)
    {
      var h := s.place.h;
      s.place := BlockHdr(h.level, 1);
      first := StartEither(small, s.br.tt, s.br.unzftab, s.br.nblock, h.orig, s.br.nblockMAX, col);
    }

    /** The output side starts on the block that has been read. */
    method StartOutput(ghost col: seq<byte>, ghost hdr: Hdr, ghost unread: bits)
      requires Ready() && o == null && s.place.Output? && !s.place.h.randomised
      requires s.Where() == Output(hdr, col) && hdr.orig < |col| && unread == s.reader.Unread()
      modifies this`o, this`h, s`place, s.br.tt
      ensures Ready() && o != null && fresh(o) && s.reader.Unread() == unread
      ensures Now() == Writing(Stream.TextOf(hdr, col), Stream.RunsEnd(hdr, col), INITIAL, hdr, unread, combined)
    {
      var header := s.place.h;
      PlacedAlike(given, s.place, BlockHdr(header.level, 1), unread);
      var first := Launch(col);
      Adopt(first, header, Stream.TextOf(header, col), Stream.RunsEnd(header, col), unread);
    }

    method Adopt(first: Output, hdr: Hdr, ghost text: seq<byte>, ghost sane: bool, ghost unread: bits)
      requires s.Valid() && s.place == BlockHdr(hdr.level, 1) && GoodHdr(hdr) && s.reader.Unread() == unread
      requires first.Valid() && first.small == small && first.Left() == text && first.Sane() == sane
      requires first.calculatedBlockCRC == INITIAL && Placed(given, s.place, unread)
      modifies this`o, this`h
      ensures Ready() && o == first && Now() == Writing(text, sane, INITIAL, hdr, unread, combined)
    {
      o, h := first, hdr;
    }

    /** If the place asks for bits, there are too few at hand. */
    ghost predicate Stopped()
      requires Ready()
      reads this`o, this`h, this`given, this`combined, Parts()
    {
      Waiting(s.place) ==>
        s.reader.input == [] && Stop(s.Where(), s.reader.Unread()) == Parse(s.Where(), s.reader.Unread())
    }

    /** BZ2_decompress. */
    method ReadOn()
      requires Ready() && o == null && !s.Failed()
      modifies s, s.reader, s.br.Parts()
      ensures Ready() && Stop(s.Where(), s.reader.Unread()) == Parse(old(s.Where()), old(s.reader.Unread()))
      ensures Waiting(s.place) ==> s.reader.input == []
    {
      hide Placed;
      ghost var place0, c0, unread0 := s.place, s.Where(), s.reader.Unread();
      s.Decompress();
      PlacedNext(given, place0, c0, unread0, s.Where(), s.place, s.reader.Unread());
    }

    /** BZ2_decompress, up to the end of a block's symbols if the input goes so far. */
    method ReadBlock() returns (started: bool)
      requires Ready() && o == null && !s.place.Output? && !s.Failed()
      modifies this`o, this`h, s, s.reader, s.br.Parts()
      ensures Ready() && Leads(old(Now()), [], Now()) && (started <==> o != null)
      ensures started ==> fresh(o) && |s.reader.Unread()| < |old(s.reader.Unread())|
      ensures !started ==> Stopped()
      ensures !started && s.place.Output? ==> s.place.h.randomised
    {
      hide Leads, Stream.TextOf, Stream.RunsEnd, Placed, Parse;
      ghost var c0, unread0 := s.Where(), s.reader.Unread();
      ParseConsumes(c0, unread0);
      ParseRests(c0, unread0);
      ReadOn();
      ghost var at, unread := s.Where(), s.reader.Unread();
      started := s.place.Output? && !s.place.h.randomised;
      if !started {
        StillReading(c0, unread0, at, unread, combined);
        return;
      }
      ghost var hdr, col := at.h, at.col;
      BlockRead(c0, unread0, hdr, col, unread, combined, Stream.TextOf(hdr, col), Stream.RunsEnd(hdr, col));
      StartOutput(col, hdr, unread);
    }

    /** Once a block has been written out: its CRC is checked and joined to the combined one. */
    method FinishBlock() returns (ok: bool)
      requires Ready() && o != null && o.Finished()
      modifies this`o, this`combined, o`calculatedBlockCRC
      ensures Ready() && s.reader.Unread() == old(s.reader.Unread())
      ensures ok ==> o == null && Leads(old(Now()), [], Now())
      ensures !ok ==> o == old(o) && o.Finished() && Doomed(old(Now()), [], true)
      ensures !ok ==> o.calculatedBlockCRC == Final(old(o.calculatedBlockCRC))
    {
      hide Placed, Parse;
      FinishedIs(o);
      var crc := o.calculatedBlockCRC;
      FinalTwice(crc);
      o.calculatedBlockCRC := FinalOf(crc);
      var n := NumberOf(o.calculatedBlockCRC);
      if n != h.crc {
        WrongCrc(old(o.Sane()), crc, h, s.reader.Unread(), combined);
        return false;
      }
      BlockChecked(crc, h, s.reader.Unread(), combined);
      combined := CombineOf(combined, crc);
      o := null;
      ok := true;
    }

    /** The code for a place from which no block has been started. */
    method Verdict() returns (code: Code)
      requires Ready() && o == null
      requires Stopped()
      requires s.place.Output? ==> s.place.h.randomised
      ensures !code.SequenceError?
      ensures if Failing(code) then Doomed(Now(), [], true) else Means(code, Now()) && !s.Failed()
      ensures code.Ok? ==> s.reader.input == [] && !AtStreamEnd()
      ensures code.DataErrorMagic? <==> NoStream(given)
    {
      PlacedAlike(given, s.place, s.Where(), s.reader.Unread());
      NoticedHere(given, s.Where(), s.reader.Unread());
      AtEnd(s.Where(), s.reader.Unread(), combined);
      if s.place.StreamEnd? {
        var n := NumberOf(combined);
        code := if n == s.place.crc then StreamDone else Code.DataError;
      } else if s.place.BadMagic? {
        code := DataErrorMagic;
      } else if s.place.BadData? {
        code := Code.DataError;
      } else if s.place.Output? {
        code := NotFollowed;
      } else {
        code := Ok;
      }
    }

    /** A block is written out as far as the room goes, and at its end checked. */
    method WriteOut(avail: nat) returns (done: bool, code: Code, out: seq<byte>)
      requires Ready() && o != null
      modifies this`o, this`combined, o
      ensures Ready() && |out| <= avail && s.reader.Unread() == old(s.reader.Unread()) && (o == old(o) || o == null)
      ensures if done && code.DataError? then Doomed(old(Now()), out, small) else Leads(old(Now()), out, Now())
      ensures if done then o != null && ((code.Ok? && |out| == avail) || code.DataError?) else o == null
    {
      ghost var start := Now();
      var corrupt;
      corrupt, out := Emit(avail);
      done, code := true, Code.DataError;
      if corrupt {
        UnfinishedRuns(o.Left(), o.calculatedBlockCRC, h, s.reader.Unread(), combined);
        DoomedLater(start, out, Now(), [], small);
        assert out + [] == out;
        return;
      }
      if !o.Finished() { return true, Ok, out; }
      ghost var mid := Now();
      var ok := FinishBlock();
      if ok { LeadsOn(start, out, mid, [], Now()); } else { DoomedLater(start, out, mid, [], true); }
      assert out + [] == out;
      done := !ok;
    }

    /** While a block is written out, the start of the stream lies behind. */
    lemma UnderWay()
      requires Ready() && (o != null || AtStreamEnd())
      ensures !NoStream(given)
    {
    }

    /** The next block is read, or the call is over. */
    method ReadOrStop() returns (done: bool, code: Code)
      requires Ready() && o == null && !s.place.Output? && !s.Failed()
      modifies this`o, this`h, s, s.reader, s.br.Parts()
      ensures Ready() && Leads(old(Now()), [], Now())
      ensures !done ==> o != null && fresh(o) && |s.reader.Unread()| < |old(s.reader.Unread())|
      ensures done ==> o == null && Settled() && !code.SequenceError?
      ensures done ==> if Failing(code) then Doomed(Now(), [], true) else Means(code, Now()) && !s.Failed()
      ensures done && code.Ok? ==> s.reader.input == [] && !AtStreamEnd()
      ensures if done then code.DataErrorMagic? <==> NoStream(given) else !NoStream(given)
    {
      hide Placed, Leads, Parse;
      var started := ReadBlock();
      if started { UnderWay(); }
      done, code := !started, Ok;
      if done { code := Verdict(); }
    }

    /**
     * One call of BZ2_bzDecompress, with room for `avail` bytes. A wrong block CRC or a broken
     * run may have been reported before, but no error found by BZ2_decompress.
     */
    method BzDecompress(avail: nat) returns (code: Code, out: seq<byte>)
      requires Valid() && !s.Failed()
      modifies Owned()
      ensures Valid() && |out| <= avail && fresh(Owned() - old(Owned()))
      ensures if Failing(code) then Doomed(old(Now()), out, small) else Leads(old(Now()), out, Now()) && !s.Failed()
      ensures (code.Ok? && |out| == avail) || code.SequenceError? || Failing(code) || Means(code, Now())
      ensures code.Ok? ==> !AtStreamEnd() && (|out| == avail || s.reader.input == [])
      ensures code.SequenceError? <==> old(AtStreamEnd())
      ensures code.DataErrorMagic? <==> NoStream(given)
    {
      if AtStreamEnd() {
        UnderWay();
        LeadsNowhere(Now());
        return SequenceError, [];
      }
      code, out := Run(avail);
    }

    method Run(avail: nat) returns (code: Code, out: seq<byte>)
      requires Valid() && !s.Failed()
      modifies this`o, this`h, this`combined, s, s.reader, s.br.Parts(), o
      ensures Ready() && |out| <= avail && (o == old(o) || o == null || fresh(o))
      ensures if Failing(code) then Doomed(old(Now()), out, small) else Leads(old(Now()), out, Now())
      ensures Over(code, |out| == avail) && (code.DataErrorMagic? <==> NoStream(given))
    {
      ghost var start := Now();
      hide Placed, Leads, Doomed;
      LeadsNowhere(start);
      out := [];
      if o == null && s.place.Output? {
        code := Verdict();
        return;
      }
      while true
        invariant Ready() && Leads(start, out, Now()) && |out| <= avail && (o == old(o) || o == null || fresh(o))
        invariant !s.Failed() && (o == null ==> !s.place.Output?)
        decreases |s.reader.Unread()|
      {
        ghost var mid, before := Now(), out;
        var done, more;
        done, code, more := Round(avail - |out|);
        out := out + more;
        if done && Failing(code) {
          DoomedLater(start, before, mid, more, small);
          return;
        }
        LeadsOn(start, before, mid, more, Now());
        if done { return; }
      }
    }

    /** When a call returns, and whether it has filled the room it was given. */
    ghost predicate Over(code: Code, full: bool)
      requires Ready()
      reads this`o, this`h, this`given, this`combined, Parts()
    {
      var holds :=
        && ((code.Ok? && full) || Failing(code) || Means(code, Now())) && Settled() && !code.SequenceError?
        && (Failing(code) || !s.Failed())
        && (code.Ok? ==> !AtStreamEnd() && (full || s.reader.input == []));
      holds
    }

    /** The block at hand is written out, and the next one read. */
    method Round(avail: nat) returns (done: bool, code: Code, out: seq<byte>)
      requires Ready() && (o == null ==> !s.place.Output?) && !s.Failed()
      modifies this`o, this`h, this`combined, s, s.reader, s.br.Parts(), o
      ensures Ready() && |out| <= avail && (o == old(o) || o == null || fresh(o))
      ensures if done && Failing(code) then Doomed(old(Now()), out, small) else Leads(old(Now()), out, Now())
      ensures done ==> (code.DataErrorMagic? <==> NoStream(given))
      ensures if done then Over(code, |out| == avail) else
        o != null && !s.Failed() && |s.reader.Unread()| < |old(s.reader.Unread())|
    {
      ghost var start := Now();
      out := [];
      if o != null {
        done, code, out := WriteOut(avail);
        if done {
          UnderWay();
          return;
        }
      } else {
        LeadsNowhere(start);
      }
      ghost var mid := Now();
      done, code := ReadOrStop();
      LeadsOn(start, out, mid, [], Now());
      assert out + [] == out;
      if done && Failing(code) {
        DoomedLater(start, out, Now(), [], true);
        Inexact(start, out, small);
      }
    }
  }

  /** The codes for corrupt data. */
  predicate Failing(code: Code) { code.DataError? || code.DataErrorMagic? }

  /** What another code says of the state in which it is returned. */
  ghost predicate Means(code: Code, p: Snap) {
    && GoodSnap(p)
    && match code
      case StreamDone => p.Parsing? && forall more {:trigger ToCome(p, more)} ::
        ToCome(p, more) == Yield([], Ended(p.unread + more))
      case DataError => false
      case DataErrorMagic => false
      case Ok => ToCome(p, []) == Yield([], Waits)
      case NotFollowed => forall more {:trigger ToCome(p, more)} :: ToCome(p, more) == Yield([], Unfollowed)
      case SequenceError => true
  }

  /** What is to come from a place where BZ2_decompress has stopped without a block. */
  lemma AtEnd(c: Ctl, unread: bits, combined: bv32)
    requires Good(c) && (Waiting(c) ==> Stop(c, unread) == Parse(c, unread)) && (c.Output? ==> c.h.randomised)
    ensures var p := Parsing(c, unread, combined);
      && (c.StreamEnd? ==> if c.crc == AsNumber(combined) then Means(StreamDone, p) else Doomed(p, [], true))
      && (c.BadMagic? || c.BadData? ==> Doomed(p, [], true))
      && (c.Output? ==> Means(NotFollowed, p)) && (Waiting(c) ==> Means(Ok, p))
  {
    assert Key(0);
    assert unread + [] == unread;
  }

  lemma Inexact(p: Snap, out: seq<byte>, exact: bool)
    requires Doomed(p, out, true)
    ensures Doomed(p, out, exact)
  {
    assert Seal(0);
  }

  /** A block that has been written to its end had complete runs. */
  lemma FinishedIs(o: Output)
    requires o.Valid() && o.Finished()
    ensures o.Left() == [] && o.Sane()
  {
    assert Repeat(o.state_out_ch, 0) == [];
  }

  lemma WrongCrc(sane: bool, crc: bv32, h: Hdr, unread: bits, combined: bv32)
    requires GoodHdr(h) && Check(crc) != h.crc
    ensures Doomed(Writing([], sane, crc, h, unread, combined), [], true)
  {
    assert Key(0);
    assert Fold(crc, []) == crc;
  }

  /**
   * After a wrong block CRC the block is checked once more by the next call, against the CRC
   * finalised twice: it is then accepted exactly if the register itself is what was stored.
   */
  lemma CheckedAgain(crc: bv32, h: Hdr, unread: bits, combined: bv32)
    requires GoodHdr(h) && Check(crc) != h.crc
    ensures var p := Writing([], true, Final(crc), h, unread, combined);
      if AsNumber(crc) == h.crc
      then Leads(p, [], Parsing(BlockHdr(h.level, 1), unread, Combine(combined, Final(crc))))
      else Doomed(p, [], true)
  {
    FinalTwice(crc);
    if AsNumber(crc) == h.crc {
      BlockChecked(Final(crc), h, unread, combined);
    } else {
      WrongCrc(true, Final(crc), h, unread, combined);
    }
  }

  lemma UnfinishedRuns(left: seq<byte>, crc: bv32, h: Hdr, unread: bits, combined: bv32)
    requires GoodHdr(h)
    ensures Doomed(Writing(left, false, crc, h, unread, combined), [], left == [])
  {
    assert Key(0);
  }

  // ---- A whole stream, in pieces ----

  /** What the input at hand and the rest of it decode to begins with what has been written. */
  lemma WrittenSoFar(given: bits, rest: bits, all: bits, written: seq<byte>, q: Snap, text: seq<byte>, pad: bits)
    requires Leads(Parsing(Magic(1), given, 0), written, q) && all == given + rest
    requires Stream.Decompress(Magic(1), all, 0) == Stream.Decoded(text, pad)
    ensures GoodSnap(q) && ToCome(q, rest).end.Ended? && text == written + ToCome(q, rest).out
  {
    assert Key(0) && Seal(0);
    DecodesAlike(Magic(1), all, 0);
    assert ToCome(Parsing(Magic(1), given, 0), rest) == Prepend(written, ToCome(q, rest));
  }

  /** What a code can be while a sound stream is decompressed. */
  lemma SoundCode(code: Code, q: Snap, rest: bits)
    requires Means(code, q) && ToCome(q, rest).end.Ended?
    ensures code.Ok? || code.SequenceError? || (code.StreamDone? && ToCome(q, rest).out == [])
    ensures code.Ok? ==> rest != []
  {
  }

  lemma SoundNotDoomed(p: Snap, rest: bits, out: seq<byte>, exact: bool)
    requires GoodSnap(p) && ToCome(p, rest).end.Ended?
    ensures !Doomed(p, out, exact)
  {
    assert Seal(0);
  }

  /** d has taken the first bytes of the input and given `out`. */
  ghost predicate Session(d: DStream, given: bits, out: seq<byte>)
    reads d, d.Parts()
  {
    forall i {:trigger Gate(i)} :: Gate(i) ==>
      d.Valid() && !d.s.Failed() && !d.AtStreamEnd() && Leads(Parsing(Magic(1), given, 0), out, d.Now())
  }

  /** One call in the course of a sound stream. */
  method OneCall(d: DStream, room: nat, sofar: seq<byte>, ghost given: bits, ghost rest: bits, ghost text: seq<byte>,
                 ghost pad: bits)
    returns (done: bool, out: seq<byte>)
    requires Session(d, given, sofar) && Stream.Decompress(Magic(1), given + rest, 0) == Stream.Decoded(text, pad)
    modifies d.Owned()
    ensures fresh(d.Owned() - old(d.Owned())) && |sofar| <= |out| <= |text|
    ensures if done then out == text else Session(d, given, out) && (|out| == |sofar| + room || rest != [])
  {
    assert Gate(0);
    ghost var start, was := Parsing(Magic(1), given, 0), d.Now();
    WrittenSoFar(given, rest, given + rest, sofar, was, text, pad);
    var code, more := d.BzDecompress(room);
    SoundNotDoomed(was, rest, more, d.small);
    LeadsOn(start, sofar, was, more, d.Now());
    out := sofar + more;
    WrittenSoFar(given, rest, given + rest, out, d.Now(), text, pad);
    if !(code.Ok? && |more| == room) { SoundCode(code, d.Now(), rest); }
    done := code.StreamDone?;
  }

  /** More of the input. */
  method OnePiece(d: DStream, more: seq<byte>, ghost given: bits, ghost out: seq<byte>)
    requires Session(d, given, out)
    modifies d.s.reader, d`given
    ensures Session(d, given + BytesBits(more), out)
  {
    assert Gate(0);
    LeadsGiven(Parsing(Magic(1), given, 0), out, d.Now(), BytesBits(more));
    d.Supply(more);
  }

  lemma BitsOfParts(a: seq<byte>, b: seq<byte>, whole: seq<byte>)
    requires whole == a + b
    ensures BytesBits(whole) == BytesBits(a) + BytesBits(b)
  {
    BytesBitsAppend(a, b);
  }

  lemma Cut(given: seq<byte>, at: nat, next: nat)
    requires at <= next <= |given|
    ensures given[..at] + given[at..] == given && given[..at] + given[at..next] == given[..next]
  {
  }

  /** One call, and more input after it. */
  method OnePass(d: DStream, given: seq<byte>, at: nat, next: nat, room: nat, sofar: seq<byte>, ghost text: seq<byte>,
                 ghost pad: bits)
    returns (done: bool, out: seq<byte>)
    requires at <= next <= |given| && (at < |given| ==> at < next) && Session(d, BytesBits(given[..at]), sofar)
    requires Stream.Decompress(Magic(1), BytesBits(given), 0) == Stream.Decoded(text, pad)
    modifies d.Owned()
    ensures fresh(d.Owned() - old(d.Owned())) && |sofar| <= |out| <= |text|
    ensures if done then out == text else
      Session(d, BytesBits(given[..next]), out) && (|out| == |sofar| + room || at < next)
  {
    Cut(given, at, at);
    BitsOfParts(given[..at], given[at..], given);
    done, out := OneCall(d, room, sofar, BytesBits(given[..at]), BytesBits(given[at..]), text, pad);
    if !done {
      Cut(given, at, next);
      BitsOfParts(given[..at], given[at..next], given[..next]);
      OnePiece(d, given[at..next], BytesBits(given[..at]), out);
    }
  }

  lemma NoSession(d: DStream, given: seq<byte>)
    requires d.Valid() && !d.s.Failed() && !d.AtStreamEnd() && d.Now() == Parsing(Magic(1), [], 0)
    ensures Session(d, BytesBits(given[..0]), [])
  {
    LeadsNowhere(d.Now());
  }

  /**
   * A sound stream comes out whole, however the caller divides its input and its
   * room for output over the calls.
   */
  method DecompressInPieces(small: bool, given: seq<byte>, piece: nat -> nat, room: nat -> nat, ghost text: seq<byte>)
    returns (out: seq<byte>)
    requires Stream.Decodable(given, text)
    requires forall i: nat {:trigger piece(i)} {:trigger room(i)} :: piece(i) >= 1 && room(i) >= 1
    ensures out == text
  {
    hide Session, Stream.Decompress;
    ghost var pad: bits :| Stream.Decompress(Magic(1), BytesBits(given), 0) == Stream.Decoded(text, pad);
    var d := new DStream(small);
    var at, i, done := 0, 0, false;
    out := [];
    NoSession(d, given);
    while !done
      invariant 0 <= at <= |given| && 0 <= i && |out| <= |text| && fresh(d.Owned())
      invariant if done then out == text else Session(d, BytesBits(given[..at]), out)
      decreases |given| - at + (|text| - |out|), if done then 0 else 1
    {
      var next := if at + piece(i) < |given| then at + piece(i) else |given|;
      done, out := OnePass(d, given, at, next, room(i), out, text, pad);
      at, i := next, i + 1;
    }
  }
}
