/**
 * Callers of the compressor and the decompressor: with room for at least a byte each time,
 * repeated calls end, and what was compressed in any pieces is decompressed in any others.
 */
module WholeStreams {
  import opened Common
  import opened Compressor
  import Decompressor
  import StreamBytes

  /** Between calls: what has been taken in and given out. */
  ghost predicate After(e: EState, mode: Mode, consumed: seq<byte>, written: seq<byte>)
    reads e, e.g, e.g.block, e.g.inUse, e.w
  {
    e.Kept() && e.Owes() && e.Backlog() >= 0 && e.mode == mode && e.consumed == consumed && e.written == written
  }

  lemma Onward(was: seq<byte>, given: seq<byte>, at: nat, used: nat, next: nat)
    requires at + used == next <= |given|
    ensures (was + given[..at]) + given[at..][..used] == was + given[..next]
  {
    assert given[..at] + given[at..][..used] == given[..next];
  }

  /** The call is over for good: all that it was to do is done. */
  predicate Over(action: Action, code: Code) { code == if action.Finish? then StreamDone else RunOk }

  /** There is less to do: input is gone, the last block has come, or more of what there was is out. */
  twostate predicate Less(e: EState, used: nat)
    reads e, e.g, e.w
  {
    used > 0 || (!old(e.LastBlock()) && e.LastBlock())
      || (old(e.LastBlock()) == e.LastBlock() && e.Backlog() < old(e.Backlog()))
  }

  /** The call may have closed a block that is not full. */
  ghost predicate MayCut(e: EState, action: Action, code: Code)
    reads e, e.g
  {
    Over(action, code) || e.LastBlock()
  }

  /** One call in order, with the input that is left. */
  method OneCall(e: EState, action: Action, given: seq<byte>, at: nat, room: nat, sofar: seq<byte>,
                 ghost consumed: seq<byte>, ghost written: seq<byte>)
    returns (code: Code, next: nat, out: seq<byte>)
    requires at <= |given| && After(e, e.mode, consumed + given[..at], written + sofar) && room >= 1
    requires e.InOrder(action, |given| - at) && (action.Run? ==> at < |given|)
    modifies e, e.g, e.g.block, e.g.inUse, e.w
    ensures at <= next <= |given| && After(e, NextMode(action, code), consumed + given[..next], written + out)
    ensures action.Run? ==> code.RunOk? && Less(e, next - at)
    ensures !action.Run? && !Over(action, code) ==> e.InOrder(action, |given| - next) && Less(e, next - at)
    ensures action.Flush? && Over(action, code) ==>
      next == |given| && Stream.Account(e.level, e.pieces, e.combinedCRC, [], e.consumed)
    ensures action.Finish? && Over(action, code) ==>
      next == |given| && Stream.Decodable(e.written, e.consumed) && e.Ended()
    ensures Grown(e.level, old(e.pieces), e.pieces, !action.Run? && MayCut(e, action, code))
    ensures old(e.LastBlock()) ==>
      e.pieces == old(e.pieces) && (Over(action, code) || e.LastBlock() || action.Run?)
  {
    hide Grown, Stream.Decodable, Stream.Account;
    var used, more;
    ghost var ps := e.pieces;
    code, used, more := e.BzCompress(action, given[at..], room);
    MayBeShort(e.level, ps, e.pieces, !action.Run? && used == |given| - at && (e.mode == Running || e.LastBlock()),
      !action.Run? && MayCut(e, action, code));
    next, out := at + used, sofar + more;
    Onward(consumed, given, at, used, next);
    Associates(written + sofar, written, sofar, more);
  }

  /** Before the first call. */
  lemma Beginning(e: EState, given: seq<byte>)
    requires After(e, Running, e.consumed, e.written)
    ensures After(e, Running, e.consumed + given[..0], e.written + [])
  {
    assert e.consumed + given[..0] == e.consumed && e.written + [] == e.written;
  }

  /** RUN, until all of `given` has been taken in. */
  method RunAll(e: EState, given: seq<byte>, room: nat -> nat, start: nat) returns (out: seq<byte>, calls: nat)
    requires After(e, Running, e.consumed, e.written)
    requires forall i: nat {:trigger room(i)} :: room(i) >= 1
    modifies e, e.g, e.g.block, e.g.inUse, e.w
    ensures After(e, Running, old(e.consumed) + given, old(e.written) + out)
    ensures Grown(e.level, old(e.pieces), e.pieces, false)
  {
    hide After, Grown;
    ghost var consumed, written, ps := e.consumed, e.written, e.pieces;
    NoneCame(e.level, ps, false);
    var at, code := 0, RunOk;
    out, calls := [], start;
    Beginning(e, given);
    while at < |given|
      invariant 0 <= at <= |given| && After(e, Running, consumed + given[..at], written + out)
      invariant Grown(e.level, ps, e.pieces, false)
      decreases |given| - at, if e.LastBlock() then 0 else 1, e.Backlog()
    {
      Enough(e, Running, consumed + given[..at], written + out);
      ghost var before := e.pieces;
      code, at, out := OneCall(e, Run, given, at, room(calls), out, consumed, written);
      GrownOn(e.level, ps, before, e.pieces, false, false);
      Enough(e, Running, consumed + given[..at], written + out);
      calls := calls + 1;
    }
    assert given[..at] == given;
  }

  lemma Enough(e: EState, mode: Mode, consumed: seq<byte>, written: seq<byte>)
    requires After(e, mode, consumed, written)
    ensures e.Backlog() >= 0 && e.mode == mode && e.consumed == consumed && e.written == written
    ensures After(e, mode, e.consumed, e.written)
  {
  }

  /** FLUSH, until it is over: all that has been taken in is then in blocks. */
  method FlushAll(e: EState, given: seq<byte>, room: nat -> nat, start: nat) returns (out: seq<byte>, calls: nat)
    requires After(e, Running, e.consumed, e.written)
    requires forall i: nat {:trigger room(i)} :: room(i) >= 1
    modifies e, e.g, e.g.block, e.g.inUse, e.w
    ensures After(e, Running, old(e.consumed) + given, old(e.written) + out)
    ensures Stream.Account(e.level, e.pieces, e.combinedCRC, [], e.consumed)
    ensures Grown(e.level, old(e.pieces), e.pieces, true)
  {
    hide After, Stream.Account, Grown;
    ghost var consumed, written, ps := e.consumed, e.written, e.pieces;
    NoneCame(e.level, ps, MayCut(e, Flush, FlushOk));
    var at, code := 0, FlushOk;
    out, calls := [], start;
    Beginning(e, given);
    Enough(e, Running, consumed + given[..0], written + []);
    while code != RunOk
      invariant 0 <= at <= |given| && After(e, e.mode, consumed + given[..at], written + out)
      invariant if code == RunOk then
        at == |given| && e.mode == Running && Stream.Account(e.level, e.pieces, e.combinedCRC, [], e.consumed)
        else e.InOrder(Flush, |given| - at)
      invariant Grown(e.level, ps, e.pieces, MayCut(e, Flush, code))
      decreases if code == RunOk then 0 else 1, |given| - at, if e.LastBlock() then 0 else 1, e.Backlog()
    {
      ghost var before, cut := e.pieces, MayCut(e, Flush, code);
      code, at, out := OneCall(e, Flush, given, at, room(calls), out, consumed, written);
      GrownOn(e.level, ps, before, e.pieces, cut, MayCut(e, Flush, code));
      Enough(e, NextMode(Flush, code), consumed + given[..at], written + out);
      calls := calls + 1;
    }
    assert given[..at] == given;
  }

  /** FINISH, until the end of the stream. */
  method FinishAll(e: EState, given: seq<byte>, room: nat -> nat, start: nat) returns (out: seq<byte>)
    requires After(e, Running, e.consumed, e.written)
    requires forall i: nat {:trigger room(i)} :: room(i) >= 1
    modifies e, e.g, e.g.block, e.g.inUse, e.w
    ensures After(e, Idle, old(e.consumed) + given, old(e.written) + out)
    ensures Stream.Decodable(e.written, e.consumed) && e.Ended() && Grown(e.level, old(e.pieces), e.pieces, true)
  {
    hide After, Stream.Decodable, Grown, e.Ended;
    ghost var consumed, written, ps := e.consumed, e.written, e.pieces;
    NoneCame(e.level, ps, MayCut(e, Finish, FinishOk));
    var at, calls, code := 0, start, FinishOk;
    out := [];
    Beginning(e, given);
    Enough(e, Running, consumed + given[..0], written + []);
    while code != StreamDone
      invariant 0 <= at <= |given| && After(e, e.mode, consumed + given[..at], written + out)
      invariant if code == StreamDone
        then at == |given| && e.mode == Idle && Stream.Decodable(e.written, e.consumed) && e.Ended()
        else e.InOrder(Finish, |given| - at)
      invariant Grown(e.level, ps, e.pieces, MayCut(e, Finish, code))
      decreases if code == StreamDone then 0 else 1, |given| - at, if e.LastBlock() then 0 else 1, e.Backlog()
    {
      ghost var before, cut := e.pieces, MayCut(e, Finish, code);
      code, at, out := OneCall(e, Finish, given, at, room(calls), out, consumed, written);
      GrownOn(e.level, ps, before, e.pieces, cut, MayCut(e, Finish, code));
      Enough(e, NextMode(Finish, code), consumed + given[..at], written + out);
      calls := calls + 1;
    }
    assert given[..at] == given;
  }

  /** Input given with RUN, or with FLUSH. */
  method Feed(e: EState, given: seq<byte>, flush: bool, room: nat -> nat, start: nat)
    returns (out: seq<byte>, calls: nat)
    requires After(e, Running, e.consumed, e.written)
    requires forall i: nat {:trigger room(i)} :: room(i) >= 1
    modifies e, e.g, e.g.block, e.g.inUse, e.w
    ensures After(e, Running, old(e.consumed) + given, old(e.written) + out)
    ensures !flush ==> Grown(e.level, old(e.pieces), e.pieces, false)
  {
    if flush { out, calls := FlushAll(e, given, room, start); } else { out, calls := RunAll(e, given, room, start); }
  }

  /**
   * Compresses `given` in pieces, some of them flushed, with any room for output at each call.
   * Without a flush, every block but the last is full.
   */
  method CompressInPieces(level: nat, given: seq<byte>, piece: nat -> nat, flush: nat -> bool, room: nat -> nat)
    returns (out: seq<byte>, ghost pieces: seq<Stream.Piece>)
    requires 1 <= level <= 9
    requires forall i: nat {:trigger piece(i)} {:trigger room(i)} :: piece(i) >= 1 && room(i) >= 1
    ensures Stream.Decodable(out, given) && Stream.StreamOf(level, pieces, out, given)
    ensures (forall i: nat :: !flush(i)) ==> Grown(level, [], pieces, true)
    ensures [0x42, 0x5A, 0x68, 0x30 + level] <= out
    ensures given == [] ==> out == [0x42, 0x5A, 0x68, 0x30 + level, 0x17, 0x72, 0x45, 0x38, 0x50, 0x90, 0, 0, 0, 0]
  {
    hide Grown, Stream.Decodable, Stream.StreamOf;
    var e := new EState(level);
    var at, i, calls, more := 0, 0, 0, [];
    out := [];
    e.WithinBits();
    NoneCame(level, [], false);
    while at < |given|
      invariant 0 <= at <= |given| && After(e, Running, given[..at], out) && e.level == level
      invariant fresh(e) && fresh(e.g) && fresh(e.g.block) && fresh(e.g.inUse) && fresh(e.w)
      invariant (forall i: nat :: !flush(i)) ==> Grown(level, [], e.pieces, false)
      decreases |given| - at
    {
      hide After;
      var next := if at + piece(i) < |given| then at + piece(i) else |given|;
      ghost var before := e.pieces;
      Enough(e, Running, given[..at], out);
      more, calls := Feed(e, given[at..next], flush(i), room, calls);
      assert given[..at] + given[at..next] == given[..next];
      if forall i: nat :: !flush(i) { GrownOn(level, [], before, e.pieces, false, false); }
      at, i, out := next, i + 1, out + more;
    }
    ghost var before := e.pieces;
    more := FinishAll(e, [], room, calls);
    assert given[..at] + [] == given;
    if forall i: nat :: !flush(i) { GrownOn(level, [], before, e.pieces, false, true); }
    out, pieces := out + more, e.pieces;
    StreamBytes.StartsWithHeader(level, pieces, out, given);
    if given == [] { StreamBytes.EmptyStream(level, pieces, out, given); }
  }

  /** What is compressed in any pieces and decompressed in any others comes back. */
  method RoundTrip(level: nat, small: bool, given: seq<byte>, piece: nat -> nat, flush: nat -> bool, room: nat -> nat,
                   piece2: nat -> nat, room2: nat -> nat) returns (out: seq<byte>, back: seq<byte>)
    requires 1 <= level <= 9
    requires forall i: nat {:trigger piece(i)} {:trigger room(i)} :: piece(i) >= 1 && room(i) >= 1
    requires forall i: nat {:trigger piece2(i)} {:trigger room2(i)} :: piece2(i) >= 1 && room2(i) >= 1
    ensures back == given
  {
    ghost var pieces;
    out, pieces := CompressInPieces(level, given, piece, flush, room);
    back := Decompressor.DecompressInPieces(small, out, piece2, room2, given);
  }
}
