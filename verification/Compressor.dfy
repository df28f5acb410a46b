/**
 * BZ2_bzCompress: the caller's RUN, FLUSH and FINISH calls, each with any amount
 * of input and of room for output. Input goes through the run-length stage into
 * blocks; full or flushed blocks are compressed; their bytes go out as room allows.
 */
module Compressor {
  import opened Common
  import opened Bits
  import opened BitIO
  import opened Rle
  import opened RleEncoder
  import opened BzCrc
  import opened BlockTrip
  import CompressBlock
  import opened BlockSize
  import opened Stream

  datatype Mode = Idle | Running | Flushing | Finishing
  datatype Action = Run | Flush | Finish | Other
  function ModeOf(action: Action): Mode {
    match action case Run => Running case Flush => Flushing case Finish => Finishing case Other => Idle
  }

  datatype Code = RunOk | FlushOk | FinishOk | StreamDone | SequenceError | ParamError

  /** How far a call in order gets: its work is done, or it has used up all the room. */
  ghost predicate GotOn(action: Action, code: Code, used: nat, given: nat, out: nat, room: nat) {
    match action
    case Run => used == given || out == room
    case Flush => code.RunOk? || (code.FlushOk? && out == room)
    case Finish =>
      || (code.StreamDone? && (room >= 1 ==> out >= 1))
      || (out == room && code == if used > 0 || out > 0 then FinishOk else SequenceError)
    case Other => false
  }

  function NextMode(action: Action, code: Code): Mode {
    if code.StreamDone? then Idle else if code.RunOk? then Running else ModeOf(action)
  }

  /** A block that was closed because it was full. */
  ghost predicate Long(level: nat, p: Piece) {
    Maximal(p.runs) && 100_000 * level - 19 <= |Flatten(p.runs)| <= 100_000 * level - 15
  }

  /** A block that a flush or the end of the stream may close. */
  ghost predicate Short(level: nat, p: Piece) {
    Maximal(p.runs) && 1 <= |Flatten(p.runs)| <= 100_000 * level - 10
  }

  /** The blocks that have come are full, but for the last one if it may be short. */
  ghost predicate Grown(level: nat, was: seq<Piece>, now: seq<Piece>, short: bool) {
    was <= now && forall i {:trigger now[i]} :: |was| <= i < |now| ==>
      Long(level, now[i]) || (short && i == |now| - 1 && Short(level, now[i]))
  }

  /** Blocks that come after full ones. */
  lemma GrownOn(level: nat, was: seq<Piece>, mid: seq<Piece>, now: seq<Piece>, first: bool, short: bool)
    requires Grown(level, was, mid, first) && Grown(level, mid, now, short) && (first ==> mid == now && short)
    ensures Grown(level, was, now, short)
  {
    hide Long, Short;
    forall i {:trigger now[i]} | |was| <= i < |now|
      ensures Long(level, now[i]) || (short && i == |now| - 1 && Short(level, now[i]))
    {
      if i < |mid| { assert now[i] == mid[i]; }
    }
  }

  lemma NoneCame(level: nat, ps: seq<Piece>, short: bool)
    ensures Grown(level, ps, ps, short)
  {
  }

  lemma MayBeShort(level: nat, was: seq<Piece>, now: seq<Piece>, short: bool, allowed: bool)
    requires Grown(level, was, now, short) && (short ==> allowed)
    ensures Grown(level, was, now, allowed)
  {
  }

  /** Input that cannot fill a block yet leaves none behind, unless there is a flush. */
  lemma FewBytesNoBlock(level: nat, ps: seq<Piece>, combined: bv32, held: seq<byte>, taken: seq<byte>)
    requires Account(level, ps, combined, held, taken) && Grown(level, [], ps, false)
    requires 5 * |taken| < 4 * (100_000 * level - 19)
    ensures ps == []
  {
    assert Key(0);
    if ps != [] {
      assert Long(level, ps[0]);
      FlattenSize(ps[0].runs);
      assert false;
    }
  }

  /** One block of that many bytes has come, or none if there were no bytes. */
  ghost predicate OneMore(was: seq<Piece>, now: seq<Piece>, size: nat) {
    if size == 0 then now == was
    else |now| == |was| + 1 && was <= now && Maximal(now[|was|].runs) && |Flatten(now[|was|].runs)| == size
  }

  method PutStreamHeader(w: Writer, level: nat)
    requires w.Valid() && 1 <= level <= 9
    modifies w
    ensures w.Valid() && w.Written() == old(w.Written()) + StreamHeader(level)
  {
    ghost var was := w.Written();
    Powers();
    w.Put(8, 0x42);
    w.Put(8, 0x5A);
    w.Put(8, 0x68);
    w.Put(8, 0x30 + level);
    FourParts(was, Spell(0x42, 8), Spell(0x5A, 8), Spell(0x68, 8), Spell(0x30 + level, 8));
  }

  method PutTrailer(w: Writer, combined: bv32)
    requires w.Valid()
    modifies w
    ensures w.Valid() && w.Written() == old(w.Written()) + Trailer(combined)
  {
    ghost var was := w.Written();
    PutEndMagic(w);
    var u := NumberOf(combined);
    w.PutWord(u);
    Associates(was + EndMagic(), was, EndMagic(), WordBits(AsNumber(combined)));
  }

  method PutEndMagic(w: Writer)
    requires w.Valid()
    modifies w
    ensures w.Valid() && w.Written() == old(w.Written()) + EndMagic()
  {
    ghost var was := w.Written();
    Powers();
    w.Put(8, 0x17);
    w.Put(8, 0x72);
    w.Put(8, 0x45);
    w.Put(8, 0x38);
    w.Put(8, 0x50);
    w.Put(8, 0x90);
    SixParts(was, Spell(0x17, 8), Spell(0x72, 8), Spell(0x45, 8), Spell(0x38, 8), Spell(0x50, 8), Spell(0x90, 8));
  }

  class EState {
    const g: Gatherer
    const w: Writer
    const level: nat
    var mode: Mode
    var output: bool
    var avail_in_expect: nat
    var blockNo: nat
    var combinedCRC: bv32
    var state_out_pos: nat
    var next_in: seq<byte>
    var avail_out: nat
    var written: seq<byte>
    ghost var pieces: seq<Piece>
    ghost var closed: bool
    ghost var consumed: seq<byte>

    ghost predicate Apart()
      reads g
    {
      1 <= level <= 9 && g.nblockMAX == 100_000 * level - 19 && g.block.Length == 100_000 * level
    }

    /** All but the accounts of output. */
    ghost predicate Core()
      reads this`mode, this`avail_in_expect, this`output, this`blockNo, this`combinedCRC, this`pieces, this`closed,
        this`consumed, g, g.block, g.inUse, w
    {
      && Apart() && g.Valid() && 1 <= blockNo && (!closed ==> w.Valid())
      && if output then Account(level, pieces, combinedCRC, Pending(g.state_in_ch, g.state_in_len), consumed)
        && AfterBlock()
         else Account(level, pieces, combinedCRC, g.Taken(), consumed) && BeforeBlock()
    }

    ghost predicate InSync()
      reads this`state_out_pos, this`output, this`blockNo, this`pieces, this`closed, this`written, w
    {
      state_out_pos <= |w.zbits|
        && Sync(level, output || blockNo > 1, pieces, closed, written + w.zbits[state_out_pos..], w.live)
    }

    ghost predicate Valid()
      reads this`mode, this`avail_in_expect, this`output, this`blockNo, this`combinedCRC, this`pieces, this`closed,
        this`consumed
      reads this`state_out_pos, this`written, g, g.block, g.inUse, w
    {
      Core() && InSync()
    }

    /** The invariant, closed to those who only pass it on. */
    ghost predicate Kept()
      reads this`mode, this`avail_in_expect, this`output, this`blockNo, this`combinedCRC, this`pieces, this`closed,
        this`consumed
      reads this`state_out_pos, this`written, g, g.block, g.inUse, w
    {
      forall i {:trigger Gate(i)} :: Gate(i) ==> Valid()
    }

    /** While a block is written out. */
    ghost predicate AfterBlock()
      reads this`mode, this`closed, this`avail_in_expect, g
    {
      && g.nblock <= g.nblockMAX + 9 && (closed ==> avail_in_expect == 0)
      && (closed ==> (mode == Finishing || mode == Idle) && g.state_in_ch == NO_CHAR)
      && (!closed ==> mode != Idle) && (!closed && g.state_in_ch == NO_CHAR ==> mode == Flushing)
    }

    /** While a block is filled. */
    ghost predicate BeforeBlock()
      reads this`mode, this`closed, g, w
    {
      g.Open() && g.nblock < g.nblockMAX && w.zbits == [] && !closed && mode != Idle
    }

    constructor (blockSize100k: nat)
      requires 1 <= blockSize100k <= 9
      ensures Kept() && level == blockSize100k && mode == Running && consumed == [] && written == []
      ensures pieces == []
      ensures fresh(g) && fresh(g.block) && fresh(g.inUse) && fresh(w)
    {
      level := blockSize100k;
      g := new Gatherer(100_000 * blockSize100k - 19);
      w := new Writer();
      mode, output, avail_in_expect, blockNo, combinedCRC, state_out_pos := Running, false, 0, 1, 0, 0;
      next_in, avail_out, written := [], 0, [];
      pieces, closed, consumed := [], false, [];
      new;
      hide Sync, Account;
      NothingSent(level, g.Taken());
      assert InSync();
    }

    /** isempty_RL. */
    predicate NoRun()
      reads g
    {
      !(g.state_in_ch < NO_CHAR && g.state_in_len > 0)
    }

    /** copy_output_until_stop. */
    method CopyOutput() returns (progress: bool)
      requires InSync()
      modifies this`state_out_pos, this`avail_out, this`written
      ensures InSync() && (avail_out == 0 || state_out_pos == |w.zbits|)
      ensures old(written) <= written && |written| - |old(written)| == old(avail_out) - avail_out
      ensures (progress <==> |written| > |old(written)|) && Drained()
    {
      hide Sync, Account;
      progress := false;
      while true
        invariant InSync() && old(written) <= written && Drained()
        invariant |written| - |old(written)| == old(avail_out) - avail_out && (progress <==> |written| > |old(written)|)
        decreases avail_out
      {
        if avail_out == 0 { break; }
        if state_out_pos >= |w.zbits| { break; }
        progress := true;
        PutOut();
        avail_out := avail_out - 1;
      }
    }

    /** What has been written, the caller has been given; nothing else has gone or come. */
    twostate predicate Drained()
      reads this`state_out_pos, this`written, w`zbits
    {
      |w.zbits| - state_out_pos == old(|w.zbits| - state_out_pos) - (|written| - |old(written)|)
    }

    method PutOut()
      requires InSync() && state_out_pos < |w.zbits|
      modifies this`state_out_pos, this`written
      ensures InSync() && Drained() && |written| == |old(written)| + 1 && old(written) <= written
    {
      hide Sync, Account;
      Delivered(written, w.zbits, state_out_pos, state_out_pos + 1);
      written := written + [w.zbits[state_out_pos]];
      state_out_pos := state_out_pos + 1;
    }

    /** A block is being filled; it may just have become full. */
    ghost predicate Filling()
      reads this`mode, this`output, this`blockNo, this`combinedCRC, this`pieces, this`closed, this`consumed, g,
        g.block, g.inUse, w
    {
      && Apart() && g.Valid() && g.Open() && 1 <= blockNo && w.Valid() && w.zbits == [] && !closed && !output
      && mode != Idle
      && Account(level, pieces, combinedCRC, g.Taken(), consumed) && g.nblock <= g.nblockMAX + 4
    }

    method TakeByte()
      requires Filling() && next_in != [] && g.nblock < g.nblockMAX
      modifies this`next_in, this`consumed, g, g.block, g.inUse
      ensures Filling() && Took(1)
    {
      hide Sync, Account;
      var c := next_in[0];
      assert next_in == [c] + next_in[1..];
      AccountTakes(level, pieces, combinedCRC, g.Taken(), consumed, [c]);
      g.AddChar(c);
      next_in := next_in[1..];
      consumed := consumed + [c];
    }

    /** Input has moved from next_in to consumed. */
    twostate predicate Took(n: nat)
      reads this`next_in, this`consumed
    {
      consumed + next_in == old(consumed + next_in) && |next_in| + n == |old(next_in)|
    }

    /** copy_input_until_stop, in either of its two loops. */
    method CopyInput() returns (progress: bool, ghost used: nat)
      requires Filling() && g.nblock < g.nblockMAX && (mode != Running ==> avail_in_expect == |next_in|)
      modifies this`next_in, this`avail_in_expect, this`consumed, g, g.block, g.inUse
      ensures Filling() && Took(used) && (mode != Running ==> avail_in_expect == |next_in|)
      ensures g.nblock >= g.nblockMAX || next_in == [] || (mode != Running && avail_in_expect == 0)
      ensures (progress <==> used > 0) && (g.nblock >= g.nblockMAX ==> used > 0)
    {
      progress, used := false, 0;
      while true
        invariant Filling() && (mode != Running ==> avail_in_expect == |next_in|)
        invariant Took(used) && (progress <==> used > 0)
        invariant g.nblock >= g.nblockMAX ==> used > 0
        decreases |next_in|
      {
        if g.nblock >= g.nblockMAX { break; }
        if next_in == [] { break; }
        if mode != Running && avail_in_expect == 0 { break; }
        progress := true;
        TakeByte();
        if mode != Running { avail_in_expect := avail_in_expect - 1; }
        used := used + 1;
      }
    }

    /** prepare_new_block, once everything of the last block is out. */
    method PrepareNewBlock()
      requires Core() && InSync() && output && !closed && state_out_pos == |w.zbits|
      modifies this`blockNo, this`output, this`state_out_pos, w`zbits, g`nblock, g`blockCRC, g`runs, g.inUse
      ensures Filling() && InSync() && g.nblock == 0 && blockNo > 1
    {
      hide Sync, Account, Holding, MayFollow, Spread;
      AllOut();
      g.NewBlock();
      w.zbits := [];
      state_out_pos := 0;
      blockNo := blockNo + 1;
      output := false;
      assert written + w.zbits[state_out_pos..] == written;
    }

    lemma AllOut()
      requires InSync() && state_out_pos == |w.zbits|
      ensures Sync(level, output || blockNo > 1, pieces, closed, written, w.live)
    {
      assert written + w.zbits[state_out_pos..] == written;
    }

    /** The stream header goes before the first block. */
    method BeginStream()
      requires w.Valid() && InSync() && !output && !closed && w.zbits == [] && state_out_pos == 0 && 1 <= level <= 9
      requires 1 <= blockNo
      modifies w
      ensures w.Valid() && state_out_pos <= |w.zbits| && Sync(level, true, pieces, false, written + w.zbits, w.live)
      ensures |w.Written()| <= 32 + 32
    {
      ghost var live := w.live;
      assert written + w.zbits[state_out_pos..] == written;
      assert w.Written() == live;
      if blockNo == 1 {
        PutStreamHeader(w, level);
        SyncOpens(level, pieces, written, live, w.zbits, w.live);
      } else {
        assert written + w.zbits == written;
      }
    }

    /** A nonempty block is compressed and joins the stream. */
    method SendPiece()
      requires Apart() && g.Valid() && g.nblock > 0 && g.nblock <= g.nblockMAX + 9 && w.Valid() && !closed
      requires Sync(level, true, pieces, false, written + w.zbits, w.live)
      requires Account(level, pieces, combinedCRC, g.Taken(), consumed)
      modifies this`combinedCRC, this`pieces, w
      ensures w.Valid() && Sync(level, true, pieces, false, written + w.zbits, w.live)
      ensures Account(level, pieces, combinedCRC, Pending(g.state_in_ch, g.state_in_len), consumed)
      ensures |w.Written()| <= |old(w.Written())| + MostBits(g.nblock)
      ensures OneMore(old(pieces), pieces, g.nblock)
    {
      hide Sync, Account;
      ghost var z0, live0, held := w.zbits, w.live, g.Taken();
      var p := MakePiece();
      SyncAfter(level, pieces, written, z0, live0, w.zbits, w.live, p);
      AccountBlock(level, pieces, combinedCRC, held, consumed, p, Pending(g.state_in_ch, g.state_in_len));
      combinedCRC := CombineOf(combinedCRC, g.blockCRC);
      pieces := pieces + [p];
    }

    method MakePiece() returns (ghost p: Piece)
      requires Apart() && g.Valid() && g.nblock > 0 && g.nblock <= g.nblockMAX + 9 && w.Valid()
      modifies w
      ensures w.Valid() && w.Written() == old(w.Written()) + p.s && GoodPiece(level, p) && p.runs == g.runs
      ensures g.blockCRC == PieceCrc(p)
      ensures |p.s| <= MostBits(g.nblock) && Maximal(p.runs) && |Flatten(p.runs)| == g.nblock
    {
      var b, use := g.block[..g.nblock], g.inUse[..];
      AllInUse(b, use, g.blockCRC, g.runs);
      var check := CheckOf(g.blockCRC);
      ghost var s, k, mtfv := CompressBlock.Compress(b, use, check, w, level);
      p := Piece(s, g.runs);
      PieceMade(level, p, b, use, g.blockCRC);
    }

    /** BZ2_compressBlock. The last one also closes the stream. */
    method EmitBlock(last: bool)
      requires Apart() && g.Valid() && 1 <= blockNo && w.Valid() && w.zbits == [] && state_out_pos == 0 && !closed
      requires !output && mode != Idle
      requires InSync() && Account(level, pieces, combinedCRC, g.Taken(), consumed) && g.nblock <= g.nblockMAX + 9
      requires g.state_in_ch == NO_CHAR ==> if last then mode == Finishing else mode == Flushing
      requires last ==> g.state_in_ch == NO_CHAR && avail_in_expect == 0
      requires g.nblock == 0 ==> g.runs == []
      modifies this`combinedCRC, this`pieces, this`closed, this`output, w
      ensures Core() && InSync() && output && closed == last && |w.zbits| <= Room(level, g.nblock)
      ensures (last ==> w.zbits != []) && OneMore(old(pieces), pieces, g.nblock)
    {
      hide Sync, Account, Room, MostBits, OneMore, Holding, MayFollow, Spread;
      SendBlock();
      ghost var most := |w.Written()|;
      if last {
        CloseStream(Pending(g.state_in_ch, g.state_in_len));
        most := most + 87;
      }
      output := true;
      BlockFits(level, g.nblock, |w.zbits|, most);
      assert w.zbits[state_out_pos..] == w.zbits;
    }

    /** The stream header if it is still to come, and the block unless it is empty. */
    method SendBlock()
      requires Apart() && g.Valid() && 1 <= blockNo && w.Valid() && w.zbits == [] && state_out_pos == 0 && !closed
      requires !output && InSync() && Account(level, pieces, combinedCRC, g.Taken(), consumed)
      requires g.nblock <= g.nblockMAX + 9 && (g.nblock == 0 ==> g.runs == [])
      modifies this`combinedCRC, this`pieces, w
      ensures w.Valid() && Sync(level, true, pieces, false, written + w.zbits, w.live)
      ensures Account(level, pieces, combinedCRC, Pending(g.state_in_ch, g.state_in_len), consumed)
      ensures |w.Written()| <= 64 + MostBits(g.nblock) && OneMore(old(pieces), pieces, g.nblock)
    {
      BeginStream();
      if g.nblock > 0 {
        SendPiece();
      } else {
        assert g.Taken() == Pending(g.state_in_ch, g.state_in_len);
      }
    }

    /** The end of a flush or of the stream: the pending run goes into the block, and the block goes out. */
    method EmitFlushed()
      requires Filling() && InSync() && state_out_pos == 0 && mode != Running && avail_in_expect == 0
      modifies this`combinedCRC, this`pieces, this`closed, this`output, w, g, g.block, g.inUse
      ensures Core() && InSync() && output && g.state_in_ch == NO_CHAR && closed == (mode == Finishing)
      ensures (closed ==> w.zbits != []) && Grown(level, old(pieces), pieces, true)
    {
      g.Flush();
      NoRunsNoBytes(g.block[..g.nblock], g.inUse[..], g.blockCRC, g.runs);
      EmitBlock(mode == Finishing);
    }

    /** A full block goes out; the run that filled it stays pending. */
    method EmitFull()
      requires Filling() && InSync() && state_out_pos == 0 && g.nblock >= g.nblockMAX
      modifies this`combinedCRC, this`pieces, this`closed, this`output, w
      ensures Core() && InSync() && output && !closed && g.state_in_ch < NO_CHAR
      ensures Grown(level, old(pieces), pieces, false) && |pieces| > |old(pieces)|
    {
      NoRunsNoBytes(g.block[..g.nblock], g.inUse[..], g.blockCRC, g.runs);
      EmitBlock(false);
    }

    /** Nothing expected, nothing pending. */
    predicate Quiet()
      reads this`avail_in_expect, g
    {
      avail_in_expect == 0 && NoRun()
    }

    /** What goes out is all that a flush or the end of the stream asks for. */
    ghost predicate LastBlock()
      reads this`mode, this`output, this`avail_in_expect, g
    {
      output && mode != Running && Quiet()
    }

    ghost predicate FlushOver()
      reads this`mode, this`output, this`avail_in_expect, g
    {
      mode == Flushing && !output && Quiet()
    }

    /** What handle_compress does in its output state: it stops, or a new block is begun. */
    method OutputPhase() returns (progress: bool, stop: bool)
      requires Kept() && output && mode != Idle
      modifies this`state_out_pos, this`avail_out, this`written, this`blockNo, this`output, w`zbits, g`nblock,
        g`blockCRC, g`runs, g.inUse
      ensures old(written) <= written && |written| - |old(written)| == old(avail_out) - avail_out
      ensures progress <==> |written| > |old(written)|
      ensures !stop ==> Fillable() && !(mode != Running && Quiet()) && !closed
      ensures stop ==> Kept() && Resting()
      ensures stop && mode == Finishing && old(Owes()) && old(avail_out) >= 1 ==> progress
      ensures Drained() && (stop ==> FlushOver() || output)
    {
      hide Sync, Account;
      assert Gate(0);
      progress := CopyOutput();
      stop := state_out_pos < |w.zbits| || (mode == Finishing && Quiet());
      if !stop { stop := NextBlock(); }
    }

    /** The stream that has been given out is that of the blocks. */
    ghost predicate Ended()
      reads this`pieces, this`written, this`consumed
    {
      StreamOf(level, pieces, written, consumed)
    }

    /** Once the stream is closed, and until it is over, some of it is still to be given out. */
    ghost predicate Owes()
      reads this`mode, this`closed, this`state_out_pos, w`zbits
    {
      mode == Finishing && closed ==> state_out_pos < |w.zbits|
    }

    /** A new block is begun, unless a flush is over. */
    method NextBlock() returns (stop: bool)
      requires Core() && InSync() && output && mode != Idle && state_out_pos == |w.zbits|
      requires !(mode == Finishing && Quiet())
      modifies this`blockNo, this`output, this`state_out_pos, w`zbits, g`nblock, g`blockCRC, g`runs, g.inUse
      ensures !stop ==> Fillable() && !(mode != Running && Quiet()) && !closed
      ensures stop ==> Kept() && Resting() && FlushOver()
      ensures w.zbits == [] && state_out_pos == 0
    {
      PrepareNewBlock();
      stop := mode == Flushing && Quiet();
    }

    /** Where a call may end: for want of room, of input, or because all is done. */
    ghost predicate Resting()
      reads this, g, w
    {
      || (output && state_out_pos < |w.zbits| && avail_out == 0)
      || (mode == Running && !output && next_in == [])
      || (mode == Flushing && !output && Quiet() && g.runs == [])
      || (mode == Finishing && output && Quiet() && closed && state_out_pos == |w.zbits|)
    }

    /** What it does in its input state: it stops for want of input, or a block goes out. */
    method InputPhase() returns (progress: bool, stop: bool, ghost used: nat)
      requires Fillable() && (mode != Running ==> avail_in_expect == |next_in|)
      modifies this`next_in, this`avail_in_expect, this`consumed, this`combinedCRC, this`pieces, this`closed,
        this`output, w, g, g.block, g.inUse
      ensures Kept() && Took(used) && (progress <==> used > 0) && (mode != Running ==> avail_in_expect == |next_in|)
      ensures stop ==> Resting() && Drained() && mode == Running
      ensures !stop ==> output && Owes() && (used > 0 || (mode != Running && Quiet()))
      ensures Grown(level, old(pieces), pieces, LastBlock()) && (stop ==> pieces == old(pieces))
      ensures !stop && mode == Running ==> |pieces| > |old(pieces)|
    {
      hide Sync, Account, Grown;
      assert Gate(0);
      ghost var ps := pieces;
      stop := false;
      progress, used := CopyInput();
      if mode != Running && avail_in_expect == 0 {
        EmitFlushed();
      } else if g.nblock >= g.nblockMAX {
        EmitFull();
      } else {
        stop := true;
        NoneCame(level, ps, LastBlock());
      }
    }

    /** Output has moved into the caller's buffer. */
    twostate predicate Gave()
      reads this`written, this`avail_out
    {
      old(written) <= written && |written| - |old(written)| == old(avail_out) - avail_out
    }

    /** A block with room is being filled. */
    ghost predicate Fillable()
      reads this, g, g.block, g.inUse, w
    {
      forall i {:trigger Gate(i)} :: Gate(i) ==> Filling() && InSync() && state_out_pos == 0 && g.nblock < g.nblockMAX
    }

    lemma FillingNow()
      requires Kept() && !output && mode != Idle
      ensures Fillable() && !closed
    {
      assert Gate(0);
    }

    /** One turn of the loop in handle_compress. */
    method Turn() returns (progress: bool, stop: bool, ghost used: nat)
      requires Kept() && mode != Idle && (mode != Running ==> avail_in_expect == |next_in|)
      modifies this, g, g.block, g.inUse, w
      ensures Kept() && mode == old(mode) && Took(used) && Gave() && (mode != Running ==> avail_in_expect == |next_in|)
      ensures progress <==> used > 0 || |written| > |old(written)|
      ensures stop ==> Resting()
      ensures !stop ==> output && !old(LastBlock()) && (used > 0 || LastBlock())
      ensures stop && mode == Finishing && old(Owes()) && old(avail_out) >= 1 ==> |written| > |old(written)|
      ensures if stop then old(Owes()) ==> |written| > |old(written)| || Owes() else Owes()
      ensures stop && (used == 0 || old(LastBlock())) ==> FlushOver() || (Drained() && LastBlock() == old(LastBlock()))
      ensures if stop then pieces == old(pieces) else Grown(level, old(pieces), pieces, LastBlock())
      ensures mode == Running ==> if stop then Drained() else |pieces| > |old(pieces)|
    {
      hide Valid, Filling, InSync, Grown;
      progress, stop, used := false, false, 0;
      if output {
        progress, stop := OutputPhase();
        if stop { return; }
      } else {
        FillingNow();
      }
      var inp;
      inp, stop, used := InputPhase();
      progress := progress || inp;
    }

    /** handle_compress. */
    method HandleCompress() returns (progress: bool, ghost used: nat)
      requires Kept() && mode != Idle && (mode != Running ==> avail_in_expect == |next_in|)
      modifies this, g, g.block, g.inUse, w
      ensures Kept() && mode == old(mode) && Took(used) && Gave() && Resting()
      ensures (mode != Running ==> avail_in_expect == |next_in|)
      ensures progress <==> used > 0 || |written| > |old(written)|
      ensures mode == Finishing && old(Owes()) && old(avail_out) >= 1 ==> |written| > |old(written)|
      ensures used == 0 && LastBlock() == old(LastBlock()) ==> Drained() || FlushOver()
      ensures old(LastBlock()) ==> LastBlock() || FlushOver()
      ensures old(Owes()) ==> |written| > |old(written)| || Owes()
      ensures Grown(level, old(pieces), pieces, LastBlock() || FlushOver())
      ensures mode == Running && pieces == old(pieces) ==> Drained()
      ensures old(LastBlock()) ==> pieces == old(pieces)
    {
      hide Grown, Kept;
      progress, used := false, 0;
      NoneCame(level, pieces, LastBlock());
      while true
        invariant Kept() && mode == old(mode) && Took(used)
        invariant |written| > |old(written)| || !old(Owes()) || Owes()
        invariant used == 0 && LastBlock() == old(LastBlock()) ==> Drained()
        invariant old(LastBlock()) ==> LastBlock()
        invariant Grown(level, old(pieces), pieces, LastBlock())
        invariant old(LastBlock()) ==> pieces == old(pieces)
        invariant mode == Running ==> |pieces| >= |old(pieces)| && (|pieces| == |old(pieces)| ==> Drained())
        invariant Gave() && (mode != Running ==> avail_in_expect == |next_in|)
        invariant progress <==> used > 0 || |written| > |old(written)|
        decreases |next_in|, if output && mode != Running && Quiet() then 0 else 1
      {
        ghost var was, before := LastBlock(), pieces;
        var moved, stop, u := Turn();
        progress := progress || moved;
        used := used + u;
        ghost var short := LastBlock() || (stop && FlushOver());
        if stop { NoneCame(level, pieces, short); }
        GrownOn(level, old(pieces), before, pieces, was, short);
        if stop { return; }
      }
    }

    /** A flush, and the end of the stream, go on with the input that is left of what was announced. */
    ghost predicate InOrder(action: Action, n: nat)
      reads this`mode, this`avail_in_expect
    {
      match mode
      case Idle => false
      case Running => !action.Other?
      case Flushing => action.Flush? && n == avail_in_expect
      case Finishing => action.Finish? && n == avail_in_expect
    }

    /** Whether the call is in order; a first FLUSH or FINISH notes how much input is to come. */
    method Admit(action: Action) returns (refused: bool, code: Code)
      requires Kept()
      modifies this`mode, this`avail_in_expect
      ensures Kept()
      ensures refused ==> mode == old(mode) && code == if old(mode) == Running then ParamError else SequenceError
      ensures old(mode) == Idle ==> refused && code.SequenceError?
      ensures !refused ==> mode != Idle && (mode != Running ==> avail_in_expect == |next_in|)
      ensures !refused ==> mode == ModeOf(action)
      ensures !refused <==> old(InOrder(action, |next_in|))
      ensures (mode == old(mode) || (Owes() && !closed)) && LastBlock() == old(LastBlock())
    {
      refused, code := true, SequenceError;
      if mode == Running {
        if action.Other? { return true, ParamError; }
        if !action.Run? { StopRunning(ModeOf(action)); }
        refused := false;
      } else if mode == Flushing {
        refused := action != Flush || avail_in_expect != |next_in|;
      } else if mode == Finishing {
        refused := action != Finish || avail_in_expect != |next_in|;
      }
    }

    /** A first FLUSH or FINISH notes how much input is to come. */
    method StopRunning(next: Mode)
      requires Kept() && mode == Running && (next == Flushing || next == Finishing)
      modifies this`mode, this`avail_in_expect
      ensures Kept() && mode == next && avail_in_expect == |next_in| && !closed && !LastBlock()
    {
      hide Sync, Account;
      assert Gate(0);
      avail_in_expect := |next_in|;
      mode := next;
    }

    /** The bytes of the block, or of the end of the stream, that are still to be given out. */
    ghost function Backlog(): int
      reads this`state_out_pos, w`zbits
    {
      |w.zbits| - state_out_pos
    }

    /**
     * BZ2_bzCompress. When it reports the end of the stream, the bytes given out over
     * all calls decode to the bytes taken in over all calls. A FLUSH or FINISH in order
     * gets on as far as there is room: it is over, or all the room has been used. A block is
     * closed when it is full, or when a flush or the end of the stream has used up its input.
     */
    method BzCompress(action: Action, input: seq<byte>, room: nat) returns (code: Code, used: nat, out: seq<byte>)
      requires Kept() && Owes()
      modifies this, g, g.block, g.inUse, w
      ensures Kept() && Owes() && used <= |input| && consumed == old(consumed) + input[..used]
      ensures written == old(written) + out && |out| <= room
      ensures code.StreamDone? ==> mode == Idle && used == |input| && Decodable(written, consumed) && Ended()
      ensures action.Flush? && code.RunOk? ==>
        mode == Running && used == |input| && Account(level, pieces, combinedCRC, [], consumed)
      ensures old(mode) == Idle ==> code.SequenceError? && mode == Idle && used == 0 && out == []
      ensures action.Run? && old(mode) == Running ==> code == if used > 0 || out != [] then RunOk else ParamError
      ensures !old(InOrder(action, |input|)) ==>
        && used == 0 && out == [] && mode == old(mode)
        && code == if old(mode) == Running then ParamError else SequenceError
      ensures old(InOrder(action, |input|)) ==> GotOn(action, code, used, |input|, |out|, room)
      ensures old(InOrder(action, |input|)) ==> mode == NextMode(action, code)
      ensures old(InOrder(action, |input|)) && mode != Running && mode != Idle ==> avail_in_expect == |input| - used
      ensures old(InOrder(action, |input|)) && mode == ModeOf(action) ==>
        && (used == 0 && LastBlock() == old(LastBlock()) ==> Backlog() == old(Backlog()) - |out|)
        && (old(LastBlock()) ==> LastBlock())
      ensures Backlog() >= 0
      ensures Grown(level, old(pieces), pieces, !action.Run? && used == |input| && (mode == Running || LastBlock()))
      ensures old(InOrder(action, |input|)) && old(LastBlock()) ==> pieces == old(pieces)
      ensures old(InOrder(action, |input|)) && action.Run? && pieces == old(pieces) ==>
        Backlog() == old(Backlog()) - |out|
    {
      hide Sync, Account, Kept, Resting, LastBlock, FlushOver, GotOn, Decodable, Ended, Grown;
      next_in, avail_out := input, room;
      var before := |written|;
      assert input[..0] == [] && written + [] == written;
      var refused;
      refused, code := Admit(action);
      if refused {
        WithinBits();
        NoneCame(level, pieces, !action.Run? && 0 == |input| && (mode == Running || LastBlock()));
        return code, 0, [];
      }
      code := Serve(action);
      used, out := |input| - |next_in|, written[before..];
      TookPrefix(old(consumed), input, consumed, next_in, used);
      GavePrefix(old(written), written, out);
    }

    /** A call in order. */
    method Serve(action: Action) returns (code: Code)
      requires Kept() && Owes() && mode != Idle && mode == ModeOf(action)
      requires mode != Running ==> avail_in_expect == |next_in|
      modifies this, g, g.block, g.inUse, w
      ensures Kept() && Owes() && Backlog() >= 0 && Gave() && consumed + next_in == old(consumed + next_in)
      ensures |next_in| <= |old(next_in)| && avail_out >= 0
      ensures var used, out := |old(next_in)| - |next_in|, |written| - |old(written)|;
        && GotOn(action, code, used, |old(next_in)|, out, old(avail_out)) && mode == NextMode(action, code)
        && (code.StreamDone? ==> next_in == [] && Decodable(written, consumed) && Ended())
        && (action.Flush? && code.RunOk? ==> next_in == [] && Account(level, pieces, combinedCRC, [], consumed))
        && (action.Run? ==> code == if used > 0 || out > 0 then RunOk else ParamError)
        && (mode != Running && mode != Idle ==> avail_in_expect == |next_in|)
        && (mode == old(mode) && used == 0 && LastBlock() == old(LastBlock()) ==> Backlog() == old(Backlog()) - out)
        && (mode == old(mode) && old(LastBlock()) ==> LastBlock())
        && Grown(level, old(pieces), pieces, !action.Run? && next_in == [] && (mode == Running || LastBlock()))
        && (old(LastBlock()) ==> pieces == old(pieces))
        && (action.Run? && pieces == old(pieces) ==> Backlog() == old(Backlog()) - out)
    {
      hide Sync, Account, Kept, Resting, Decodable, Ended, Grown;
      var progress, used := HandleCompress();
      ghost var short := LastBlock() || FlushOver();
      assert short ==> !action.Run? && next_in == [];
      hide LastBlock, FlushOver;
      code := Outcome(progress);
      MayBeShort(level, old(pieces), pieces, short, !action.Run? && next_in == [] && (mode == Running || LastBlock()));
      WithinBits();
    }

    lemma WithinBits()
      requires Kept()
      ensures Backlog() >= 0
    {
      assert Gate(0);
    }

    /** The code for what handle_compress has done, and the mode it leads to. */
    method Outcome(progress: bool) returns (code: Code)
      requires Kept() && mode != Idle && Resting() && (mode != Running ==> avail_in_expect == |next_in|)
      requires progress || Owes()
      modifies this`mode
      ensures Kept() && Owes()
      ensures old(mode) != Running && !code.StreamDone? && !code.RunOk? ==> avail_out == 0
      ensures old(mode) == Running ==> avail_out == 0 || next_in == []
      ensures old(mode) == Finishing ==> code == if !progress then SequenceError
        else if state_out_pos < |w.zbits| then FinishOk else StreamDone
      ensures code.FlushOk? ==> old(mode) == Flushing && mode == Flushing
      ensures mode == old(mode) ==> LastBlock() == old(LastBlock()) && !old(FlushOver())
      ensures code.StreamDone? ==>
        old(mode) == Finishing && mode == Idle && next_in == [] && Decodable(written, consumed) && Ended()
      ensures old(mode) == Flushing && code.RunOk? ==>
        mode == Running && next_in == [] && Account(level, pieces, combinedCRC, [], consumed)
      ensures old(mode) == Running ==> code == if progress then RunOk else ParamError
      ensures old(mode) == Flushing ==> code.RunOk? || code.FlushOk?
      ensures code.StreamDone? || old(mode) == Flushing || mode == old(mode)
      ensures code.StreamDone? ==> LastBlock()
    {
      assert Gate(0);
      if mode == Running { return if progress then RunOk else ParamError; }
      var more := avail_in_expect > 0 || !NoRun() || state_out_pos < |w.zbits|;
      if mode == Flushing {
        if more { return FlushOk; }
        EndFlush();
        return RunOk;
      }
      if !progress { return SequenceError; }
      if more { return FinishOk; }
      EndStream();
      return StreamDone;
    }

    method EndFlush()
      requires Valid() && mode == Flushing && !output && Quiet() && g.runs == []
      modifies this`mode
      ensures Valid() && mode == Running && Account(level, pieces, combinedCRC, [], consumed)
    {
      assert g.Taken() == [];
      mode := Running;
    }

    method EndStream()
      requires Valid() && mode == Finishing && output && closed && state_out_pos == |w.zbits|
      modifies this`mode
      ensures Valid() && mode == Idle && Decodable(written, consumed) && Ended()
    {
      hide Sync, Account, Decodable, StreamOf, Holding;
      assert written + w.zbits[state_out_pos..] == written;
      assert Pending(g.state_in_ch, g.state_in_len) == [];
      ClosedDecodes(level, pieces, combinedCRC, written, w.live, consumed);
      mode := Idle;
    }

    /** The trailer, and zeros up to a whole byte. */
    method CloseStream(ghost held: seq<byte>)
      requires w.Valid() && !closed && Sync(level, true, pieces, false, written + w.zbits, w.live)
      requires Account(level, pieces, combinedCRC, held, consumed)
      modifies this`closed, w
      ensures closed && Sync(level, true, pieces, true, written + w.zbits, w.live)
      ensures 8 * |w.zbits| <= |old(w.Written())| + 87 && w.zbits != []
    {
      ghost var z0, live0 := w.zbits, w.live;
      ghost var k := PutEnd(w, combinedCRC);
      SyncEnd(level, pieces, combinedCRC, written, z0, live0, w.zbits, k, w.live, held, consumed);
      closed := true;
    }
  }

  method PutEnd(w: Writer, combined: bv32) returns (ghost k: nat)
    requires w.Valid()
    modifies w
    ensures k < 8 && BytesBits(w.zbits) == old(w.Written()) + Trailer(combined) + Zeros(k)
  {
    PutTrailer(w, combined);
    w.Finish();
    k :| 0 <= k < 8 && BytesBits(w.zbits) == old(w.Written()) + Trailer(combined) + Zeros(k);
  }

  lemma NothingSent(level: nat, held: seq<byte>)
    requires 1 <= level <= 9 && held == []
    ensures Sync(level, false, [], false, [], []) && Account(level, [], 0, held, [])
  {
  }

  lemma SyncEnd(level: nat, ps: seq<Piece>, combined: bv32, written: seq<byte>, z0: seq<byte>, live0: bits,
                z: seq<byte>, k: nat, left: bits, held: seq<byte>, taken: seq<byte>)
    requires Sync(level, true, ps, false, written + z0, live0) && Account(level, ps, combined, held, taken) && k < 8
    requires BytesBits(z) == (BytesBits(z0) + live0) + Trailer(combined) + Zeros(k)
    ensures Sync(level, true, ps, true, written + z, left)
  {
    assert Key(0);
    BytesBitsAppend(written, z0);
    BytesBitsAppend(written, z);
    var sent := StreamHeader(level) + (PieceBits(ps) + []);
    TrailerAfter(BytesBits(written), BytesBits(z0), live0, BytesBits(z), Trailer(combined), Zeros(k), sent);
    SentParts(StreamHeader(level), PieceBits(ps), Trailer(combined), Zeros(k));
    assert BytesBits(written + z) == SentBits(level, true, ps, true) + Zeros(k);
  }

  /** The trailer and the padding follow what had been sent. */
  lemma TrailerAfter(a: bits, b: bits, c: bits, d: bits, t: bits, pad: bits, sent: bits)
    requires d == (b + c) + t + pad && (a + b) + c == sent
    ensures a + d == sent + (t + pad)
  {
    Associates((b + c) + t, b + c, t, pad);
    Chain(a, b, c, d, [], t + pad);
    assert (a + d) + [] == a + d && d + [] == d;
  }

  lemma AllInUse(b: seq<byte>, use: seq<bool>, crc: bv32, runs: seq<Pair>)
    requires Holding(b, use, crc, runs)
    ensures forall i :: 0 <= i < |b| ==> use[b[i]]
  {
    assert Seal(0);
  }

  lemma NoRunsNoBytes(b: seq<byte>, use: seq<bool>, crc: bv32, runs: seq<Pair>)
    requires Holding(b, use, crc, runs)
    ensures b == [] <==> runs == []
  {
    assert Seal(0);
    if runs != [] { assert |PairCode(runs[|runs| - 1])| > 0; }
  }

  lemma PieceMade(level: nat, p: Piece, b: seq<byte>, use: seq<bool>, crc: bv32)
    requires Holding(b, use, crc, p.runs) && b != [] && Delivers(p.s, level, Check(crc), b)
    ensures GoodPiece(level, p) && crc == PieceCrc(p) && |Flatten(p.runs)| == |b|
  {
    assert Seal(0);
  }

  /** The writer had bytes z0 and bits live0, and now has z and live, which are those and the piece. */
  lemma SyncAfter(level: nat, ps: seq<Piece>, written: seq<byte>, z0: seq<byte>, live0: bits, z: seq<byte>,
                  live: bits, p: Piece)
    requires Sync(level, true, ps, false, written + z0, live0) && GoodPiece(level, p)
    requires BytesBits(z) + live == (BytesBits(z0) + live0) + p.s
    ensures Sync(level, true, ps + [p], false, written + z, live)
  {
    assert Key(0);
    BytesBitsAppend(written, z0);
    BytesBitsAppend(written, z);
    PieceSnoc(level, ps, p);
    SentParts(StreamHeader(level), PieceBits(ps), p.s, []);
    Chain(BytesBits(written), BytesBits(z0), live0, BytesBits(z), live, p.s);
  }

  lemma Chain(a: bits, b: bits, c: bits, d: bits, e: bits, f: bits)
    requires d + e == (b + c) + f
    ensures (a + d) + e == ((a + b) + c) + f
  {
    assert (a + d) + e == a + (d + e);
    assert ((a + b) + c) + f == a + ((b + c) + f);
  }

  lemma GavePrefix(was: seq<byte>, now: seq<byte>, out: seq<byte>)
    requires was <= now && out == now[|was|..]
    ensures now == was + out
  {
  }

  lemma TookPrefix(was: seq<byte>, input: seq<byte>, now: seq<byte>, left: seq<byte>, used: nat)
    requires now + left == was + input && |left| + used == |input|
    ensures now == was + input[..used]
  {
    assert now == (now + left)[..|now|] == (was + input)[..|was| + used];
  }

  lemma Delivered(written: seq<byte>, z: seq<byte>, pos: nat, next: nat)
    requires pos < |z| && next == pos + 1
    ensures written + z[pos..] == (written + [z[pos]]) + z[next..]
  {
    assert z[pos..] == [z[pos]] + z[next..];
  }
}
