/**
 * The decompressor's output side: bytes are fetched along T^(-1), runs are found
 * and written out, and a call stops wherever the caller's buffer is full. The
 * fast and the low-memory form are both here, over the representation each uses.
 */
module RleDecoder {
  import opened Common
  import opened Counting
  import opened Bwt
  import opened SmallInverse
  import opened Mtf
  import opened Rle
  import opened BzCrc

  /** The bytes as they are fetched: the block, and then its first bytes again. */
  ghost function Fetched(l: seq<byte>, orig: int): (t: seq<byte>)
    requires 0 <= orig < |l|
    ensures |t| == |l| + 2
  {
    Spelling(l, orig, |l| + 2)
  }

  class Output {
    const small: bool
    const tt: array<int>
    const table: Table
    const cftab: array<int>
    const limit: nat
    const save_nblock: nat
    ghost const l: seq<byte>
    ghost const orig: int
    ghost const on: set<int>
    ghost const t: seq<byte>
    var tPos: nat
    var nblock_used: nat
    var k0: byte
    var state_out_len: nat
    var state_out_ch: byte
    var calculatedBlockCRC: bv32

    /** T^(-1) as the fast form or the low-memory form stores it. */
    ghost predicate Inverse()
      reads tt, table, table.ll16, table.ll4, cftab
    {
      && save_nblock == |l| <= limit && 0 <= orig < |l| && t == Fetched(l, orig)
      && if small then table.Valid() && Cumulative(cftab[..], l) && orig in on && Inverts(table.Entries(), on, l)
         else |l| <= tt.Length && forall k {:trigger tt[k]} :: 0 <= k < |l| ==> tt[k] == l[k] + 256 * Row(l, k)
    }

    /** tPos after nblock_used fetches. */
    ghost predicate Positioned()
      reads this`tPos, this`nblock_used
    {
      0 <= orig < |l| && tPos == Walk(l, orig, if small then nblock_used else nblock_used + 1) && (small ==> tPos in on)
    }

    /** Both, for the proofs that ask for them by naming a key. */
    ghost predicate Ready()
      reads this`tPos, this`nblock_used, tt, table, table.ll16, table.ll4, cftab
    {
      forall k {:trigger Key(k)} :: Key(k) ==> Inverse() && Positioned()
    }

    ghost predicate Valid()
      reads this, tt, table, table.ll16, table.ll4, cftab
    {
      && Ready() && |t| == save_nblock + 2 && 1 <= nblock_used <= save_nblock + 2
      && (nblock_used <= save_nblock ==> k0 == t[nblock_used - 1])
    }

    /** What is still to be written. */
    ghost function Left(): seq<byte>
      requires save_nblock < |t| && 1 <= nblock_used
      reads this
    {
      Repeat(state_out_ch, state_out_len) + Remaining(t, save_nblock, nblock_used - 1)
    }

    /** BZ_GET_FAST or BZ_GET_SMALL; the guard on tPos never fires. */
    method Get() returns (c: byte)
      requires Ready() && |t| == save_nblock + 2 && nblock_used <= save_nblock + 1
      modifies this`tPos, this`nblock_used
      ensures Ready() && nblock_used == old(nblock_used) + 1 && c == t[old(nblock_used)]
    {
      ghost var used := nblock_used;
      assert Key(0);
      assert tPos < limit;
      if small {
        c, tPos := GetSmall(table, cftab, tPos, on, l);
      } else {
        var word := tt[tPos];
        c := word % 256;
        tPos := word / 256;
      }
      nblock_used := nblock_used + 1;
      assert t[used] == l[Walk(l, orig, used + 1)];
    }

    /** The fast form: tPos starts at tt[origPtr] >> 8, and the first byte is fetched. */
    constructor Fast(tt: array<int>, origPtr: nat, limit: nat, nblock: nat, ghost l: seq<byte>)
      requires origPtr < |l| == nblock <= limit && |l| <= tt.Length
      requires forall k {:trigger tt[k]} :: 0 <= k < |l| ==> tt[k] == l[k] + 256 * Row(l, k)
      ensures Valid() && !small && this.l == l && orig == origPtr && nblock_used == 1
      ensures state_out_len == 0 && calculatedBlockCRC == INITIAL
    {
      small, this.tt, this.limit, save_nblock, this.l, orig, on := false, tt, limit, nblock, l, origPtr, {};
      t := Fetched(l, origPtr);
      table := new Table(0);
      cftab := new int[257](_ => 0);
      tPos, nblock_used := tt[origPtr] / 256, 0;
      state_out_len, state_out_ch, calculatedBlockCRC := 0, 0, INITIAL;
      new;
      assert Walk(l, origPtr, 1) == Row(l, Walk(l, origPtr, 0));
      k0 := Get();
    }

    /** The low-memory form: tPos starts at origPtr. */
    constructor Small(table: Table, cftab: array<int>, origPtr: nat, limit: nat, nblock: nat, ghost on: set<int>,
          ghost l: seq<byte>)
      requires origPtr < |l| == nblock <= limit
      requires table.Valid() && Cumulative(cftab[..], l) && origPtr in on && Inverts(table.Entries(), on, l)
      ensures Valid() && small && this.l == l && orig == origPtr && nblock_used == 1
      ensures state_out_len == 0 && calculatedBlockCRC == INITIAL
    {
      small, this.table, this.cftab, this.limit, save_nblock, this.l, orig, this.on :=
        true, table, cftab, limit, nblock, l, origPtr, on;
      t := Fetched(l, origPtr);
      tt := new int[0];
      tPos, nblock_used := origPtr, 0;
      state_out_len, state_out_ch, calculatedBlockCRC := 0, 0, INITIAL;
      new;
      k0 := Get();
    }

    /** The run at the place reached, byte by byte; the two forms look at the first pair in different order. */
    method NextRun() returns (len: nat)
      requires Valid() && nblock_used <= save_nblock
      modifies this`tPos, this`nblock_used, this`k0, this`state_out_ch
      ensures Valid() && state_out_ch == t[old(nblock_used) - 1]
      ensures Found(len, nblock_used - 1) == RunAt(t, save_nblock, old(nblock_used) - 1)
    {
      state_out_ch := k0;
      var k1 := Get();
      if small && nblock_used == save_nblock + 1 { return 1; }
      if k1 != k0 { k0 := k1; return 1; }
      if !small && nblock_used == save_nblock + 1 { return 1; }
      len := LongRun(nblock_used - 2);
    }

    /** The rest of a run of at least two. */
    method LongRun(ghost i: nat) returns (len: nat)
      requires Ready() && |t| == save_nblock + 2 && nblock_used == i + 2 <= save_nblock && k0 == t[i] == t[i + 1]
      modifies this`tPos, this`nblock_used, this`k0
      ensures Valid() && Found(len, nblock_used - 1) == RunAt(t, save_nblock, i)
    {
      var k1 := Get();
      if nblock_used == save_nblock + 1 { return 2; }
      if k1 != k0 { k0 := k1; return 2; }
      k1 := Get();
      if nblock_used == save_nblock + 1 { return 3; }
      if k1 != k0 { k0 := k1; return 3; }
      k1 := Get();
      len := k1 as int + 4;
      k0 := Get();
    }

    /** One byte of the current run goes to the caller. */
    method WriteOne(ghost whole: seq<byte>, out: seq<byte>, ghost crc: bv32) returns (now: seq<byte>)
      requires Valid() && state_out_len > 0 && Progress(whole, out, crc)
      modifies this`state_out_len, this`calculatedBlockCRC
      ensures Valid() && state_out_len == old(state_out_len) - 1 && now == out + [state_out_ch]
      ensures Progress(whole, now, crc)
    {
      assert Seal(0);
      WriteKeeps(whole, out, state_out_ch, state_out_len, state_out_len - 1,
        Remaining(t, save_nblock, nblock_used - 1));
      FoldOne(crc, out, state_out_ch);
      now := out + [state_out_ch];
      calculatedBlockCRC := UpdateOf(calculatedBlockCRC, state_out_ch);
      state_out_len := state_out_len - 1;
    }

    /** Writes the run down to its last `stop` bytes, unless the caller's buffer fills up. */
    method WriteDown(avail: nat, stop: nat, ghost whole: seq<byte>, sofar: seq<byte>, ghost crc: bv32)
      returns (full: bool, out: seq<byte>)
      requires Valid() && stop <= state_out_len && |sofar| <= avail && Progress(whole, sofar, crc)
      modifies this`state_out_len, this`calculatedBlockCRC
      ensures Valid() && |out| <= avail && Progress(whole, out, crc) && stop <= state_out_len
      ensures if full then |out| == avail else |out| < avail && state_out_len == stop
    {
      out := sofar;
      while true
        invariant Valid() && |out| <= avail && Progress(whole, out, crc) && stop <= state_out_len
        decreases state_out_len
      {
        if |out| == avail { return true, out; }
        if state_out_len == stop { return false, out; }
        out := WriteOne(whole, out, crc);
      }
    }

    /** `out` and what is left make up the whole, and the CRC covers `out`. */
    ghost predicate Progress(whole: seq<byte>, out: seq<byte>, crc: bv32)
      requires save_nblock < |t| && 1 <= nblock_used
      reads this
    {
      forall k {:trigger Seal(k)} :: Seal(k) ==> whole == out + Left() && calculatedBlockCRC == Fold(crc, out)
    }

    /** The block has been written out: where the caller checks the CRC. */
    predicate Finished()
      reads this
    {
      nblock_used == save_nblock + 1 && state_out_len == 0
    }

    lemma MoreLeft(whole: seq<byte>, out: seq<byte>, crc: bv32)
      requires Valid() && Progress(whole, out, crc)
      ensures |whole| >= |out| + state_out_len
    {
      assert Seal(0);
    }

    /** Behind the end of the block there is nothing to come, and its runs did not end with it. */
    lemma NoneLeft(whole: seq<byte>, out: seq<byte>, crc: bv32)
      requires Valid() && Progress(whole, out, crc) && nblock_used > save_nblock + 1 && state_out_len == 0
      ensures Left() == [] && whole == out && !Sane()
    {
      assert Seal(0);
      assert Repeat(state_out_ch, 0) == [];
    }

    /** The block's runs are well formed from the place reached on. */
    ghost predicate Sane()
      requires save_nblock < |t| && 1 <= nblock_used
      reads this
    {
      Complete(t, save_nblock, nblock_used - 1)
    }

    method StartRun(ghost whole: seq<byte>, ghost out: seq<byte>, ghost crc: bv32)
      requires Valid() && nblock_used <= save_nblock && state_out_len == 0 && Progress(whole, out, crc)
      modifies this`tPos, this`nblock_used, this`k0, this`state_out_ch, this`state_out_len
      ensures Valid() && nblock_used > old(nblock_used) && state_out_len > 0 && Progress(whole, out, crc)
      ensures Sane() == old(Sane())
    {
      ghost var i := nblock_used - 1;
      assert Seal(0);
      assert Repeat(state_out_ch, 0) + Remaining(t, save_nblock, i) == Remaining(t, save_nblock, i);
      state_out_len := NextRun();
    }

    /**
     * The fast form works on copies of the fields, and of the place in the caller's buffer.
     * On corrupt data it returns without saving them: no byte has been given, and the
     * fields are those of before.
     */
    method UnRleFast(avail: nat) returns (corrupt: bool, out: seq<byte>)
      requires Valid() && !small
      modifies this
      ensures Valid() && |out| <= avail && Progress(old(Left()), out, old(calculatedBlockCRC)) && Sane() == old(Sane())
      ensures corrupt <==> !Sane() && |old(Left())| <= avail
      ensures corrupt ==> out == [] && unchanged(`tPos, `nblock_used, `k0)
      ensures corrupt ==> unchanged(`state_out_len, `state_out_ch, `calculatedBlockCRC)
      ensures !corrupt ==> |out| == avail || Finished()
    {
      var c_tPos, c_nblock_used, c_k0 := tPos, nblock_used, k0;
      var c_state_out_len, c_state_out_ch, c_calculatedBlockCRC := state_out_len, state_out_ch, calculatedBlockCRC;
      corrupt, out := FastLoop(avail);
      if corrupt {
        tPos, nblock_used, k0 := c_tPos, c_nblock_used, c_k0;
        state_out_len, state_out_ch, calculatedBlockCRC := c_state_out_len, c_state_out_ch, c_calculatedBlockCRC;
        out := [];
        assert old(Left()) == [] + old(Left());
      }
    }

    /** The loop of the fast form. Its jump to the last byte of a run is here a run of one. */
    method FastLoop(avail: nat) returns (corrupt: bool, out: seq<byte>)
      requires Valid() && !small
      modifies this
      ensures Valid() && |out| <= avail && Progress(old(Left()), out, old(calculatedBlockCRC)) && Sane() == old(Sane())
      ensures corrupt <==> !Sane() && |old(Left())| <= avail
      ensures !corrupt ==> |out| == avail || Finished()
    {
      ghost var whole, crc := Left(), calculatedBlockCRC;
      corrupt, out := false, [];
      assert whole == [] + whole;
      while true
        invariant Valid() && |out| <= avail && Progress(whole, out, crc) && Sane() == old(Sane())
        decreases save_nblock + 2 - nblock_used
      {
        if state_out_len > 0 {
          var full;
          full, out := WriteDown(avail, 1, whole, out, crc);
          if full {
            MoreLeft(whole, out, crc);
            return;
          }
          out := WriteOne(whole, out, crc);
        }
        if nblock_used > save_nblock + 1 {
          NoneLeft(whole, out, crc);
          return true, out;
        }
        if nblock_used == save_nblock + 1 { return; }
        StartRun(whole, out, crc);
      }
    }

    /** The low-memory form. */
    method UnRleSmall(avail: nat) returns (corrupt: bool, out: seq<byte>)
      requires Valid() && small
      modifies this
      ensures Valid() && |out| <= avail && Progress(old(Left()), out, old(calculatedBlockCRC)) && Sane() == old(Sane())
      ensures corrupt <==> !Sane() && |old(Left())| < avail
      ensures corrupt ==> Left() == []
      ensures !corrupt ==> |out| == avail || Finished()
    {
      ghost var whole, crc := Left(), calculatedBlockCRC;
      corrupt, out := false, [];
      assert whole == [] + whole;
      while true
        invariant Valid() && |out| <= avail && Progress(whole, out, crc) && Sane() == old(Sane())
        decreases save_nblock + 2 - nblock_used
      {
        var full;
        full, out := WriteDown(avail, 0, whole, out, crc);
        if full {
          MoreLeft(whole, out, crc);
          return;
        }
        if nblock_used == save_nblock + 1 { return; }
        if nblock_used > save_nblock + 1 {
          NoneLeft(whole, out, crc);
          return true, out;
        }
        StartRun(whole, out, crc);
      }
    }
  }

  lemma FoldOne(crc: bv32, out: seq<byte>, ch: byte)
    ensures Fold(crc, out + [ch]) == Update(Fold(crc, out), ch)
  {
    assert (out + [ch])[..|out|] == out;
  }

  lemma WriteKeeps(whole: seq<byte>, out: seq<byte>, ch: byte, len: nat, len': nat, rest: seq<byte>)
    requires whole == out + (Repeat(ch, len) + rest) && len == len' + 1
    ensures whole == (out + [ch]) + (Repeat(ch, len') + rest)
  {
    assert Repeat(ch, len) == [ch] + Repeat(ch, len');
  }
}
