/**
 * The compressor's input side: bytes are gathered into runs, and finished runs
 * go into the block, the table of bytes in use and the block's CRC.
 */
module RleEncoder {
  import opened Common
  import opened Mtf
  import opened Rle
  import opened BzCrc

  /** No run is pending. */
  const NO_CHAR := 256

  /** The run being gathered. */
  ghost function Pending(ch: int, len: int): seq<byte>
    requires 0 <= ch <= NO_CHAR
  {
    if ch < NO_CHAR then Repeat(ch, len) else []
  }

  /** A run of ch may follow the runs of the block. */
  ghost predicate MayFollow(ps: seq<Pair>, ch: int) {
    ps == [] || ps[|ps| - 1].ch != ch || ps[|ps| - 1].len == 255
  }

  /** The block holds exactly the given runs, which are as long as they can be. */
  ghost predicate Holding(block: seq<byte>, inUse: seq<bool>, crc: bv32, ps: seq<Pair>) {
    Maximal(ps) && |inUse| == 256 && forall k {:trigger Seal(k)} :: Seal(k) ==> Contents(block, inUse, crc, ps)
  }

  ghost predicate Contents(block: seq<byte>, inUse: seq<bool>, crc: bv32, ps: seq<Pair>)
    requires Maximal(ps) && |inUse| == 256
  {
    && block == Flatten(ps) && crc == Fold(INITIAL, Spread(ps))
    && forall b :: 0 <= b < 256 ==> (inUse[b] <==> b in block)
  }

  /** The bytes in use once p has been added. */
  ghost function Marked(inUse: seq<bool>, p: Pair): (r: seq<bool>)
    requires |inUse| == 256 && 1 <= p.len <= 255
    ensures |r| == 256
  {
    var r := inUse[p.ch := true];
    if p.len < 4 then r else r[p.len - 4 := true]
  }

  lemma MarkedBytes(block: seq<byte>, inUse: seq<bool>, p: Pair)
    requires |inUse| == 256 && 1 <= p.len <= 255 && forall b :: 0 <= b < 256 ==> (inUse[b] <==> b in block)
    ensures forall b :: 0 <= b < 256 ==> (Marked(inUse, p)[b] <==> b in block + PairCode(p))
  {
    var code := PairCode(p);
    forall b: byte ensures b in code <==> b == p.ch || (p.len >= 4 && b == p.len - 4) {
      assert code[0] == p.ch && (p.len >= 4 ==> code[4] == p.len - 4);
    }
  }

  lemma HoldingMore(block: seq<byte>, inUse: seq<bool>, crc: bv32, ps: seq<Pair>, p: Pair)
    requires Holding(block, inUse, crc, ps) && 1 <= p.len <= 255 && MayFollow(ps, p.ch)
    ensures Holding(block + PairCode(p), Marked(inUse, p), Fold(crc, Repeat(p.ch, p.len)), ps + [p])
  {
    assert Seal(0);
    RunsMore(ps, p);
    MarkedBytes(block, inUse, p);
    FoldAppend(INITIAL, Spread(ps), Repeat(p.ch, p.len));
  }

  lemma RunsMore(ps: seq<Pair>, p: Pair)
    requires Maximal(ps) && 1 <= p.len <= 255 && MayFollow(ps, p.ch)
    ensures Maximal(ps + [p]) && Flatten(ps + [p]) == Flatten(ps) + PairCode(p)
    ensures Spread(ps + [p]) == Spread(ps) + Repeat(p.ch, p.len)
  {
    var qs := ps + [p];
    assert qs[..|ps|] == ps;
  }

  class Gatherer {
    const block: array<byte>
    const inUse: array<bool>
    const nblockMAX: nat
    var nblock: nat
    var blockCRC: bv32
    var state_in_ch: int
    var state_in_len: int
    ghost var runs: seq<Pair>

    ghost predicate Valid()
      reads this, block, inUse
    {
      && inUse.Length == 256 && nblockMAX + 10 <= block.Length && nblock <= block.Length
      && Holding(block[..nblock], inUse[..], blockCRC, runs)
      && 0 <= state_in_ch <= NO_CHAR
      && (state_in_ch < NO_CHAR ==> 1 <= state_in_len <= 255 && MayFollow(runs, state_in_ch))
      && (state_in_ch == NO_CHAR ==> state_in_len == 0)
    }

    /** The bytes that the block stands for. */
    ghost function Stored(): seq<byte>
      requires Valid()
      reads this, block, inUse
    {
      Spread(runs)
    }

    /** Those and the run being gathered. */
    ghost function Taken(): seq<byte>
      requires Valid()
      reads this, block, inUse
    {
      Spread(runs) + Pending(state_in_ch, state_in_len)
    }

    /** The block takes more bytes: it has not been flushed. */
    ghost predicate Open()
      reads this
    {
      state_in_ch == NO_CHAR ==> runs == []
    }

    constructor (nblockMAX: nat)
      ensures Valid() && Open() && this.nblockMAX == nblockMAX && nblock == 0 && runs == [] && Taken() == []
      ensures fresh(block) && fresh(inUse) && state_in_ch == NO_CHAR && block.Length == nblockMAX + 19
    {
      this.nblockMAX := nblockMAX;
      block := new byte[nblockMAX + 19](_ => 0);
      inUse := new bool[256](_ => false);
      nblock, blockCRC, runs := 0, INITIAL, [];
      state_in_ch, state_in_len := NO_CHAR, 0;
    }

    /** prepare_new_block: an empty block; the run being gathered stays. */
    method NewBlock()
      requires Valid()
      modifies this`nblock, this`blockCRC, this`runs, inUse
      ensures Valid() && Open() && nblock == 0 && runs == [] && Taken() == Pending(state_in_ch, state_in_len)
    {
      nblock := 0;
      blockCRC := INITIAL;
      runs := [];
      var i := 0;
      while i < 256
        modifies inUse
        invariant 0 <= i <= 256 && forall b :: 0 <= b < i ==> !inUse[b]
      {
        inUse[i] := false;
        i := i + 1;
      }
    }

    method Put(ch: byte)
      requires nblock < block.Length
      modifies this`nblock, block
      ensures nblock == old(nblock) + 1 && block[..nblock] == old(block[..nblock]) + [ch]
    {
      block[nblock] := ch;
      nblock := nblock + 1;
    }

    /** add_pair_to_block: the run being gathered goes into the block. */
    method AddPair()
      requires Valid() && state_in_ch < NO_CHAR && nblock + 5 <= block.Length
      modifies this`nblock, this`blockCRC, this`runs, block, inUse
      ensures old(nblock) < nblock <= old(nblock) + 5 && runs == old(runs) + [Pair(state_in_ch, state_in_len)]
      ensures nblock <= block.Length && Holding(block[..nblock], inUse[..], blockCRC, runs)
    {
      ghost var was, use, crc, p := block[..nblock], inUse[..], blockCRC, Pair(state_in_ch, state_in_len);
      HoldingMore(was, use, crc, runs, p);
      UpdateCrc(state_in_ch, state_in_len);
      MarkUse(state_in_ch, state_in_len);
      PutRun(state_in_ch, state_in_len);
      runs := runs + [p];
    }

    /** flush_RL: no run is pending afterwards. */
    method Flush()
      requires Valid() && nblock + 5 <= block.Length
      modifies this, block, inUse
      ensures Valid() && Taken() == Stored() == old(Taken()) && state_in_ch == NO_CHAR
      ensures old(nblock) <= nblock <= old(nblock) + 5
    {
      if state_in_ch < NO_CHAR {
        RunsMore(runs, Pair(state_in_ch, state_in_len));
        AddPair();
      }
      state_in_ch, state_in_len := NO_CHAR, 0;
    }

    /** ADD_CHAR_TO_BLOCK. */
    method AddChar(zchh: byte)
      requires Valid() && Open() && nblock + 5 <= block.Length
      modifies this, block, inUse
      ensures Valid() && Open() && Taken() == old(Taken()) + [zchh] && state_in_ch < NO_CHAR
      ensures old(nblock) <= nblock <= old(nblock) + 5
    {
      ghost var rs, ch0, len0, taken := runs, state_in_ch, state_in_len, Taken();
      if zchh != state_in_ch && state_in_len == 1 {
        RunEnds(rs, ch0, len0, zchh);
        AddSingle();
        state_in_ch := zchh;
      } else if zchh != state_in_ch || state_in_len == 255 {
        RunEnds(rs, ch0, len0, zchh);
        if state_in_ch < NO_CHAR { AddPair(); }
        state_in_ch := zchh;
        state_in_len := 1;
      } else {
        state_in_len := state_in_len + 1;
        RunGrows(Spread(rs), zchh, len0, state_in_len);
      }
    }

    /** The fast track for a run of one byte. */
    method AddSingle()
      requires Valid() && state_in_len == 1 && nblock + 5 <= block.Length
      modifies this`nblock, this`blockCRC, this`runs, block, inUse
      ensures nblock == old(nblock) + 1 && runs == old(runs) + [Pair(state_in_ch, 1)]
      ensures nblock <= block.Length && Holding(block[..nblock], inUse[..], blockCRC, runs)
    {
      ghost var was, use, crc, p := block[..nblock], inUse[..], blockCRC, Pair(state_in_ch, 1);
      HoldingMore(was, use, crc, runs, p);
      var ch: byte := state_in_ch;
      SingleCode(crc, ch);
      blockCRC := UpdateOf(blockCRC, ch);
      inUse[state_in_ch] := true;
      Put(ch);
      runs := runs + [p];
      assert inUse[..] == Marked(use, p);
    }

    method MarkUse(ch: byte, len: int)
      requires inUse.Length == 256 && 1 <= len <= 255
      modifies inUse
      ensures inUse[..] == Marked(old(inUse[..]), Pair(ch, len))
    {
      inUse[ch] := true;
      if len >= 4 { inUse[len - 4] := true; }
    }

    method PutRun(ch: byte, len: int)
      requires nblock + 5 <= block.Length && 1 <= len <= 255
      modifies this`nblock, block
      ensures old(nblock) < nblock <= old(nblock) + 5
      ensures block[..nblock] == old(block[..nblock]) + PairCode(Pair(ch, len))
    {
      ghost var was := block[..nblock];
      Put(ch);
      if len >= 2 { Put(ch); }
      if len >= 3 { Put(ch); }
      if len >= 4 {
        Put(ch);
        Put(len - 4);
      }
      CodeOf(was, block[..nblock], ch, len);
    }

    method UpdateCrc(ch: byte, len: nat)
      modifies this`blockCRC
      ensures blockCRC == Fold(old(blockCRC), Repeat(ch, len))
    {
      var i := 0;
      assert Repeat(ch, 0) == [];
      while i < len
        invariant 0 <= i <= len && blockCRC == Fold(old(blockCRC), Repeat(ch, i))
      {
        assert Repeat(ch, i + 1)[..i] == Repeat(ch, i);
        blockCRC := UpdateOf(blockCRC, ch);
        i := i + 1;
      }
    }
  }

  lemma CodeOf(was: seq<byte>, now: seq<byte>, ch: byte, len: int)
    requires 1 <= len <= 255
    requires now == if len == 1 then was + [ch]
                    else if len == 2 then was + [ch] + [ch]
                    else if len == 3 then was + [ch] + [ch] + [ch]
                    else was + [ch] + [ch] + [ch] + [ch] + [len - 4]
    ensures now == was + PairCode(Pair(ch, len))
  {
  }

  lemma SingleCode(crc: bv32, ch: byte)
    ensures PairCode(Pair(ch, 1)) == [ch] && Fold(crc, Repeat(ch, 1)) == Update(crc, ch)
  {
    var one := Repeat(ch, 1);
    assert one == [ch] && one[..0] == [];
  }

  /** When a run ends, what was taken does not change, and the next run may follow it. */
  lemma RunEnds(ps: seq<Pair>, ch: int, len: int, next: byte)
    requires Maximal(ps) && 0 <= ch <= NO_CHAR && (ch < NO_CHAR ==> 1 <= len <= 255 && MayFollow(ps, ch))
    requires (ch != next || len == 255) && (ch == NO_CHAR ==> ps == [])
    ensures var qs := if ch < NO_CHAR then ps + [Pair(ch, len)] else ps;
      Maximal(qs) && Spread(qs) + Pending(next, 1) == Spread(ps) + Pending(ch, len) + [next]
      && MayFollow(qs, next)
  {
    assert Pending(next, 1) == [next];
    if ch < NO_CHAR { RunsMore(ps, Pair(ch, len)); }
  }

  lemma RunGrows(s: seq<byte>, ch: byte, len: nat, len': nat)
    requires len' == len + 1
    ensures s + Pending(ch, len') == s + Pending(ch, len) + [ch]
  {
  }
}
