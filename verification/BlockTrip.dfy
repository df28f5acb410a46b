/** A block, from its bytes to bits and back. */
module BlockTrip {
  import opened Common
  import opened Bits
  import opened Rotation
  import opened Bwt
  import opened MtfCache
  import opened Mtf
  import opened Parser
  import opened BlockFormat
  import opened Reading
  import opened ReadingSymbols
  import opened SendBlock

  /**
   * The bits s are read as one block of the given CRC, with a last column and
   * origPtr from which the inverse transform spells exactly b.
   */
  ghost predicate Delivers(s: bits, level: nat, crc: nat, b: seq<byte>) {
    exists orig, col :: Unwinds(orig, col, b) && Reads(BlockHdr(level, 1), s, Output(Hdr(level, crc, false, orig), col))
  }

  ghost predicate Unwinds(orig: nat, col: seq<byte>, b: seq<byte>) {
    orig < |col| == |b| && Spelling(col, orig, |b|) == b
  }

  /** What the compressor knows of a block when it writes it. */
  ghost predicate Transformed(b: seq<byte>, p: seq<int>, orig: nat, inUse: seq<bool>, seqNo: seq<byte>) {
    && IsPerm(p, |b|) && SortedH(b, |b|, p) && orig < |b| && p[orig] == 0
    && |inUse| == 256 && Numbers(seqNo, Used(inUse, 256), inUse, 256) && forall i :: 0 <= i < |b| ==> inUse[b[i]]
  }

  lemma {:induction false} EncodeBelow(yy: seq<byte>, z: nat, col: seq<byte>)
    requires Codable(yy, col)
    ensures forall i :: 0 <= i < |Encode(yy, z, col)| ==> 0 <= Encode(yy, z, col)[i] <= |yy|
    ensures |Encode(yy, z, col)| <= z + |col|
    decreases |col|
  {
    RunsAreRuns(z);
    if col != [] {
      if yy[0] == col[0] {
        EncodeBelow(yy, z + 1, col[1..]);
      } else {
        var j := Place(yy, col[0]);
        StillCodable(yy, col, j);
        EncodeBelow(ToFront(yy, j), 0, col[1..]);
      }
    }
  }

  /** The symbols are those of a block: only the last is the end-of-block symbol. */
  lemma SymbolsOfBlock(seqNo: seq<byte>, n: nat, col: seq<byte>)
    requires 1 <= n <= 256 == |seqNo| && Codable(Iota(n), Mapped(seqNo, col)) && |col| <= LARGEST_BLOCK
    ensures BlockSymbols(Symbols(seqNo, n, col), n + 1) && |Symbols(seqNo, n, col)| <= |col| + 1
  {
    EncodeBelow(Iota(n), 0, Mapped(seqNo, col));
  }

  lemma ColumnUsed(b: seq<byte>, p: seq<int>, inUse: seq<bool>)
    requires IsPerm(p, |b|) && |inUse| == 256 && forall i :: 0 <= i < |b| ==> inUse[b[i]]
    ensures forall i :: 0 <= i < |b| ==> inUse[LastColumn(b, p)[i]]
  {
  }

  /** Decoding the symbols of the last column gives that column. */
  lemma ColumnGiven(k: Codes, b: seq<byte>, p: seq<int>, orig: nat, seqNo: seq<byte>, col: seq<byte>)
    requires Transformed(b, p, orig, k.c.inUse, seqNo) && GoodCoding(k.c) && 0 < |b| <= 100_000 * k.c.h.level
    requires col == LastColumn(b, p)
    ensures var n := |Used(k.c.inUse, 256)|;
      1 <= n && Codable(Iota(n), Mapped(seqNo, col)) && GivesColumn(Letters(k.c), Start(), Symbols(seqNo, n, col), col)
  {
    ColumnUsed(b, p, k.c.inUse);
    var used, a := Used(k.c.inUse, 256), Letters(k.c);
    assert a.unmap[..|used|] == used;
    MtfRoundTrip(k.c.inUse, seqNo, a.unmap, col, a.nblockMAX);
  }

  /** The bits of a block deliver the block. */
  lemma BlockRoundTrip(k: Codes, syms: seq<int>, b: seq<byte>, p: seq<int>, orig: nat, seqNo: seq<byte>)
    requires Transformed(b, p, orig, k.c.inUse, seqNo) && Sendable(k, syms) && |k.c.sels| < 0x8000
    requires k.c.h == Hdr(k.c.h.level, k.c.h.crc, false, orig) && k.c.h.crc < WORD && 0 < |b| <= 100_000 * k.c.h.level
    requires var n := |Used(k.c.inUse, 256)|; var col := LastColumn(b, p);
      1 <= n && Codable(Iota(n), Mapped(seqNo, col)) && syms == Symbols(seqNo, n, col)
    ensures Delivers(BlockBits(k, syms), k.c.h.level, k.c.h.crc, b)
  {
    var col := LastColumn(b, p);
    ColumnGiven(k, b, p, orig, seqNo, col);
    ReadsBlock(k, syms, col);
    InverseSpellsBlock(b, p, orig);
    assert Unwinds(orig, col, b);
  }
}
