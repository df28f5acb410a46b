/** BZ2_compressBlock for a nonempty block: sort, move-to-front, tables and bits. */
module CompressBlock {
  import opened Common
  import opened Bits
  import opened BitIO
  import opened Rotation
  import opened Bwt
  import FallbackSort
  import opened Mtf
  import opened MtfEncoder
  import opened BlockFormat
  import opened Parser
  import opened ReadingSymbols
  import opened SendBlock
  import opened TableChoice
  import opened BlockTrip
  import opened BlockSize

  /** Sorts the rotations of a block and finds the original one. */
  method SortBlock(b: seq<byte>) returns (ptr: array<int>, origPtr: nat)
    requires 0 < |b| <= LARGEST_BLOCK
    ensures fresh(ptr) && IsPerm(ptr[..], |b|) && SortedH(b, |b|, ptr[..]) && origPtr < |b| && ptr[origPtr] == 0
  {
    var n := |b|;
    var block := new byte[n](i requires 0 <= i < n => b[i]);
    ptr := new int[n](_ => 0);
    var eclass := new int[n](_ => 0);
    var bh := new bool[32 * (3 + n / 32)](_ => false);
    assert block[..] == b;
    LargeEnough();
    FallbackSort.Sort(ptr, eclass, bh, block);
    origPtr := FallbackSort.FindOrigPtr(ptr);
  }

  lemma LargeEnough()
    ensures LARGEST_BLOCK < Pow2(31)
  {
    Pow2Add(10, 10);
    Pow2Add(20, 11);
  }

  /** The pointers, as halves of the shared buffer. */
  method AsHalves(ptr: array<int>) returns (arr1: array<int>)
    requires forall i :: 0 <= i < ptr.Length ==> 0 <= ptr[i]
    ensures fresh(arr1) && PointersFrom(arr1[..], ptr[..], 0)
  {
    arr1 := new int[2 * ptr.Length](_ => 0);
    var i := 0;
    while i < ptr.Length
      invariant 0 <= i <= ptr.Length && ptr[..] == old(ptr[..])
      invariant forall k :: 0 <= k < i ==> arr1[2 * k] + 0x1_0000 * arr1[2 * k + 1] == ptr[k]
    {
      arr1[2 * i] := ptr[i] % 0x1_0000;
      arr1[2 * i + 1] := ptr[i] / 0x1_0000;
      i := i + 1;
    }
    ghost var a, p := arr1[..], ptr[..];
    forall k | 0 <= k < |p| ensures Pointer(a, k) == p[k] {
      assert a[2 * k] == arr1[2 * k] && a[2 * k + 1] == arr1[2 * k + 1];
    }
  }

  method CountSymbols(mtfv: seq<int>, alphaSize: nat) returns (freq: seq<nat>)
    requires forall i :: 0 <= i < |mtfv| ==> 0 <= mtfv[i] < alphaSize
    ensures freq == Counts(mtfv, alphaSize)
  {
    freq := seq(alphaSize, _ => 0);
    var i := 0;
    while i < |mtfv|
      invariant 0 <= i <= |mtfv| && |freq| == alphaSize
      invariant forall v :: 0 <= v < alphaSize ==> freq[v] == multiset(mtfv[..i])[v]
    {
      assert mtfv[..i + 1] == mtfv[..i] + [mtfv[i]];
      freq := freq[mtfv[i] := freq[mtfv[i]] + 1];
      i := i + 1;
    }
    assert mtfv[..i] == mtfv;
  }

  /** The symbols of the last column of b. */
  method BlockToSymbols(b: seq<byte>, inUse: seq<bool>, ptr: array<int>, ghost p: seq<int>)
    returns (nInUse: nat, mtfv: seq<int>, ghost seqNo: seq<byte>)
    requires 0 < |b| && p == ptr[..] && IsPerm(p, |b|) && |inUse| == 256 && forall i :: 0 <= i < |b| ==> inUse[b[i]]
    ensures nInUse == |Used(inUse, 256)| && 1 <= nInUse && Numbers(seqNo, Used(inUse, 256), inUse, 256)
    ensures Codable(Iota(nInUse), Mapped(seqNo, LastColumn(b, p))) && mtfv == Symbols(seqNo, nInUse, LastColumn(b, p))
  {
    var block := new byte[|b|](i requires 0 <= i < |b| => b[i]);
    var used := new bool[256](i requires 0 <= i < 256 => inUse[i]);
    var unseqToSeq := new byte[256](_ => 0);
    var arr1 := AsHalves(ptr);
    assert block[..] == b && block[..|b|] == b && used[..] == inUse;
    var nMTF;
    nInUse, nMTF := GenerateMTFValues(arr1, block, used, unseqToSeq, |b|, p);
    mtfv, seqNo := arr1[..nMTF], unseqToSeq[..];
    assert used[..] == inUse && block[..|b|] == b;
  }

  /**
   * Writes a nonempty block. Its bits deliver it: the decompressor's machine reads
   * them as this CRC and a last column that unwinds to exactly these bytes.
   */
  method Compress(b: seq<byte>, inUse: seq<bool>, blockCRC: nat, w: Writer, ghost level: nat)
    returns (ghost s: bits, ghost k: Codes, ghost mtfv: seq<int>)
    requires w.Valid() && 1 <= level <= 9 && 0 < |b| <= 100_000 * level && blockCRC < WORD
    requires |inUse| == 256 && forall i :: 0 <= i < |b| ==> inUse[b[i]]
    modifies w
    ensures w.Valid() && w.Written() == old(w.Written()) + s && Delivers(s, level, blockCRC, b) && |s| <= MostBits(|b|)
    ensures Sendable(k, mtfv) && s == BlockBits(k, mtfv) && k.c.inUse == inUse
    ensures Chosen(mtfv, |Used(inUse, 256)| + 2, k.c.nGroups, k.c.sels, k.lens)
  {
    hide Chosen, BlockBits, MostBits, Delivers, SortedH, Counts, Sendable, Symbols, Codable, Numbers;
    var ptr, origPtr := SortBlock(b);
    ghost var p := ptr[..];
    var nInUse, syms, seqNo := BlockToSymbols(b, inUse, ptr, p);
    mtfv := syms;
    SymbolsOfBlock(seqNo, nInUse, LastColumn(b, p));
    var mtfFreq := CountSymbols(syms, nInUse + 2);
    k := PutBlock(w, blockCRC, origPtr, inUse, syms, mtfFreq, nInUse, level);
    s := BlockBits(k, mtfv);
    BlockBitsBound(k, mtfv, |b|);
    BlockRoundTrip(k, mtfv, b, p, origPtr, seqNo);
  }
}
