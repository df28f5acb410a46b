/**
 * The decompressor's handling of one symbol: runs are measured and written out,
 * other symbols are looked up in the sliding list, and the bytes put out are
 * counted. Each call takes the step that `Mtf.OnSymbol` describes.
 */
module MtfDecoder {
  import opened Common
  import opened Counting
  import opened MtfCache
  import opened Mtf

  datatype Status = Reading | Finished | Corrupt

  ghost predicate Bytes(tt: seq<int>, n: nat) {
    n <= |tt| && forall i :: 0 <= i < n ==> 0 <= tt[i] < 256
  }

  ghost function Prefix(tt: seq<int>, n: nat): (s: seq<byte>)
    requires Bytes(tt, n)
    ensures |s| == n && s == tt[..n]
  {
    seq(n, i requires 0 <= i < n => tt[i])
  }

  ghost predicate Tallied(unzftab: seq<int>, out: seq<byte>) {
    |unzftab| == 256 && forall c :: 0 <= c < 256 ==> unzftab[c] == Count(out, c)
  }

  class BlockReader {
    const cache: Cache
    const seqToUnseq: array<byte>
    const tt: array<int>
    const unzftab: array<int>
    var eob: int
    var nblockMAX: nat
    var nblock: nat
    var inRun: bool
    var es: int
    var N: int

    /** What never changes: the sizes of the arrays, and that they are different ones. */
    ghost predicate Shape()
      reads this, cache
    {
      && cache.mtfa.Length == MTFA_SIZE && cache.mtfbase.Length == LINES && seqToUnseq.Length == 256 == unzftab.Length
      && tt != unzftab && cache.mtfbase != tt && cache.mtfbase != unzftab && cache.mtfa != seqToUnseq
    }

    /** All that its methods change. */
    ghost function Parts(): set<object> { {this, cache, cache.mtfa, cache.mtfbase, seqToUnseq, tt, unzftab} }

    ghost predicate Valid()
      reads this, cache, cache.mtfa, cache.mtfbase, seqToUnseq, tt, unzftab
    {
      && Shape() && cache.Valid() && 2 <= eob <= 257
      && nblock <= nblockMAX <= tt.Length && Bytes(tt[..], nblock)
      && Tallied(unzftab[..], Prefix(tt[..], nblock)) && (inRun ==> 0 <= es && 2 <= N)
    }

    ghost function Out(): seq<byte>
      requires Valid()
      reads this, cache, cache.mtfa, cache.mtfbase, seqToUnseq, tt, unzftab
    {
      Prefix(tt[..], nblock)
    }

    ghost function State(): (d: Decoder)
      requires Valid()
      reads this, cache, cache.mtfa, cache.mtfbase, seqToUnseq, tt, unzftab
      ensures Sound(Letters(), d)
    {
      Decoder(cache.List(), Out(), if inRun then Run(es, N) else NoRun)
    }

    ghost function Letters(): Alphabet
      reads this, seqToUnseq
    {
      Alphabet(seqToUnseq[..], eob, nblockMAX)
    }

    constructor (tt: array<int>)
      ensures Shape() && this.tt == tt && fresh(cache) && fresh(cache.mtfa) && fresh(cache.mtfbase)
      ensures fresh(seqToUnseq) && fresh(unzftab)
    {
      this.tt := tt;
      cache := new Cache();
      seqToUnseq := new byte[256](_ => 0);
      unzftab := new int[256](_ => 0);
      eob, nblockMAX, nblock, inRun, es, N := 2, 0, 0, false, 0, 0;
    }

    /** The start of a block's symbols. */
    method Begin(eob: int, nblockMAX: nat)
      requires Shape() && 2 <= eob <= 257 && nblockMAX <= tt.Length
      modifies this, cache.mtfa, cache.mtfbase, unzftab
      ensures Valid() && State() == Start() && Letters() == Alphabet(old(seqToUnseq[..]), eob, nblockMAX)
    {
      this.eob, this.nblockMAX := eob, nblockMAX;
      nblock, inRun, es, N := 0, false, 0, 0;
      ghost var un := seqToUnseq[..];
      var i := 0;
      while i <= 255
        modifies unzftab
        invariant 0 <= i <= 256 && seqToUnseq[..] == un && forall k :: 0 <= k < i ==> unzftab[k] == 0
      {
        unzftab[i] := 0;
        i := i + 1;
      }
      cache.Init();
      assert cache.List() == Iota(256) && seqToUnseq[..] == un;
      assert Prefix(tt[..], 0) == [];
    }

    /** Writes `count` times the byte uc, if the block has room for them. */
    method WriteBytes(uc: byte, count: nat) returns (ok: bool)
      requires nblock <= nblockMAX <= tt.Length && Bytes(tt[..], nblock)
      modifies this`nblock, tt
      ensures ok <==> count == 0 || old(nblock) + count <= nblockMAX
      ensures ok ==>
        && nblock <= nblockMAX && Bytes(tt[..], nblock)
        && Prefix(tt[..], nblock) == Prefix(old(tt[..]), old(nblock)) + Repeat(uc, count)
    {
      ghost var out, n0 := Prefix(tt[..], nblock), nblock;
      var n := count;
      assert Repeat(uc, 0) == [];
      while n > 0
        invariant 0 <= n <= count && nblock == n0 + count - n <= nblockMAX && Bytes(tt[..], nblock)
        invariant Prefix(tt[..], nblock) == out + Repeat(uc, count - n)
      {
        if nblock >= nblockMAX { return false; }
        ghost var t, k := tt[..], nblock;
        tt[nblock] := uc;
        nblock := nblock + 1;
        PrefixSnoc(t, k, uc, nblock);
        assert tt[..] == t[k := uc];
        OneMoreByte(out, uc, count - n, count - n + 1);
        n := n - 1;
      }
      ok := true;
    }

    /** The end of a run. */
    method FinishRun() returns (ok: bool)
      requires Valid() && inRun
      modifies this, tt, unzftab
      ensures var r := EndRun(old(Letters()), old(State()));
        ok == r.More? && (ok ==> Valid() && Letters() == old(Letters()) && State() == r.d)
    {
      ghost var list, out, un, u := cache.List(), Out(), seqToUnseq[..], unzftab[..];
      es := es + 1;
      HeadCell(cache.mtfa[..], cache.mtfbase[..]);
      var uc := seqToUnseq[cache.mtfa[cache.mtfbase[0]]];
      assert uc == un[list[0]];
      unzftab[uc] := unzftab[uc] + es;
      ok := WriteBytes(uc, es);
      inRun := false;
      assert cache.List() == list && seqToUnseq[..] == un && unzftab[..] == u[uc := u[uc] + es];
      if ok { TallyRepeat(u, out, uc, es); }
    }

    /** One RUNA or RUNB. */
    method LengthenRun(sym: int) returns (ok: bool)
      requires Valid() && (sym == RUNA || sym == RUNB)
      modifies this
      ensures var r := OnSymbol(old(Letters()), old(State()), sym);
        ok == r.More? && (ok ==> Valid() && Letters() == old(Letters()) && State() == r.d)
    {
      if !inRun {
        es := -1;
        N := 1;
        inRun := true;
      }
      if N >= RUN_GUARD { return false; }
      if sym == RUNA { es := es + (0 + 1) * N; } else { es := es + (1 + 1) * N; }
      N := N * 2;
      ok := true;
    }

    /** A list entry, moved to the front and put out. */
    method PutEntry(sym: int) returns (ok: bool)
      requires Valid() && 2 <= sym < eob && !inRun
      modifies this, cache.mtfa, cache.mtfbase, tt, unzftab
      ensures var r := OnLiteral(old(Letters()), old(State()), sym);
        ok == r.More? && (ok ==> Valid() && Letters() == old(Letters()) && State() == r.d)
    {
      if nblock >= nblockMAX { return false; }
      ghost var un, u, t := seqToUnseq[..], unzftab[..], tt[..];
      var uc := cache.Take(sym - 1);
      assert seqToUnseq[..] == un && unzftab[..] == u && tt[..] == t;
      PutByte(seqToUnseq[uc]);
      ok := true;
    }

    /** One byte of the column. */
    method PutByte(b: byte)
      requires Valid() && nblock < nblockMAX
      modifies this`nblock, tt, unzftab
      ensures Valid() && Out() == old(Out()) + [b]
      ensures cache.List() == old(cache.List()) && seqToUnseq[..] == old(seqToUnseq[..])
    {
      ghost var list, out, un, u, t, k := cache.List(), Out(), seqToUnseq[..], unzftab[..], tt[..], nblock;
      unzftab[b] := unzftab[b] + 1;
      tt[nblock] := b;
      nblock := nblock + 1;
      PrefixSnoc(t, k, b, nblock);
      TallySnoc(u, out, b);
      assert tt[..] == t[k := b] && unzftab[..] == u[b := u[b] + 1] && cache.List() == list && seqToUnseq[..] == un;
    }

    /** One symbol. */
    method OnSym(sym: int) returns (status: Status)
      requires Valid() && 0 <= sym <= eob
      modifies this, cache.mtfa, cache.mtfbase, tt, unzftab
      ensures var r := OnSymbol(old(Letters()), old(State()), sym);
        && (status.Corrupt? <==> r.DataError?)
        && (status.Reading? <==> r.More?)
        && (r.More? ==> Valid() && Letters() == old(Letters()) && State() == r.d)
        && (r.Done? ==> Valid() && Out() == r.out)
    {
      var ok: bool;
      if sym == RUNA || sym == RUNB {
        ok := LengthenRun(sym);
        return if ok then Reading else Corrupt;
      }
      if inRun {
        ok := FinishRun();
        if !ok { return Corrupt; }
      }
      if sym == eob { return Finished; }
      ok := PutEntry(sym);
      return if ok then Reading else Corrupt;
    }
  }

  /** The first n entries of the list number the n bytes in use. */
  ghost predicate Closed(list: seq<byte>, n: int) {
    1 <= n <= |list| && forall i :: 0 <= i < n ==> list[i] < n
  }

  lemma FrontClosed(list: seq<byte>, n: int, j: int)
    requires Closed(list, n) && 0 <= j < n
    ensures Closed(ToFront(list, j), n)
  {
  }

  /** What the map holds beyond the bytes in use, from an earlier block, is never looked at. */
  lemma SameOutcome(a: Alphabet, a': Alphabet, d: Decoder, sym: int, n: int)
    requires Sound(a, d) && Sound(a', d) && a.eob == a'.eob == n + 1 && a.nblockMAX == a'.nblockMAX
    requires a.unmap[..n] == a'.unmap[..n] && Closed(d.list, n) && 0 <= sym <= a.eob
    ensures OnSymbol(a, d, sym) == OnSymbol(a', d, sym)
    ensures OnSymbol(a, d, sym).More? ==> Closed(OnSymbol(a, d, sym).d.list, n)
  {
    forall k | 0 <= k < n ensures a.unmap[k] == a'.unmap[k] { assert a.unmap[..n][k] == a'.unmap[..n][k]; }
    if 2 <= sym < a.eob { FrontClosed(d.list, n, sym - 1); }
  }

  lemma HeadCell(a: seq<byte>, bs: seq<int>)
    requires |a| == MTFA_SIZE && Apart(bs, -1)
    ensures ListOf(a, bs)[0] == a[bs[0]]
  {
  }

  lemma PrefixSnoc(t: seq<int>, k: nat, uc: byte, k': nat)
    requires k < |t| && Bytes(t, k) && k' == k + 1
    ensures Bytes(t[k := uc], k') && Prefix(t[k := uc], k') == Prefix(t, k) + [uc]
  {
  }

  lemma OneMoreByte(out: seq<byte>, uc: byte, n: nat, n': nat)
    requires n' == n + 1
    ensures out + Repeat(uc, n) + [uc] == out + Repeat(uc, n')
  {
  }

  lemma TallySnoc(u: seq<int>, out: seq<byte>, uc: byte)
    requires Tallied(u, out)
    ensures Tallied(u[uc := u[uc] + 1], out + [uc])
  {
    assert (out + [uc])[..|out|] == out;
  }

  lemma {:induction false} TallyRepeat(u: seq<int>, out: seq<byte>, uc: byte, n: nat)
    requires Tallied(u, out)
    ensures Tallied(u[uc := u[uc] + n], out + Repeat(uc, n))
  {
    if n == 0 {
      assert out + Repeat(uc, n) == out;
    } else {
      TallyRepeat(u, out, uc, n - 1);
      TallySnoc(u[uc := u[uc] + (n - 1)], out + Repeat(uc, n - 1), uc);
      OneMoreByte(out, uc, n - 1, n);
    }
  }
}
