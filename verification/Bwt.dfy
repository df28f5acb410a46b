/**
 * The Burrows-Wheeler transform as the block sorter leaves it, and its inverse
 * as the decompressor computes it: a counting sort of the last column gives the
 * vector T^(-1), and following that vector from `origPtr` spells the block.
 */
module Bwt {
  import opened Common
  import opened Rotation
  import opened Counting

  /** The byte before each sorted rotation. */
  ghost function LastColumn(b: seq<byte>, p: seq<int>): (l: seq<byte>)
    requires IsPerm(p, |b|)
    ensures |l| == |b|
  {
    seq(|b|, i requires 0 <= i < |b| => b[Prev(p[i], |b|)])
  }

  /** Following T^(-1) for j steps from x. */
  ghost function Walk(l: seq<byte>, x: int, j: nat): (r: int)
    requires 0 <= x < |l|
    ensures 0 <= r < |l|
  {
    if j == 0 then x else Row(l, Walk(l, x, j - 1))
  }

  /** The j-th byte spelled by the walk. */
  ghost function Spelled(l: seq<byte>, orig: int, j: nat): byte
    requires 0 <= orig < |l|
  {
    l[Walk(l, orig, j + 1)]
  }

  ghost function Spelling(l: seq<byte>, orig: int, m: nat): (s: seq<byte>)
    requires 0 <= orig < |l|
    ensures |s| == m
  {
    seq(m, j requires 0 <= j < m => Spelled(l, orig, j))
  }

  /** The rotation that ends where row k of the sorted last column ends. */
  ghost function Before(b: seq<byte>, p: seq<int>, k: int): (r: int)
    requires IsPerm(p, |b|) && 0 <= k < |b|
    ensures 0 <= r < |b|
  {
    Prev(p[Row(LastColumn(b, p), k)], |b|)
  }

  /** Rows of the sorted column come in order of byte, then of place. */
  lemma RowsInOrder(l: seq<byte>, x: int, y: int, i: int, j: int)
    requires 0 <= x < y < |l| && i == Row(l, x) && j == Row(l, y)
    ensures l[i] < l[j] || (l[i] == l[j] && i < j)
  {
    if l[j] < l[i] || (l[j] == l[i] && j < i) { RankOrder(l, j, i); assert false; }
  }

  lemma BeforeSorted(b: seq<byte>, p: seq<int>, x: int, y: int)
    requires IsPerm(p, |b|) && SortedH(b, |b|, p)
    requires 0 <= x < y < |b|
    ensures LeH(b, |b|, Before(b, p, x), Before(b, p, y))
    ensures Before(b, p, x) != Before(b, p, y)
  {
    var l := LastColumn(b, p);
    var i, j := Row(l, x), Row(l, y);
    RowsInOrder(l, x, y, i, j);
    PreviousSorted(b, p, i, j);
  }

  lemma PreviousSorted(b: seq<byte>, p: seq<int>, i: int, j: int)
    requires IsPerm(p, |b|) && SortedH(b, |b|, p) && 0 <= i < |b| && 0 <= j < |b| && i != j
    requires var l := LastColumn(b, p); l[i] < l[j] || (l[i] == l[j] && i < j)
    ensures LeH(b, |b|, Prev(p[i], |b|), Prev(p[j], |b|)) && Prev(p[i], |b|) != Prev(p[j], |b|)
  {
    var l := LastColumn(b, p);
    assert b[Prev(p[i], |b|)] == l[i] && b[Prev(p[j], |b|)] == l[j];
    assert p[i] != p[j];
    if l[i] == l[j] {
      assert LeH(b, |b|, p[i], p[j]);
      LeShorter(b, |b| - 1, |b|, p[i], p[j]);
    }
  }

  /** Row(k) is, up to equal rotations, the rotation one byte further than row k. */
  lemma StepAdvances(b: seq<byte>, p: seq<int>, k: int)
    requires IsPerm(p, |b|) && SortedH(b, |b|, p) && 0 <= k < |b|
    ensures EqH(b, |b|, p[k], Before(b, p, k))
    ensures EqH(b, |b|, Next(p[k], |b|), p[Row(LastColumn(b, p), k)])
  {
    var v := seq(|b|, x requires 0 <= x < |b| => Before(b, p, x));
    forall x, y | 0 <= x < y < |b| ensures LeH(b, |b|, v[x], v[y]) && v[x] != v[y] {
      BeforeSorted(b, p, x, y);
    }
    SortedRowsAgree(b, |b|, p, v, k);
    EqNext(b, p[k], v[k]);
  }

  lemma {:induction false} WalkFollows(b: seq<byte>, p: seq<int>, orig: int, j: nat)
    requires IsPerm(p, |b|) && SortedH(b, |b|, p)
    requires 0 <= orig < |b| && p[orig] == 0 && j < |b|
    ensures EqH(b, |b|, j, p[Walk(LastColumn(b, p), orig, j)])
  {
    if j == 0 {
      EqRefl(b, |b|, 0);
    } else {
      WalkFollows(b, p, orig, j - 1);
      var k := Walk(LastColumn(b, p), orig, j - 1);
      EqNext(b, j - 1, p[k]);
      StepAdvances(b, p, k);
      EqTrans(b, |b|, j, Next(p[k], |b|), p[Row(LastColumn(b, p), k)]);
    }
  }

  /**
   * Undoing the transform. Whatever order the sorter gave to equal rotations,
   * the walk from the row of rotation 0 spells the block.
   */
  lemma InverseSpellsBlock(b: seq<byte>, p: seq<int>, orig: int)
    requires IsPerm(p, |b|) && SortedH(b, |b|, p)
    requires 0 <= orig < |b| && p[orig] == 0
    ensures Spelling(LastColumn(b, p), orig, |b|) == b
  {
    var l := LastColumn(b, p);
    forall j | 0 <= j < |b| ensures Spelled(l, orig, j) == b[j] {
      WalkFollows(b, p, orig, j);
      var k := Walk(l, orig, j);
      StepAdvances(b, p, k);
      assert b[j] == b[p[k]] == b[Before(b, p, k)];
    }
  }

  // ---- The decompressor's loops (decompress.c) ----

  /**
   * Cumulative byte counts with the decoder's sanity checks: they accept exactly
   * the count tables whose entries are natural and add up to at most the block.
   */
  method BuildCftab(unzftab: seq<int>, nblock: nat) returns (ok: bool, cftab: seq<int>)
    requires |unzftab| == 256
    ensures ok <==> (forall c :: 0 <= c < 256 ==> unzftab[c] >= 0) && Sum(unzftab) <= nblock
    ensures ok ==> |cftab| == 257 && forall c :: 0 <= c <= 256 ==> cftab[c] == Sum(unzftab[..c])
  {
    cftab := [];
    var i := 0;
    assert unzftab[..256] == unzftab;
    while i <= 255
      invariant 0 <= i <= 256
      invariant forall c :: 0 <= c < i ==> 0 <= unzftab[c]
    {
      if unzftab[i] < 0 || unzftab[i] > nblock {
        if unzftab[i] > nblock && forall c :: 0 <= c < 256 ==> unzftab[c] >= 0 {
          SumPrefixMono(unzftab, 0, i);
          SumPrefixMono(unzftab, i + 1, 256);
          assert unzftab[..i + 1][..i] == unzftab[..i];
        }
        return false, cftab;
      }
      i := i + 1;
    }
    cftab := [0];
    i := 1;
    while i <= 256
      invariant 1 <= i <= 257 && |cftab| == i && cftab[0] == 0
      invariant forall c :: 1 <= c < i ==> cftab[c] == unzftab[c - 1]
    {
      cftab := cftab + [unzftab[i - 1]];
      i := i + 1;
    }
    i := 1;
    while i <= 256
      invariant 1 <= i <= 257 && |cftab| == 257
      invariant forall c :: 0 <= c < i ==> cftab[c] == Sum(unzftab[..c])
      invariant forall c :: i <= c <= 256 ==> cftab[c] == unzftab[c - 1]
    {
      assert unzftab[..i][..i - 1] == unzftab[..i - 1];
      cftab := cftab[i := cftab[i] + cftab[i - 1]];
      i := i + 1;
    }
    i := 0;
    while i <= 256
      invariant 0 <= i <= 257
      invariant forall c :: 0 <= c < i ==> cftab[c] <= nblock
    {
      SumPrefixMono(unzftab, 0, i);
      SumPrefixMono(unzftab, i, 256);
      if cftab[i] < 0 || cftab[i] > nblock { return false, cftab; }
      i := i + 1;
    }
    i := 1;
    while i <= 256
      invariant 1 <= i <= 257
    {
      SumPrefixMono(unzftab, i - 1, i);
      if cftab[i - 1] > cftab[i] { return false, cftab; }
      i := i + 1;
    }
    ok := true;
  }

  lemma {:induction false} SumPrefixMono(s: seq<int>, i: int, j: int)
    requires 0 <= i <= j <= |s| && forall k :: 0 <= k < j ==> 0 <= s[k]
    ensures Sum(s[..i]) <= Sum(s[..j])
    decreases j
  {
    if i < j {
      SumPrefixMono(s, i, j - 1);
      assert s[..j][..j - 1] == s[..j - 1];
    }
  }

  /** One word of `tt` after the first i rows have been placed. */
  ghost function Packed(l: seq<byte>, k: int, i: int): int
    requires 0 <= k < |l|
  {
    l[k] + 256 * if Row(l, k) < i then Row(l, k) else 0
  }

  lemma PackedStep(l: seq<byte>, k: int, i: int)
    requires 0 <= k < |l| && 0 <= i < |l|
    ensures Packed(l, k, i) % 256 == l[k]
    ensures Rank(l, i) < |l|
    ensures Packed(l, k, i + 1) == Packed(l, k, i) + if k == Rank(l, i) then i * 256 else 0
    ensures k == Rank(l, i) ==> Packed(l, k, i) < 256
  {
    RowOfRank(l, i);
    if Row(l, k) == i { assert Rank(l, i) == k; }
  }

  ghost predicate PackedRows(tt: seq<int>, l: seq<byte>, i: int) {
    var holds := |l| <= |tt| && forall k {:trigger tt[k]} :: 0 <= k < |l| ==> tt[k] == Packed(l, k, i);
    holds
  }

  lemma NonePacked(tt: seq<int>, l: seq<byte>)
    requires |l| <= |tt| && tt[..|l|] == l
    ensures PackedRows(tt, l, 0)
  {
    forall k {:trigger tt[k]} | 0 <= k < |l| ensures tt[k] == Packed(l, k, 0) { assert tt[..|l|][k] == l[k]; }
  }

  lemma AllPacked(tt: seq<int>, l: seq<byte>)
    requires PackedRows(tt, l, |l|)
    ensures forall k {:trigger tt[k]} :: 0 <= k < |l| ==> tt[k] == l[k] + 256 * Row(l, k)
  {
  }

  lemma PackRow(tt: seq<int>, l: seq<byte>, i: int, i': int, k: int)
    requires PackedRows(tt, l, i) && 0 <= i < |l| && i' == i + 1 && k == Rank(l, i)
    ensures tt[i] % 256 == l[i] && k < |l| && tt[k] < 256
    ensures PackedRows(tt[k := tt[k] + i * 256], l, i')
  {
    PackedStep(l, i, i);
    PackedStep(l, k, i);
    var tt' := tt[k := tt[k] + i * 256];
    forall x {:trigger tt'[x]} | 0 <= x < |l| ensures tt'[x] == Packed(l, x, i') { PackedStep(l, x, i); }
  }

  /**
   * Fills the upper 24 bits of `tt` with T^(-1) while the low 8 bits keep the
   * last column. The OR of the source meets zero bits, so it is an addition.
   */
  method ComputeTt(tt: array<int>, cftab: array<int>, nblock: nat, ghost l: seq<byte>)
    requires nblock == |l| <= tt.Length && tt != cftab
    requires tt[..nblock] == l
    requires cftab.Length == 257 && Cumulative(cftab[..], l)
    modifies tt, cftab
    ensures forall k {:trigger tt[k]} :: 0 <= k < nblock ==> tt[k] == l[k] + 256 * Row(l, k)
  {
    NonePacked(tt[..], l);
    NonePlaced(cftab[..], l);
    var i := 0;
    while i < nblock
      invariant 0 <= i <= nblock && PackedRows(tt[..], l, i) && Places(cftab[..], l, i)
    {
      var next := i + 1;
      PlaceRow(tt, cftab, i, next, l);
      i := next;
    }
    ghost var t := tt[..];
    AllPacked(t, l);
    assert forall k {:trigger tt[k]} :: 0 <= k < nblock ==> tt[k] == t[k];
  }

  /** Row i of T^(-1): the next row of its byte gets i in its upper bits. */
  method PlaceRow(tt: array<int>, cftab: array<int>, i: nat, ghost next: nat, ghost l: seq<byte>)
    requires i < |l| && next == i + 1 && tt != cftab && PackedRows(tt[..], l, i) && Places(cftab[..], l, i)
    modifies tt, cftab
    ensures PackedRows(tt[..], l, next) && Places(cftab[..], l, next)
  {
    ghost var t, cf := tt[..], cftab[..];
    PlacesStep(cf, l, i, next);
    PackRow(t, l, i, next, cf[l[i]]);
    var uc := tt[i] % 256;
    assert uc == l[i];
    var k := cftab[uc];
    tt[k] := tt[k] + i * 256;
    cftab[uc] := k + 1;
    assert tt[..] == t[k := t[k] + i * 256] && cftab[..] == cf[uc := k + 1];
  }
}
