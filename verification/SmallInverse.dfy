/**
 * The low-memory inverse of the Burrows-Wheeler transform: T is kept in 20 bits
 * a row, reversed in place along the one cycle through `origPtr`, and the bytes
 * are found again by binary search in the cumulative counts. It spells what the
 * fast inverse spells.
 */
module SmallInverse {
  import opened Common
  import opened Counting
  import opened Bwt

  /** Bytes 2m and 2m+1 share ll4[m]: the even one has its low half. */
  function Nibble(ll4: seq<int>, i: nat): int
    requires i / 2 < |ll4|
  {
    if i % 2 == 0 then ll4[i / 2] % 16 else ll4[i / 2] / 16 % 16
  }

  /** A table of 20-bit numbers, split into 16 low bits and 4 high bits. */
  class Table {
    const ll16: array<int>
    const ll4: array<int>
    const size: nat

    ghost predicate Valid()
      reads this, ll16, ll4
    {
      && ll16 != ll4 && size <= ll16.Length && ll4.Length == (size + 1) / 2
      && (forall i :: 0 <= i < size ==> 0 <= ll16[i] < 0x1_0000)
      && (forall i :: 0 <= i < ll4.Length ==> 0 <= ll4[i] < 256)
    }

    ghost function Entry(i: int): int
      requires 0 <= i < size && Valid()
      reads this, ll16, ll4
    {
      ll16[i] + 0x1_0000 * Nibble(ll4[..], i)
    }

    ghost function Entries(): (s: seq<int>)
      requires Valid()
      reads this, ll16, ll4
      ensures |s| == size
    {
      seq(size, i requires 0 <= i < size && Valid() reads this, ll16, ll4 => Entry(i))
    }

    constructor (n: nat)
      ensures Valid() && size == n && fresh(ll16) && fresh(ll4)
    {
      size := n;
      ll16 := new int[n](_ => 0);
      ll4 := new int[(n + 1) / 2](_ => 0);
    }

    /** A table whose low bits are the bytes that the symbols' decoder has left. */
    constructor Over(ll16: array<int>, n: nat)
      requires n <= ll16.Length && forall i :: 0 <= i < n ==> 0 <= ll16[i] < 256
      ensures Valid() && size == n && this.ll16 == ll16 && fresh(ll4)
    {
      size := n;
      this.ll16 := ll16;
      ll4 := new int[(n + 1) / 2](_ => 0);
    }

    method Get(i: nat) returns (v: int)
      requires Valid() && i < size
      ensures v == Entries()[i]
    {
      v := ll16[i] + 0x1_0000 * if i % 2 == 0 then ll4[i / 2] % 16 else ll4[i / 2] / 16 % 16;
    }

    /** SET_LL: masks and ORs as sums of disjoint bits. */
    method Set(i: nat, v: int)
      requires Valid() && i < size && 0 <= v < 0x10_0000
      modifies ll16, ll4
      ensures Valid() && Entries() == old(Entries())[i := v] && ll16[..] == old(ll16[..])[i := v % 0x1_0000]
    {
      var was, low, high := ll4[i / 2], v % 0x1_0000, v / 0x1_0000;
      ll16[i] := low;
      ll4[i / 2] := if i % 2 == 0 then was / 16 * 16 + high else was % 16 + 16 * high;
      forall k | 0 <= k < size ensures Entry(k) == if k == i then v else old(Entry(k)) {
        Halves(was, high);
      }
    }
  }

  lemma Halves(was: int, high: int)
    requires 0 <= was < 256 && 0 <= high < 16
    ensures (was / 16 * 16 + high) % 16 == high && (was / 16 * 16 + high) / 16 % 16 == was / 16 % 16
    ensures (was % 16 + 16 * high) % 16 == was % 16 && (was % 16 + 16 * high) / 16 % 16 == high
    ensures 0 <= was / 16 * 16 + high < 256 && 0 <= was % 16 + 16 * high < 256
  {
  }

  /** After i rows: T in the first i entries, the last column in the low bits of the others. */
  ghost predicate Placing(e: seq<int>, low: seq<int>, l: seq<byte>, i: int) {
    var holds :=
      && |l| <= |e| <= |low| && 0 <= i <= |l|
      && (forall k :: 0 <= k < i ==> e[k] == Ranks(l)[k])
      && (forall k :: i <= k < |l| ==> low[k] == l[k]);
    holds
  }

  lemma PlacingStep(e: seq<int>, low: seq<int>, l: seq<byte>, i: int, i': int, v: int)
    requires Placing(e, low, l, i) && i < |l| && i' == i + 1 && v == Rank(l, i)
    ensures Placing(e[i := v], low[i := v % 0x1_0000], l, i')
  {
  }

  /** Overwrites the last column by T, the stable sort's placement of each row. */
  method ComputeT(t: Table, cftab: array<int>, nblock: nat, ghost l: seq<byte>)
    requires t.Valid() && nblock == |l| <= t.size && |l| <= 0x10_0000 && cftab != t.ll16 && cftab != t.ll4
    requires t.ll16[..nblock] == l
    requires cftab.Length == 257 && Cumulative(cftab[..], l)
    modifies t.ll16, t.ll4, cftab
    ensures t.Valid() && t.Entries()[..nblock] == Ranks(l)
  {
    assert t.ll16[..][..nblock] == l;
    NonePlaced(cftab[..], l);
    var i := 0;
    while i < nblock
      invariant 0 <= i <= nblock && t.Valid()
      invariant Placing(t.Entries(), t.ll16[..], l, i) && Places(cftab[..], l, i)
    {
      var uc := t.ll16[i] % 256;
      assert t.ll16[..][i] == l[i];
      PlacesStep(cftab[..], l, i, i + 1);
      var v := cftab[uc];
      assert v == cftab[..][uc];
      PlacingStep(t.Entries(), t.ll16[..], l, i, i + 1, v);
      t.Set(i, v);
      cftab[uc] := v + 1;
      i := i + 1;
    }
  }

  // ---- Reversing the cycle through origPtr ----

  /** `path` follows T from its first entry, without having come back to it. */
  ghost predicate Path(path: seq<int>, l: seq<byte>) {
    var holds :=
      && 0 < |path| && (forall k :: 0 <= k < |path| ==> 0 <= path[k] < |l|)
      && (forall j, k {:trigger path[j], path[k]} :: 0 <= j && k == j + 1 && k < |path| ==> path[k] == Rank(l, path[j]))
      && (forall k :: 1 <= k < |path| ==> path[k] != path[0]);
    holds
  }

  /** T is one to one, so a path that has not closed has no repetition. */
  lemma {:induction false} PathDistinct(path: seq<int>, l: seq<byte>, j: int, k: int)
    requires Path(path, l) && 0 <= j < k < |path|
    ensures path[j] != path[k]
  {
    if j > 0 {
      var i, m := j - 1, k - 1;
      PathDistinct(path, l, i, m);
      RanksPerm(l);
      assert Ranks(l)[path[i]] == path[j] && Ranks(l)[path[m]] == path[k];
    }
  }

  lemma PathBound(path: seq<int>, l: seq<byte>)
    requires Path(path, l)
    ensures |path| <= |l|
  {
    forall j, k | 0 <= j < k < |path| ensures path[j] != path[k] { PathDistinct(path, l, j, k); }
    DistinctSize(path);
    assert Elems(path) <= Range(|l|);
    SubsetSize(Elems(path), Range(|l|));
  }

  /** Entries on the path but its first lead one step back; the others still hold T. */
  ghost predicate Reversed(e: seq<int>, path: seq<int>, l: seq<byte>) {
    var holds :=
      && |l| <= |e| && Path(path, l)
      && (forall j, k {:trigger path[j], path[k]} :: 0 <= j && k == j + 1 && k < |path| ==> e[path[k]] == path[j])
      && (forall x :: 0 <= x < |l| && x !in path[1..] ==> e[x] == Ranks(l)[x]);
    holds
  }

  lemma ReverseStep(e: seq<int>, path: seq<int>, l: seq<byte>, i: int, j: int)
    requires Reversed(e, path, l) && i == path[|path| - 1] && j == Rank(l, i) && j != path[0]
    ensures 0 <= j < |l| && e[j] == Rank(l, j) < |l| && Reversed(e[j := i], path + [j], l) && |path + [j]| <= |l|
  {
    RankBound(l, i);
    RankBound(l, j);
    var longer := path + [j];
    assert Path(longer, l);
    PathBound(longer, l);
    forall k | 0 <= k < |path| ensures path[k] != j { PathDistinct(longer, l, k, |path|); }
    assert longer[1..] == path[1..] + [j];
    assert e[j] == Ranks(l)[j];
  }

  /** Every row of `on` leads by `e` to its successor under T^(-1), which is again in `on`. */
  ghost predicate Inverts(e: seq<int>, on: set<int>, l: seq<byte>) {
    && |l| <= |e| && (forall x :: x in on ==> 0 <= x < |l|)
    && forall x {:trigger e[x]} :: x in on ==> e[x] == Row(l, x) && e[x] in on
  }

  lemma CycleClosed(e: seq<int>, path: seq<int>, l: seq<byte>, i: int)
    requires Reversed(e, path, l) && i == path[|path| - 1] && path[0] == Rank(l, i)
    ensures Inverts(e[path[0] := i], Elems(path), l)
  {
    var o := path[0];
    var e' := e[o := i];
    forall x | x in Elems(path) ensures e'[x] == Row(l, x) && e'[x] in path {
      var k :| 0 <= k < |path| && path[k] == x;
      if k == 0 {
        RowOfRank(l, i);
      } else {
        var j := k - 1;
        assert x == Rank(l, path[j]) && x != o && e[x] == path[j];
        RowOfRank(l, path[j]);
      }
    }
  }

  /** Pointer reversal on T: it stops, and the cycle through origPtr then holds T^(-1). */
  method ReverseCycle(t: Table, origPtr: nat, nblock: nat, ghost l: seq<byte>) returns (ghost on: set<int>)
    requires t.Valid() && nblock == |l| <= t.size && |l| <= 0x10_0000 && origPtr < nblock
    requires t.Entries()[..nblock] == Ranks(l)
    modifies t.ll16, t.ll4
    ensures t.Valid() && Inverts(t.Entries(), on, l) && origPtr in on
  {
    ghost var path := [origPtr];
    var i := origPtr;
    var j := t.Get(i);
    RankBound(l, i);
    assert j == t.Entries()[..nblock][i] == Ranks(l)[i];
    assert forall x :: 0 <= x < |l| ==> t.Entries()[x] == t.Entries()[..nblock][x];
    while true
      invariant t.Valid() && Reversed(t.Entries(), path, l)
      invariant path[0] == origPtr && i == path[|path| - 1] && j == Rank(l, i) < |l|
      decreases |l| - |path|
    {
      var tmp := t.Get(j);
      if j == origPtr {
        CycleClosed(t.Entries(), path, l, i);
        t.Set(j, i);
        on := Elems(path);
        return;
      }
      ReverseStep(t.Entries(), path, l, i, j);
      t.Set(j, i);
      path := path + [j];
      i := j;
      j := tmp;
    }
  }

  // ---- Reading the bytes ----

  /** The byte whose rows include row indx of the sorted column. */
  method IndexIntoF(indx: int, cftab: array<int>) returns (nb: nat)
    requires cftab.Length == 257 && cftab[0] <= indx < cftab[256]
    ensures nb < 256 && cftab[nb] <= indx < cftab[nb + 1]
  {
    nb := 0;
    var na := 256;
    while na - nb != 1
      invariant 0 <= nb < na <= 256 && cftab[nb] <= indx < cftab[na]
      decreases na - nb
    {
      var mid := (nb + na) / 2;
      if indx >= cftab[mid] { nb := mid; } else { na := mid; }
    }
  }

  lemma ByteOfRow(l: seq<byte>, k: int, c: byte)
    requires 0 <= k < |l| && CountBelow(l, c) <= k < CountBelow(l, c as int + 1)
    ensures l[Row(l, k)] == c
  {
    var d: int := l[Row(l, k)];
    assert l[..|l|] == l;
    CountPrefix(l, Row(l, k), |l|, d);
    CountBelowStep(l, d);
    if d < c { CountBelowMono(l, d + 1, c); }
    if c < d { CountBelowMono(l, c as int + 1, d); }
  }

  lemma SpellingStep(l: seq<byte>, orig: int, n: nat, n': nat, out: seq<byte>)
    requires 0 <= orig < |l| && n' == n + 1 && out == Spelling(l, orig, n)
    ensures Walk(l, orig, n') == Row(l, Walk(l, orig, n))
    ensures out + [l[Walk(l, orig, n')]] == Spelling(l, orig, n')
  {
  }

  /** BZ_GET_SMALL past its guard: the byte of row tPos, and the row after it. */
  method GetSmall(t: Table, cftab: array<int>, tPos: nat, ghost on: set<int>, ghost l: seq<byte>)
    returns (cccc: byte, next: nat)
    requires t.Valid() && Cumulative(cftab[..], l) && tPos in on && Inverts(t.Entries(), on, l)
    ensures tPos < |l| && next in on && next == Row(l, tPos) && cccc == l[next]
  {
    ghost var cf, e := cftab[..], t.Entries();
    CountBelowStep(l, 0);
    CountBelowStep(l, 256);
    assert cf[0] == 0 && cf[256] == |l|;
    var c := IndexIntoF(tPos, cftab);
    ghost var above := c + 1;
    assert cf[c] == CountBelow(l, c) && cf[above] == CountBelow(l, above);
    ByteOfRow(l, tPos, c);
    cccc := c;
    next := t.Get(tPos);
  }

  /**
   * BZ_GET_SMALL, m times, starting with tPos = origPtr. The guard on tPos never
   * fires, and the bytes are those of the fast inverse.
   */
  method EmitSmall(t: Table, cftab: array<int>, origPtr: nat, limit: nat, m: nat, ghost on: set<int>,
                   ghost l: seq<byte>)
    returns (corrupt: bool, out: seq<byte>)
    requires t.Valid() && Cumulative(cftab[..], l) && origPtr in on && Inverts(t.Entries(), on, l) && |l| <= limit
    ensures 0 <= origPtr < |l| && !corrupt && out == Spelling(l, origPtr, m)
  {
    corrupt, out := false, [];
    var tPos, used := origPtr, 0;
    while used < m
      invariant 0 <= used <= m && out == Spelling(l, origPtr, used)
      invariant tPos in on && tPos == Walk(l, origPtr, used)
    {
      if tPos >= limit { return true, out; }
      var cccc, next := GetSmall(t, cftab, tPos, on, l);
      SpellingStep(l, origPtr, used, used + 1, out);
      out := out + [cccc];
      tPos, used := next, used + 1;
    }
  }

  /** BZ_GET_FAST, m times, starting with tPos = tt[origPtr] >> 8. */
  method EmitFast(tt: array<int>, origPtr: nat, limit: nat, m: nat, ghost l: seq<byte>)
    returns (corrupt: bool, out: seq<byte>)
    requires origPtr < |l| <= tt.Length && |l| <= limit
    requires forall k {:trigger tt[k]} :: 0 <= k < |l| ==> tt[k] == l[k] + 256 * Row(l, k)
    ensures !corrupt && out == Spelling(l, origPtr, m)
  {
    corrupt, out := false, [];
    var tPos, used := tt[origPtr] / 256, 0;
    while used < m
      invariant 0 <= used <= m && out == Spelling(l, origPtr, used)
      invariant tPos == Row(l, Walk(l, origPtr, used))
    {
      if tPos >= limit { return true, out; }
      SpellingStep(l, origPtr, used, used + 1, out);
      var word := tt[tPos];
      out := out + [word % 256];
      tPos := word / 256;
      used := used + 1;
    }
  }
}
