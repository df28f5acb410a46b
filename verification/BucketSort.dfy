/**
 * The three-way quicksort that orders one bucket of the fallback sorter by the
 * equivalence class of the rotation that follows each entry.
 */
module BucketSort {
  import opened Common

  const SMALL_THRESH := 10
  const STACK_SIZE := 100

  /** g is f with the entries in lo..hi permuted. */
  ghost predicate Shuffled(f: seq<int>, g: seq<int>, lo: int, hi: int) {
    var holds :=
      && |f| == |g| && multiset(f) == multiset(g)
      && (forall k {:trigger g[k]} :: 0 <= k < |f| && (k < lo || hi < k) ==> g[k] == f[k]);
    holds
  }

  lemma SwappedMultiset(s: seq<int>, i: int, j: int)
    requires 0 <= i < |s| && 0 <= j < |s|
    ensures multiset(Swapped(s, i, j)) == multiset(s)
  {
  }

  method Swap(fmap: array<int>, i: int, j: int)
    requires 0 <= i < fmap.Length && 0 <= j < fmap.Length
    modifies fmap
    ensures multiset(fmap[..]) == multiset(old(fmap[..]))
    ensures fmap[i] == old(fmap[j]) && fmap[j] == old(fmap[i])
    ensures forall k :: 0 <= k < fmap.Length && k != i && k != j ==> fmap[k] == old(fmap[k])
  {
    ghost var s := Swapped(fmap[..], i, j);
    SwappedMultiset(fmap[..], i, j);
    fmap[i], fmap[j] := fmap[j], fmap[i];
    assert fmap[..] == s;
  }

  lemma MultisetWithin(a: seq<int>, b: seq<int>, e: seq<int>)
    requires multiset(a) == multiset(b) && Within(a, e)
    ensures Within(b, e)
  {
    forall k | 0 <= k < |b| ensures 0 <= b[k] < |e| {
      assert b[k] in multiset(b);
      assert b[k] in a;
    }
  }

  lemma ThreeParts(s: seq<int>, x: seq<int>, y: seq<int>, z: seq<int>)
    requires s == x + y + z
    ensures multiset(s) == multiset(x) + multiset(z) + multiset(y)
  {
  }

  lemma SameRest(rest: multiset<int>, p: multiset<int>, q: multiset<int>)
    requires rest + p == rest + q
    ensures p == q
  {
    assert (rest + p) - rest == p && (rest + q) - rest == q;
  }

  /** A permutation that fixes everything outside lo..hi permutes lo..hi itself. */
  lemma SliceMultiset(a: seq<int>, b: seq<int>, lo: int, hi: int)
    requires multiset(a) == multiset(b) && |a| == |b|
    requires 0 <= lo <= hi + 1 <= |a|
    requires forall k :: 0 <= k < |a| && (k < lo || hi < k) ==> a[k] == b[k]
    ensures multiset(a[lo..hi + 1]) == multiset(b[lo..hi + 1])
  {
    var x, y, z, v := a[..lo], a[lo..hi + 1], a[hi + 1..], b[lo..hi + 1];
    assert x == b[..lo] && z == b[hi + 1..];
    assert a == x + y + z;
    assert b == x + v + z;
    ThreeParts(a, x, y, z);
    ThreeParts(b, x, v, z);
    SameRest(multiset(x) + multiset(z), multiset(y), multiset(v));
  }

  lemma SliceKeeps(a: seq<int>, b: seq<int>, lo: int, hi: int, x: int)
    requires multiset(a) == multiset(b) && |a| == |b|
    requires 0 <= lo <= x <= hi < |a|
    requires forall k :: 0 <= k < |a| && (k < lo || hi < k) ==> a[k] == b[k]
    ensures exists y :: lo <= y <= hi && b[y] == a[x]
  {
    SliceMultiset(a, b, lo, hi);
    assert a[x] == a[lo..hi + 1][x - lo];
    assert a[x] in multiset(b[lo..hi + 1]);
    var y :| 0 <= y < |b[lo..hi + 1]| && b[lo..hi + 1][y] == a[x];
    assert b[lo + y] == a[x];
  }

  ghost predicate Within(f: seq<int>, e: seq<int>) {
    forall k :: 0 <= k < |f| ==> 0 <= f[k] < |e|
  }

  ghost predicate SortedBy(f: seq<int>, e: seq<int>, lo: int, hi: int)
    requires Within(f, e) && 0 <= lo && hi < |f|
  {
    forall x, y :: lo <= x < y <= hi ==> e[f[x]] <= e[f[y]]
  }

  /** Entry j sinks towards hi in strides of `gap` while its key is the larger. */
  ghost function Sunk(f: seq<int>, e: seq<int>, j: int, hi: int, gap: int): (r: seq<int>)
    requires Within(f, e) && 0 <= j <= hi < |f| && 0 < gap
    ensures |r| == |f| && Within(r, e)
    decreases hi - j
  {
    if j + gap <= hi && e[f[j]] > e[f[j + gap]] then
      Sunk(Swapped(f, j, j + gap), e, j + gap, hi, gap)
    else f
  }

  lemma SunkStep(f: seq<int>, e: seq<int>, j: int, hi: int, gap: int)
    requires Within(f, e) && 0 <= j <= hi < |f| && 0 < gap
    requires j + gap <= hi && e[f[j]] > e[f[j + gap]]
    ensures Within(Swapped(f, j, j + gap), e)
    ensures Sunk(f, e, j, hi, gap) == Sunk(Swapped(f, j, j + gap), e, j + gap, hi, gap)
  {
  }

  lemma {:induction false} SunkPermutes(f: seq<int>, e: seq<int>, j: int, hi: int, gap: int)
    requires Within(f, e) && 0 <= j <= hi < |f| && 0 < gap
    ensures multiset(Sunk(f, e, j, hi, gap)) == multiset(f)
    decreases hi - j
  {
    if j + gap <= hi && e[f[j]] > e[f[j + gap]] {
      var g := Swapped(f, j, j + gap);
      SunkStep(f, e, j, hi, gap);
      SwappedMultiset(f, j, j + gap);
      SunkPermutes(g, e, j + gap, hi, gap);
    }
  }

  lemma {:induction false} SunkFrame(f: seq<int>, e: seq<int>, j: int, hi: int, gap: int)
    requires Within(f, e) && 0 <= j <= hi < |f| && 0 < gap
    ensures forall k :: 0 <= k < |f| && (k < j || hi < k) ==> Sunk(f, e, j, hi, gap)[k] == f[k]
    decreases hi - j
  {
    if j + gap <= hi && e[f[j]] > e[f[j + gap]] {
      SunkFrame(Swapped(f, j, j + gap), e, j + gap, hi, gap);
    }
  }

  lemma {:induction false} SunkAtLeast(f: seq<int>, e: seq<int>, j: int, hi: int, m: int)
    requires Within(f, e) && 0 <= j <= hi < |f|
    requires forall k :: j <= k <= hi ==> m <= e[f[k]]
    ensures forall k :: j <= k <= hi ==> m <= e[Sunk(f, e, j, hi, 1)[k]]
    decreases hi - j
  {
    if j + 1 <= hi && e[f[j]] > e[f[j + 1]] {
      SunkFrame(Swapped(f, j, j + 1), e, j + 1, hi, 1);
      SunkAtLeast(Swapped(f, j, j + 1), e, j + 1, hi, m);
    }
  }

  lemma {:induction false} SunkSorted(f: seq<int>, e: seq<int>, j: int, hi: int)
    requires Within(f, e) && 0 <= j <= hi < |f| && SortedBy(f, e, j + 1, hi)
    ensures SortedBy(Sunk(f, e, j, hi, 1), e, j, hi)
    decreases hi - j
  {
    if j + 1 <= hi && e[f[j]] > e[f[j + 1]] {
      var g := Swapped(f, j, j + 1);
      SunkFrame(g, e, j + 1, hi, 1);
      SunkSorted(g, e, j + 1, hi);
      SunkAtLeast(g, e, j + 1, hi, e[f[j + 1]]);
    } else if j + 1 <= hi {
      forall y | j < y <= hi ensures e[f[j]] <= e[f[y]] {
        assert e[f[j + 1]] <= e[f[y]];
      }
    }
  }

  /** One insertion of the gapped insertion sort, shifting entries over a hole. */
  method Sink(fmap: array<int>, eclass: array<int>, i: int, hi: int, gap: int)
    requires fmap != eclass && Within(fmap[..], eclass[..])
    requires 0 <= i <= hi < fmap.Length && 0 < gap
    modifies fmap
    ensures fmap[..] == Sunk(old(fmap[..]), eclass[..], i, hi, gap)
  {
    var tmp := fmap[i];
    var ec := eclass[tmp];
    var j := i + gap;
    // `v` is the array with the lifted entry put back into the hole at j - gap.
    ghost var v, e := fmap[..], eclass[..];
    while j <= hi && ec > eclass[fmap[j]]
      invariant i <= j - gap <= hi && Within(v, e) && Within(fmap[..], e)
      invariant v == fmap[..][j - gap := tmp]
      invariant Sunk(v, e, j - gap, hi, gap) == Sunk(old(fmap[..]), e, i, hi, gap)
    {
      v := Swapped(v, j - gap, j);
      fmap[j - gap] := fmap[j];
      j := j + gap;
    }
    fmap[j - gap] := tmp;
  }

  /** Shell sort of a short slice with gaps 4 and 1. */
  method SimpleSort(fmap: array<int>, eclass: array<int>, lo: int, hi: int)
    requires fmap != eclass && Within(fmap[..], eclass[..])
    requires 0 <= lo <= hi + 1 && hi < fmap.Length
    modifies fmap
    ensures Within(fmap[..], eclass[..]) && Shuffled(old(fmap[..]), fmap[..], lo, hi)
    ensures SortedBy(fmap[..], eclass[..], lo, hi)
  {
    if lo == hi { return; }
    if hi - lo > 3 {
      var i := hi - 4;
      while i >= lo
        invariant lo - 1 <= i <= hi - 4
        invariant Within(fmap[..], eclass[..]) && Shuffled(old(fmap[..]), fmap[..], lo, hi)
      {
        SunkPermutes(fmap[..], eclass[..], i, hi, 4);
        SunkFrame(fmap[..], eclass[..], i, hi, 4);
        Sink(fmap, eclass, i, hi, 4);
        i := i - 1;
      }
    }
    var i := hi - 1;
    while i >= lo
      invariant hi < lo || lo - 1 <= i < hi
      invariant Within(fmap[..], eclass[..]) && Shuffled(old(fmap[..]), fmap[..], lo, hi)
      invariant SortedBy(fmap[..], eclass[..], if i + 1 < lo then lo else i + 1, hi)
    {
      SunkPermutes(fmap[..], eclass[..], i, hi, 1);
      SunkFrame(fmap[..], eclass[..], i, hi, 1);
      SunkSorted(fmap[..], eclass[..], i, hi);
      Sink(fmap, eclass, i, hi, 1);
      i := i - 1;
    }
  }

  /** Exchanges the n entries at p1 with the n entries at p2. */
  method VSwap(fmap: array<int>, p1: int, p2: int, n: int)
    requires 0 <= n && 0 <= p1 && p1 + n <= p2 && p2 + n <= fmap.Length
    modifies fmap
    ensures multiset(fmap[..]) == multiset(old(fmap[..]))
    ensures forall k :: 0 <= k < fmap.Length ==>
      fmap[k] == if p1 <= k < p1 + n then old(fmap[k + p2 - p1])
                 else if p2 <= k < p2 + n then old(fmap[k - p2 + p1])
                 else old(fmap[k])
  {
    var m := 0;
    while m < n
      invariant 0 <= m <= n
      invariant multiset(fmap[..]) == multiset(old(fmap[..]))
      invariant forall k :: 0 <= k < fmap.Length ==>
        fmap[k] == if p1 <= k < p1 + m then old(fmap[k + p2 - p1])
                   else if p2 <= k < p2 + m then old(fmap[k - p2 + p1])
                   else old(fmap[k])
    {
      Swap(fmap, p1 + m, p2 + m);
      m := m + 1;
    }
  }

  ghost predicate HasKey(f: seq<int>, e: seq<int>, lo: int, hi: int, key: int)
    requires Within(f, e) && 0 <= lo && hi < |f|
  {
    exists y :: lo <= y <= hi && e[f[y]] == key
  }

  lemma KeyKept(f: seq<int>, g: seq<int>, e: seq<int>, lo: int, hi: int, key: int)
    requires Within(f, e) && Within(g, e) && Shuffled(f, g, lo, hi) && 0 <= lo && hi < |f|
    requires HasKey(f, e, lo, hi, key)
    ensures HasKey(g, e, lo, hi, key)
  {
    var x :| lo <= x <= hi && e[f[x]] == key;
    SliceKeeps(f, g, lo, hi, x);
  }

  /** What the partitioning scan knows: equal, less, unseen, greater, equal. */
  ghost predicate Regions(fmap: array<int>, eclass: array<int>, lo: int, hi: int, med: int,
                          ltLo: int, unLo: int, unHi: int, gtHi: int)
    reads fmap, eclass
  {
    var holds :=
      && Within(fmap[..], eclass[..])
      && 0 <= lo <= ltLo <= unLo <= unHi + 1 <= gtHi + 1 <= hi + 1 <= fmap.Length
      && (forall k :: lo <= k < ltLo ==> eclass[fmap[k]] == med)
      && (forall k :: ltLo <= k < unLo ==> eclass[fmap[k]] < med)
      && (forall k :: unHi < k <= gtHi ==> eclass[fmap[k]] > med)
      && (forall k :: gtHi < k <= hi ==> eclass[fmap[k]] == med);
    holds
  }

  /** Skips keys below `med`, moving keys equal to it to the left end. */
  method ScanUp(fmap: array<int>, eclass: array<int>, lo: int, hi: int, med: int,
                ltLo0: int, unLo0: int, unHi: int, gtHi: int)
    returns (ltLo: int, unLo: int)
    requires fmap != eclass && Regions(fmap, eclass, lo, hi, med, ltLo0, unLo0, unHi, gtHi)
    modifies fmap
    ensures Shuffled(old(fmap[..]), fmap[..], lo, hi) && Regions(fmap, eclass, lo, hi, med, ltLo, unLo, unHi, gtHi)
    ensures unLo0 <= unLo && (unLo <= unHi ==> eclass[fmap[unLo]] > med)
  {
    ltLo, unLo := ltLo0, unLo0;
    while unLo <= unHi
      invariant Shuffled(old(fmap[..]), fmap[..], lo, hi) && unLo0 <= unLo
      invariant Regions(fmap, eclass, lo, hi, med, ltLo, unLo, unHi, gtHi)
    {
      var n := eclass[fmap[unLo]] - med;
      if n == 0 {
        Swap(fmap, unLo, ltLo);
        ltLo := ltLo + 1;
      } else if n > 0 {
        break;
      }
      unLo := unLo + 1;
    }
  }

  /** Skips keys above `med`, moving keys equal to it to the right end. */
  method ScanDown(fmap: array<int>, eclass: array<int>, lo: int, hi: int, med: int,
                  ltLo: int, unLo: int, unHi0: int, gtHi0: int)
    returns (unHi: int, gtHi: int)
    requires fmap != eclass && Regions(fmap, eclass, lo, hi, med, ltLo, unLo, unHi0, gtHi0)
    requires unLo <= unHi0 ==> eclass[fmap[unLo]] > med
    modifies fmap
    ensures Shuffled(old(fmap[..]), fmap[..], lo, hi) && Regions(fmap, eclass, lo, hi, med, ltLo, unLo, unHi, gtHi)
    ensures unHi <= unHi0
    ensures unLo <= unHi ==> unLo < unHi && eclass[fmap[unLo]] > med && eclass[fmap[unHi]] < med
  {
    unHi, gtHi := unHi0, gtHi0;
    while unLo <= unHi
      invariant Shuffled(old(fmap[..]), fmap[..], lo, hi) && unHi <= unHi0
      invariant Regions(fmap, eclass, lo, hi, med, ltLo, unLo, unHi, gtHi)
      invariant unLo <= unHi ==> eclass[fmap[unLo]] > med
    {
      var n := eclass[fmap[unHi]] - med;
      if n == 0 {
        Swap(fmap, unHi, gtHi);
        gtHi := gtHi - 1;
      } else if n < 0 {
        break;
      }
      unHi := unHi - 1;
    }
  }

  /** Both scans: what is left between them begins with a key above med and ends with one below it. */
  method ScanBoth(fmap: array<int>, eclass: array<int>, lo: int, hi: int, med: int,
                  ltLo0: int, unLo0: int, unHi0: int, gtHi0: int)
    returns (ltLo: int, unLo: int, unHi: int, gtHi: int)
    requires fmap != eclass && Regions(fmap, eclass, lo, hi, med, ltLo0, unLo0, unHi0, gtHi0)
    modifies fmap
    ensures Shuffled(old(fmap[..]), fmap[..], lo, hi) && Regions(fmap, eclass, lo, hi, med, ltLo, unLo, unHi, gtHi)
    ensures unHi - unLo <= unHi0 - unLo0
    ensures unLo <= unHi ==> unLo < unHi && eclass[fmap[unLo]] > med && eclass[fmap[unHi]] < med
  {
    ltLo, unLo := ScanUp(fmap, eclass, lo, hi, med, ltLo0, unLo0, unHi0, gtHi0);
    unHi, gtHi := ScanDown(fmap, eclass, lo, hi, med, ltLo, unLo, unHi0, gtHi0);
  }

  method SwapEnds(fmap: array<int>, eclass: array<int>, lo: int, hi: int, med: int,
                  ltLo: int, unLo: int, unHi: int, gtHi: int)
    requires fmap != eclass && Regions(fmap, eclass, lo, hi, med, ltLo, unLo, unHi, gtHi)
    requires unLo < unHi && eclass[fmap[unLo]] > med && eclass[fmap[unHi]] < med
    modifies fmap
    ensures Shuffled(old(fmap[..]), fmap[..], lo, hi)
    ensures Regions(fmap, eclass, lo, hi, med, ltLo, unLo + 1, unHi - 1, gtHi)
  {
    Swap(fmap, unLo, unHi);
  }

  method Split(fmap: array<int>, eclass: array<int>, lo: int, hi: int, med: int)
    returns (ltLo: int, unLo: int, unHi: int, gtHi: int)
    requires fmap != eclass && Within(fmap[..], eclass[..])
    requires 0 <= lo <= hi < fmap.Length
    modifies fmap
    ensures Shuffled(old(fmap[..]), fmap[..], lo, hi) && unHi == unLo - 1
    ensures Regions(fmap, eclass, lo, hi, med, ltLo, unLo, unHi, gtHi)
  {
    ltLo, unLo := lo, lo;
    unHi, gtHi := hi, hi;
    while true
      invariant Shuffled(old(fmap[..]), fmap[..], lo, hi)
      invariant Regions(fmap, eclass, lo, hi, med, ltLo, unLo, unHi, gtHi)
      decreases unHi - unLo
    {
      ltLo, unLo, unHi, gtHi := ScanBoth(fmap, eclass, lo, hi, med, ltLo, unLo, unHi, gtHi);
      if unLo > unHi { break; }
      SwapEnds(fmap, eclass, lo, hi, med, ltLo, unLo, unHi, gtHi);
      unLo, unHi := unLo + 1, unHi - 1;
    }
  }

  /** Moves the keys equal to `med` from the left end of lo..unLo-1 to its right end. */
  method GatherLeft(fmap: array<int>, eclass: array<int>, lo: int, ltLo: int, unLo: int, med: int)
    requires fmap != eclass && Within(fmap[..], eclass[..])
    requires 0 <= lo <= ltLo <= unLo <= fmap.Length
    requires forall k :: lo <= k < ltLo ==> eclass[fmap[k]] == med
    requires forall k :: ltLo <= k < unLo ==> eclass[fmap[k]] < med
    modifies fmap
    ensures Within(fmap[..], eclass[..]) && Shuffled(old(fmap[..]), fmap[..], lo, unLo - 1)
    ensures forall k :: lo <= k < lo + unLo - ltLo ==> eclass[fmap[k]] < med
    ensures forall k :: lo + unLo - ltLo <= k < unLo ==> eclass[fmap[k]] == med
  {
    var n := if ltLo - lo < unLo - ltLo then ltLo - lo else unLo - ltLo;
    VSwap(fmap, lo, unLo - n, n);
    MultisetWithin(old(fmap[..]), fmap[..], eclass[..]);
  }

  /** Moves the keys equal to `med` from the right end of unLo..hi to its left end. */
  method GatherRight(fmap: array<int>, eclass: array<int>, unLo: int, gtHi: int, hi: int, med: int)
    requires fmap != eclass && Within(fmap[..], eclass[..])
    requires 0 <= unLo <= gtHi + 1 <= hi + 1 <= fmap.Length
    requires forall k :: unLo <= k <= gtHi ==> eclass[fmap[k]] > med
    requires forall k :: gtHi < k <= hi ==> eclass[fmap[k]] == med
    modifies fmap
    ensures Within(fmap[..], eclass[..]) && Shuffled(old(fmap[..]), fmap[..], unLo, hi)
    ensures forall k :: unLo <= k < unLo + hi - gtHi ==> eclass[fmap[k]] == med
    ensures forall k :: unLo + hi - gtHi <= k <= hi ==> eclass[fmap[k]] > med
  {
    var m := if hi - gtHi < gtHi - (unLo - 1) then hi - gtHi else gtHi - (unLo - 1);
    VSwap(fmap, unLo, hi - m + 1, m);
    MultisetWithin(old(fmap[..]), fmap[..], eclass[..]);
  }

  /**
   * Splits lo..hi around the key `med`: keys below it end in lo..n, keys above
   * it in m..hi, and the keys equal to it in between.
   */
  method Partition(fmap: array<int>, eclass: array<int>, lo: int, hi: int, med: int)
    returns (allEqual: bool, n: int, m: int)
    requires fmap != eclass && Within(fmap[..], eclass[..])
    requires 0 <= lo <= hi < fmap.Length
    requires HasKey(fmap[..], eclass[..], lo, hi, med)
    modifies fmap
    ensures Within(fmap[..], eclass[..]) && Shuffled(old(fmap[..]), fmap[..], lo, hi)
    ensures lo - 1 <= n && n + 1 < m <= hi + 1
    ensures allEqual ==> n == lo - 1 && m == hi + 1
    ensures forall k :: lo <= k <= n ==> eclass[fmap[k]] < med
    ensures forall k :: n < k < m ==> eclass[fmap[k]] == med
    ensures forall k :: m <= k <= hi ==> eclass[fmap[k]] > med
  {
    ghost var f := fmap[..];
    var ltLo, unLo, unHi, gtHi := Split(fmap, eclass, lo, hi, med);
    KeyKept(f, fmap[..], eclass[..], lo, hi, med);
    ghost var y :| lo <= y <= hi && eclass[fmap[y]] == med;
    if gtHi < ltLo { return true, lo - 1, hi + 1; }
    GatherLeft(fmap, eclass, lo, ltLo, unLo, med);
    GatherRight(fmap, eclass, unLo, gtHi, hi, med);
    allEqual := false;
    n := lo + unLo - ltLo - 1;
    m := hi - (gtHi - unHi) + 1;
  }

  // ---- The explicit stack of slices still to sort ----

  type Slices = seq<(int, int)>

  /** One pending slice covers both positions. */
  ghost predicate Together(stack: Slices, x: int, y: int) {
    exists s :: 0 <= s < |stack| && stack[s].0 <= x && y <= stack[s].1
  }

  /** Pending slices lie in lo..hi and do not overlap. */
  ghost predicate Disjoint(stack: Slices, lo: int, hi: int) {
    var holds :=
      && (forall s :: 0 <= s < |stack| ==> lo <= stack[s].0 <= stack[s].1 + 1 <= hi + 1)
      && (forall s, t :: 0 <= s < t < |stack| ==> stack[s].1 < stack[t].0 || stack[t].1 < stack[s].0);
    holds
  }

  /** Any two entries are in order unless a pending slice covers both. */
  ghost predicate Ordered(f: seq<int>, e: seq<int>, stack: Slices, lo: int, hi: int)
    requires Within(f, e) && 0 <= lo && hi < |f|
  {
    forall x, y :: lo <= x < y <= hi ==> e[f[x]] <= e[f[y]] || Together(stack, x, y)
  }

  /** Two positions on different sides of a pending slice's edge are already in order. */
  lemma EdgeOrdered(f: seq<int>, e: seq<int>, rest: Slices, seg: (int, int), lo: int, hi: int, x: int, y: int)
    requires Within(f, e) && 0 <= lo && hi < |f| && lo <= x < y <= hi
    requires Disjoint(rest + [seg], lo, hi) && Ordered(f, e, rest + [seg], lo, hi)
    requires (seg.0 <= x <= seg.1) != (seg.0 <= y <= seg.1)
    ensures e[f[x]] <= e[f[y]]
  {
    assert (rest + [seg])[|rest|] == seg;
  }

  /** Reordering one pending slice and replacing it by smaller ones keeps the order. */
  lemma Refined(f: seq<int>, g: seq<int>, e: seq<int>, rest: Slices, seg: (int, int), parts: Slices, lo: int, hi: int)
    requires Within(f, e) && Within(g, e) && |f| == |g| && 0 <= lo && hi < |f|
    requires Disjoint(rest + [seg], lo, hi) && Ordered(f, e, rest + [seg], lo, hi)
    requires Shuffled(f, g, seg.0, seg.1) && lo <= seg.0 && seg.1 <= hi
    requires forall x, y :: seg.0 <= x < y <= seg.1 ==> e[g[x]] <= e[g[y]] || Together(parts, x, y)
    ensures Ordered(g, e, rest + parts, lo, hi)
  {
    assert (rest + [seg])[|rest|] == seg;
    forall x, y | lo <= x < y <= hi ensures e[g[x]] <= e[g[y]] || Together(rest + parts, x, y) {
      if seg.0 <= x && y <= seg.1 {
        if Together(parts, x, y) {
          var s :| 0 <= s < |parts| && parts[s].0 <= x && y <= parts[s].1;
          assert (rest + parts)[|rest| + s] == parts[s];
        }
      } else if seg.0 <= x <= seg.1 {
        SliceKeeps(g, f, seg.0, seg.1, x);
        var z :| seg.0 <= z <= seg.1 && f[z] == g[x];
        EdgeOrdered(f, e, rest, seg, lo, hi, z, y);
      } else if seg.0 <= y <= seg.1 {
        SliceKeeps(g, f, seg.0, seg.1, y);
        var z :| seg.0 <= z <= seg.1 && f[z] == g[y];
        EdgeOrdered(f, e, rest, seg, lo, hi, x, z);
      } else if !(e[f[x]] <= e[f[y]]) {
        var s :| 0 <= s < |rest + [seg]| && (rest + [seg])[s].0 <= x && y <= (rest + [seg])[s].1;
        assert s < |rest|;
        assert (rest + parts)[s] == (rest + [seg])[s];
      }
    }
  }

  ghost function Size(seg: (int, int)): int { seg.1 - seg.0 + 1 }

  /** Termination measure: a slice weighs more than the two it splits into. */
  ghost function Weight(stack: Slices): int {
    if stack == [] then 0 else Weight(stack[..|stack| - 1]) + 2 * Size(stack[|stack| - 1]) + 1
  }

  lemma {:induction false} WeightNonNegative(stack: Slices)
    requires forall s :: 0 <= s < |stack| ==> 0 <= Size(stack[s])
    ensures 0 <= Weight(stack)
  {
    if stack != [] { WeightNonNegative(stack[..|stack| - 1]); }
  }

  /** The slice at height s has at most n / 2^s entries. */
  ghost predicate Halving(stack: Slices, n: int) {
    forall s :: 0 <= s < |stack| ==> Size(stack[s]) * Pow2(s) <= n
  }

  /** Pushing the larger part first keeps the stack logarithmic. */
  lemma PushHalves(rest: Slices, seg: (int, int), big: (int, int), small: (int, int), n: int)
    requires Halving(rest + [seg], n)
    requires 0 <= Size(small) <= Size(big) && Size(big) + Size(small) < Size(seg)
    ensures Halving(rest + [big, small], n)
  {
    var a, h := rest + [seg], |rest|;
    var b := rest + [big, small];
    assert a[h] == seg && b[h] == big && b[h + 1] == small;
    assert Size(seg) * Pow2(h) <= n;
    Pow2Mono(0, h);
    MulMono(Size(big), Size(seg), Pow2(h));
    assert Size(small) * Pow2(h + 1) == (2 * Size(small)) * Pow2(h);
    MulMono(2 * Size(small), Size(seg), Pow2(h));
    forall s | 0 <= s < |b| ensures Size(b[s]) * Pow2(s) <= n {
      if s < h { assert b[s] == a[s]; }
    }
  }

  lemma DepthBound(size: int, h: nat, n: int)
    requires 1 <= size && size * Pow2(h) <= n < Pow2(31)
    ensures h < 31
  {
    Pow2Mono(0, h);
    MulMono(1, size, Pow2(h));
    if 31 <= h { Pow2Mono(31, h); assert false; }
  }

  lemma DisjointParts(rest: Slices, seg: (int, int), a: (int, int), b: (int, int), lo: int, hi: int)
    requires Disjoint(rest + [seg], lo, hi)
    requires seg.0 <= a.0 <= a.1 + 1 <= seg.1 + 1 && seg.0 <= b.0 <= b.1 + 1 <= seg.1 + 1
    requires a.1 < b.0 || b.1 < a.0
    ensures Disjoint(rest + [a, b], lo, hi) && Disjoint(rest, lo, hi)
  {
    var old', new' := rest + [seg], rest + [a, b];
    assert old'[|rest|] == seg && new'[|rest|] == a && new'[|rest| + 1] == b;
    assert forall s :: 0 <= s < |rest| ==> new'[s] == old'[s] == rest[s];
  }

  /** The invariant of the main loop. */
  ghost predicate Pending(f: seq<int>, e: seq<int>, stack: Slices, lo: int, hi: int) {
    var holds :=
      && 0 <= lo <= hi < |f| < Pow2(31) && Within(f, e)
      && |stack| <= 32 && Disjoint(stack, lo, hi) && Halving(stack, hi - lo + 1)
      && Ordered(f, e, stack, lo, hi);
    holds
  }

  lemma PopSorted(f: seq<int>, g: seq<int>, e: seq<int>, rest: Slices, seg: (int, int), lo: int, hi: int)
    requires Pending(f, e, rest + [seg], lo, hi) && Within(g, e) && |f| == |g|
    requires Shuffled(f, g, seg.0, seg.1) && lo <= seg.0 && seg.1 <= hi
    requires SortedBy(g, e, seg.0, seg.1)
    ensures Pending(g, e, rest, lo, hi)
    ensures 0 <= Weight(rest) < Weight(rest + [seg])
  {
    var stack := rest + [seg];
    assert stack[..|rest|] == rest && stack[|rest|] == seg;
    assert forall s :: 0 <= s < |rest| ==> rest[s] == stack[s];
    WeightNonNegative(rest);
    Refined(f, g, e, rest, seg, [], lo, hi);
    assert rest + [] == rest;
  }

  lemma SplitPushed(f: seq<int>, g: seq<int>, e: seq<int>, rest: Slices, seg: (int, int),
                    parts: Slices, lo: int, hi: int)
    requires Pending(f, e, rest + [seg], lo, hi) && Within(g, e) && |f| == |g|
    requires Shuffled(f, g, seg.0, seg.1) && lo <= seg.0 && seg.1 <= hi
    requires parts != [] && Parts(g, e, seg, parts)
    ensures Pending(g, e, rest + parts, lo, hi)
    ensures 0 <= Weight(rest + parts) < Weight(rest + [seg])
  {
    var big, small := parts[0], parts[1];
    assert parts == [big, small];
    var stack, pushed := rest + [seg], rest + parts;
    assert stack[..|rest|] == rest && stack[|rest|] == seg;
    assert pushed[..|rest| + 1] == rest + [big] && (rest + [big])[..|rest|] == rest;
    DisjointParts(rest, seg, big, small, lo, hi);
    PushHalves(rest, seg, big, small, hi - lo + 1);
    DepthBound(Size(seg), |rest|, hi - lo + 1);
    WeightNonNegative(pushed);
    Refined(f, g, e, rest, seg, parts, lo, hi);
  }

  /** Around the pivot, two entries of a split slice are in order or share a part. */
  lemma AcrossPivot(g: seq<int>, e: seq<int>, lo: int, n: int, m: int, hi: int, med: int, parts: Slices)
    requires Within(g, e) && 0 <= lo && hi < |g| && lo - 1 <= n && n + 1 < m <= hi + 1
    requires forall k :: lo <= k <= n ==> e[g[k]] < med
    requires forall k :: n < k < m ==> e[g[k]] == med
    requires forall k :: m <= k <= hi ==> e[g[k]] > med
    requires parts == [(lo, n), (m, hi)] || parts == [(m, hi), (lo, n)]
    ensures forall x, y :: lo <= x < y <= hi ==> e[g[x]] <= e[g[y]] || Together(parts, x, y)
  {
    forall x, y | lo <= x < y <= hi ensures e[g[x]] <= e[g[y]] || Together(parts, x, y) {
      assert parts[0] == (lo, n) || parts[1] == (lo, n);
      assert parts[0] == (m, hi) || parts[1] == (m, hi);
    }
  }

  lemma PendingStarts(f: seq<int>, e: seq<int>, lo: int, hi: int)
    requires 0 <= lo <= hi < |f| < Pow2(31) && Within(f, e)
    ensures Pending(f, e, [(lo, hi)], lo, hi)
  {
    var stack: Slices := [(lo, hi)];
    assert stack[0].0 == lo && stack[0].1 == hi && Pow2(0) == 1;
    forall x, y | lo <= x < y <= hi ensures Together(stack, x, y) { assert stack[0].0 <= x && y <= stack[0].1; }
  }

  lemma PendingEnds(f: seq<int>, e: seq<int>, lo: int, hi: int)
    requires Pending(f, e, [], lo, hi)
    ensures Within(f, e) && SortedBy(f, e, lo, hi)
  {
  }

  /** Sorts fmap[loSt..hiSt] by key; the stack never reaches the limit of assertion 1004. */
  method QSort3(fmap: array<int>, eclass: array<int>, loSt: int, hiSt: int)
    requires fmap != eclass && Within(fmap[..], eclass[..])
    requires 0 <= loSt <= hiSt < fmap.Length < Pow2(31)
    modifies fmap
    ensures Within(fmap[..], eclass[..]) && Shuffled(old(fmap[..]), fmap[..], loSt, hiSt)
    ensures SortedBy(fmap[..], eclass[..], loSt, hiSt)
  {
    var r := 0;
    var stack: Slices := [(loSt, hiSt)];
    PendingStarts(fmap[..], eclass[..], loSt, hiSt);
    while |stack| > 0
      invariant Shuffled(old(fmap[..]), fmap[..], loSt, hiSt)
      invariant Pending(fmap[..], eclass[..], stack, loSt, hiSt)
      decreases Weight(stack)
    {
      assert |stack| < STACK_SIZE - 1;
      r, stack := SortTop(fmap, eclass, r, stack, loSt, hiSt);
    }
    assert stack == [];
    PendingEnds(fmap[..], eclass[..], loSt, hiSt);
  }

  /** What replaces a slice: nothing once it is sorted, else its two parts, larger first. */
  ghost predicate Parts(g: seq<int>, e: seq<int>, seg: (int, int), parts: Slices)
    requires Within(g, e) && 0 <= seg.0 && seg.1 < |g|
  {
    var holds :=
      if parts == [] then SortedBy(g, e, seg.0, seg.1)
      else
        && |parts| == 2
        && seg.0 <= parts[0].0 <= parts[0].1 + 1 <= seg.1 + 1
        && seg.0 <= parts[1].0 <= parts[1].1 + 1 <= seg.1 + 1
        && (parts[0].1 < parts[1].0 || parts[1].1 < parts[0].0)
        && Size(parts[1]) <= Size(parts[0]) && Size(parts[0]) + Size(parts[1]) < Size(seg)
        && forall x, y :: seg.0 <= x < y <= seg.1 ==> e[g[x]] <= e[g[y]] || Together(parts, x, y);
    holds
  }

  /** Sorts a short slice, or splits a long one around a pseudo-random pivot. */
  method SortOrSplit(fmap: array<int>, eclass: array<int>, r0: nat, lo: int, hi: int)
    returns (r: nat, parts: Slices)
    requires fmap != eclass && Within(fmap[..], eclass[..])
    requires 0 <= lo <= hi + 1 && hi < fmap.Length
    modifies fmap
    ensures Within(fmap[..], eclass[..]) && Shuffled(old(fmap[..]), fmap[..], lo, hi)
    ensures Parts(fmap[..], eclass[..], (lo, hi), parts)
  {
    if hi - lo < SMALL_THRESH {
      SimpleSort(fmap, eclass, lo, hi);
      return r0, [];
    }
    r := (r0 * 7621 + 1) % 32768;
    var r3 := r % 3;
    var med := if r3 == 0 then eclass[fmap[lo]]
               else if r3 == 1 then eclass[fmap[(lo + hi) / 2]]
               else eclass[fmap[hi]];
    assert HasKey(fmap[..], eclass[..], lo, hi, med) by {
      assert eclass[fmap[lo]] == med || eclass[fmap[(lo + hi) / 2]] == med || eclass[fmap[hi]] == med;
    }
    var allEqual, n, m := Partition(fmap, eclass, lo, hi, med);
    if allEqual { return r, []; }
    parts := if n - lo > hi - m then [(lo, n), (m, hi)] else [(m, hi), (lo, n)];
    AcrossPivot(fmap[..], eclass[..], lo, n, m, hi, med, parts);
  }

  /** One turn of the loop: the top slice is popped, and its parts are pushed. */
  method SortTop(fmap: array<int>, eclass: array<int>, r0: nat, stack0: Slices, ghost loSt: int, ghost hiSt: int)
    returns (r: nat, stack: Slices)
    requires fmap != eclass && |stack0| > 0 && Pending(fmap[..], eclass[..], stack0, loSt, hiSt)
    modifies fmap
    ensures Shuffled(old(fmap[..]), fmap[..], loSt, hiSt) && Pending(fmap[..], eclass[..], stack, loSt, hiSt)
    ensures 0 <= Weight(stack) < Weight(stack0)
  {
    ghost var f, e := fmap[..], eclass[..];
    var seg := stack0[|stack0| - 1];
    var rest := stack0[..|stack0| - 1];
    assert stack0 == rest + [seg];
    var parts;
    r, parts := SortOrSplit(fmap, eclass, r0, seg.0, seg.1);
    stack := rest + parts;
    if parts == [] {
      PopSorted(f, fmap[..], e, rest, seg, loSt, hiSt);
      assert stack == rest;
    } else {
      SplitPushed(f, fmap[..], e, rest, seg, parts, loSt, hiSt);
    }
  }
}
