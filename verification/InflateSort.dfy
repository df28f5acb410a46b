/** inflate_table's counting sort: the symbols in the order of their codes. */
module InflateSort {
  import opened Common
  import opened Counting
  import opened KraftSum
  import opened HuffmanCodes
  import opened SortedCodes
  import opened DeflateCodes

  // ---- The counts ----

  method CountEach(lens: seq<byte>) returns (count: seq<nat>)
    requires forall i :: 0 <= i < |lens| ==> lens[i] <= MAX_BITS
    ensures |count| == 16 && forall b :: 0 <= b < 16 ==> count[b] == Count(lens, b)
  {
    count := seq(16, _ => 0);
    var sym := 0;
    while sym < |lens|
      invariant 0 <= sym <= |lens| && |count| == 16 && forall b :: 0 <= b < 16 ==> count[b] == Count(lens[..sym], b)
    {
      forall b
        ensures Count(lens[..sym + 1], b) == Count(lens[..sym], b) + if lens[sym] == b then 1
          else 0 { CountSnoc(lens, sym, b); }
      count := count[lens[sym] := count[lens[sym]] + 1];
      sym := sym + 1;
    }
    assert lens[..sym] == lens;
  }

  /** The greatest length in use, or 0. */
  method Longest(count: seq<nat>) returns (max: nat)
    requires |count| == 16
    ensures max <= MAX_BITS && (forall b :: max < b < 16 ==> count[b] == 0) && (max > 0 ==> count[max] != 0)
  {
    max := MAX_BITS;
    while max >= 1 && count[max] == 0
      invariant max <= MAX_BITS && forall b :: max < b < 16 ==> count[b] == 0
    {
      max := max - 1;
    }
  }

  /** The least length in use. */
  method Shortest(count: seq<nat>, max: nat) returns (min: nat)
    requires |count| == 16 && 1 <= max <= MAX_BITS && count[max] != 0
    ensures 1 <= min <= max && (forall b :: 1 <= b < min ==> count[b] == 0) && count[min] != 0
  {
    min := 1;
    while min < max && count[min] == 0
      invariant 1 <= min <= max && forall b :: 1 <= b < min ==> count[b] == 0
    {
      min := min + 1;
    }
  }

  lemma {:induction false} CountMember(u: seq<byte>, c: int)
    ensures Count(u, c) > 0 <==> c in u
  {
    if u != [] {
      var n := |u| - 1;
      CountMember(u[..n], c);
      assert u == u[..n] + [u[n]];
    }
  }

  /** The bounds of the lengths in use, from the counts. */
  lemma Bounds(u: seq<byte>, count: seq<nat>, min: nat, max: nat)
    requires |count| == 16 && forall b :: 1 <= b < 16 ==> count[b] == Count(u, b)
    requires forall i :: 0 <= i < |u| ==> 1 <= u[i] <= MAX_BITS
    requires 1 <= min <= max <= MAX_BITS && count[min] != 0 && count[max] != 0
    requires (forall b :: 1 <= b < min ==> count[b] == 0) && forall b :: max < b < 16 ==> count[b] == 0
    ensures u != [] && max in u && (forall i :: 0 <= i < |u| ==> min <= u[i] <= max) && LenAt(u, 0) == min
  {
    CountMember(u, max);
    forall i | 0 <= i < |u| ensures min <= u[i] <= max { CountMember(u, u[i]); }
    NoneBelow(u, min);
    LenFromPlace(u, 0, min);
  }

  // ---- Sets of lengths that are turned down ----

  lemma EndIsPartial(u: seq<byte>, n: nat)
    requires 1 <= n && forall i :: 0 <= i < |u| ==> 1 <= u[i]
    ensures End(u, n) == Partial(u, n)
  {
    FirstIsPartial(u, 1, n);
  }

  /** The check for over-subscribed lengths; left is what they leave over. */
  method Check(count: seq<nat>, ghost u: seq<byte>) returns (left: int)
    requires |count| == 16 && forall b :: 1 <= b < 16 ==> count[b] == Count(u, b)
    requires forall i :: 0 <= i < |u| ==> 1 <= u[i] <= MAX_BITS
    ensures left < 0 <==> Kraft(u, MAX_BITS) > Pow2(MAX_BITS)
    ensures left >= 0 ==> left == Pow2(MAX_BITS) - Kraft(u, MAX_BITS)
  {
    left := 1;
    var len := 1;
    CountMember(u, 0);
    while len <= MAX_BITS
      invariant 1 <= len <= MAX_BITS + 1 && 0 <= left == Pow2(len - 1) - End(u, len - 1)
    {
      left := 2 * left;
      FirstStep2(u, len);
      left := left - count[len];
      EndIsPartial(u, len);
      if left < 0 {
        Overfull(u, len);
        return;
      }
      len := len + 1;
    }
    EndIsPartial(u, MAX_BITS);
    AllPartial(u, MAX_BITS);
  }

  lemma FirstStep2(u: seq<byte>, n: nat)
    requires 1 <= n && Count(u, 0) == 0
    ensures End(u, n) == 2 * End(u, n - 1) + Count(u, n)
  {
  }

  lemma Overfull(u: seq<byte>, n: nat)
    requires n <= MAX_BITS && Partial(u, n) > Pow2(n) && forall i :: 0 <= i < |u| ==> 1 <= u[i] <= MAX_BITS
    ensures Kraft(u, MAX_BITS) > Pow2(MAX_BITS)
  {
    if Kraft(u, MAX_BITS) <= Pow2(MAX_BITS) { KraftBoundsPartial(u, n, MAX_BITS); }
  }

  // ---- Sorting ----

  /** The symbols below n are at the places of their codes. */
  ghost predicate Placed(work: seq<int>, lens: seq<byte>, n: nat) {
    && n <= |lens| && |Used(lens)| <= |work|
    && forall k {:trigger Key(k)} :: Key(k) ==>
      forall i {:trigger PlacedAt(work, lens, i)} :: 0 <= i < n && lens[i] != 0 ==> PlacedAt(work, lens, i)
  }

  ghost predicate PlacedAt(work: seq<int>, lens: seq<byte>, i: nat)
    requires i < |lens|
  {
    Index(lens, i) < |Used(lens)| && Rank(Used(lens), Index(lens, i)) < |work|
      && work[Rank(Used(lens), Index(lens, i))] == i
  }

  ghost predicate Offsets(offs: seq<int>, lens: seq<byte>, n: nat) {
    && n <= |lens| && |offs| == 16
    && forall k {:trigger Key(k)} :: Key(k) ==> forall b :: 1 <= b < 16 ==>
      offs[b] == CountBelow(Used(lens), b) + Count(Used(lens[..n]), b)
  }

  lemma UsedStep(lens: seq<byte>, i: nat, next: nat)
    requires next == i + 1 <= |lens|
    ensures Used(lens[..next]) == if lens[i] == 0 then Used(lens[..i]) else Used(lens[..i]) + [lens[i]]
  {
    assert lens[..next][..i] == lens[..i];
  }

  lemma OffsetsStep(offs: seq<int>, lens: seq<byte>, i: nat, next: nat)
    requires next == i + 1 <= |lens| && Offsets(offs, lens, i) && lens[i] <= MAX_BITS
    ensures Offsets(if lens[i] == 0 then offs else offs[lens[i] := offs[lens[i]] + 1], lens, next)
  {
    assert Key(0);
    UsedStep(lens, i, next);
    if lens[i] != 0 {
      var u, v := Used(lens[..i]), Used(lens[..next]);
      assert v[..|v| - 1] == u;
    }
  }

  lemma PlaceIs(offs: seq<int>, lens: seq<byte>, i: nat)
    requires i < |lens| && Offsets(offs, lens, i) && 0 < lens[i] <= MAX_BITS
    ensures Index(lens, i) < |Used(lens)| && offs[lens[i]] == Rank(Used(lens), Index(lens, i)) < |Used(lens)|
  {
    assert Key(0);
    UsedAt(lens, i);
    RankBound(Used(lens), Index(lens, i));
  }

  lemma PlacesDiffer(lens: seq<byte>, j: nat, i: nat)
    requires j < i < |lens| && lens[i] != 0 && lens[j] != 0
    ensures Index(lens, i) < |Used(lens)| && Index(lens, j) < |Used(lens)|
    ensures Rank(Used(lens), Index(lens, j)) != Rank(Used(lens), Index(lens, i))
  {
    UsedAt(lens, j);
    UsedAt(lens, i);
    IndexGrows(lens, j, i);
    RowOfRank(Used(lens), Index(lens, j));
    RowOfRank(Used(lens), Index(lens, i));
  }

  lemma PlacedStep(work: seq<int>, lens: seq<byte>, i: nat, next: nat, p: nat)
    requires next == i + 1 <= |lens| && Placed(work, lens, i) && lens[i] != 0 && Index(lens, i) < |Used(lens)|
    requires p == Rank(Used(lens), Index(lens, i)) < |work|
    ensures Placed(work[p := i], lens, next)
  {
    assert Key(0);
    forall j | 0 <= j < next && lens[j] != 0 ensures PlacedAt(work[p := i], lens, j) {
      if j < i {
        PlacesDiffer(lens, j, i);
        assert PlacedAt(work, lens, j);
      }
    }
  }

  lemma NotPlaced(work: seq<int>, lens: seq<byte>, i: nat, next: nat)
    requires next == i + 1 <= |lens| && Placed(work, lens, i) && lens[i] == 0
    ensures Placed(work, lens, next)
  {
    assert Key(0);
  }

  /** Where the codes of each length begin. */
  method Starts(count: seq<nat>, ghost lens: seq<byte>) returns (offs: seq<int>)
    requires |count| == 16 && forall b :: 1 <= b < 16 ==> count[b] == Count(Used(lens), b)
    ensures Offsets(offs, lens, 0)
  {
    ghost var u := Used(lens);
    offs := seq(16, _ => 0);
    NoneBelow(u, 1);
    var len := 1;
    while len < MAX_BITS
      invariant 1 <= len <= MAX_BITS && |offs| == 16 && forall b :: 1 <= b <= len ==> offs[b] == CountBelow(u, b)
    {
      CountBelowStep(u, len);
      offs := offs[len + 1 := offs[len] + count[len]];
      len := len + 1;
    }
  }

  /** Sorts the symbols by length, and by symbol within each length. */
  method SortSymbols(lens: seq<byte>, count: seq<nat>, work0: seq<int>) returns (work: seq<int>)
    requires |count| == 16 && forall b :: 1 <= b < 16 ==> count[b] == Count(Used(lens), b)
    requires |lens| <= |work0| && forall i :: 0 <= i < |lens| ==> lens[i] <= MAX_BITS
    ensures |work| == |work0| && Placed(work, lens, |lens|)
  {
    var offs := Starts(count, lens);
    work := work0;
    var sym := 0;
    while sym < |lens|
      invariant 0 <= sym <= |lens| && |work| == |work0| && Placed(work, lens, sym) && Offsets(offs, lens, sym)
    {
      ghost var next := sym + 1;
      OffsetsStep(offs, lens, sym, next);
      if lens[sym] != 0 {
        PlaceIs(offs, lens, sym);
        PlacedStep(work, lens, sym, next, offs[lens[sym]]);
        work, offs := work[offs[lens[sym]] := sym], offs[lens[sym] := offs[lens[sym]] + 1];
      } else {
        NotPlaced(work, lens, sym, next);
      }
      sym := sym + 1;
    }
  }

  /** Every code is some symbol's. */
  lemma {:induction false} UsedOnto(lens: seq<byte>, r: nat) returns (i: nat)
    requires r < |Used(lens)|
    ensures i < |lens| && lens[i] != 0 && Index(lens, i) == r
  {
    var n := |lens| - 1;
    if r < |Used(lens[..n])| {
      i := UsedOnto(lens[..n], r);
      assert lens[..n][..i] == lens[..i];
    } else {
      i := n;
    }
  }

  /** The k-th place holds the symbol whose code is the k-th. */
  lemma InOrder(work: seq<int>, lens: seq<byte>, k: nat)
    requires Placed(work, lens, |lens|) && k < |Used(lens)|
    ensures 0 <= work[k] < |lens| && lens[work[k]] == LenAt(Used(lens), k)
    ensures Sent(lens, work[k]) == WordAt(Used(lens), k)
  {
    var r := Row(Used(lens), k);
    var i := UsedOnto(lens, r);
    assert Key(0);
    assert PlacedAt(work, lens, i);
    UsedAt(lens, i);
    CodeUsed(lens, i);
  }
}
