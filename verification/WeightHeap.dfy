/** The binary heap of tree nodes, ordered by packed weight, kept in entries 1..n. */
module WeightHeap {
  import opened Common

  /** Entries 1..n name weighted nodes; entry 0 is the sentinel, node 0 of weight 0. */
  ghost predicate Named(h: seq<int>, w: seq<int>, n: int) {
    var holds :=
      && 0 <= n < |h| && h[0] == 0 && 0 < |w| && w[0] == 0
      && (forall k :: 0 <= k <= n ==> 0 <= h[k] < |w| && 0 <= w[h[k]]);
    holds
  }

  /** Every entry but `z` weighs at least as much as its parent entry. */
  ghost predicate OrderedBut(h: seq<int>, w: seq<int>, n: int, z: int)
    requires Named(h, w, n)
  {
    && (forall p, k :: 2 <= k <= n && p == k / 2 && k != z ==> w[h[p]] <= w[h[k]])
    && (forall k :: 2 <= k <= n && k / 2 == z && z > 1 ==> w[h[z / 2]] <= w[h[k]])
  }

  /** Every entry but the children of `z` weighs at least as much as its parent entry. */
  ghost predicate OrderedAbove(h: seq<int>, w: seq<int>, n: int, z: int)
    requires Named(h, w, n)
  {
    && (forall p, k :: 2 <= k <= n && p == k / 2 && p != z ==> w[h[p]] <= w[h[k]])
    && (forall k :: 2 <= k <= n && k / 2 == z && z > 1 ==> w[h[z / 2]] <= w[h[k]])
  }

  ghost predicate Ordered(h: seq<int>, w: seq<int>, n: int)
    requires Named(h, w, n)
  {
    forall p, k :: 2 <= k <= n && p == k / 2 ==> w[h[p]] <= w[h[k]]
  }

  ghost function Content(h: seq<int>, n: int): multiset<int>
    requires 0 <= n < |h|
  {
    multiset(h[1..n + 1])
  }

  lemma {:induction false} RootMin(h: seq<int>, w: seq<int>, n: int, k: int)
    requires Named(h, w, n) && Ordered(h, w, n) && 1 <= k <= n
    ensures w[h[1]] <= w[h[k]]
  {
    if k > 1 { RootMin(h, w, n, k / 2); }
  }

  /** Entry z rises while it is lighter than its parent. */
  ghost function Up(h: seq<int>, w: seq<int>, n: int, z: int): (r: seq<int>)
    requires Named(h, w, n) && 1 <= z <= n
    ensures |r| == |h| && Named(r, w, n)
    decreases z
  {
    if w[h[z]] < w[h[z / 2]] then Up(Swapped(h, z, z / 2), w, n, z / 2) else h
  }

  lemma {:induction false} UpOrdered(h: seq<int>, w: seq<int>, n: int, z: int)
    requires Named(h, w, n) && 1 <= z <= n && OrderedBut(h, w, n, z)
    ensures Ordered(Up(h, w, n, z), w, n)
    decreases z
  {
    if w[h[z]] < w[h[z / 2]] {
      var g := Swapped(h, z, z / 2);
      assert OrderedBut(g, w, n, z / 2);
      UpOrdered(g, w, n, z / 2);
    }
  }

  lemma SwappedContent(h: seq<int>, n: int, i: int, j: int)
    requires 1 <= i <= n < |h| && 1 <= j <= n
    ensures Content(Swapped(h, i, j), n) == Content(h, n)
  {
    assert Swapped(h, i, j)[1..n + 1] == Swapped(h[1..n + 1], i - 1, j - 1);
  }

  lemma {:induction false} UpContent(h: seq<int>, w: seq<int>, n: int, z: int)
    requires Named(h, w, n) && 1 <= z <= n
    ensures Content(Up(h, w, n, z), n) == Content(h, n)
    decreases z
  {
    if w[h[z]] < w[h[z / 2]] {
      SwappedContent(h, n, z, z / 2);
      UpContent(Swapped(h, z, z / 2), w, n, z / 2);
    }
  }

  /** The lighter child of entry z. */
  ghost function Child(h: seq<int>, w: seq<int>, n: int, z: int): (y: int)
    requires Named(h, w, n) && 1 <= z && 2 * z <= n
    ensures 2 * z <= y <= 2 * z + 1 && y <= n
  {
    if 2 * z < n && w[h[2 * z + 1]] < w[h[2 * z]] then 2 * z + 1 else 2 * z
  }

  /** Entry z sinks while it is not lighter than its lighter child. */
  ghost function Down(h: seq<int>, w: seq<int>, n: int, z: int): (r: seq<int>)
    requires Named(h, w, n) && 1 <= z < |h|
    ensures |r| == |h| && Named(r, w, n)
    decreases n - z
  {
    if 2 * z <= n && w[h[z]] >= w[h[Child(h, w, n, z)]] then
      Down(Swapped(h, z, Child(h, w, n, z)), w, n, Child(h, w, n, z))
    else h
  }

  lemma DownStep(h: seq<int>, w: seq<int>, n: int, z: int, y: int)
    requires Named(h, w, n) && 1 <= z && 2 * z <= n && y == Child(h, w, n, z) && w[h[z]] >= w[h[y]]
    ensures Named(Swapped(h, z, y), w, n)
    ensures Down(h, w, n, z) == Down(Swapped(h, z, y), w, n, y)
  {
  }

  lemma DownStop(h: seq<int>, w: seq<int>, n: int, z: int)
    requires Named(h, w, n) && 1 <= z < |h| && (2 * z <= n ==> w[h[z]] < w[h[Child(h, w, n, z)]])
    ensures Down(h, w, n, z) == h
  {
  }

  lemma SankOne(h: seq<int>, g: seq<int>, w: seq<int>, n: int, z: int, y: int)
    requires Named(h, w, n) && Named(g, w, n) && 1 <= z && 2 * z <= y <= 2 * z + 1 && y <= n
    requires OrderedAbove(h, w, n, z) && g == Swapped(h, z, y) && w[h[z]] >= w[h[y]]
    requires forall k :: 2 <= k <= n && k / 2 == z ==> w[h[y]] <= w[h[k]]
    ensures OrderedAbove(g, w, n, y)
  {
  }

  lemma {:induction false} DownOrdered(h: seq<int>, w: seq<int>, n: int, z: int)
    requires Named(h, w, n) && 1 <= z < |h| && OrderedAbove(h, w, n, z)
    ensures Ordered(Down(h, w, n, z), w, n)
    decreases n - z
  {
    if 2 * z <= n && w[h[z]] >= w[h[Child(h, w, n, z)]] {
      var y := Child(h, w, n, z);
      var g := Swapped(h, z, y);
      assert forall k :: 2 <= k <= n && k / 2 == z ==> k == 2 * z || k == 2 * z + 1;
      assert forall k :: 2 <= k <= n && k / 2 == z ==> w[h[y]] <= w[h[k]];
      DownStep(h, w, n, z, y);
      SankOne(h, g, w, n, z, y);
      DownOrdered(g, w, n, y);
    }
  }

  lemma {:induction false} DownContent(h: seq<int>, w: seq<int>, n: int, z: int)
    requires Named(h, w, n) && 1 <= z < |h|
    ensures Content(Down(h, w, n, z), n) == Content(h, n)
    decreases n - z
  {
    if 2 * z <= n && w[h[z]] >= w[h[Child(h, w, n, z)]] {
      SwappedContent(h, n, z, Child(h, w, n, z));
      DownContent(Swapped(h, z, Child(h, w, n, z)), w, n, Child(h, w, n, z));
    }
  }

  /** The UPHEAP macro, moving entries over a hole. */
  method UpHeap(heap: array<int>, weight: array<int>, n: int, z: int)
    requires heap != weight && Named(heap[..], weight[..], n) && 1 <= z <= n
    modifies heap
    ensures heap[..] == Up(old(heap[..]), weight[..], n, z)
  {
    var zz, tmp := z, heap[z];
    ghost var v, w := heap[..], weight[..];
    while weight[tmp] < weight[heap[zz / 2]]
      invariant 1 <= zz <= n && Named(v, w, n) && v == heap[..][zz := tmp]
      invariant Up(v, w, n, zz) == Up(old(heap[..]), w, n, z)
      decreases zz
    {
      v := Swapped(v, zz, zz / 2);
      heap[zz] := heap[zz / 2];
      zz := zz / 2;
    }
    heap[zz] := tmp;
  }

  /** The DOWNHEAP macro, moving entries over a hole. */
  method DownHeap(heap: array<int>, weight: array<int>, n: int, z: int)
    requires heap != weight && Named(heap[..], weight[..], n) && 1 <= z < heap.Length
    modifies heap
    ensures heap[..] == Down(old(heap[..]), weight[..], n, z)
  {
    var zz, tmp := z, heap[z];
    ghost var v, w := heap[..], weight[..];
    while 2 * zz <= n
      invariant 1 <= zz < heap.Length == |v| && Named(v, w, n) && v[zz] == tmp
      invariant forall k :: 0 <= k < |v| && k != zz ==> heap[k] == v[k]
      invariant Down(v, w, n, zz) == Down(old(heap[..]), w, n, z)
      decreases n - zz
    {
      var yy := 2 * zz;
      if yy < n && weight[heap[yy + 1]] < weight[heap[yy]] { yy := yy + 1; }
      assert yy == Child(v, w, n, zz) && heap[yy] == v[yy];
      if weight[tmp] < weight[heap[yy]] { break; }
      DownStep(v, w, n, zz, yy);
      v := Swapped(v, zz, yy);
      heap[zz] := heap[yy];
      zz := yy;
    }
    DownStop(v, w, n, zz);
    heap[zz] := tmp;
    assert heap[..] == v;
  }

  // ---- Taking the lightest entry and adding one ----

  /** The heap without its root. */
  ghost function Pop(h: seq<int>, w: seq<int>, n: int): (r: seq<int>)
    requires Named(h, w, n) && 1 <= n
    ensures |r| == |h| && Named(r, w, n - 1)
  {
    Down(h[1 := h[n]], w, n - 1, 1)
  }

  /** The heap with node x added. */
  ghost function Push(h: seq<int>, w: seq<int>, n: int, x: int): (r: seq<int>)
    requires Named(h, w, n) && n + 1 < |h| && 0 <= x < |w| && 0 <= w[x]
    ensures |r| == |h| && Named(r, w, n + 1)
  {
    Up(h[n + 1 := x], w, n + 1, n + 1)
  }

  method ExtractMin(heap: array<int>, weight: array<int>, n: int) returns (x: int)
    requires heap != weight && 1 <= n && Named(heap[..], weight[..], n)
    modifies heap
    ensures x == old(heap[1]) && heap[..] == Pop(old(heap[..]), weight[..], n)
  {
    x := heap[1];
    heap[1] := heap[n];
    assert heap[..] == old(heap[..])[1 := old(heap[n])];
    DownHeap(heap, weight, n - 1, 1);
  }

  method Insert(heap: array<int>, weight: array<int>, n: int, x: int)
    requires heap != weight && Named(heap[..], weight[..], n)
    requires n + 1 < heap.Length && 0 <= x < weight.Length && 0 <= weight[x]
    modifies heap
    ensures heap[..] == Push(old(heap[..]), weight[..], n, x)
  {
    heap[n + 1] := x;
    assert heap[..] == old(heap[..])[n + 1 := x];
    UpHeap(heap, weight, n + 1, n + 1);
  }

  lemma RootTaken(h: seq<int>, w: seq<int>, n: int)
    requires Named(h, w, n) && Ordered(h, w, n) && 1 <= n
    ensures Named(h[1 := h[n]], w, n - 1) && OrderedAbove(h[1 := h[n]], w, n - 1, 1)
  {
  }

  lemma RootLeaves(h: seq<int>, n: int)
    requires 1 <= n < |h|
    ensures Content(h[1 := h[n]], n - 1) + multiset{h[1]} == Content(h, n)
  {
    var g := h[1 := h[n]];
    if n == 1 {
      assert g[1..n] == [] && h[1..n + 1] == [h[1]];
    } else {
      assert g[1..n] == [h[n]] + h[2..n];
      assert h[1..n + 1] == [h[1]] + h[2..n] + [h[n]];
    }
  }

  // The size after an operation is a parameter of the lemmas about it, so that
  // callers can state it in their own variables.

  lemma PopOrdered(h: seq<int>, w: seq<int>, n: int, n': int)
    requires Named(h, w, n) && Ordered(h, w, n) && 1 <= n && n' == n - 1
    ensures Named(Pop(h, w, n), w, n') && Ordered(Pop(h, w, n), w, n')
  {
    RootTaken(h, w, n);
    DownOrdered(h[1 := h[n]], w, n - 1, 1);
  }

  lemma PopContent(h: seq<int>, w: seq<int>, n: int, n': int)
    requires Named(h, w, n) && 1 <= n && n' == n - 1
    ensures Content(Pop(h, w, n), n') + multiset{h[1]} == Content(h, n)
  {
    RootLeaves(h, n);
    DownContent(h[1 := h[n]], w, n - 1, 1);
  }

  lemma ContentMin(h: seq<int>, w: seq<int>, n: int, v: int)
    requires Named(h, w, n) && Ordered(h, w, n) && v in Content(h, n)
    ensures 1 <= n && 0 <= v < |w| && 0 <= w[h[1]] <= w[v]
  {
    var k :| 0 <= k < n && h[1..n + 1][k] == v;
    assert h[k + 1] == v;
    RootMin(h, w, n, k + 1);
  }

  lemma PushOrdered(h: seq<int>, w: seq<int>, n: int, x: int, n': int)
    requires Named(h, w, n) && Ordered(h, w, n) && n + 1 < |h| && 0 <= x < |w| && 0 <= w[x] && n' == n + 1
    ensures Named(Push(h, w, n, x), w, n') && Ordered(Push(h, w, n, x), w, n')
  {
    assert OrderedBut(h[n + 1 := x], w, n + 1, n + 1);
    UpOrdered(h[n + 1 := x], w, n + 1, n + 1);
  }

  lemma PushContent(h: seq<int>, w: seq<int>, n: int, x: int, n': int)
    requires Named(h, w, n) && n + 1 < |h| && 0 <= x < |w| && 0 <= w[x] && n' == n + 1
    ensures Content(Push(h, w, n, x), n') == Content(h, n) + multiset{x}
  {
    UpContent(h[n + 1 := x], w, n + 1, n + 1);
    assert h[n + 1 := x][1..n + 2] == h[1..n + 1] + [x];
  }
}
