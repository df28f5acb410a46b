/** deflate's heap of the nodes still to be merged, the least frequent first: pqdownheap and pqremove. */
module NodeHeap {
  /** The nodes in the heap. */
  ghost function Content(heap: seq<int>, n: nat): multiset<int>
    requires n < |heap|
  {
    multiset(heap[1..n + 1])
  }

  lemma ContentSwap(heap: seq<int>, n: nat, k: int, j: int)
    requires 1 <= k <= n < |heap| && 1 <= j <= n
    ensures Content(heap[k := heap[j]][j := heap[k]], n) == Content(heap, n)
  {
    var s := heap[1..n + 1];
    assert heap[k := heap[j]][j := heap[k]][1..n + 1] == s[k - 1 := s[j - 1]][j - 1 := s[k - 1]];
  }

  /** The order of the heap: the less frequent first, and of equals the shallower. */
  predicate Smaller(freq: seq<nat>, depth: seq<nat>, n: int, m: int)
    requires 0 <= n < |freq| == |depth| && 0 <= m < |freq|
  {
    freq[n] < freq[m] || (freq[n] == freq[m] && depth[n] <= depth[m])
  }

  ghost predicate Under(freq: seq<nat>, depth: seq<nat>, n: int, m: int) {
    |freq| == |depth| && 0 <= n < |freq| && 0 <= m < |freq| && Smaller(freq, depth, n, m)
  }

  ghost predicate Named(heap: seq<int>, n: nat, nodes: nat) {
    n < |heap| && forall i :: 1 <= i <= n ==> 0 <= heap[i] < nodes
  }

  ghost predicate Son(p: int, i: int) { i == 2 * p || i == 2 * p + 1 }

  /** Each father from place lo on is no larger than its sons. */
  ghost predicate HeapFrom(h: seq<int>, n: nat, freq: seq<nat>, depth: seq<nat>, lo: int) {
    && n < |h| && 1 <= lo
    && forall p, i {:trigger Son(p, i)} :: lo <= p && Son(p, i) && i <= n ==> Under(freq, depth, h[p], h[i])
  }

  ghost predicate Least(freq: seq<nat>, depth: seq<nat>, top: int, c: multiset<int>) {
    forall v :: v in c ==> Under(freq, depth, top, v)
  }

  // ---- Moving down ----

  /** v is on its way down from k0 and has come to k, where it has not been written. */
  ghost predicate Sinking(h: seq<int>, n: nat, freq: seq<nat>, depth: seq<nat>, k0: int, k: int, v: int) {
    && 1 <= k0 <= k <= n && HeapFrom(h, n, freq, depth, if k == k0 then k0 + 1 else k0)
    && (k > k0 ==> k0 <= k / 2 && Under(freq, depth, h[k / 2], v))
  }

  /** v is no larger than the sons of k. */
  ghost predicate OverSons(h: seq<int>, n: nat, freq: seq<nat>, depth: seq<nat>, k: int, v: int) {
    && n < |h| && 1 <= k
    && forall i {:trigger Son(k, i)} :: Son(k, i) && i <= n ==> Under(freq, depth, v, h[i])
  }

  /** The smaller son moves up. */
  lemma SinkStep(h: seq<int>, n: nat, freq: seq<nat>, depth: seq<nat>, k0: int, k: int, j: int, v: int)
    requires Sinking(h, n, freq, depth, k0, k, v) && Son(k, j) && j <= n && Under(freq, depth, h[j], v)
    requires OverSons(h, n, freq, depth, k, h[j])
    ensures Sinking(h[k := h[j]], n, freq, depth, k0, j, v)
  {
    var g := h[k := h[j]];
    forall p, i | k0 <= p && Son(p, i) && i <= n ensures Under(freq, depth, g[p], g[i]) {
      if p == k { assert Son(k, i); }
      if i == k { assert p == k / 2 && Son(k, j); }
    }
  }

  /** v has come to its place. */
  lemma SinkEnds(h: seq<int>, n: nat, freq: seq<nat>, depth: seq<nat>, k0: int, k: int, v: int)
    requires Sinking(h, n, freq, depth, k0, k, v) && OverSons(h, n, freq, depth, k, v)
    ensures HeapFrom(h[k := v], n, freq, depth, k0)
  {
    var g := h[k := v];
    forall p, i | k0 <= p && Son(p, i) && i <= n ensures Under(freq, depth, g[p], g[i]) {
      if p == k { assert Son(k, i); }
      if i == k { assert p == k / 2; }
    }
  }

  /** The smaller son of k. */
  lemma SmallerSon(h: seq<int>, n: nat, freq: seq<nat>, depth: seq<nat>, k: int, j: int, v: int)
    requires 1 <= k && 2 * k <= n && Named(h, n, |freq|) && |freq| == |depth| && 0 <= v < |freq|
    requires j == if 2 * k < n && Smaller(freq, depth, h[2 * k + 1], h[2 * k]) then 2 * k + 1 else 2 * k
    ensures Son(k, j) && j <= n && OverSons(h, n, freq, depth, k, h[j])
    ensures if Smaller(freq, depth, v, h[j]) then OverSons(h, n, freq, depth, k, v) else Under(freq, depth, h[j], v)
  {
  }

  /** The nodes are those there were, with v at k, and outside the heap nothing has changed. */
  ghost predicate Moving(was: seq<int>, h: seq<int>, n: nat, k: int, v: int) {
    var holds :=
      && 1 <= k <= n < |h| == |was| && Content(h[k := v], n) == Content(was, n)
      && forall i :: 0 <= i < |h| && !(1 <= i <= n) ==> h[i] == was[i];
    holds
  }

  lemma MovesOn(was: seq<int>, h: seq<int>, n: nat, k: int, j: int, v: int)
    requires Moving(was, h, n, k, v) && 1 <= j <= n && k != j
    ensures Moving(was, h[k := h[j]], n, j, v)
  {
    SonUp(h, n, k, j, v);
  }

  lemma StartsMoving(h: seq<int>, n: nat, freq: seq<nat>, depth: seq<nat>, k0: int)
    requires 1 <= k0 <= n && HeapFrom(h, n, freq, depth, k0 + 1)
    ensures Sinking(h, n, freq, depth, k0, k0, h[k0]) && Moving(h, h, n, k0, h[k0])
  {
    assert h[k0 := h[k0]] == h;
  }

  /** pqdownheap: the node at k0 moves down past smaller sons, and from k0 on there is a heap again. */
  method PqDownHeap(heap: array<int>, n: nat, freq: seq<nat>, depth: seq<nat>, k0: nat)
    requires |freq| == |depth| && Named(heap[..], n, |freq|) && 1 <= k0 <= n
    requires HeapFrom(heap[..], n, freq, depth, k0 + 1)
    modifies heap
    ensures Named(heap[..], n, |freq|) && Content(heap[..], n) == old(Content(heap[..], n))
    ensures HeapFrom(heap[..], n, freq, depth, k0)
    ensures forall i :: 0 <= i < heap.Length && !(1 <= i <= n) ==> heap[i] == old(heap[i])
  {
    hide Sinking, HeapFrom, OverSons, Moving;
    ghost var was := heap[..];
    var v, k, j := heap[k0], k0, 2 * k0;
    StartsMoving(was, n, freq, depth, k0);
    while j <= n
      invariant 1 <= k <= n && j == 2 * k && 0 <= v < |freq| && Named(heap[..], n, |freq|)
      invariant Sinking(heap[..], n, freq, depth, k0, k, v) && Moving(was, heap[..], n, k, v)
      decreases n - k
    {
      ghost var h := heap[..];
      if j < n && Smaller(freq, depth, heap[j + 1], heap[j]) { j := j + 1; }
      SmallerSon(h, n, freq, depth, k, j, v);
      if Smaller(freq, depth, v, heap[j]) { break; }
      MovesOn(was, h, n, k, j, v);
      SinkStep(h, n, freq, depth, k0, k, j, v);
      heap[k] := heap[j];
      assert heap[..] == h[k := h[j]];
      k := j;
      j := 2 * j;
    }
    ghost var h := heap[..];
    AtPlace(was, h, n, freq, depth, k0, k, v);
    heap[k] := v;
    assert heap[..] == h[k := v];
  }

  lemma AtPlace(was: seq<int>, h: seq<int>, n: nat, freq: seq<nat>, depth: seq<nat>, k0: int, k: int, v: int)
    requires Sinking(h, n, freq, depth, k0, k, v) && Moving(was, h, n, k, v)
    requires 2 * k > n || OverSons(h, n, freq, depth, k, v)
    ensures HeapFrom(h[k := v], n, freq, depth, k0) && Content(h[k := v], n) == Content(was, n)
    ensures forall i :: 0 <= i < |h| && !(1 <= i <= n) ==> h[i] == was[i]
  {
    SinkEnds(h, n, freq, depth, k0, k, v);
  }

  lemma SonUp(h: seq<int>, n: nat, k: int, j: int, v: int)
    requires 1 <= k <= n < |h| && 1 <= j <= n && k != j
    ensures Content(h[k := h[j]][j := v], n) == Content(h[k := v], n)
  {
    ContentSwap(h[k := v], n, k, j);
    assert h[k := v][k := h[k := v][j]][j := h[k := v][k]] == h[k := h[j]][j := v];
  }

  /** The first node is the least. */
  lemma {:induction false} FirstIsLeast(h: seq<int>, n: nat, freq: seq<nat>, depth: seq<nat>, i: int)
    requires HeapFrom(h, n, freq, depth, 1) && Named(h, n, |freq|) && |freq| == |depth| && 1 <= i <= n
    ensures Under(freq, depth, h[1], h[i])
    decreases i
  {
    if i > 1 {
      FirstIsLeast(h, n, freq, depth, i / 2);
      assert Son(i / 2, i);
    }
  }

  lemma LeastOfAll(h: seq<int>, n: nat, freq: seq<nat>, depth: seq<nat>)
    requires HeapFrom(h, n, freq, depth, 1) && Named(h, n, |freq|) && |freq| == |depth| && 1 <= n
    ensures Least(freq, depth, h[1], Content(h, n))
  {
    forall v | v in Content(h, n) ensures Under(freq, depth, h[1], v) {
      var i :| 0 <= i < n && h[1..n + 1][i] == v;
      FirstIsLeast(h, n, freq, depth, i + 1);
    }
  }

  /** Below the first node the heap may be shortened and the first node replaced. */
  lemma HeapBelow(h: seq<int>, n: nat, freq: seq<nat>, depth: seq<nat>, m: nat, v: int)
    requires HeapFrom(h, n, freq, depth, 1) && 1 <= m <= n
    ensures HeapFrom(h[1 := v], m, freq, depth, 2)
  {
  }

  /** pqremove: the first node, which is the least, leaves the heap. */
  method PqRemove(heap: array<int>, n: nat, freq: seq<nat>, depth: seq<nat>) returns (top: int)
    requires |freq| == |depth| && Named(heap[..], n, |freq|) && 2 <= n && HeapFrom(heap[..], n, freq, depth, 1)
    modifies heap
    ensures Named(heap[..], n - 1, |freq|) && 0 <= top < |freq| && HeapFrom(heap[..], n - 1, freq, depth, 1)
    ensures old(Content(heap[..], n)) == Content(heap[..], n - 1) + multiset{top}
    ensures Least(freq, depth, top, old(Content(heap[..], n)))
  {
    hide HeapFrom, Least;
    ghost var was, m := heap[..], n - 1;
    LeastOfAll(was, n, freq, depth);
    HeapBelow(was, n, freq, depth, m, was[n]);
    top := heap[1];
    TopOut(was, n, m);
    heap[1] := heap[n];
    assert heap[..] == was[1 := was[n]];
    PqDownHeap(heap, n - 1, freq, depth, 1);
  }

  lemma TopOut(h: seq<int>, n: nat, m: nat)
    requires 2 <= n < |h| && m == n - 1
    ensures Content(h, n) == Content(h[1 := h[n]], m) + multiset{h[1]}
  {
    var mid := h[2..n];
    assert h[1..n + 1] == [h[1]] + mid + [h[n]];
    assert h[1 := h[n]][1..n] == [h[n]] + mid;
  }

  /** The first node is replaced. */
  method PqReplace(heap: array<int>, n: nat, freq: seq<nat>, depth: seq<nat>, node: int)
    requires |freq| == |depth| && Named(heap[..], n, |freq|) && 1 <= n && 0 <= node < |freq|
    requires HeapFrom(heap[..], n, freq, depth, 1)
    modifies heap
    ensures Named(heap[..], n, |freq|) && HeapFrom(heap[..], n, freq, depth, 1)
    ensures Content(heap[..], n) + multiset{old(heap[1])} == old(Content(heap[..], n)) + multiset{node}
  {
    hide HeapFrom;
    ghost var was := heap[..];
    FirstReplaced(was, n, node);
    HeapBelow(was, n, freq, depth, n, node);
    heap[1] := node;
    assert heap[..] == was[1 := node];
    PqDownHeap(heap, n, freq, depth, 1);
  }

  lemma FirstReplaced(h: seq<int>, n: nat, node: int)
    requires 1 <= n < |h|
    ensures Content(h[1 := node], n) + multiset{h[1]} == Content(h, n) + multiset{node}
  {
    var s := h[1..n + 1];
    assert s == [h[1]] + s[1..];
    assert h[1 := node][1..n + 1] == [node] + s[1..];
  }

  /** The nodes are put in heap order; they stay the same. */
  method Heapify(heap: array<int>, n: nat, freq: seq<nat>, depth: seq<nat>)
    requires |freq| == |depth| && Named(heap[..], n, |freq|)
    modifies heap
    ensures Named(heap[..], n, |freq|) && Content(heap[..], n) == old(Content(heap[..], n))
    ensures HeapFrom(heap[..], n, freq, depth, 1)
  {
    var k := n / 2;
    while k >= 1
      invariant 0 <= k <= n / 2 && Named(heap[..], n, |freq|) && Content(heap[..], n) == old(Content(heap[..], n))
      invariant HeapFrom(heap[..], n, freq, depth, k + 1)
    {
      PqDownHeap(heap, n, freq, depth, k);
      k := k - 1;
    }
  }

  // ---- Joining two nodes ----

  /** A node outside the heap may change its frequency. */
  lemma SameHeap(h: seq<int>, n: nat, freq: seq<nat>, depth: seq<nat>, node: int, f: nat, d: nat)
    requires HeapFrom(h, n, freq, depth, 1) && Named(h, n, |freq|) && |freq| == |depth| && 0 <= node < |freq|
    requires node !in Content(h, n)
    ensures HeapFrom(h, n, freq[node := f], depth[node := d], 1)
  {
    forall i | 1 <= i <= n ensures h[i] != node { assert h[i] == h[1..n + 1][i - 1]; }
    forall p, i | 1 <= p && Son(p, i) && i <= n ensures Under(freq[node := f], depth[node := d], h[p], h[i]) {
      assert Under(freq, depth, h[p], h[i]);
    }
  }

  /** The two least frequent nodes become the children of a new one. */
  method Merge(heap: array<int>, n: nat, freq: seq<nat>, depth: seq<nat>, node: nat)
    returns (a: int, b: int, freq2: seq<nat>, depth2: seq<nat>)
    requires |freq| == |depth| && Named(heap[..], n, |freq|) && 2 <= n && node < |freq|
    requires HeapFrom(heap[..], n, freq, depth, 1) && node !in Content(heap[..], n)
    modifies heap
    ensures 0 <= a < |freq| && 0 <= b < |freq| && |depth2| == |freq| && freq2 == freq[node := freq[a] + freq[b]]
    ensures Named(heap[..], n - 1, |freq|) && HeapFrom(heap[..], n - 1, freq2, depth2, 1)
    ensures multiset{a} + multiset{b} <= old(Content(heap[..], n))
    ensures Content(heap[..], n - 1) + multiset{a} + multiset{b} == old(Content(heap[..], n)) + multiset{node}
    ensures Least(freq, depth, a, old(Content(heap[..], n)))
    ensures Least(freq, depth, b, old(Content(heap[..], n)) - multiset{a})
  {
    hide HeapFrom, Least;
    ghost var c0 := Content(heap[..], n);
    a := PqRemove(heap, n, freq, depth);
    ghost var c1 := Content(heap[..], n - 1);
    assert c1 == c0 - multiset{a};
    LeastOfAll(heap[..], n - 1, freq, depth);
    b := heap[1];
    assert heap[..][1..n][0] == b;
    freq2 := freq[node := freq[a] + freq[b]];
    depth2 := depth[node := (if depth[a] >= depth[b] then depth[a] else depth[b]) + 1];
    SameHeap(heap[..], n - 1, freq, depth, node, freq2[node], depth2[node]);
    PqReplace(heap, n - 1, freq2, depth2, node);
    TwoForOne(c0, c1, Content(heap[..], n - 1), a, b, node);
  }

  lemma TwoForOne(c0: multiset<int>, c1: multiset<int>, c2: multiset<int>, a: int, b: int, node: int)
    requires c0 == c1 + multiset{a} && c2 + multiset{b} == c1 + multiset{node} && b in c1
    ensures multiset{a} + multiset{b} <= c0 && c2 + multiset{a} + multiset{b} == c0 + multiset{node}
  {
    forall v ensures (c2 + multiset{a} + multiset{b})[v] == (c0 + multiset{node})[v] {
      assert (c2 + multiset{b})[v] == (c1 + multiset{node})[v];
    }
  }
}
