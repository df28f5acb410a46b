/**
 * build_tree: deflate's trees are built by merging the two least frequent nodes
 * until one is left. The nodes come out with every parent before its children,
 * which is the order gen_bitlen relies on.
 */
module BuildTree {
  import opened Common
  import opened NodeHeap
  import opened DeflateLengths
  import opened HuffmanCost
  import opened Merges
  import opened MergeTree
  import opened MergeCost

  // ---- build_tree ----

  /** The heap holds exactly the leaves. */
  ghost predicate HoldsLeaves(heap: seq<int>, n: nat, leaves: set<int>) {
    n < |heap| && forall v :: Content(heap, n)[v] == if v in leaves then 1 else 0
  }

  lemma LeafAdded(heap: seq<int>, n: nat, next: nat, leaves: set<int>, v: int)
    requires HoldsLeaves(heap, n, leaves) && next == n + 1 < |heap| && v !in leaves
    ensures HoldsLeaves(heap[next := v], next, leaves + {v})
  {
    assert heap[next := v][1..next + 1] == heap[1..n + 1] + [v];
  }

  /** The leaves are the symbols below v that occur, and maxCode is the last of them. */
  ghost predicate Occurring(leaves: set<int>, freq: seq<nat>, v: int, n: nat, maxCode: int) {
    var holds :=
      && 0 <= v <= |freq| && |leaves| == n <= v && -1 <= maxCode < v
      && (forall u :: u in leaves <==> 0 <= u < v && freq[u] != 0) && (forall u :: u in leaves ==> u <= maxCode)
      && (if n > 0 then maxCode in leaves else maxCode == -1);
    holds
  }

  lemma OccurringNext(leaves: set<int>, freq: seq<nat>, v: int, n: nat, maxCode: int, next: int)
    requires Occurring(leaves, freq, v, n, maxCode) && v < |freq| && next == v + 1
    ensures v !in leaves
    ensures freq[v] != 0 ==> Occurring(leaves + {v}, freq, next, n + 1, v)
    ensures freq[v] == 0 ==> Occurring(leaves, freq, next, n, maxCode)
  {
  }

  /** The symbols that occur. */
  method ScanSymbols(freq: seq<nat>, heap: array<int>) returns (n: nat, maxCode: int, ghost leaves: set<int>)
    requires |freq| < heap.Length
    modifies heap
    ensures HoldsLeaves(heap[..], n, leaves) && Occurring(leaves, freq, |freq|, n, maxCode)
  {
    n, maxCode, leaves := 0, -1, {};
    var v := 0;
    assert heap[1..1] == [];
    while v < |freq|
      invariant 0 <= v <= |freq| && HoldsLeaves(heap[..], n, leaves) && Occurring(leaves, freq, v, n, maxCode)
    {
      OccurringNext(leaves, freq, v, n, maxCode, v + 1);
      if freq[v] != 0 {
        LeafAdded(heap[..], n, n + 1, leaves, v);
        n, maxCode, leaves := n + 1, v, leaves + {v};
        heap[n] := v;
      }
      v := v + 1;
    }
  }

  lemma Forced(leaves: set<int>, freq: seq<nat>, n: nat, maxCode: int, top: int, node: int)
    requires Occurring(leaves, freq, |freq|, n, maxCode) && n < 2 && 3 <= |freq|
    requires if maxCode < 2 then top == node == maxCode + 1 else top == maxCode && node == 0
    ensures node !in leaves && 0 <= node < |freq| && freq[node] == 0
    ensures Occurring(leaves + {node}, freq[node := 1], |freq|, n + 1, top)
  {
    OnlyOne(leaves, n, maxCode, node);
  }

  /** At least two symbols are made to occur. */
  method ForceTwo(freq0: seq<nat>, heap: array<int>, n0: nat, maxCode0: int, ghost leaves0: set<int>)
    returns (n: nat, maxCode: int, freq: seq<nat>, ghost leaves: set<int>)
    requires 3 <= |freq0| < heap.Length && HoldsLeaves(heap[..], n0, leaves0)
    requires Occurring(leaves0, freq0, |freq0|, n0, maxCode0)
    modifies heap
    ensures 2 <= n && |freq| == |freq0| && HoldsLeaves(heap[..], n, leaves)
    ensures Occurring(leaves, freq, |freq|, n, maxCode)
    ensures forall v :: 0 <= v < |freq0| && freq0[v] != 0 ==> freq[v] == freq0[v]
    ensures n0 >= 2 ==> freq == freq0
  {
    n, maxCode, freq, leaves := n0, maxCode0, freq0, leaves0;
    while n < 2
      invariant HoldsLeaves(heap[..], n, leaves) && |freq| == |freq0| && Occurring(leaves, freq, |freq|, n, maxCode)
      invariant forall u :: 0 <= u < |freq0| && freq0[u] != 0 ==> freq[u] == freq0[u]
      invariant n0 >= 2 ==> freq == freq0
      decreases 2 - n
    {
      var top, node := maxCode, 0;
      if maxCode < 2 { top, node := maxCode + 1, maxCode + 1; }
      Forced(leaves, freq, n, maxCode, top, node);
      LeafAdded(heap[..], n, n + 1, leaves, node);
      n, maxCode, leaves, freq := n + 1, top, leaves + {node}, freq[node := 1];
      heap[n] := node;
    }
  }

  /** Of fewer than two leaves, none is a symbol other than the last. */
  lemma OnlyOne(leaves: set<int>, n: nat, maxCode: int, node: int)
    requires |leaves| == n < 2 && (forall u :: u in leaves ==> u <= maxCode) && (n > 0 ==> maxCode in leaves)
    requires if maxCode < 2 then node == maxCode + 1 else node == 0
    ensures node !in leaves
  {
    if node in leaves {
      assert {node, maxCode} <= leaves;
      SubsetSize({node, maxCode}, leaves);
    }
  }

  /** The order is the nodes placed, the last one first. */
  ghost predicate Backwards(order: seq<int>, placed: seq<int>) {
    |order| == |placed| && forall i :: 0 <= i < |order| ==> order[i] == placed[|placed| - 1 - i]
  }

  /** The state of the merging loop. */
  ghost predicate Going(heap: seq<int>, n: nat, nodes: nat, placed: seq<int>, order: seq<int>, dad: seq<int>,
                        leaves: set<int>, elems: int, k: int) {
    && Named(heap, n, nodes)
    && forall i {:trigger Lock(i)} :: Lock(i) ==>
      Merging(placed, Content(heap, n), dad, leaves, elems, k) && Backwards(order, placed)
  }

  lemma RoundStarts(heap: seq<int>, n: nat, freq: seq<nat>, depth: seq<nat>, dad: seq<int>, leaves: set<int>,
                    freq0: seq<nat>, elems: nat)
    requires Named(heap, n, |dad|) && |freq| == |depth| == |dad| && HeapFrom(heap, n, freq, depth, 1)
    requires |freq0| == elems <= |dad| && forall v :: v in leaves ==> 0 <= v < elems
    requires forall v :: Content(heap, n)[v] == if v in leaves then 1 else 0
    requires forall v :: 0 <= v < elems ==> freq[v] == freq0[v]
    ensures Round(heap, n, freq, depth, [], [], dad, leaves, freq0, elems, 0)
  {
    MergingStarts(Content(heap, n), dad, leaves, elems);
  }

  /** Before each merge: the nodes, their weights and the heap. */
  ghost predicate Round(heap: seq<int>, n: nat, freq: seq<nat>, depth: seq<nat>, placed: seq<int>, order: seq<int>,
                        dad: seq<int>, leaves: set<int>, freq0: seq<nat>, elems: int, k: int) {
    && |freq| == |depth| == |dad| && Going(heap, n, |dad|, placed, order, dad, leaves, elems, k)
    && HeapFrom(heap, n, freq, depth, 1) && Weighed(placed, Content(heap, n), freq, freq0, elems, k)
  }

  /** One turn of the merging loop. */
  method MergeOnce(heap: array<int>, n: nat, freq: seq<nat>, depth: seq<nat>, node: nat, order: seq<int>, dad: seq<int>,
                   ghost placed: seq<int>, ghost leaves: set<int>, ghost freq0: seq<nat>, ghost elems: int,
                   ghost k: int)
    returns (freq2: seq<nat>, depth2: seq<nat>, order2: seq<int>, dad2: seq<int>, ghost placed2: seq<int>)
    requires 2 <= n && |freq| == |depth| && node == elems + k < |dad|
    requires Round(heap[..], n, freq, depth, placed, order, dad, leaves, freq0, elems, k)
    modifies heap
    ensures |freq2| == |depth2| == |dad2| == |dad|
    ensures Round(heap[..], n - 1, freq2, depth2, placed2, order2, dad2, leaves, freq0, elems, k + 1)
  {
    hide HeapFrom, Least, Weighed;
    ghost var h := heap[..];
    NodeIsNew(h, n, placed, order, dad, leaves, elems, k);
    var a, b;
    a, b, freq2, depth2 := Merge(heap, n, freq, depth, node);
    dad2 := dad[a := node][b := node];
    order2, placed2 := [b, a] + order, placed + [a, b];
    GoingOn(h, heap[..], n, n - 1, placed, order, dad, dad2, leaves, elems, k, k + 1, a, b);
    WeighedStep(placed, Content(h, n), freq, depth, freq0, elems, k, k + 1, a, b, Content(heap[..], n - 1), freq2);
  }

  /** The node to be made is not in the heap and has not been placed. */
  lemma NodeIsNew(h: seq<int>, n: nat, placed: seq<int>, order: seq<int>, dad: seq<int>, leaves: set<int>,
                  elems: int, k: int)
    requires Going(h, n, |dad|, placed, order, dad, leaves, elems, k)
    ensures elems + k !in Content(h, n) && elems + k !in placed && 0 <= k
  {
    assert Lock(0) && Key(0);
    var node := elems + k;
    assert !Known(leaves, elems, k, node);
    assert multiset(placed)[node] == 0;
  }

  lemma GoingOn(h: seq<int>, h2: seq<int>, n: nat, m: nat, placed: seq<int>, order: seq<int>, dad: seq<int>,
                dad2: seq<int>, leaves: set<int>, elems: int, k: int, next: int, a: int, b: int)
    requires Going(h, n, |dad|, placed, order, dad, leaves, elems, k) && m + 1 == n && next == k + 1
    requires elems + k < |dad|
    requires Named(h2, m, |dad|) && 0 <= a < |dad| && 0 <= b < |dad| && dad2 == dad[a := elems + k][b := elems + k]
    requires multiset{a} + multiset{b} <= Content(h, n)
    requires Content(h2, m) + multiset{a} + multiset{b} == Content(h, n) + multiset{elems + k}
    ensures Going(h2, m, |dad2|, placed + [a, b], [b, a] + order, dad2, leaves, elems, next)
  {
    assert Lock(0);
    MergeStep(placed, Content(h, n), dad, leaves, elems, k, next, a, b, Content(h2, m), dad2);
  }

  /** Combines the two least frequent nodes until one is left. */
  method MergeAll(heap: array<int>, n0: nat, freq0: seq<nat>, maxCode: int, ghost leaves: set<int>)
    returns (order: seq<int>, dad: seq<int>, ghost t: Tree, ghost w: seq<nat>)
    requires 2 <= n0 && HoldsLeaves(heap[..], n0, leaves) && Occurring(leaves, freq0, |freq0|, n0, maxCode)
    modifies heap
    ensures Shaped(t) && order == t.order && dad == t.dad && maxCode == t.maxCode && |dad| >= |freq0|
    ensures forall v :: 0 <= v < |freq0| ==> (Before(t, v, |order|) <==> v in leaves)
    ensures SiblingOrder(t, w, freq0) && Best(leaves, w, Depths(t))
  {
    hide Round, SiblingOrder, Best;
    var elems := |freq0|;
    ghost var placed: seq<int>, k := [], 0;
    var n, node, freq := n0, elems, freq0 + seq(n0, _ => 0);
    var depth: seq<nat> := seq(elems + n0, _ => 0);
    dad := seq(elems + n0, _ => 0);
    order := [];
    LeavesNamed(heap[..], n0, leaves, elems, |freq|);
    Heapify(heap, n0, freq, depth);
    RoundStarts(heap[..], n0, freq, depth, dad, leaves, freq0, elems);
    while n >= 2
      invariant 1 <= n && n + k == n0 && node == elems + k && |freq| == |depth| == |dad| == elems + n0
      invariant Round(heap[..], n, freq, depth, placed, order, dad, leaves, freq0, elems, k)
      decreases n
    {
      freq, depth, order, dad, placed :=
        MergeOnce(heap, n, freq, depth, node, order, dad, placed, leaves, freq0, elems, k);
      n, node, k := n - 1, node + 1, k + 1;
    }
    t := LastNode(heap[..], placed, order, dad, freq, depth, freq0, leaves, elems, k, maxCode);
    w := freq;
    order := [heap[1]] + order;
  }

  lemma LastNode(heap: seq<int>, placed: seq<int>, order: seq<int>, dad: seq<int>, w: seq<nat>, depth: seq<nat>,
                 freq0: seq<nat>, leaves: set<int>, elems: int, k: int, maxCode: int)
    returns (t: Tree)
    requires Round(heap, 1, w, depth, placed, order, dad, leaves, freq0, elems, k) && k >= 1 && 0 <= maxCode < elems
    requires forall v :: v in leaves ==> 0 <= v <= maxCode
    ensures SiblingOrder(t, w, freq0) && Shaped(t) && Best(leaves, w, Depths(t))
    ensures Shaped(t) && [heap[1]] + order == t.order && dad == t.dad && maxCode == t.maxCode && elems <= |dad|
    ensures forall v :: 0 <= v < elems ==> (Before(t, v, |t.order|) <==> v in leaves)
  {
    hide Weighed, SiblingOrder, Best;
    assert Lock(0);
    assert heap[1..2] == [heap[1]];
    InSiblingOrder(placed, Content(heap, 1), dad, w, freq0, leaves, elems, k, heap[1], maxCode);
    TreeIsBest(placed, Content(heap, 1), dad, w, freq0, leaves, elems, k, heap[1], maxCode);
    TreeShaped(placed, Content(heap, 1), dad, leaves, elems, k, heap[1], maxCode);
    t := TreeOf(placed, heap[1], dad, elems, maxCode);
    forall v | 0 <= v < elems ensures Before(t, v, |t.order|) <==> v in leaves {
      assert Before(TreeOf(placed, heap[1], dad, elems, maxCode), v, |placed| + 1) <==> Known(leaves, elems, k, v);
    }
  }

  lemma LeavesNamed(heap: seq<int>, n: nat, leaves: set<int>, elems: int, nodes: nat)
    requires HoldsLeaves(heap, n, leaves) && (forall v :: v in leaves ==> 0 <= v < elems) && elems <= nodes
    ensures Named(heap, n, nodes)
  {
    forall i | 1 <= i <= n ensures 0 <= heap[i] < nodes {
      assert heap[1..n + 1][i - 1] == heap[i];
      assert heap[i] in Content(heap, n);
    }
  }

  lemma MergingStarts(c: multiset<int>, dad: seq<int>, leaves: set<int>, elems: int)
    requires (forall v :: c[v] == if v in leaves then 1 else 0) && (forall v :: v in leaves ==> 0 <= v < elems)
    requires 0 <= elems <= |dad|
    ensures Merging([], c, dad, leaves, elems, 0)
  {
  }
}
