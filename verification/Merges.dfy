/** What build_tree's merging loop keeps: which nodes there are, their fathers and their weights. */
module Merges {
  import opened Common
  import opened NodeHeap

  // ---- Merging ----

  /** v is a leaf, or one of the first k nodes made by merging. */
  ghost predicate Known(leaves: set<int>, elems: int, k: int, v: int) { v in leaves || elems <= v < elems + k }

  /** Every node there is, is either still in the heap or has been placed. */
  ghost predicate Spread(placed: seq<int>, c: multiset<int>, leaves: set<int>, elems: int, k: int) {
    forall v :: multiset(placed)[v] + c[v] == if Known(leaves, elems, k, v) then 1 else 0
  }

  /** Merge j placed its two nodes at 2j and 2j + 1, both older than the node it made. */
  ghost predicate Merged(placed: seq<int>, dad: seq<int>, elems: int, j: int) {
    && 0 <= j && 2 * j + 1 < |placed|
    && Below(placed[2 * j], dad, elems, j) && Below(placed[2 * j + 1], dad, elems, j)
  }

  ghost predicate Below(v: int, dad: seq<int>, elems: int, j: int) {
    0 <= v < elems + j && v < |dad| && dad[v] == elems + j
  }

  /** The state after k merges. */
  ghost predicate Merging(placed: seq<int>, c: multiset<int>, dad: seq<int>, leaves: set<int>, elems: int, k: int) {
    && 0 <= k && |placed| == 2 * k && elems + k <= |dad| && (forall v :: v in leaves ==> 0 <= v < elems)
    && (k >= 1 ==> c[elems + k - 1] == 1)
    && forall i {:trigger Key(i)} :: Key(i) ==>
      && Spread(placed, c, leaves, elems, k)
      && forall j :: 0 <= j < k ==> Merged(placed, dad, elems, j)
  }

  lemma MergedAll(placed: seq<int>, c: multiset<int>, dad: seq<int>, leaves: set<int>, elems: int, k: int)
    requires Merging(placed, c, dad, leaves, elems, k)
    ensures forall j :: 0 <= j < k ==> Merged(placed, dad, elems, j)
  {
    assert Key(0);
  }

  lemma MergeStep(placed: seq<int>, c: multiset<int>, dad: seq<int>, leaves: set<int>, elems: int, k: int, next: int,
                  n: int, m: int, c2: multiset<int>, dad2: seq<int>)
    requires Merging(placed, c, dad, leaves, elems, k) && next == k + 1 && elems + next <= |dad|
    requires multiset{n} + multiset{m} <= c && 0 <= n < |dad| && 0 <= m < |dad|
    requires c2 + multiset{n} + multiset{m} == c + multiset{elems + k} && dad2 == dad[n := elems + k][m := elems + k]
    ensures n != m && Merging(placed + [n, m], c2, dad2, leaves, elems, next)
  {
    assert Key(0);
    assert c[n] >= 1 && c[m] >= 1;
    assert Known(leaves, elems, k, n) && Known(leaves, elems, k, m);
    assert n == m ==> (multiset{n} + multiset{m})[n] == 2;
    assert n !in multiset(placed) && m !in multiset(placed);
    SpreadStep(placed, c, leaves, elems, k, next, n, m, c2);
    MergedStep(placed, dad, elems, k, next, n, m, dad2);
  }

  lemma SpreadStep(placed: seq<int>, c: multiset<int>, leaves: set<int>, elems: int, k: int, next: int,
                   n: int, m: int, c2: multiset<int>)
    requires Spread(placed, c, leaves, elems, k) && next == k + 1 && 0 <= k && forall v :: v in leaves ==> v < elems
    requires c2 + multiset{n} + multiset{m} == c + multiset{elems + k} && n != elems + k && m != elems + k
    ensures Spread(placed + [n, m], c2, leaves, elems, next) && c2[elems + k] == 1
  {
    var node, more := elems + k, placed + [n, m];
    assert multiset(more) == multiset(placed) + multiset{n} + multiset{m};
    forall v ensures multiset(more)[v] + c2[v] == if Known(leaves, elems, next, v) then 1 else 0 {
      var was, now := c + multiset{node}, c2 + multiset{n} + multiset{m};
      assert was[v] == now[v];
      assert multiset(placed)[node] == 0 by { assert !Known(leaves, elems, k, node); }
    }
  }

  /** The nodes merged so far keep their parents. */
  lemma MergedStep(placed: seq<int>, dad: seq<int>, elems: int, k: int, next: int, n: int, m: int, dad2: seq<int>)
    requires 0 <= k && |placed| == 2 * k && next == k + 1 && elems + next <= |dad|
    requires 0 <= n < elems + k && 0 <= m < elems + k && n !in multiset(placed) && m !in multiset(placed)
    requires dad2 == dad[n := elems + k][m := elems + k]
    requires forall j :: 0 <= j < k ==> Merged(placed, dad, elems, j)
    ensures forall j :: 0 <= j < next ==> Merged(placed + [n, m], dad2, elems, j)
  {
    forall j | 0 <= j < next ensures Merged(placed + [n, m], dad2, elems, j) {
      if j < k {
        assert Merged(placed, dad, elems, j);
        assert placed[2 * j] in multiset(placed) && placed[2 * j + 1] in multiset(placed);
      }
    }
  }

  // ---- Weights ----

  ghost predicate Lighter(w: seq<nat>, u: int, v: int) { 0 <= u < |w| && 0 <= v < |w| && w[u] <= w[v] }

  /** The node made by merge j weighs what its sons weigh together. */
  ghost predicate Fathered(placed: seq<int>, w: seq<nat>, elems: int, j: int) {
    && 0 <= j && 2 * j + 1 < |placed| && 0 <= elems + j < |w|
    && 0 <= placed[2 * j] < |w| && 0 <= placed[2 * j + 1] < |w|
    && w[elems + j] == w[placed[2 * j]] + w[placed[2 * j + 1]]
  }

  /** The nodes were placed in order of weight, and none in the heap is lighter than one of them. */
  ghost predicate Ascending(placed: seq<int>, c: multiset<int>, w: seq<nat>) {
    && (forall i, j :: 0 <= i < j < |placed| ==> Lighter(w, placed[i], placed[j]))
    && (forall i, v :: 0 <= i < |placed| && v in c ==> Lighter(w, placed[i], v))
  }

  ghost predicate Weighed(placed: seq<int>, c: multiset<int>, w: seq<nat>, freq0: seq<nat>, elems: int, k: int) {
    && 0 <= k && |placed| == 2 * k && |freq0| == elems && elems + k <= |w|
    && (forall v :: 0 <= v < elems ==> w[v] == freq0[v])
    && forall i {:trigger Key(i)} :: Key(i) ==>
      && Ascending(placed, c, w)
      && forall j :: 0 <= j < k ==> Fathered(placed, w, elems, j)
  }

  lemma WeighedStep(placed: seq<int>, c: multiset<int>, w: seq<nat>, depth: seq<nat>, freq0: seq<nat>, elems: int,
                    k: int, next: int, a: int, b: int, c2: multiset<int>, w2: seq<nat>)
    requires Weighed(placed, c, w, freq0, elems, k) && next == k + 1 && elems + next <= |w|
    requires elems + k !in c && elems + k !in placed && multiset{a} + multiset{b} <= c
    requires Least(w, depth, a, c) && Least(w, depth, b, c - multiset{a})
    requires 0 <= a < |w| && 0 <= b < |w| && w2 == w[elems + k := w[a] + w[b]]
    requires c2 + multiset{a} + multiset{b} == c + multiset{elems + k}
    ensures Weighed(placed + [a, b], c2, w2, freq0, elems, next)
  {
    assert Key(0);
    var node, more := elems + k, placed + [a, b];
    assert c[a] >= 1 && c[b] >= 1;
    AscendingStep(placed, c, w, depth, node, a, b, c2, w2);
    forall j | 0 <= j < next ensures Fathered(more, w2, elems, j) {
      if j < k {
        assert Fathered(placed, w, elems, j);
        assert placed[2 * j] in placed && placed[2 * j + 1] in placed;
      }
    }
  }

  lemma AscendingStep(placed: seq<int>, c: multiset<int>, w: seq<nat>, depth: seq<nat>, node: int, a: int, b: int,
                      c2: multiset<int>, w2: seq<nat>)
    requires Ascending(placed, c, w) && node !in c && node !in placed && multiset{a} + multiset{b} <= c
    requires Least(w, depth, a, c) && Least(w, depth, b, c - multiset{a})
    requires 0 <= node < |w| && 0 <= a < |w| && 0 <= b < |w| && w2 == w[node := w[a] + w[b]]
    requires c2 + multiset{a} + multiset{b} == c + multiset{node}
    ensures Ascending(placed + [a, b], c2, w2)
  {
    var more := placed + [a, b];
    assert c[a] >= 1 && c[b] >= 1 && b in c - multiset{a};
    assert Under(w, depth, a, b);
    forall i, j | 0 <= i < j < |more| ensures Lighter(w2, more[i], more[j]) {
      if j < |placed| { assert Lighter(w, placed[i], placed[j]) && placed[i] in placed && placed[j] in placed; }
      else if i < |placed| { assert Lighter(w, placed[i], more[j]) && placed[i] in placed; }
    }
    forall i, v | 0 <= i < |more| && v in c2 ensures Lighter(w2, more[i], v) {
      StillThere(c, c2, node, a, b, v);
      if v != node { assert Under(w, depth, a, v) && Under(w, depth, b, v); }
      if i < |placed| {
        assert Lighter(w, placed[i], a) && placed[i] in placed;
        if v != node { assert Lighter(w, placed[i], v); }
      }
    }
  }

  lemma StillThere(c: multiset<int>, c2: multiset<int>, node: int, a: int, b: int, v: int)
    requires c2 + multiset{a} + multiset{b} == c + multiset{node} && v in c2
    ensures v != node ==> v in c && v in c - multiset{a}
  {
    assert (c2 + multiset{a} + multiset{b})[v] == (c + multiset{node})[v];
  }
}
