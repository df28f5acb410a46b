/** The merges follow Huffman's argument, so the depths they lead to cost least. */
module MergeCost {
  import opened Common
  import opened HuffmanCost
  import opened DeflateLengths
  import opened Merges
  import opened MergeTree

  /** The nodes in the heap after j merges. */
  ghost function Loose(placed: seq<int>, leaves: set<int>, elems: nat, j: nat): set<int>
    requires 2 * j <= |placed|
  {
    leaves + (Range(elems + j) - Range(elems)) - Elems(placed[..2 * j])
  }

  /** All that Huffman's argument needs to know of the merges. */
  ghost predicate Huffman(placed: seq<int>, dad: seq<int>, w: seq<nat>, l: seq<nat>, leaves: set<int>, elems: nat,
                          k: nat, root: int) {
    && |w| == |l| == |dad| && |placed| == 2 * k && k >= 1 && elems + k <= |dad| && root == elems + k - 1
    && (forall v :: v in leaves ==> 0 <= v < elems)
    && (forall i, j :: 0 <= i < j < |placed| ==> placed[i] != placed[j]) && root !in placed
    && (forall v :: v in placed || v == root <==> Known(leaves, elems, k, v))
    && (forall j :: 0 <= j < k ==> Merged(placed, dad, elems, j) && Fathered(placed, w, elems, j))
    && Ascending(placed, multiset{root}, w)
    && l[root] == 0 && forall i :: 0 <= i < |placed| ==> Deeper(placed, dad, l, i)
  }

  ghost predicate Deeper(placed: seq<int>, dad: seq<int>, l: seq<nat>, i: int) {
    && 0 <= i < |placed| && 0 <= placed[i] < |l| == |dad| && 0 <= dad[placed[i]] < |l|
    && l[placed[i]] == l[dad[placed[i]]] + 1
  }

  lemma LooseAt(placed: seq<int>, dad: seq<int>, w: seq<nat>, l: seq<nat>, leaves: set<int>, elems: nat, k: nat,
                root: int, j: nat, v: int)
    requires Huffman(placed, dad, w, l, leaves, elems, k, root) && 0 <= j <= k
    ensures v in Loose(placed, leaves, elems, j) <==>
      Known(leaves, elems, j, v) && (v == root || exists i :: 2 * j <= i < |placed| && placed[i] == v)
  {
    if Known(leaves, elems, j, v) {
      assert Known(leaves, elems, k, v);
      if v != root { var i :| 0 <= i < |placed| && placed[i] == v; }
    }
  }

  /** One merge, as a step of Huffman's argument. */
  lemma LooseJoin(placed: seq<int>, dad: seq<int>, w: seq<nat>, l: seq<nat>, leaves: set<int>, elems: nat, k: nat,
                  root: int, j: nat, next: nat, a: int, b: int)
    requires Huffman(placed, dad, w, l, leaves, elems, k, root) && 0 <= j < k && next == j + 1
    requires a == placed[2 * j] && b == placed[2 * j + 1]
    ensures Joins(Loose(placed, leaves, elems, j), Loose(placed, leaves, elems, next), w, a, b, elems + j)
    ensures l[a] == l[b] == l[elems + j] + 1
  {
    LooseOnward(placed, dad, w, l, leaves, elems, k, root, j, next, a, b);
    PairAt(placed, dad, w, l, leaves, elems, k, root, j, a, b);
    LooseWithin(placed, dad, w, l, leaves, elems, k, root, j);
    hide Huffman, Loose;
  }

  lemma LooseOnward(placed: seq<int>, dad: seq<int>, w: seq<nat>, l: seq<nat>, leaves: set<int>, elems: nat, k: nat,
                    root: int, j: nat, next: nat, a: int, b: int)
    requires Huffman(placed, dad, w, l, leaves, elems, k, root) && 0 <= j < k && next == j + 1
    requires a == placed[2 * j] && b == placed[2 * j + 1]
    ensures Loose(placed, leaves, elems, next) == Loose(placed, leaves, elems, j) - {a, b} + {elems + j}
  {
    PairAt(placed, dad, w, l, leaves, elems, k, root, j, a, b);
    var s, s2 := Loose(placed, leaves, elems, j), Loose(placed, leaves, elems, next);
    hide Huffman, Loose;
    forall v ensures v in s2 <==> v == elems + j || (v in s && v != a && v != b) {
      LooseNext(placed, dad, w, l, leaves, elems, k, root, j, next, v);
    }
    NodesJoined(s, s2, a, b, elems + j);
  }

  lemma NodesJoined(s: set<int>, s2: set<int>, a: int, b: int, node: int)
    requires forall v :: v in s2 <==> v == node || (v in s && v != a && v != b)
    ensures s2 == s - {a, b} + {node}
  {
    forall v ensures v in s2 <==> v in s - {a, b} + {node} {
      assert v in s2 <==> v == node || (v in s && v != a && v != b);
    }
  }

  lemma LooseWithin(placed: seq<int>, dad: seq<int>, w: seq<nat>, l: seq<nat>, leaves: set<int>, elems: nat, k: nat,
                    root: int, j: nat)
    requires Huffman(placed, dad, w, l, leaves, elems, k, root) && 0 <= j <= k
    ensures forall v :: v in Loose(placed, leaves, elems, j) ==> 0 <= v < |w|
  {
    forall v | v in Loose(placed, leaves, elems, j) ensures 0 <= v < |w| { assert Known(leaves, elems, j, v); }
  }

  /** The two nodes of merge j. */
  lemma PairAt(placed: seq<int>, dad: seq<int>, w: seq<nat>, l: seq<nat>, leaves: set<int>, elems: nat, k: nat,
               root: int, j: nat, a: int, b: int)
    requires Huffman(placed, dad, w, l, leaves, elems, k, root) && 0 <= j < k
    requires a == placed[2 * j] && b == placed[2 * j + 1]
    ensures a in Loose(placed, leaves, elems, j) && b in Loose(placed, leaves, elems, j) && a != b
    ensures elems + j !in Loose(placed, leaves, elems, j)
    ensures 0 <= a < |w| && 0 <= b < |w| && elems + j < |w| == |l| && w[elems + j] == w[a] + w[b]
    ensures l[a] == l[b] == l[elems + j] + 1
  {
    hide Loose;
    assert Merged(placed, dad, elems, j) && Fathered(placed, w, elems, j);
    assert Deeper(placed, dad, l, 2 * j) && Deeper(placed, dad, l, 2 * j + 1);
    assert a in placed && b in placed;
    LooseAt(placed, dad, w, l, leaves, elems, k, root, j, a);
    LooseAt(placed, dad, w, l, leaves, elems, k, root, j, b);
    LooseAt(placed, dad, w, l, leaves, elems, k, root, j, elems + j);
  }

  lemma LooseNext(placed: seq<int>, dad: seq<int>, w: seq<nat>, l: seq<nat>, leaves: set<int>, elems: nat, k: nat,
                  root: int, j: nat, next: nat, v: int)
    requires Huffman(placed, dad, w, l, leaves, elems, k, root) && 0 <= j < k && next == j + 1
    ensures v in Loose(placed, leaves, elems, next) <==>
      v == elems + j || (v in Loose(placed, leaves, elems, j) && v != placed[2 * j] && v != placed[2 * j + 1])
  {
    LooseAt(placed, dad, w, l, leaves, elems, k, root, j, v);
    LooseAt(placed, dad, w, l, leaves, elems, k, root, next, v);
    if v == elems + j && v != root {
      assert Known(leaves, elems, k, v);
      var i :| 0 <= i < |placed| && placed[i] == v;
      assert Merged(placed, dad, elems, i / 2);
      assert i == 2 * (i / 2) || i == 2 * (i / 2) + 1;
    }
  }

  /** The two nodes merged are the least of those in the heap. */
  lemma LooseLeast(placed: seq<int>, dad: seq<int>, w: seq<nat>, l: seq<nat>, leaves: set<int>, elems: nat, k: nat,
                   root: int, j: nat, a: int, b: int)
    requires Huffman(placed, dad, w, l, leaves, elems, k, root) && 0 <= j < k
    requires a == placed[2 * j] && b == placed[2 * j + 1]
    requires forall v :: v in Loose(placed, leaves, elems, j) ==> 0 <= v < |w|
    ensures 0 <= a < |w| && 0 <= b < |w| && w[a] <= w[b]
    ensures forall v :: v in Loose(placed, leaves, elems, j) && v != a ==> w[b] <= w[v]
  {
    assert Lighter(w, placed[2 * j], placed[2 * j + 1]);
    forall v | v in Loose(placed, leaves, elems, j) && v != a ensures w[b] <= w[v] {
      LooseAt(placed, dad, w, l, leaves, elems, k, root, j, v);
      var i :| 2 * j <= i < |placed| && placed[i] == v;
      if i != 2 * j + 1 { assert Lighter(w, placed[2 * j + 1], placed[i]); }
    }
  }

  /** No code for the nodes after j merges costs less than their depths. */
  lemma {:induction false} BestFrom(placed: seq<int>, dad: seq<int>, w: seq<nat>, l: seq<nat>, leaves: set<int>,
                                    elems: nat, k: nat, root: int, j: nat)
    requires Huffman(placed, dad, w, l, leaves, elems, k, root) && 0 <= j <= k
    ensures Best(Loose(placed, leaves, elems, j), w, l)
    decreases k - j
  {
    hide Best, Joins, Loose;
    if j == k {
      OnlyRoot(placed, dad, w, l, leaves, elems, k, root);
      BestAlone(root, w, l);
    } else {
      var a, b, s, s2 := placed[2 * j], placed[2 * j + 1], Loose(placed, leaves, elems, j),
        Loose(placed, leaves, elems, j + 1);
      BestFrom(placed, dad, w, l, leaves, elems, k, root, j + 1);
      LooseJoin(placed, dad, w, l, leaves, elems, k, root, j, j + 1, a, b);
      JoinedWithin(s, s2, w, a, b, elems + j);
      LooseLeast(placed, dad, w, l, leaves, elems, k, root, j, a, b);
      MergeBest(s, s2, w, l, a, b, elems + j);
    }
  }

  lemma JoinedWithin(s: set<int>, s2: set<int>, w: seq<nat>, a: int, b: int, node: int)
    requires Joins(s, s2, w, a, b, node)
    ensures forall v :: v in s ==> 0 <= v < |w|
  {
  }

  lemma OnlyRoot(placed: seq<int>, dad: seq<int>, w: seq<nat>, l: seq<nat>, leaves: set<int>, elems: nat, k: nat,
                 root: int)
    requires Huffman(placed, dad, w, l, leaves, elems, k, root)
    ensures Loose(placed, leaves, elems, k) == {root} && 0 <= root < |w|
  {
    forall v ensures v in Loose(placed, leaves, elems, k) <==> v == root {
      LooseAt(placed, dad, w, l, leaves, elems, k, root, k, v);
    }
  }

  // ---- The tree ----

  /** The depths of the nodes. */
  ghost function Depths(t: Tree): (l: seq<nat>)
    requires Shaped(t)
    ensures |l| == |t.dad|
  {
    seq(|t.dad|, v requires 0 <= v < |t.dad| => if Before(t, v, |t.order|) then DepthOf(t, t.at[v]) else 0)
  }

  lemma DepthAt(t: Tree, i: int)
    requires Shaped(t) && 0 <= i < |t.order|
    ensures 0 <= t.order[i] < |t.dad| && Depths(t)[t.order[i]] == DepthOf(t, i)
  {
    NodeHas(t, i);
  }

  lemma ChildDeeper(t: Tree, i: int)
    requires Shaped(t) && 0 < i < |t.order|
    ensures 0 <= t.order[i] < |t.dad| && 0 <= t.dad[t.order[i]] < |t.dad|
    ensures Depths(t)[t.order[i]] == Depths(t)[t.dad[t.order[i]]] + 1
  {
    NodeHas(t, i);
    DepthAt(t, i);
    DepthAt(t, t.at[t.dad[t.order[i]]]);
  }

  /** The merged tree gives the leaves lengths that cost least. */
  lemma TreeIsBest(placed: seq<int>, c: multiset<int>, dad: seq<int>, w: seq<nat>, freq0: seq<nat>, leaves: set<int>,
                   elems: nat, k: nat, root: int, maxCode: int)
    requires Merging(placed, c, dad, leaves, elems, k) && k >= 1 && c == multiset{root} && |w| == |dad|
    requires Weighed(placed, c, w, freq0, elems, k)
    requires 0 <= maxCode < elems && forall v :: v in leaves ==> 0 <= v <= maxCode
    ensures Shaped(TreeOf(placed, root, dad, elems, maxCode))
    ensures Best(leaves, w, Depths(TreeOf(placed, root, dad, elems, maxCode)))
  {
    hide Best;
    var t, n := TreeOf(placed, root, dad, elems, maxCode), |placed|;
    TreeShaped(placed, c, dad, leaves, elems, k, root, maxCode);
    HuffmanHere(placed, c, dad, w, freq0, leaves, elems, k, root, maxCode, t);
    BestFrom(placed, dad, w, Depths(t), leaves, elems, k, root, 0);
    assert Loose(placed, leaves, elems, 0) == leaves;
  }

  lemma HuffmanHere(placed: seq<int>, c: multiset<int>, dad: seq<int>, w: seq<nat>, freq0: seq<nat>, leaves: set<int>,
                    elems: nat, k: nat, root: int, maxCode: int, t: Tree)
    requires Merging(placed, c, dad, leaves, elems, k) && k >= 1 && c == multiset{root} && |w| == |dad|
    requires Weighed(placed, c, w, freq0, elems, k)
    requires t == TreeOf(placed, root, dad, elems, maxCode) && Shaped(t)
    ensures Huffman(placed, dad, w, Depths(t), leaves, elems, k, root)
  {
    assert Key(0);
    LastOne(placed, c, dad, leaves, elems, k, root);
    MergedAll(placed, c, dad, leaves, elems, k);
    DepthAt(t, 0);
    forall i | 0 <= i < |placed| ensures Deeper(placed, dad, Depths(t), i) {
      assert t.order[|placed| - i] == placed[i];
      ChildDeeper(t, |placed| - i);
    }
  }
}
