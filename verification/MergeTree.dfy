/** The tree that the merges have built, in the order gen_bitlen goes through it. */
module MergeTree {
  import opened Common
  import opened DeflateLengths
  import opened Merges

  // ---- The finished tree ----

  /** The nodes from the root down: the last placed comes first. */
  ghost function OrderOf(placed: seq<int>, root: int): (order: seq<int>)
    ensures |order| == |placed| + 1
  {
    seq(|placed| + 1, i requires 0 <= i <= |placed| => if i == 0 then root else placed[|placed| - i])
  }

  /** Where v was placed, or -1. */
  ghost function PlaceOf(placed: seq<int>, v: int): (r: int)
    ensures -1 <= r < |placed| && (r >= 0 ==> placed[r] == v) && (r == -1 ==> v !in placed)
  {
    if placed == [] then -1
    else if placed[|placed| - 1] == v then |placed| - 1
    else PlaceOf(placed[..|placed| - 1], v)
  }

  ghost function TreeOf(placed: seq<int>, root: int, dad: seq<int>, elems: int, maxCode: int): (t: Tree)
    ensures t.order == OrderOf(placed, root) && t.dad == dad && t.maxCode == maxCode
    ensures |t.at| == |t.one| == |t.two| == |dad|
  {
    var n := |placed|;
    Tree(OrderOf(placed, root), dad,
      seq(|dad|, v => if v == root then 0 else if PlaceOf(placed, v) >= 0 then n - PlaceOf(placed, v) else -1),
      seq(|dad|, v => n - 2 * (v - elems) - 1),
      seq(|dad|, v => n - 2 * (v - elems)), maxCode)
  }

  /** When one node is left, it is the last one made, and the placed ones are distinct. */
  lemma LastOne(placed: seq<int>, c: multiset<int>, dad: seq<int>, leaves: set<int>, elems: int, k: int, root: int)
    requires Merging(placed, c, dad, leaves, elems, k) && k >= 1 && c == multiset{root}
    ensures root == elems + k - 1 && root !in placed
    ensures forall i, j :: 0 <= i < j < |placed| ==> placed[i] != placed[j]
    ensures forall v :: v in placed || v == root <==> Known(leaves, elems, k, v)
  {
    assert Key(0);
    assert multiset(placed)[root] == 0;
    forall i, j | 0 <= i < j < |placed| ensures placed[i] != placed[j] { TwiceCounts(placed, i, j); }
    forall v ensures v in placed || v == root <==> Known(leaves, elems, k, v) {
      assert v in placed <==> v in multiset(placed);
    }
  }

  lemma TwiceCounts(s: seq<int>, i: int, j: int)
    requires 0 <= i < j < |s|
    ensures s[i] == s[j] ==> multiset(s)[s[i]] >= 2
  {
    assert s == s[..i] + [s[i]] + s[i + 1..j] + [s[j]] + s[j + 1..];
  }

  lemma PlaceIs(placed: seq<int>, r: int)
    requires 0 <= r < |placed| && forall i, j :: 0 <= i < j < |placed| ==> placed[i] != placed[j]
    ensures PlaceOf(placed, placed[r]) == r
  {
  }

  /** The nodes built are in the shape that gen_bitlen needs. */
  lemma TreeShaped(placed: seq<int>, c: multiset<int>, dad: seq<int>, leaves: set<int>, elems: int, k: int, root: int,
                   maxCode: int)
    requires Merging(placed, c, dad, leaves, elems, k) && k >= 1 && c == multiset{root}
    requires 0 <= maxCode < elems && forall v :: v in leaves ==> 0 <= v <= maxCode
    ensures Shaped(TreeOf(placed, root, dad, elems, maxCode))
    ensures forall v :: 0 <= v < |dad| ==> (Before(TreeOf(placed, root, dad, elems, maxCode), v, |placed| + 1) <==>
      Known(leaves, elems, k, v))
  {
    var t, n := TreeOf(placed, root, dad, elems, maxCode), |placed|;
    MergedAll(placed, c, dad, leaves, elems, k);
    LastOne(placed, c, dad, leaves, elems, k, root);
    forall i {:trigger t.order[i]} | 0 <= i < |t.order|
      ensures NodeAt(t, i, t.order[i]) && (i > 0 ==> ChildAt(t, i, t.dad[t.order[i]]))
      ensures (InnerNode(t, t.order[i]) ==> ParentAt(t, i, t.order[i]))
    {
      NodeShaped(placed, dad, leaves, elems, k, i, n - i, t.order[i], root, maxCode);
    }
    TreeHolds(placed, dad, leaves, elems, k, root, maxCode);
  }

  lemma TreeHolds(placed: seq<int>, dad: seq<int>, leaves: set<int>, elems: int, k: int, root: int, maxCode: int)
    requires root !in placed && forall u :: u in placed || u == root <==> Known(leaves, elems, k, u)
    ensures forall v :: 0 <= v < |dad| ==> (Before(TreeOf(placed, root, dad, elems, maxCode), v, |placed| + 1) <==>
      Known(leaves, elems, k, v))
  {
    forall v | 0 <= v < |dad|
      ensures Before(TreeOf(placed, root, dad, elems, maxCode), v, |placed| + 1) <==> Known(leaves, elems, k, v) {
      assert v in placed <==> PlaceOf(placed, v) >= 0;
    }
  }

  /** The node v at place i of the order, placed at r. */
  lemma NodeShaped(placed: seq<int>, dad: seq<int>, leaves: set<int>, elems: int, k: int, i: int, r: int, v: int,
                   root: int, maxCode: int)
    requires |placed| == 2 * k && k >= 1 && (forall l :: 0 <= l < k ==> Merged(placed, dad, elems, l))
    requires root == elems + k - 1 && elems + k <= |dad| && 0 <= maxCode < elems && root !in placed
    requires forall l, m :: 0 <= l < m < |placed| ==> placed[l] != placed[m]
    requires forall u :: u in placed || u == root <==> Known(leaves, elems, k, u)
    requires forall u :: u in leaves ==> 0 <= u <= maxCode
    requires 0 <= i <= |placed| && r == |placed| - i && v == OrderOf(placed, root)[i]
    ensures var t := TreeOf(placed, root, dad, elems, maxCode);
      NodeAt(t, i, v) && (i > 0 ==> ChildAt(t, i, t.dad[v])) && (InnerNode(t, v) ==> ParentAt(t, i, v))
  {
    assert Known(leaves, elems, k, v);
    if i > 0 {
      PlaceIs(placed, r);
      PlacedChild(placed, dad, elems, k, r, r / 2, root, maxCode);
    }
    if v > maxCode { PlacedParent(placed, dad, elems, k, i, v - elems, root, maxCode); }
  }

  /** The node placed at r belongs to merge j = r / 2, whose node comes later. */
  lemma PlacedChild(placed: seq<int>, dad: seq<int>, elems: int, k: int, r: int, j: int, root: int, maxCode: int)
    requires 0 <= r < |placed| == 2 * k && j == r / 2 && (forall i :: 0 <= i < k ==> Merged(placed, dad, elems, i))
    requires root == elems + k - 1 && elems + k <= |dad| && 0 <= maxCode < elems
    requires forall i, l :: 0 <= i < l < |placed| ==> placed[i] != placed[l]
    requires forall v :: elems <= v < elems + k && v != root ==> v in placed
    ensures var t := TreeOf(placed, root, dad, elems, maxCode);
      0 <= placed[r] < |dad| && ChildAt(t, |placed| - r, t.dad[placed[r]])
  {
    var t, n, p := TreeOf(placed, root, dad, elems, maxCode), |placed|, elems + j;
    assert Merged(placed, dad, elems, j);
    assert r == 2 * j || r == 2 * j + 1;
    if p != root {
      var q := PlaceOf(placed, p);
      assert q >= 0;
      var i := q / 2;
      assert q == 2 * i || q == 2 * i + 1;
      assert Merged(placed, dad, elems, i);
      assert p < elems + i;
      assert t.at[p] == n - q;
    }
  }

  /** The node at place i that merge j made has its children where that merge placed them. */
  lemma PlacedParent(placed: seq<int>, dad: seq<int>, elems: int, k: int, i: int, j: int, root: int, maxCode: int)
    requires |placed| == 2 * k && 0 <= j < k && (forall l :: 0 <= l < k ==> Merged(placed, dad, elems, l))
    requires root == elems + k - 1 && elems + k <= |dad| && 0 <= maxCode < elems && 0 <= i <= |placed|
    requires OrderOf(placed, root)[i] == elems + j
    ensures ParentAt(TreeOf(placed, root, dad, elems, maxCode), i, elems + j)
  {
    var t, n := TreeOf(placed, root, dad, elems, maxCode), |placed|;
    assert Merged(placed, dad, elems, j);
    if i > 0 {
      var q := n - i;
      var l := q / 2;
      assert q == 2 * l || q == 2 * l + 1;
      assert Merged(placed, dad, elems, l);
      assert elems + j < elems + l;
    }
  }

  // ---- The order of weights ----

  /**
   * The sibling property of Huffman trees: from the root on no node is heavier than one
   * before it, sons of one father stand side by side, and a father weighs what they do.
   */
  ghost predicate SiblingOrder(t: Tree, w: seq<nat>, freq0: seq<nat>) {
    && |w| == |t.dad| == |t.at| == |t.one| == |t.two| && |freq0| <= |w|
    && (forall v :: 0 <= v < |freq0| ==> w[v] == freq0[v])
    && (forall i, j :: 0 <= i < j < |t.order| ==> Lighter(w, t.order[j], t.order[i]))
    && (forall v :: 0 <= v < |t.dad| && InnerNode(t, v) && Before(t, v, |t.order|) ==> SideBySide(t, w, v))
  }

  ghost predicate SideBySide(t: Tree, w: seq<nat>, v: int) {
    && 0 <= v < |t.one| && v < |t.two| && v < |w| && 0 <= t.one[v] && t.two[v] == t.one[v] + 1 < |t.order|
    && 0 <= t.order[t.one[v]] < |w| && 0 <= t.order[t.two[v]] < |w|
    && w[v] == w[t.order[t.one[v]]] + w[t.order[t.two[v]]]
  }

  lemma InSiblingOrder(placed: seq<int>, c: multiset<int>, dad: seq<int>, w: seq<nat>, freq0: seq<nat>,
                       leaves: set<int>, elems: int, k: int, root: int, maxCode: int)
    requires Merging(placed, c, dad, leaves, elems, k) && k >= 1 && c == multiset{root} && |w| == |dad|
    requires Weighed(placed, c, w, freq0, elems, k)
    requires 0 <= maxCode < elems && forall v :: v in leaves ==> 0 <= v <= maxCode
    ensures SiblingOrder(TreeOf(placed, root, dad, elems, maxCode), w, freq0)
  {
    assert Key(0);
    var t := TreeOf(placed, root, dad, elems, maxCode);
    HeaviestFirst(placed, c, w, root);
    TreeShaped(placed, c, dad, leaves, elems, k, root, maxCode);
    forall v | 0 <= v < |t.dad| && InnerNode(t, v) && Before(t, v, |t.order|) ensures SideBySide(t, w, v) {
      assert Before(t, v, |placed| + 1) && Known(leaves, elems, k, v) && v !in leaves;
      assert Fathered(placed, w, elems, v - elems);
      SonsOf(placed, root, dad, w, elems, maxCode, v, v - elems);
    }
  }

  lemma HeaviestFirst(placed: seq<int>, c: multiset<int>, w: seq<nat>, root: int)
    requires Ascending(placed, c, w) && c == multiset{root} && placed != []
    ensures var order := OrderOf(placed, root); forall i, j :: 0 <= i < j < |order| ==> Lighter(w, order[j], order[i])
  {
    var order, n := OrderOf(placed, root), |placed|;
    forall i, j | 0 <= i < j < |order| ensures Lighter(w, order[j], order[i]) {
      if i == 0 { assert Lighter(w, placed[n - j], root); } else { assert Lighter(w, placed[n - j], placed[n - i]); }
    }
  }

  lemma SonsOf(placed: seq<int>, root: int, dad: seq<int>, w: seq<nat>, elems: int, maxCode: int, v: int, j: int)
    requires Fathered(placed, w, elems, j) && |w| == |dad| && 0 <= v < |dad| && j == v - elems
    ensures SideBySide(TreeOf(placed, root, dad, elems, maxCode), w, v)
  {
    var n := |placed|;
    assert OrderOf(placed, root)[n - 2 * j] == placed[2 * j];
    assert OrderOf(placed, root)[n - 2 * j - 1] == placed[2 * j + 1];
  }
}
