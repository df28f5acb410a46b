/**
 * Length-limited Huffman code lengths. The tree is built on packed weights (the
 * height of a node rides in the low 8 bits); when a leaf is too deep all weights
 * are halved and the tree is built again.
 */
module CodeLengths {
  import opened Common
  import opened WeightHeap
  import opened HuffmanCost
  import opened KraftSum
  import opened LengthCost
  import opened PackedTree

  /** `c` holds exactly the roots. */
  ghost predicate Roots(c: multiset<int>, par: seq<int>, m: nat)
    requires m < |par|
  {
    var holds := forall v :: c[v] == if 1 <= v <= m && par[v] == -1 then 1 else 0;
    holds
  }

  /** The invariant of the merging loop. */
  ghost predicate Growing(h: seq<int>, n: int, w: seq<int>, par: seq<int>, ka: seq<int>, kb: seq<int>, alpha: nat,
                          m: nat, last: int) {
    var holds :=
      && Named(h, w, n) && WeightHeap.Ordered(h, w, n)
      && TreePart(w, par, ka, kb, alpha, m, last) && Greedy(w, par, ka, kb, alpha, m) && Roots(Content(h, n), par, m);
    holds
  }

  // One merge as functions of the heap, the weights and the parents.

  /** The lightest root, and the lightest after it has gone. */
  ghost function Second(h: seq<int>, n: int, w: seq<int>): (y: int)
    requires Named(h, w, n) && 2 <= n
    ensures 0 <= y < |w| && 0 <= w[y]
  {
    Pop(h, w, n)[1]
  }

  ghost function MergedWeights(h: seq<int>, n: int, w: seq<int>, m: nat): (w': seq<int>)
    requires Named(h, w, n) && 2 <= n && m + 1 < |w|
    ensures |w'| == |w|
  {
    w[m + 1 := AddWeights(w[h[1]], w[Second(h, n, w)])]
  }

  ghost function MergedParents(h: seq<int>, n: int, w: seq<int>, par: seq<int>, m: nat): (par': seq<int>)
    requires Named(h, w, n) && 2 <= n && m + 1 < |w| == |par|
    ensures |par'| == |par|
  {
    par[h[1] := m + 1][Second(h, n, w) := m + 1][m + 1 := -1]
  }

  /** The heap between taking the two roots off and putting their parent on. */
  ghost function Rest(h: seq<int>, n: int, w: seq<int>): (r: seq<int>)
    requires Named(h, w, n) && 2 <= n
    ensures |r| == |h| && Named(r, w, n - 2)
  {
    Pop(Pop(h, w, n), w, n - 1)
  }

  ghost function MergedHeap(h: seq<int>, n: int, w: seq<int>, m: nat): (h': seq<int>)
    requires Named(h, w, n) && 2 <= n && m + 1 < |w|
    ensures |h'| == |h|
  {
    Renamed(Rest(h, n, w), w, n - 2, m + 1, AddWeights(w[h[1]], w[Second(h, n, w)]));
    Push(Rest(h, n, w), MergedWeights(h, n, w, m), n - 2, m + 1)
  }

  lemma Renamed(h: seq<int>, w: seq<int>, n: int, u: int, v: int)
    requires Named(h, w, n) && 1 <= u < |w| && 0 <= v
    ensures Named(h, w[u := v], n)
  {
  }

  lemma RestOrdered(h: seq<int>, n: int, w: seq<int>, n': int)
    requires Named(h, w, n) && WeightHeap.Ordered(h, w, n) && 2 <= n && n' == n - 2
    ensures Named(Rest(h, n, w), w, n') && WeightHeap.Ordered(Rest(h, n, w), w, n')
  {
    PopOrdered(h, w, n, n - 1);
    PopOrdered(Pop(h, w, n), w, n - 1, n');
  }

  lemma RestContent(h: seq<int>, n: int, w: seq<int>, n': int)
    requires Named(h, w, n) && 2 <= n && n' == n - 2
    ensures Content(Rest(h, n, w), n') + multiset{h[1], Second(h, n, w)} == Content(h, n)
  {
    PopContent(h, w, n, n - 1);
    PopContent(Pop(h, w, n), w, n - 1, n');
    var c, x, y := Content(Rest(h, n, w), n'), h[1], Second(h, n, w);
    assert c + multiset{y} + multiset{x} == c + multiset{x, y};
  }

  lemma LightestTwo(h: seq<int>, n: int, w: seq<int>, par: seq<int>, m: nat)
    requires Named(h, w, n) && WeightHeap.Ordered(h, w, n) && 2 <= n && m < |w| && m < |par|
    requires Roots(Content(h, n), par, m)
    ensures Lightest(w, par, m, h[1], Second(h, n, w))
  {
    PopOrdered(h, w, n, n - 1);
    PopContent(h, w, n, n - 1);
    TwoMinima(h, n, w, par, m, h[1], Second(h, n, w), Pop(h, w, n), n - 1);
  }

  lemma TwoMinima(h: seq<int>, n: int, w: seq<int>, par: seq<int>, m: nat, x: int, y: int, h1: seq<int>, n1: int)
    requires Named(h, w, n) && WeightHeap.Ordered(h, w, n) && 2 <= n && m < |w| && m < |par|
    requires n1 == n - 1 && Named(h1, w, n1) && WeightHeap.Ordered(h1, w, n1) && x == h[1] && y == h1[1]
    requires Roots(Content(h, n), par, m) && Content(h1, n1) + multiset{x} == Content(h, n)
    ensures Lightest(w, par, m, x, y)
  {
    var c, c1 := Content(h, n), Content(h1, n1);
    assert h1[1..n1 + 1][0] == y;
    assert x in c && y in c1 && y in c && c[x] == 1 && c[y] == 1;
    forall v | 1 <= v <= m && par[v] == -1 ensures w[x] <= w[v] && (v != x ==> w[y] <= w[v]) {
      assert c[v] == 1;
      ContentMin(h, w, n, v);
      if v != x { ContentMin(h1, w, n1, v); }
    }
  }

  ghost predicate Below(c: multiset<int>, m: nat) {
    forall v :: v in c ==> 1 <= v <= m
  }

  /** The roots after x and y got the parent m + 1. */
  lemma RootsMerged(c: multiset<int>, left: multiset<int>, par: seq<int>, m: nat, x: int, y: int)
    requires m + 1 < |par| && Roots(c, par, m) && left + multiset{x, y} == c
    requires 1 <= x <= m && 1 <= y <= m && x != y && par[x] == -1 && par[y] == -1
    ensures Below(left, m)
    ensures Roots(left + multiset{m + 1}, par[x := m + 1][y := m + 1][m + 1 := -1], m + 1)
  {
    assert forall v :: c[v] == left[v] + (if v == x then 1 else 0) + (if v == y then 1 else 0);
  }

  lemma OrderedRenamed(h: seq<int>, w: seq<int>, n: int, m: nat, v: int)
    requires Named(h, w, n) && WeightHeap.Ordered(h, w, n) && m + 1 < |w| && 0 <= v
    requires Below(Content(h, n), m)
    ensures Named(h, w[m + 1 := v], n) && WeightHeap.Ordered(h, w[m + 1 := v], n)
  {
    forall k | 1 <= k <= n ensures 1 <= h[k] <= m {
      assert h[1..n + 1][k - 1] == h[k];
      assert h[k] in Content(h, n);
    }
  }

  lemma MergedOrdered(h: seq<int>, n: int, w: seq<int>, m: nat, n': int)
    requires Named(h, w, n) && WeightHeap.Ordered(h, w, n) && 2 <= n && m + 1 < |w| && n' == n - 1
    requires Below(Content(Rest(h, n, w), n - 2), m)
    ensures Named(MergedHeap(h, n, w, m), MergedWeights(h, n, w, m), n')
    ensures WeightHeap.Ordered(MergedHeap(h, n, w, m), MergedWeights(h, n, w, m), n')
  {
    RestOrdered(h, n, w, n - 2);
    NodePushed(Rest(h, n, w), n - 2, w, m, AddWeights(w[h[1]], w[Second(h, n, w)]), MergedWeights(h, n, w, m),
      MergedHeap(h, n, w, m), n');
  }

  /** A new node goes into the heap. */
  lemma NodePushed(h: seq<int>, n: int, w: seq<int>, m: nat, v: int, w2: seq<int>, h2: seq<int>, n': int)
    requires Named(h, w, n) && WeightHeap.Ordered(h, w, n) && Below(Content(h, n), m)
    requires m + 1 < |w| && 0 <= v && n' == n + 1 < |h| && w2 == w[m + 1 := v]
    requires Named(h, w2, n) ==> h2 == Push(h, w2, n, m + 1)
    ensures Named(h2, w2, n') && WeightHeap.Ordered(h2, w2, n')
  {
    OrderedRenamed(h, w, n, m, v);
    PushOrdered(h, w2, n, m + 1, n');
  }

  lemma RestRoots(h: seq<int>, n: int, w: seq<int>, par: seq<int>, m: nat, n': int)
    requires Named(h, w, n) && 2 <= n && m + 1 < |w| == |par| && n' == n - 2
    requires Roots(Content(h, n), par, m) && Lightest(w, par, m, h[1], Second(h, n, w))
    ensures Below(Content(Rest(h, n, w), n'), m)
    ensures Roots(Content(Rest(h, n, w), n') + multiset{m + 1}, MergedParents(h, n, w, par, m), m + 1)
  {
    RestContent(h, n, w, n');
    RootsMerged(Content(h, n), Content(Rest(h, n, w), n'), par, m, h[1], Second(h, n, w));
  }

  lemma MergedContent(h: seq<int>, n: int, w: seq<int>, m: nat, n': int)
    requires Named(h, w, n) && 2 <= n && m + 1 < |w| && n' == n - 1
    ensures Content(MergedHeap(h, n, w, m), n') == Content(Rest(h, n, w), n - 2) + multiset{m + 1}
  {
    NodeContent(Rest(h, n, w), n - 2, w, m, AddWeights(w[h[1]], w[Second(h, n, w)]), MergedWeights(h, n, w, m),
      MergedHeap(h, n, w, m), n');
  }

  lemma NodeContent(h: seq<int>, n: int, w: seq<int>, m: nat, v: int, w2: seq<int>, h2: seq<int>, n': int)
    requires Named(h, w, n) && m + 1 < |w| && 0 <= v && n' == n + 1 < |h| && w2 == w[m + 1 := v]
    requires |h2| == |h| && (Named(h, w2, n) ==> h2 == Push(h, w2, n, m + 1))
    ensures Content(h2, n') == Content(h, n) + multiset{m + 1}
  {
    Renamed(h, w, n, m + 1, v);
    PushContent(h, w2, n, m + 1, n');
  }

  /** One merge keeps the invariant. */
  lemma MergeKeeps(h: seq<int>, n: int, w: seq<int>, par: seq<int>, ka: seq<int>, kb: seq<int>, alpha: nat, m: nat,
                   last: int, n': int, m': nat)
    requires Growing(h, n, w, par, ka, kb, alpha, m, last) && 2 <= n && m + 1 < |w|
    requires Total(w, alpha) < 0x80_0000 && n' == n - 1 && m' == m + 1
    ensures Growing(MergedHeap(h, n, w, m), n', MergedWeights(h, n, w, m), MergedParents(h, n, w, par, m),
                    ka[m' := h[1]], kb[m' := Second(h, n, w)], alpha, m', Weight(w[Second(h, n, w)]))
  {
    LightestTwo(h, n, w, par, m);
    Merged(w, par, ka, kb, alpha, m, last, h[1], Second(h, n, w));
    MergedGreedy(w, par, ka, kb, alpha, m, h[1], Second(h, n, w), AddWeights(w[h[1]], w[Second(h, n, w)]), m');
    RestRoots(h, n, w, par, m, n - 2);
    MergedContent(h, n, w, m, n');
    MergedOrdered(h, n, w, m, n');
  }

  lemma MergeKeepsLeaves(h: seq<int>, n: int, w: seq<int>, alpha: nat, m: nat)
    requires Named(h, w, n) && 2 <= n && alpha <= m && m + 1 < |w|
    ensures Leaves(MergedWeights(h, n, w, m), alpha) == Leaves(w, alpha)
  {
  }

  /** Takes the two lightest roots off the heap and puts their new parent on it. */
  method MergeLightest(heap: array<int>, weight: array<int>, parent: array<int>, nHeap: int, nNodes: nat)
    requires heap != weight && heap != parent && weight != parent && 2 <= nHeap
    requires Named(heap[..], weight[..], nHeap) && nNodes + 1 < weight.Length == parent.Length
    modifies heap, weight, parent
    ensures heap[..] == MergedHeap(old(heap[..]), nHeap, old(weight[..]), nNodes)
    ensures weight[..] == MergedWeights(old(heap[..]), nHeap, old(weight[..]), nNodes)
    ensures parent[..] == MergedParents(old(heap[..]), nHeap, old(weight[..]), old(parent[..]), nNodes)
  {
    var n1 := ExtractMin(heap, weight, nHeap);
    var n2 := ExtractMin(heap, weight, nHeap - 1);
    parent[n1] := nNodes + 1;
    parent[n2] := nNodes + 1;
    Renamed(heap[..], weight[..], nHeap - 2, nNodes + 1, AddWeights(weight[n1], weight[n2]));
    weight[nNodes + 1] := AddWeights(weight[n1], weight[n2]);
    parent[nNodes + 1] := -1;
    assert weight[..] == MergedWeights(old(heap[..]), nHeap, old(weight[..]), nNodes);
    Insert(heap, weight, nHeap - 2, nNodes + 1);
  }

  lemma LeavesGrowing(w: seq<int>, par: seq<int>, alpha: nat, none: seq<int>)
    requires alpha < |w| == |par| == |none|
    requires forall v :: 1 <= v <= alpha ==> par[v] == -1 && 256 <= w[v] && Height(w[v]) == 0
    ensures TreePart(w, par, none, none, alpha, alpha, 0) && Greedy(w, par, none, none, alpha, alpha)
  {
    assert Fib(2) == 1;
  }

  lemma RootAdded(c: multiset<int>, c': multiset<int>, par: seq<int>, n: nat, i: nat)
    requires n + 1 == i < |par| && Roots(c, par, n) && c' == c + multiset{i}
    ensures Roots(c', par[i := -1], i)
  {
    assert c[i] == 0;
  }

  /** Leaves 1..n are on the heap, each a root. */
  ghost predicate Filled(h: seq<int>, w: seq<int>, par: seq<int>, n: nat) {
    var holds :=
      && n < |h| && n < |par| && Named(h, w, n) && WeightHeap.Ordered(h, w, n) && Roots(Content(h, n), par, n)
      && forall v :: 1 <= v <= n ==> par[v] == -1;
    holds
  }

  lemma LeafAdded(h: seq<int>, w: seq<int>, par: seq<int>, n: nat, i: nat)
    requires Filled(h, w, par, n) && n + 1 == i < |par| && i < |h| && i < |w| && 0 <= w[i]
    ensures Filled(Push(h, w, n, i), w, par[i := -1], i)
  {
    PushOrdered(h, w, n, i, i);
    PushContent(h, w, n, i, i);
    RootAdded(Content(h, n), Content(Push(h, w, n, i), i), par, n, i);
  }

  /** Puts every leaf on the heap. */
  method FillHeap(heap: array<int>, weight: array<int>, parent: array<int>, alphaSize: nat)
    requires heap != weight && heap != parent && weight != parent
    requires alphaSize + 1 < heap.Length && alphaSize < weight.Length == parent.Length
    requires forall v :: 1 <= v <= alphaSize ==> 256 <= weight[v]
    modifies heap, weight, parent
    ensures weight[..] == old(weight[..])[0 := 0]
    ensures Filled(heap[..], weight[..], parent[..], alphaSize)
  {
    heap[0] := 0;
    weight[0] := 0;
    parent[0] := -2;
    ghost var w := weight[..];
    NoneFilled(heap[..], w, parent[..]);
    var nHeap := 0;
    while nHeap < alphaSize
      modifies heap, parent
      invariant 0 <= nHeap <= alphaSize && weight[..] == w
      invariant Filled(heap[..], w, parent[..], nHeap)
    {
      var i := nHeap + 1;
      LeafAdded(heap[..], w, parent[..], nHeap, i);
      parent[i] := -1;
      Insert(heap, weight, nHeap, i);
      nHeap := i;
    }
  }

  lemma NoneFilled(h: seq<int>, w: seq<int>, par: seq<int>)
    requires |h| > 0 && |w| > 0 && |par| > 0 && h[0] == 0 && w[0] == 0
    ensures Filled(h, w, par, 0)
  {
  }

  lemma OneRoot(h: seq<int>, n: int, w: seq<int>, par: seq<int>, ka: seq<int>, kb: seq<int>, alpha: nat, m: nat,
                last: int)
    requires n == 1 && Growing(h, n, w, par, ka, kb, alpha, m, last) && 1 <= m
    ensures HuffmanTree(w, par, ka, kb, alpha, m)
  {
    assert h[1..2] == [h[1]];
    var c := Content(h, 1);
    assert c == multiset{h[1]};
    assert c[m] == 1;
    forall v | 1 <= v < m ensures par[v] != -1 {
      assert c[v] == if par[v] == -1 then 1 else 0;
    }
  }

  /** Merges until one root is left. */
  method MergeAll(heap: array<int>, weight: array<int>, parent: array<int>, alphaSize: nat, ghost none: seq<int>)
    returns (ghost ka: seq<int>, ghost kb: seq<int>, ghost top: nat)
    requires heap != weight && heap != parent && weight != parent && 1 <= alphaSize
    requires 2 * alphaSize <= weight.Length && Total(weight[..], alphaSize) < 0x80_0000
    requires Growing(heap[..], alphaSize, weight[..], parent[..], none, none, alphaSize, alphaSize, 0)
    modifies heap, weight, parent
    ensures top == 2 * alphaSize - 1 && HuffmanTree(weight[..], parent[..], ka, kb, alphaSize, top)
    ensures Leaves(weight[..], alphaSize) == Leaves(old(weight[..]), alphaSize)
  {
    ka, kb := none, none;
    ghost var leaves := Leaves(weight[..], alphaSize);
    var nNodes, nHeap := alphaSize, alphaSize;
    ghost var last := 0;
    while nHeap > 1
      modifies heap, weight, parent
      invariant 1 <= nHeap && nHeap + nNodes == 2 * alphaSize && alphaSize <= nNodes
      invariant Leaves(weight[..], alphaSize) == leaves
      invariant Growing(heap[..], nHeap, weight[..], parent[..], ka, kb, alphaSize, nNodes, last)
    {
      ghost var h, w, par := heap[..], weight[..], parent[..];
      MergeLightest(heap, weight, parent, nHeap, nNodes);
      MergeKeepsLeaves(h, nHeap, w, alphaSize, nNodes);
      ghost var x, y := h[1], Second(h, nHeap, w);
      ghost var n, m := nHeap, nNodes;
      nNodes, nHeap := nNodes + 1, nHeap - 1;
      MergeKeeps(h, n, w, par, ka, kb, alphaSize, m, last, nHeap, nNodes);
      ka, kb, last := ka[nNodes := x], kb[nNodes := y], Weight(w[y]);
    }
    top := nNodes;
    OneRoot(heap[..], nHeap, weight[..], parent[..], ka, kb, alphaSize, nNodes, last);
  }

  /** Builds the Huffman tree on the leaf weights. */
  method BuildTree(heap: array<int>, weight: array<int>, parent: array<int>, alphaSize: nat)
    returns (ghost ka: seq<int>, ghost kb: seq<int>, ghost top: nat)
    requires heap != weight && heap != parent && weight != parent && 1 <= alphaSize <= MAX_ALPHA_SIZE
    requires heap.Length == MAX_ALPHA_SIZE + 2 && weight.Length == parent.Length == 2 * MAX_ALPHA_SIZE
    requires forall v :: 1 <= v <= alphaSize ==> 256 <= weight[v] && Height(weight[v]) == 0
    requires Total(weight[..], alphaSize) < 0x80_0000
    modifies heap, weight, parent
    ensures top == 2 * alphaSize - 1 && HuffmanTree(weight[..], parent[..], ka, kb, alphaSize, top)
    ensures Leaves(weight[..], alphaSize) == Leaves(old(weight[..]), alphaSize)
  {
    ghost var w := weight[..];
    FillHeap(heap, weight, parent, alphaSize);
    ghost var none := seq(parent.Length, _ => 0);
    LeavesGrowing(weight[..], parent[..], alphaSize, none);
    assert Leaves(weight[..], alphaSize) == Leaves(w, alphaSize);
    ka, kb, top := MergeAll(heap, weight, parent, alphaSize, none);
  }

  // ---- Depths and the Kraft sum ----

  /** `dep` lists how far each node is below the root, and `val` is 2^(scale - dep). */
  ghost predicate Shares(par: seq<int>, top: nat, scale: nat, dep: seq<int>, val: seq<int>) {
    var holds :=
      && |dep| == |val| == |par| && 1 <= top < |par| && dep[top] == 0
      && (forall v {:trigger dep[v]} :: 1 <= v <= top ==> 0 <= dep[v] <= scale && val[v] == Pow2(scale - dep[v]))
      && (forall v {:trigger par[v]} :: 1 <= v < top ==> 1 <= par[v] <= top && dep[v] == dep[par[v]] + 1);
    holds
  }

  lemma SharesExist(w: seq<int>, par: seq<int>, ka: seq<int>, kb: seq<int>, alpha: nat, top: nat)
    returns (dep: seq<int>, val: seq<int>)
    requires Built(w, par, ka, kb, alpha, top) && Rooted(par, top)
    ensures Shares(par, top, Height(w[top]), dep, val)
    ensures forall v :: 1 <= v <= top ==> dep[v] == Depth(par, top, v)
  {
    var scale := Height(w[top]);
    dep := seq(|par|, k requires 0 <= k < |par| => if 1 <= k <= top then Depth(par, top, k) else 0);
    forall v | 1 <= v <= top ensures 0 <= dep[v] <= scale { DepthBelowHeight(w, par, ka, kb, alpha, top, v); }
    val := seq(|par|, k requires 0 <= k < |par| => if 1 <= k <= top then Pow2(scale - dep[k]) else 0);
  }

  lemma SharesAdd(par: seq<int>, ka: seq<int>, kb: seq<int>, alpha: nat, top: nat, scale: nat, dep: seq<int>,
                  val: seq<int>, u: int)
    requires Forest(par, ka, kb, alpha, top) && Shares(par, top, scale, dep, val) && alpha < u <= top
    ensures val[u] == val[ka[u]] + val[kb[u]]
  {
    var a, b := ka[u], kb[u];
    assert par[a] == u && par[b] == u;
    assert dep[a] == dep[u] + 1 && dep[b] == dep[u] + 1;
  }

  /** The leaves of a full binary tree meet Kraft with equality. */
  lemma TreeKraft(par: seq<int>, ka: seq<int>, kb: seq<int>, alpha: nat, top: nat, scale: nat, dep: seq<int>,
                  val: seq<int>, len: seq<int>)
    requires Forest(par, ka, kb, alpha, top) && Rooted(par, top) && 1 <= alpha <= top && par[top] == -1
    requires Shares(par, top, scale, dep, val) && len == dep[1..alpha + 1]
    ensures forall i :: 0 <= i < alpha ==> 0 <= len[i] <= scale
    ensures Kraft(len, scale) == Pow2(scale)
  {
    forall u | alpha < u <= top ensures val[u] == val[ka[u]] + val[kb[u]] {
      SharesAdd(par, ka, kb, alpha, top, scale, dep, val, u);
    }
    FrontierConserved(par, ka, kb, alpha, top, val, top);
    FrontierLeaves(par, ka, kb, alpha, top, val);
    RootFrontier(par, val, top);
    LeafShares(par, alpha, top, scale, dep, val, len, val[1..alpha + 1]);
    KraftIsSum(len, scale, val[1..alpha + 1]);
  }

  lemma LeafShares(par: seq<int>, alpha: nat, top: nat, scale: nat, dep: seq<int>, val: seq<int>, len: seq<int>,
                   leaves: seq<int>)
    requires Shares(par, top, scale, dep, val) && 1 <= alpha <= top
    requires len == dep[1..alpha + 1] && leaves == val[1..alpha + 1]
    ensures forall i :: 0 <= i < alpha ==> 0 <= len[i] <= scale && leaves[i] == Pow2(scale - len[i])
    ensures val[top] == Pow2(scale)
  {
    forall i | 0 <= i < alpha ensures 0 <= len[i] <= scale && leaves[i] == Pow2(scale - len[i]) {
      assert len[i] == dep[i + 1] && leaves[i] == val[i + 1];
    }
    assert dep[top] == 0;
  }

  lemma RootFrontier(par: seq<int>, val: seq<int>, top: nat)
    requires Rooted(par, top) && 1 <= top && par[top] == -1 && |val| == |par|
    ensures Sum(Frontier(par, val, top)) == val[top]
  {
    assert Frontier(par, val, top)[..top] == Blank(top);
    SumBlank(top);
  }

  // ---- Limiting the lengths ----

  /** A leaf below depth maxLen forces a Fibonacci number of weight into the tree. */
  lemma DeepIsHeavy(w: seq<int>, par: seq<int>, ka: seq<int>, kb: seq<int>, alpha: nat, top: nat, v: int, maxLen: nat)
    requires Built(w, par, ka, kb, alpha, top) && Rooted(par, top) && 1 <= v <= top
    requires Depth(par, top, v) > maxLen
    ensures Fib(maxLen + 3) <= Total(w, alpha)
  {
    DepthBelowHeight(w, par, ka, kb, alpha, top, v);
    FibMono(maxLen + 3, Height(w[top]) + 2);
    RootBound(w, par, ka, kb, alpha, top, top);
  }

  /** Walks from each leaf to the root, counting. */
  method MeasureLeaves(parent: array<int>, len: array<int>, alphaSize: nat, maxLen: nat, ghost top: nat)
    returns (tooLong: bool)
    requires parent != len && len.Length == alphaSize <= top
    requires Rooted(parent[..], top) && 1 <= top && parent[top] == -1
    modifies len
    ensures forall i :: 0 <= i < alphaSize ==> len[i] == Depth(parent[..], top, i + 1)
    ensures tooLong <==> exists i :: 0 <= i < alphaSize && len[i] > maxLen
  {
    tooLong := false;
    ghost var deep := 0;
    var i := 1;
    while i <= alphaSize
      invariant 1 <= i <= alphaSize + 1
      invariant forall x :: 0 <= x < i - 1 ==> len[x] == Depth(parent[..], top, x + 1)
      invariant tooLong ==> 0 <= deep < i - 1 && len[deep] > maxLen
      invariant !tooLong ==> forall x :: 0 <= x < i - 1 ==> len[x] <= maxLen
    {
      var j, k := 0, i;
      while parent[k] >= 0
        invariant 1 <= k <= top && 0 <= j
        invariant j + Depth(parent[..], top, k) == Depth(parent[..], top, i)
        decreases top - k
      {
        assert k < parent[k] <= top;
        k := parent[k];
        j := j + 1;
      }
      assert k == top;
      len[i - 1] := j;
      if j > maxLen { tooLong, deep := true, i - 1; }
      i := i + 1;
    }
  }

  function Halved(s: seq<nat>): (r: seq<nat>)
    ensures |r| == |s|
  {
    seq(|s|, i requires 0 <= i < |s| => 1 + s[i] / 2)
  }

  /** Halving never adds weight, and keeps it only when every weight is 1 or 2. */
  lemma {:induction false} HalvedSum(s: seq<nat>)
    requires forall i :: 0 <= i < |s| ==> 1 <= s[i]
    ensures Sum(Halved(s)) <= Sum(s)
    ensures Sum(Halved(s)) == Sum(s) ==> Sum(s) <= 2 * |s|
  {
    if s != [] {
      var n := |s| - 1;
      HalvedSum(s[..n]);
      assert Halved(s)[..n] == Halved(s[..n]);
    }
  }

  /** Nodes 1..n are leaves of these weights. */
  ghost predicate Carries(w: seq<int>, weights: seq<nat>) {
    |weights| < |w| && forall i :: 0 <= i < |weights| ==> weights[i] >= 1 && w[i + 1] == weights[i] * 256
  }

  lemma CarriesLeaves(w: seq<int>, weights: seq<nat>, alpha: nat)
    requires Carries(w, weights) && alpha == |weights|
    ensures forall v :: 1 <= v <= alpha ==> 256 <= w[v] && Height(w[v]) == 0
    ensures Total(w, alpha) == Sum(weights)
  {
    forall v | 1 <= v <= alpha ensures 256 <= w[v] && Height(w[v]) == 0 { assert weights[v - 1] >= 1; }
    assert Weights(Leaves(w, alpha)) == weights;
  }

  lemma CarriesWeight(w: seq<int>, weights: seq<nat>)
    requires Carries(w, weights)
    ensures forall i :: 0 <= i < |weights| ==> 1 <= weights[i]
  {
  }

  method HalveWeights(weight: array<int>, alphaSize: nat, ghost weights: seq<nat>)
    requires Carries(weight[..], weights) && alphaSize == |weights|
    modifies weight
    ensures Carries(weight[..], Halved(weights))
  {
    var i := 1;
    while i <= alphaSize
      invariant 1 <= i <= alphaSize + 1
      invariant forall v :: 0 <= v < i - 1 ==> weight[v + 1] == Halved(weights)[v] * 256
      invariant forall v :: i - 1 <= v < alphaSize ==> weight[v + 1] == weights[v] * 256
    {
      assert weight[i - 1 + 1] == weights[i - 1] * 256;
      var j := weight[i] / 256;
      j := 1 + j / 2;
      weight[i] := j * 256;
      i := i + 1;
    }
  }

  /** Lengths a decoder accepts: each within 1..maxLen, together a complete code. */
  ghost predicate CompleteLengths(len: seq<int>, maxLen: nat) {
    && (forall i :: 0 <= i < |len| ==> 1 <= len[i] <= maxLen)
    && Kraft(len, maxLen) == Pow2(maxLen)
  }

  lemma LengthsComplete(w: seq<int>, par: seq<int>, ka: seq<int>, kb: seq<int>, alpha: nat, top: nat, len: seq<int>,
                        maxLen: nat)
    requires Built(w, par, ka, kb, alpha, top) && Rooted(par, top) && 1 <= alpha < top && |len| == alpha
    requires forall i :: 0 <= i < alpha ==> len[i] == Depth(par, top, i + 1) && len[i] <= maxLen
    ensures CompleteLengths(len, maxLen)
  {
    var dep, val := SharesExist(w, par, ka, kb, alpha, top);
    var scale := Height(w[top]);
    assert len == dep[1..alpha + 1];
    TreeKraft(par, ka, kb, alpha, top, scale, dep, val, len);
    if scale <= maxLen { KraftRescale(len, scale, maxLen); } else { KraftRescale(len, maxLen, scale); }
    forall i | 0 <= i < alpha ensures 1 <= len[i] { assert Depth(par, top, i + 1) >= 1; }
  }

  /** The weights the tree starts from: a symbol that never occurs counts once. */
  function Initial(freq: seq<nat>): (r: seq<nat>)
    ensures |r| == |freq|
  {
    seq(|freq|, i requires 0 <= i < |freq| => if freq[i] == 0 then 1 else freq[i])
  }

  ghost function HalvedOften(w: seq<nat>, k: nat): (r: seq<nat>)
    ensures |r| == |w|
  {
    if k == 0 then w else Halved(HalvedOften(w, k - 1))
  }

  /** The weights were halved k times: until lengths of least cost for them kept within maxLen. */
  ghost predicate SettledAfter(w: seq<nat>, maxLen: nat, len: seq<int>, k: nat) {
    && |len| == |w| && CompleteLengths(len, maxLen) && Best(Range(|w|), HalvedOften(w, k), len)
    && forall j :: 0 <= j < k ==> !Fits(HalvedOften(w, j), maxLen)
  }

  /** The lengths of a table for these counts. */
  ghost predicate Settled(freq: seq<nat>, maxLen: nat, len: seq<int>) {
    exists k: nat :: SettledAfter(Initial(freq), maxLen, len, k)
  }

  ghost predicate HalvedSince(first: seq<nat>, maxLen: nat, weights: seq<nat>, k: nat) {
    weights == HalvedOften(first, k) && forall j :: 0 <= j < k ==> !Fits(HalvedOften(first, j), maxLen)
  }

  lemma HalvedAgain(first: seq<nat>, maxLen: nat, weights: seq<nat>, k: nat)
    requires HalvedSince(first, maxLen, weights, k) && !Fits(weights, maxLen)
    ensures HalvedSince(first, maxLen, Halved(weights), k + 1)
  {
    hide Fits;
  }

  lemma NowSettled(freq: seq<nat>, maxLen: nat, len: seq<int>, weights: seq<nat>, k: nat)
    requires HalvedSince(Initial(freq), maxLen, weights, k) && |weights| == |freq| == |len|
    requires CompleteLengths(len, maxLen) && Best(Range(|freq|), weights, len)
    ensures Settled(freq, maxLen, len)
  {
    hide Fits, Best, Initial;
    assert SettledAfter(Initial(freq), maxLen, len, k);
  }

  /**
   * Computes a complete code within maxLen that costs least for the counts, halved as seldom as
   * can be. It terminates because halving ends with weights 1 and 2, too light for a leaf below
   * maxLen.
   */
  method MakeCodeLengths(len: array<int>, freq: array<int>, alphaSize: nat, maxLen: nat)
    requires len != freq && 2 <= alphaSize <= MAX_ALPHA_SIZE && freq.Length == len.Length == alphaSize
    requires forall i :: 0 <= i < alphaSize ==> 0 <= freq[i]
    requires Sum(Initial(freq[..])) < 0x80_0000 && 2 * alphaSize < Fib(maxLen + 3)
    modifies len
    ensures Settled(freq[..], maxLen, len[..])
  {
    hide Fits, Best, Fib, SettledAfter, Settled, CompleteLengths, Carries, Initial;
    var heap := new int[MAX_ALPHA_SIZE + 2](_ => 0);
    var weight := new int[2 * MAX_ALPHA_SIZE](_ => 0);
    var parent := new int[2 * MAX_ALPHA_SIZE](_ => 0);
    FillWeights(weight, freq, alphaSize);
    ghost var first := Initial(freq[..]);
    ghost var k, weights: seq<nat> := 0, first;
    while true
      modifies heap, weight, parent, len
      invariant Carries(weight[..], weights) && |weights| == alphaSize && Sum(weights) < 0x80_0000
      invariant HalvedSince(first, maxLen, weights, k)
      decreases Sum(weights)
    {
      var tooLong := TryLengths(heap, weight, parent, len, alphaSize, maxLen, weights);
      if !tooLong {
        NowSettled(freq[..], maxLen, len[..], weights, k);
        break;
      }
      CarriesWeight(weight[..], weights);
      HalvedSum(weights);
      HalvedAgain(first, maxLen, weights, k);
      HalveWeights(weight, alphaSize, weights);
      weights, k := Halved(weights), k + 1;
    }
  }

  method FillWeights(weight: array<int>, freq: array<int>, alphaSize: nat)
    requires weight != freq && freq.Length == alphaSize < weight.Length
    requires forall i :: 0 <= i < alphaSize ==> 0 <= freq[i]
    modifies weight
    ensures Carries(weight[..], Initial(freq[..]))
  {
    var i := 0;
    while i < alphaSize
      invariant 0 <= i <= alphaSize
      invariant forall v :: 0 <= v < i ==> weight[v + 1] == Initial(freq[..])[v] * 256
    {
      weight[i + 1] := (if freq[i] == 0 then 1 else freq[i]) * 256;
      i := i + 1;
    }
  }

  /** One attempt: build the tree and measure it. */
  method TryLengths(heap: array<int>, weight: array<int>, parent: array<int>, len: array<int>, alphaSize: nat,
                    maxLen: nat, ghost weights: seq<nat>)
    returns (tooLong: bool)
    requires heap != weight && heap != parent && weight != parent && len != heap && len != weight && len != parent
    requires 2 <= alphaSize <= MAX_ALPHA_SIZE && len.Length == alphaSize
    requires heap.Length == MAX_ALPHA_SIZE + 2 && weight.Length == parent.Length == 2 * MAX_ALPHA_SIZE
    requires Carries(weight[..], weights) && |weights| == alphaSize && Sum(weights) < 0x80_0000
    modifies heap, weight, parent, len
    ensures Carries(weight[..], weights)
    ensures tooLong ==> Fib(maxLen + 3) <= Sum(weights) && !Fits(weights, maxLen)
    ensures !tooLong ==> CompleteLengths(len[..], maxLen) && Best(Range(alphaSize), weights, len[..])
  {
    hide Fits, Best, Fib, Carries;
    CarriesLeaves(weight[..], weights, alphaSize);
    ghost var ka, kb, top := BuildTree(heap, weight, parent, alphaSize);
    ghost var w, par := weight[..], parent[..];
    SameLeaves(old(weight[..]), w, weights);
    CarriesLeaves(w, weights, alphaSize);
    BuiltRooted(w, par, ka, kb, alphaSize, top);
    tooLong := MeasureLeaves(parent, len, alphaSize, maxLen, top);
    LeavesOptimal(w, par, ka, kb, alphaSize, top, weights, len[..], maxLen);
    if tooLong {
      ghost var i :| 0 <= i < alphaSize && len[i] > maxLen;
      DeepIsHeavy(w, par, ka, kb, alphaSize, top, i + 1, maxLen);
    } else {
      LengthsComplete(w, par, ka, kb, alphaSize, top, len[..], maxLen);
    }
  }

  lemma SameLeaves(w: seq<int>, w': seq<int>, weights: seq<nat>)
    requires Carries(w, weights) && |w'| == |w| && Leaves(w', |weights|) == Leaves(w, |weights|)
    ensures Carries(w', weights)
  {
    forall v | 1 <= v <= |weights| ensures w'[v] == w[v] {
      assert Leaves(w', |weights|)[v - 1] == Leaves(w, |weights|)[v - 1];
    }
  }

  /** Counts that have a code of least cost within the limit get one. */
  lemma SettledAtOnce(freq: seq<nat>, maxLen: nat, len: seq<int>)
    requires Settled(freq, maxLen, len) && Fits(Initial(freq), maxLen)
    ensures CompleteLengths(len, maxLen) && Best(Range(|freq|), Initial(freq), len)
  {
    hide Fits, Best, Initial, CompleteLengths;
    var k: nat :| SettledAfter(Initial(freq), maxLen, len, k);
    assert HalvedOften(Initial(freq), 0) == Initial(freq);
  }

  /** The limits bzip2 uses: any alphabet of up to 258 symbols fits in 17 bits. */
  lemma SeventeenBitsSuffice(alphaSize: nat)
    requires alphaSize <= MAX_ALPHA_SIZE
    ensures 2 * alphaSize < Fib(17 + 3)
  {
    FibValues();
  }
}
