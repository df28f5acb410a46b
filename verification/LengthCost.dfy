/**
 * The lengths that bzip2's trees lead to: no code costs less for the weights of the leaves, and no
 * code that costs as little is flatter.
 */
module LengthCost {
  import opened Common
  import opened HuffmanCost
  import opened HuffmanDepth
  import opened PackedTree

  /** The roots when nodes 1..m existed. */
  ghost function Standing(par: seq<int>, m: nat): set<int>
    requires m < |par|
  {
    set v | 1 <= v <= m && (par[v] == -1 || par[v] > m)
  }

  ghost function Loads(w: seq<int>, top: nat): (r: seq<nat>)
    ensures |r| == |w|
  {
    seq(|w|, v requires 0 <= v < |w| => if 1 <= v <= top && w[v] >= 0 then Weight(w[v]) else 0)
  }

  ghost function Heights(w: seq<int>): (r: seq<nat>)
    ensures |r| == |w|
  {
    seq(|w|, v requires 0 <= v < |w| => Height(w[v]))
  }

  ghost function Depths(par: seq<int>, top: nat): (r: seq<nat>)
    requires Rooted(par, top)
    ensures |r| == |par|
  {
    seq(|par|, v => if 1 <= v <= top then Depth(par, top, v) else 0)
  }

  lemma PackedOrder(x: int, y: int)
    requires 0 <= x <= y
    ensures Weight(x) <= Weight(y) && (Weight(x) == Weight(y) ==> Height(x) <= Height(y))
  {
  }

  // ---- From the root to the leaves ----

  lemma StandingSet(par: seq<int>, ka: seq<int>, kb: seq<int>, alpha: nat, top: nat, m: nat, u: nat, v: int)
    requires Forest(par, ka, kb, alpha, top) && alpha <= m < top && u == m + 1
    ensures v in Standing(par, u) <==> v == u || (v in Standing(par, m) && v != ka[u] && v != kb[u])
  {
    assert par[ka[u]] == u && par[kb[u]] == u;
    if 1 <= v <= m && par[v] == u { assert v == ka[u] || v == kb[u]; }
  }

  lemma JoinedNode(w: seq<int>, par: seq<int>, ka: seq<int>, kb: seq<int>, alpha: nat, top: nat, u: nat)
    requires HuffmanTree(w, par, ka, kb, alpha, top) && alpha < u <= top
    ensures Forest(par, ka, kb, alpha, top) && top < |w| == |par|
    ensures 1 <= ka[u] < u && 1 <= kb[u] < u && ka[u] != kb[u] && par[ka[u]] == u && par[kb[u]] == u
    ensures Loads(w, top)[u] == Loads(w, top)[ka[u]] + Loads(w, top)[kb[u]] && Taller(Heights(w), ka[u], kb[u], u)
    ensures Depths(par, top)[ka[u]] == Depths(par, top)[kb[u]] == Depths(par, top)[u] + 1
  {
  }

  lemma StandingStep(w: seq<int>, par: seq<int>, ka: seq<int>, kb: seq<int>, alpha: nat, top: nat, m: nat, u: nat)
    requires HuffmanTree(w, par, ka, kb, alpha, top) && alpha <= m < top && u == m + 1
    ensures 1 <= ka[u] <= m < |w| && 1 <= kb[u] <= m
    ensures Joins(Standing(par, m), Standing(par, u), Loads(w, top), ka[u], kb[u], u)
    ensures Taller(Heights(w), ka[u], kb[u], u)
    ensures Depths(par, top)[ka[u]] == Depths(par, top)[kb[u]] == Depths(par, top)[u] + 1
  {
    JoinedNode(w, par, ka, kb, alpha, top, u);
    hide HuffmanTree, Taller, Loads, Heights, Depths;
    var a, b := ka[u], kb[u];
    var s, s2 := Standing(par, m), Standing(par, u);
    forall v ensures v in s2 <==> v == u || (v in s && v != a && v != b) {
      StandingSet(par, ka, kb, alpha, top, m, u, v);
    }
    hide Forest;
    StandingJoins(par, m, u, a, b, Loads(w, top));
  }

  lemma StandingJoins(par: seq<int>, m: nat, u: nat, a: int, b: int, w: seq<nat>)
    requires u == m + 1 < |par| == |w| && 1 <= a <= m && 1 <= b <= m && a != b && par[a] == u && par[b] == u
    requires w[u] == w[a] + w[b]
    requires forall v :: v in Standing(par, u) <==> v == u || (v in Standing(par, m) && v != a && v != b)
    ensures Joins(Standing(par, m), Standing(par, u), w, a, b, u)
  {
    var s, s2 := Standing(par, m), Standing(par, u);
    assert a in s && b in s && u !in s && forall v :: v in s ==> 0 <= v < |w|;
    hide Standing;
    forall v ensures v in s2 <==> v in s - {a, b} + {u} { assert v in s2 <==> v == u || (v in s && v != a && v != b); }
    assert s2 == s - {a, b} + {u};
  }

  lemma StandingOrder(w: seq<int>, par: seq<int>, ka: seq<int>, kb: seq<int>, alpha: nat, top: nat, m: nat, u: nat)
    requires HuffmanTree(w, par, ka, kb, alpha, top) && alpha <= m < top && u == m + 1
    ensures forall v :: v in Standing(par, m) ==> Precedes(Loads(w, top), Heights(w), ka[u], v)
    ensures forall v :: v in Standing(par, m) && v != ka[u] ==> Precedes(Loads(w, top), Heights(w), kb[u], v)
  {
    var a, b := ka[u], kb[u];
    assert JoinsLightest(w, par, a, b, u);
    forall v | v in Standing(par, m)
      ensures Precedes(Loads(w, top), Heights(w), a, v) && (v != a ==> Precedes(Loads(w, top), Heights(w), b, v))
    {
      PackedOrder(w[a], w[b]);
      PackedOrder(w[a], w[v]);
      if v != a { PackedOrder(w[b], w[v]); }
    }
  }

  /** What is proved of the roots at every stage. */
  ghost predicate Optimal(s: set<int>, w: seq<nat>, h: seq<nat>, l: seq<nat>, scale: nat) {
    && |w| == |h| == |l| && Best(s, w, l) && Flattest(s, w, h, l) && Code(s, l, scale)
  }

  lemma RootOptimal(root: int, w: seq<nat>, h: seq<nat>, l: seq<nat>, scale: nat)
    requires |w| == |h| == |l| && 0 <= root < |l| && l[root] == 0
    ensures Optimal({root}, w, h, l, scale)
  {
    BestAlone(root, w, l);
    hide Best;
    SumBlank(|l|);
    SumUpdate(Blank(|l|), root, Pow2(scale));
    assert Units({root}, l, scale) == Blank(|l|)[root := Pow2(scale)];
    hide Code;
    forall l2: seq<nat>, top: nat, d: int {:trigger Code({root}, l2, top), Within({root}, h, l2, d)}
      | Code({root}, l2, top) && Best({root}, w, l2) && Within({root}, h, l2, d)
      ensures Within({root}, h, l, d)
    {
      assert root in {root};
    }
  }

  lemma JoinedOptimal(s: set<int>, s2: set<int>, w: seq<nat>, h: seq<nat>, l: seq<nat>, scale: nat, a: int, b: int,
                      node: int)
    requires Joins(s, s2, w, a, b, node) && Taller(h, a, b, node) && Optimal(s2, w, h, l, scale)
    requires l[a] == l[b] == l[node] + 1 && l[a] <= scale
    requires (forall v :: v in s ==> Precedes(w, h, a, v)) && forall v :: v in s && v != a ==> Precedes(w, h, b, v)
    ensures Optimal(s, w, h, l, scale)
  {
    hide Best, Flattest, Code, Pow2;
    JoinedCode(s, s2, w, l, scale, a, b, node);
    MergeBest(s, s2, w, l, a, b, node);
    MergeFlattest(s, s2, w, h, l, scale, a, b, node);
  }

  lemma {:induction false} OptimalFrom(w: seq<int>, par: seq<int>, ka: seq<int>, kb: seq<int>, alpha: nat, top: nat,
                                       m: nat)
    requires HuffmanTree(w, par, ka, kb, alpha, top) && alpha <= m <= top
    ensures Optimal(Standing(par, m), Loads(w, top), Heights(w), Depths(par, top), Height(w[top]))
    decreases top - m
  {
    hide Optimal, Joins;
    if m == top {
      assert Standing(par, m) == {top};
      RootOptimal(top, Loads(w, top), Heights(w), Depths(par, top), Height(w[top]));
    } else {
      var u := m + 1;
      OptimalFrom(w, par, ka, kb, alpha, top, u);
      StandingStep(w, par, ka, kb, alpha, top, m, u);
      StandingOrder(w, par, ka, kb, alpha, top, m, u);
      assert par[ka[u]] == u;
      DepthBelowHeight(w, par, ka, kb, alpha, top, ka[u]);
      JoinedOptimal(Standing(par, m), Standing(par, u), Loads(w, top), Heights(w), Depths(par, top), Height(w[top]),
        ka[u], kb[u], u);
    }
  }

  // ---- From nodes 1..n to symbols 0..n - 1 ----

  ghost function From1(n: nat): (r: set<int>)
    ensures forall v :: v in r <==> 1 <= v <= n
  {
    Range(n + 1) - {0}
  }

  /** The nodes of s are those of s1, one further on. */
  ghost predicate OneOn(s: set<int>, s1: set<int>) {
    (forall v :: v in s ==> v >= 1 && v - 1 in s1) && forall v :: v in s1 ==> v >= 0 && v + 1 in s
  }

  lemma OneOnCost(s: set<int>, s1: set<int>, w: seq<nat>, l: seq<nat>)
    requires OneOn(s, s1) && |w| == |l| >= 1
    ensures Cost(s, w, l) == Cost(s1, w[1..], l[1..])
  {
    hide Product;
    var x, y := Costs(s, w, l), Costs(s1, w[1..], l[1..]);
    forall v | 0 <= v < |x| ensures x[v] == ([0] + y)[v] {
      if v > 0 { assert v in s <==> v - 1 in s1; }
    }
    assert x == [0] + y;
    SumAppend([0], y);
    assert Sum([0]) == 0;
  }

  lemma OneOnCode(s: set<int>, s1: set<int>, l: seq<nat>, top: nat)
    requires OneOn(s, s1) && |l| >= 1
    ensures Code(s, l, top) <==> Code(s1, l[1..], top)
  {
    hide Unit, Pow2;
    var x, y := Units(s, l, top), Units(s1, l[1..], top);
    forall v | 0 <= v < |x| ensures x[v] == ([0] + y)[v] {
      if v > 0 { assert v in s <==> v - 1 in s1; }
    }
    assert x == [0] + y;
    SumAppend([0], y);
    assert Sum([0]) == 0;
    if Code(s, l, top) { forall v | v in s1 ensures 0 <= v < |l[1..]| && l[1..][v] <= top { assert v + 1 in s; } }
    if Code(s1, l[1..], top) { forall v | v in s ensures 0 <= v < |l| && l[v] <= top { assert v - 1 in s1; } }
  }

  /** Node i + 1 is symbol i. */
  lemma AsSymbols(w: seq<nat>, l: seq<nat>, top: nat, n: nat)
    requires |w| == |l| && n < |w|
    ensures Cost(From1(n), w, l) == Cost(Range(n), w[1..n + 1], l[1..n + 1])
    ensures Code(From1(n), l, top) <==> Code(Range(n), l[1..n + 1], top)
  {
    hide Cost, Code, From1;
    var w1, l1 := w[..n + 1], l[..n + 1];
    OnPrefix(From1(n), w, l, top, n + 1);
    assert w1[1..] == w[1..n + 1] && l1[1..] == l[1..n + 1];
    OneOnCost(From1(n), Range(n), w1, l1);
    OneOnCode(From1(n), Range(n), l1, top);
  }

  /** A code of least cost for the weights w is no longer than n bits anywhere. */
  ghost predicate Fits(w: seq<nat>, n: nat) {
    exists l: seq<nat>, top: nat :: Fitting(w, l, top, n)
  }

  ghost predicate Fitting(w: seq<nat>, l: seq<nat>, top: nat, n: nat) {
    Code(Range(|w|), l, top) && Best(Range(|w|), w, l) && forall i :: 0 <= i < |l| ==> l[i] <= n
  }

  /** Lengths for the symbols, as lengths for the nodes. */
  ghost function AsNodes(l: seq<nat>, n: nat, l2: seq<nat>): (r: seq<nat>)
    requires n < |l| && |l2| == n
    ensures |r| == |l| && r[1..n + 1] == l2
  {
    l[..1] + l2 + l[n + 1..]
  }

  lemma BestSymbols(w: seq<nat>, l: seq<nat>, n: nat, weights: seq<nat>, len: seq<nat>)
    requires Best(From1(n), w, l) && n < |w| && weights == w[1..n + 1] && len == l[1..n + 1]
    ensures Best(Range(n), weights, len)
  {
    hide Cost, Code, Range, From1;
    AsSymbols(w, l, 0, n);
    forall l2: seq<nat>, top: nat {:trigger Code(Range(n), l2, top)} | |l2| == n && Code(Range(n), l2, top)
      ensures Cost(Range(n), weights, len) <= Cost(Range(n), weights, l2)
    {
      AsSymbols(w, AsNodes(l, n, l2), top, n);
    }
  }

  lemma FlatSymbols(w: seq<nat>, h: seq<nat>, l: seq<nat>, n: nat, weights: seq<nat>, len: seq<nat>, scale: nat,
                    l2: seq<nat>, top: nat, d: nat)
    requires |w| == |l| == |h| && n < |w| && weights == w[1..n + 1] && len == l[1..n + 1]
    requires Optimal(From1(n), w, h, l, scale) && forall v :: v in From1(n) ==> h[v] == 0
    requires Fitting(weights, l2, top, d) && |l2| == n
    ensures forall i :: 0 <= i < n ==> len[i] <= d
  {
    hide Cost, Code, Range, From1;
    var l3 := AsNodes(l, n, l2);
    AsSymbols(w, l, scale, n);
    AsSymbols(w, l3, top, n);
    AsCheap(From1(n), w, l, l3);
    assert Within(From1(n), h, l3, d) by { AsNodesWithin(h, l, n, l2, d); }
    forall i | 0 <= i < n ensures len[i] <= d { assert i + 1 in From1(n); }
  }

  lemma AsNodesWithin(h: seq<nat>, l: seq<nat>, n: nat, l2: seq<nat>, d: nat)
    requires |l| == |h| && n < |l| && |l2| == n && (forall v :: v in From1(n) ==> h[v] == 0)
    requires forall i :: 0 <= i < n ==> l2[i] <= d
    ensures Within(From1(n), h, AsNodes(l, n, l2), d)
  {
    forall v | v in From1(n) ensures AsNodes(l, n, l2)[v] <= d { assert AsNodes(l, n, l2)[v] == l2[v - 1]; }
  }

  lemma SymbolsOptimal(w: seq<nat>, h: seq<nat>, l: seq<nat>, n: nat, weights: seq<nat>, len: seq<nat>, scale: nat,
                       d: nat)
    requires |w| == |l| == |h| && n < |w| && weights == w[1..n + 1] && len == l[1..n + 1]
    requires Optimal(From1(n), w, h, l, scale) && forall v :: v in From1(n) ==> h[v] == 0
    ensures Best(Range(n), weights, len)
    ensures Fits(weights, d) ==> forall i :: 0 <= i < n ==> len[i] <= d
  {
    hide Cost, Code, Range, From1;
    BestSymbols(w, l, n, weights, len);
    if Fits(weights, d) {
      var l2, t :| Fitting(weights, l2, t, d);
      FlatSymbols(w, h, l, n, weights, len, scale, l2, t, d);
    }
  }

  lemma LeavesStand(w: seq<int>, par: seq<int>, ka: seq<int>, kb: seq<int>, alpha: nat, top: nat)
    requires HuffmanTree(w, par, ka, kb, alpha, top)
    ensures alpha <= top < |par| == |w| && Standing(par, alpha) == From1(alpha)
  {
    forall v ensures v in Standing(par, alpha) <==> v in From1(alpha) { }
  }

  lemma LeafSlices(w: seq<int>, par: seq<int>, ka: seq<int>, kb: seq<int>, alpha: nat, top: nat, weights: seq<nat>,
                   len: seq<nat>)
    requires HuffmanTree(w, par, ka, kb, alpha, top) && |weights| == |len| == alpha
    requires forall i :: 0 <= i < alpha ==> weights[i] == Weight(w[i + 1]) && len[i] == Depth(par, top, i + 1)
    ensures weights == Loads(w, top)[1..alpha + 1] && len == Depths(par, top)[1..alpha + 1]
    ensures forall v :: v in From1(alpha) ==> Heights(w)[v] == 0
  {
    hide Range;
    forall i | 0 <= i < alpha
      ensures weights[i] == Loads(w, top)[1..alpha + 1][i] && len[i] == Depths(par, top)[1..alpha + 1][i]
    {
      assert Loads(w, top)[1..alpha + 1][i] == Loads(w, top)[i + 1];
    }
  }

  /** The tree's lengths for its leaves cost least, and if they do not fit, none of least cost do. */
  lemma LeavesOptimal(w: seq<int>, par: seq<int>, ka: seq<int>, kb: seq<int>, alpha: nat, top: nat, weights: seq<nat>,
                      len: seq<nat>, maxLen: nat)
    requires HuffmanTree(w, par, ka, kb, alpha, top) && |weights| == |len| == alpha
    requires forall i :: 0 <= i < alpha ==> weights[i] == Weight(w[i + 1]) && len[i] == Depth(par, top, i + 1)
    ensures Best(Range(alpha), weights, len)
    ensures Fits(weights, maxLen) ==> forall i :: 0 <= i < alpha ==> len[i] <= maxLen
  {
    LeavesStand(w, par, ka, kb, alpha, top);
    LeafSlices(w, par, ka, kb, alpha, top, weights, len);
    OptimalFrom(w, par, ka, kb, alpha, top, alpha);
    hide HuffmanTree, Optimal, Best, From1, Range, Standing, Loads, Depths, Heights, Depth, Fits;
    SymbolsOptimal(Loads(w, top), Heights(w), Depths(par, top), alpha, weights, len, Height(w[top]), maxLen);
  }
}
