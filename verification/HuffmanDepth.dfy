/**
 * Of the codes of least cost, the one that a Huffman tree gives is the flattest, if nodes of equal
 * weight are joined in the order of their heights.
 */
module HuffmanDepth {
  import opened Common
  import opened HuffmanCost

  /** No part of the tree below a node of s, which is h[v] high below node v, is deeper than d. */
  ghost predicate Within(s: set<int>, h: seq<nat>, l: seq<nat>, d: int) {
    |h| == |l| && forall v :: v in s ==> 0 <= v < |l| && h[v] + l[v] <= d
  }

  /** Of the codes of least cost, none keeps within a depth that l exceeds. */
  ghost predicate Flattest(s: set<int>, w: seq<nat>, h: seq<nat>, l: seq<nat>) {
    forall l2: seq<nat>, top: nat, d: int {:trigger Code(s, l2, top), Within(s, h, l2, d)} ::
      Code(s, l2, top) && Best(s, w, l2) && Within(s, h, l2, d) ==> Within(s, h, l, d)
  }

  /** Node a comes before node u: it is lighter, or as heavy and no higher. */
  ghost predicate Precedes(w: seq<nat>, h: seq<nat>, a: int, u: int) {
    && |w| == |h| && 0 <= a < |w| && 0 <= u < |w| && w[a] <= w[u] && (w[a] == w[u] ==> h[a] <= h[u])
  }

  lemma AsCheap(s: set<int>, w: seq<nat>, l: seq<nat>, l2: seq<nat>)
    requires Best(s, w, l) && |l2| == |w| && Cost(s, w, l2) <= Cost(s, w, l)
    ensures Best(s, w, l2)
  {
  }

  lemma Dearer(p: nat, q: nat, x: nat, y: nat)
    requires p < q && x < y
    ensures Product(p, y) + Product(q, x) < Product(p, x) + Product(q, y)
  {
    MulMono(1, q - p, y - x);
    assert (q - p) * (y - x) == q * y - q * x - p * y + p * x;
  }

  /** In a code of least cost, of two nodes of which one has the longer code neither is the lighter. */
  lemma NoGain(s: set<int>, w: seq<nat>, l: seq<nat>, top: nat, a: int, u: int)
    requires Code(s, l, top) && Best(s, w, l) && a in s && u in s && l[a] < l[u]
    ensures w[a] >= w[u]
  {
    hide Pow2, Unit, Product, Cost;
    if w[a] < w[u] {
      var l2 := Exchange(s, w, l, top, a, u);
      ExchangeGain(s, w, l, l2, a, u);
    }
  }

  lemma ExchangeGain(s: set<int>, w: seq<nat>, l: seq<nat>, l2: seq<nat>, a: int, u: int)
    requires |w| == |l| && a in s && u in s && 0 <= a < |l| && 0 <= u < |l| && w[a] < w[u] && l[a] < l[u]
    requires l2 == l[a := l[u]][u := l[a]]
    ensures Cost(s, w, l2) < Cost(s, w, l)
  {
    hide Product;
    TwoChanged(Costs(s, w, l), Costs(s, w, l2), a, u);
    Dearer(w[a], w[u], l[a], l[u]);
  }

  /** The exchange of Huffman's argument makes no code of least cost deeper. */
  lemma ExchangeWithin(s: set<int>, w: seq<nat>, h: seq<nat>, l: seq<nat>, top: nat, a: int, u: int, d: int)
    returns (l2: seq<nat>)
    requires Code(s, l, top) && Best(s, w, l) && Within(s, h, l, d) && a in s && u in s
    requires Precedes(w, h, a, u) && l[a] <= l[u]
    ensures l2 == l[a := l[u]][u := l[a]] && Code(s, l2, top) && Best(s, w, l2) && Within(s, h, l2, d)
  {
    hide Cost;
    if l[a] < l[u] { NoGain(s, w, l, top, a, u); }
    l2 := Exchange(s, w, l, top, a, u);
    AsCheap(s, w, l, l2);
    hide Best, Code;
    forall v | v in s ensures 0 <= v < |l2| && h[v] + l2[v] <= d { }
  }

  lemma ShorterWithin(s: set<int>, h: seq<nat>, l: seq<nat>, b: int, a: int, d: int)
    requires Within(s, h, l, d) && 0 <= a < |l| && 0 <= b < |l| && l[b] < l[a]
    ensures Within(s, h, l[a := l[b]], d)
  {
  }

  /** The first node of r gets the longest code of r. */
  lemma Lowered(s: set<int>, r: set<int>, w: seq<nat>, h: seq<nat>, l: seq<nat>, top: nat, a: int, d: int)
    returns (l2: seq<nat>)
    requires Code(s, l, top) && Best(s, w, l) && Within(s, h, l, d) && r <= s && a in r
    requires forall v :: v in r ==> Precedes(w, h, a, v)
    ensures |l2| == |l| && Code(s, l2, top) && Best(s, w, l2) && Within(s, h, l2, d)
    ensures forall v :: v in r ==> 0 <= v < |l2| && l2[v] <= l2[a]
    ensures forall v :: v in s && v !in r ==> 0 <= v < |l2| && l2[v] == l[v]
    ensures exists u :: u in r && 0 <= u < |l| && l2[a] == l[u]
  {
    hide Cost, Pow2, Best, Within;
    CodeWithin(s, l, top);
    hide Code;
    var u := Longest(r, l, a);
    l2 := ExchangeWithin(s, w, h, l, top, a, u, d);
    Exchanged(s, r, l, l2, a, u);
  }

  /** Huffman's rearrangement of a code of least cost, which does not make it deeper. */
  lemma LevelWithin(s: set<int>, w: seq<nat>, h: seq<nat>, l: seq<nat>, top: nat, a: int, b: int, d: int)
    returns (l2: seq<nat>)
    requires Code(s, l, top) && Best(s, w, l) && Within(s, h, l, d) && a in s && b in s && a != b
    requires (forall v :: v in s ==> Precedes(w, h, a, v)) && forall v :: v in s && v != a ==> Precedes(w, h, b, v)
    ensures |l2| == |l| && Code(s, l2, top) && Best(s, w, l2) && Within(s, h, l2, d) && l2[a] == l2[b] >= 1
  {
    hide Cost, Pow2, Best, Within, Code, Precedes;
    var l1 := Lowered(s, s, w, h, l, top, a, d);
    var l3 := Lowered(s, s - {a}, w, h, l1, top, b, d);
    assert l3[a] == l1[a];
    l2 := l3;
    if l3[b] < l3[a] {
      BestLength(s, w, l3);
      l2 := Shorten(s, w, l3, top, a, l3[b]);
      AsCheap(s, w, l3, l2);
      ShorterWithin(s, h, l3, b, a, d);
    }
    NotEmpty(s, l2, top, a, b);
  }

  lemma BestLength(s: set<int>, w: seq<nat>, l: seq<nat>)
    requires Best(s, w, l)
    ensures |l| == |w|
  {
  }

  /** The joined node is one higher than the higher of the two. */
  ghost predicate Taller(h: seq<nat>, a: int, b: int, node: int) {
    && 0 <= a < |h| && 0 <= b < |h| && 0 <= node < |h|
    && h[node] == 1 + if h[a] > h[b] then h[a] else h[b]
  }

  lemma JoinedWithin(s: set<int>, s2: set<int>, w: seq<nat>, h: seq<nat>, l: seq<nat>, a: int, b: int, node: int,
                     d: int)
    requires Joins(s, s2, w, a, b, node) && Taller(h, a, b, node) && |h| == |w| == |l|
    requires l[a] == l[b] == l[node] + 1
    ensures Within(s, h, l, d) <==> Within(s2, h, l, d)
  {
    if Within(s, h, l, d) { forall v | v in s2 ensures 0 <= v < |l| && h[v] + l[v] <= d { } }
    if Within(s2, h, l, d) {
      assert node in s2;
      forall v | v in s ensures 0 <= v < |l| && h[v] + l[v] <= d { if v != a && v != b { assert v in s2; } }
    }
  }

  /** A code of least cost with a and b at the same depth costs least for the joined nodes too. */
  lemma JoinedBest(s: set<int>, s2: set<int>, w: seq<nat>, l: seq<nat>, l2: seq<nat>, top: nat, a: int, b: int,
                   node: int)
    requires Joins(s, s2, w, a, b, node) && Best(s2, w, l) && |l| == |l2| == |w| && l[a] == l[b] == l[node] + 1
    requires w[a] <= w[b] && forall v :: v in s && v != a ==> w[b] <= w[v]
    requires Best(s, w, l2) && l2[a] == l2[b] == l2[node] + 1 && Code(s, l, top)
    ensures Best(s2, w, l2)
  {
    hide Pow2, Costs, Units;
    JoinedCost(s, s2, w, l, a, b, node);
    JoinedCost(s, s2, w, l2, a, b, node);
    AsCheap(s2, w, l, l2);
  }

  /** The step of the argument: joining the first two nodes keeps the flattest code flattest. */
  lemma MergeFlattest(s: set<int>, s2: set<int>, w: seq<nat>, h: seq<nat>, l: seq<nat>, top: nat, a: int, b: int,
                      node: int)
    requires Joins(s, s2, w, a, b, node) && Taller(h, a, b, node) && |h| == |w| == |l|
    requires Best(s2, w, l) && Code(s, l, top) && Flattest(s2, w, h, l) && l[a] == l[b] == l[node] + 1
    requires (forall v :: v in s ==> Precedes(w, h, a, v)) && forall v :: v in s && v != a ==> Precedes(w, h, b, v)
    ensures Flattest(s, w, h, l)
  {
    forall l2: seq<nat>, top2: nat, d: int {:trigger Code(s, l2, top2), Within(s, h, l2, d)}
      | Code(s, l2, top2) && Best(s, w, l2) && Within(s, h, l2, d)
      ensures Within(s, h, l, d)
    {
      FlatterIs(s, s2, w, h, l, top, a, b, node, l2, top2, d);
    }
  }

  lemma FlatterIs(s: set<int>, s2: set<int>, w: seq<nat>, h: seq<nat>, l: seq<nat>, top: nat, a: int, b: int,
                  node: int, l2: seq<nat>, top2: nat, d: int)
    requires Joins(s, s2, w, a, b, node) && Taller(h, a, b, node) && |h| == |w| == |l|
    requires Best(s2, w, l) && Code(s, l, top) && Flattest(s2, w, h, l) && l[a] == l[b] == l[node] + 1
    requires (forall v :: v in s ==> Precedes(w, h, a, v)) && forall v :: v in s && v != a ==> Precedes(w, h, b, v)
    requires Code(s, l2, top2) && Best(s, w, l2) && Within(s, h, l2, d)
    ensures Within(s, h, l, d)
  {
    hide Pow2, Costs, Units, Cost;
    var l3 := LevelWithin(s, w, h, l2, top2, a, b, d);
    var l4 := l3[node := l3[a] - 1];
    SameOn(s, w, l3, l4, top2);
    AsCheap(s, w, l3, l4);
    JoinedCode(s, s2, w, l4, top2, a, b, node);
    JoinedBest(s, s2, w, l, l4, top, a, b, node);
    assert Within(s, h, l4, d);
    JoinedWithin(s, s2, w, h, l4, a, b, node, d);
    JoinedWithin(s, s2, w, h, l, a, b, node, d);
  }
}
