/**
 * The cost of giving code lengths to a set of weighted nodes, and Huffman's argument: lengths
 * that cost least for the nodes after two least ones were joined cost least before it too.
 */
module HuffmanCost {
  import opened Common

  ghost function Unit(top: nat, n: nat): nat { if n <= top then Pow2(top - n) else 0 }

  ghost function Product(x: nat, y: nat): (r: nat)
    ensures y == 0 ==> r == 0
  {
    x * y
  }

  /** What each node of s adds to the cost of the lengths l. */
  ghost function Costs(s: set<int>, w: seq<nat>, l: seq<nat>): (r: seq<int>)
    requires |w| == |l|
    ensures |r| == |w| && forall v :: 0 <= v < |r| ==> r[v] == if v in s then Product(w[v], l[v]) else 0
  {
    seq(|w|, v requires 0 <= v < |w| => if v in s then Product(w[v], l[v]) else 0)
  }

  /** What each node of s takes of the code space, in units of the length `top`. */
  ghost function Units(s: set<int>, l: seq<nat>, top: nat): (r: seq<int>)
    ensures |r| == |l| && forall v :: 0 <= v < |r| ==> r[v] == if v in s then Unit(top, l[v]) else 0
  {
    seq(|l|, v requires 0 <= v < |l| => if v in s then Unit(top, l[v]) else 0)
  }

  /** The lengths of a code for s: their Kraft sum is at most 1. */
  ghost predicate Code(s: set<int>, l: seq<nat>, top: nat) {
    (forall v :: v in s ==> 0 <= v < |l| && l[v] <= top) && Sum(Units(s, l, top)) <= Pow2(top)
  }

  ghost function Cost(s: set<int>, w: seq<nat>, l: seq<nat>): int
    requires |w| == |l|
  {
    Sum(Costs(s, w, l))
  }

  /** No code for s costs less than the lengths l. */
  ghost predicate Best(s: set<int>, w: seq<nat>, l: seq<nat>) {
    |l| == |w| && forall l2: seq<nat>, top: nat {:trigger Code(s, l2, top)} ::
      |l2| == |w| && Code(s, l2, top) ==> Cost(s, w, l) <= Cost(s, w, l2)
  }

  // ---- Sums in which few terms change ----

  lemma OneChanged(x: seq<int>, y: seq<int>, a: int)
    requires |x| == |y| && 0 <= a < |x| && forall v :: 0 <= v < |x| && v != a ==> x[v] == y[v]
    ensures Sum(y) == Sum(x) - x[a] + y[a]
  {
    assert y == x[a := y[a]];
    SumUpdate(x, a, y[a]);
  }

  lemma TwoChanged(x: seq<int>, y: seq<int>, a: int, b: int)
    requires |x| == |y| && 0 <= a < |x| && 0 <= b < |x| && a != b
    requires forall v :: 0 <= v < |x| && v != a && v != b ==> x[v] == y[v]
    ensures Sum(y) == Sum(x) - x[a] - x[b] + y[a] + y[b]
  {
    var z := x[a := y[a]];
    OneChanged(x, z, a);
    OneChanged(z, y, b);
  }

  lemma ThreeChanged(x: seq<int>, y: seq<int>, a: int, b: int, c: int)
    requires |x| == |y| && 0 <= a < |x| && 0 <= b < |x| && 0 <= c < |x| && a != b && a != c && b != c
    requires forall v :: 0 <= v < |x| && v != a && v != b && v != c ==> x[v] == y[v]
    ensures Sum(y) == Sum(x) - x[a] - x[b] - x[c] + y[a] + y[b] + y[c]
  {
    var z := x[c := y[c]];
    OneChanged(x, z, c);
    TwoChanged(z, y, a, b);
  }

  lemma {:induction false} SumNatural(x: seq<int>)
    requires forall v :: 0 <= v < |x| ==> 0 <= x[v]
    ensures 0 <= Sum(x)
  {
    if x != [] { SumNatural(x[..|x| - 1]); }
  }

  lemma TwoTerms(x: seq<int>, a: int, b: int)
    requires (forall v :: 0 <= v < |x| ==> 0 <= x[v]) && 0 <= a < |x| && 0 <= b < |x| && a != b
    ensures x[a] + x[b] <= Sum(x)
  {
    var z := x[a := 0][b := 0];
    TwoChanged(x, z, a, b);
    SumNatural(z);
  }

  lemma {:induction false} SumTimes(x: seq<int>, y: seq<int>, d: int)
    requires |x| == |y| && forall v :: 0 <= v < |x| ==> x[v] == y[v] * d
    ensures Sum(x) == Sum(y) * d
  {
    if x != [] {
      var n := |x| - 1;
      SumTimes(x[..n], y[..n], d);
      Spread(Sum(y[..n]), y[n], d);
    }
  }

  lemma Spread(a: int, b: int, d: int)
    ensures (a + b) * d == a * d + b * d
  {
  }

  // ---- Exchanging lengths ----

  /** The lighter node takes the longer code. */
  lemma Exchange(s: set<int>, w: seq<nat>, l: seq<nat>, top: nat, a: int, u: int) returns (l2: seq<nat>)
    requires Code(s, l, top) && |w| == |l| && a in s && u in s && w[a] <= w[u] && l[a] <= l[u]
    ensures l2 == l[a := l[u]][u := l[a]] && Code(s, l2, top) && Cost(s, w, l2) <= Cost(s, w, l)
  {
    l2 := l[a := l[u]][u := l[a]];
    ExchangeCode(s, l, l2, top, a, u);
    ExchangeCost(s, w, l, l2, a, u);
  }

  lemma ExchangeCode(s: set<int>, l: seq<nat>, l2: seq<nat>, top: nat, a: int, u: int)
    requires Code(s, l, top) && a in s && u in s && l2 == l[a := l[u]][u := l[a]]
    ensures Code(s, l2, top)
  {
    hide Unit;
    if a == u { assert l2 == l; } else { TwoChanged(Units(s, l, top), Units(s, l2, top), a, u); }
  }

  lemma ExchangeCost(s: set<int>, w: seq<nat>, l: seq<nat>, l2: seq<nat>, a: int, u: int)
    requires |w| == |l| && a in s && u in s && 0 <= a < |l| && 0 <= u < |l| && w[a] <= w[u] && l[a] <= l[u]
    requires l2 == l[a := l[u]][u := l[a]]
    ensures Cost(s, w, l2) <= Cost(s, w, l)
  {
    hide Product;
    if a == u {
      assert l2 == l;
    } else {
      TwoChanged(Costs(s, w, l), Costs(s, w, l2), a, u);
      Rearranged(w[a], w[u], l[a], l[u]);
    }
  }

  lemma Rearranged(p: nat, q: nat, x: nat, y: nat)
    requires p <= q && x <= y
    ensures Product(p, y) + Product(q, x) <= Product(p, x) + Product(q, y)
  {
    MulMono(0, q - p, y - x);
    assert (q - p) * (y - x) == q * y - q * x - p * y + p * x;
  }

  /** One of the nodes with the longest code, of which x is no more than an example. */
  lemma Longest(s: set<int>, l: seq<nat>, x: int) returns (u: int)
    requires x in s && forall v :: v in s ==> 0 <= v < |l|
    ensures u in s && forall v :: v in s ==> l[v] <= l[u]
    decreases |s|
  {
    u := x;
    if y :| y in s && l[u] < l[y] {
      var r := Longest(s - {x}, l, y);
      u := r;
    }
  }

  /** A single longest code may be made as short as the next longest: there is room for it. */
  lemma Shorten(s: set<int>, w: seq<nat>, l: seq<nat>, top: nat, a: int, m: nat) returns (l2: seq<nat>)
    requires Code(s, l, top) && |w| == |l| && a in s && m < l[a] && forall v :: v in s && v != a ==> l[v] <= m
    ensures l2 == l[a := m] && Code(s, l2, top) && Cost(s, w, l2) <= Cost(s, w, l)
  {
    hide Pow2, Product, Cost;
    l2 := l[a := m];
    CheaperShort(s, w, l, a, m);
    OneChanged(Units(s, l, top), Units(s, l2, top), a);
    RoomForOne(s, l, top, a, m, Pow2(top - m));
  }

  lemma CheaperShort(s: set<int>, w: seq<nat>, l: seq<nat>, a: int, m: nat)
    requires |w| == |l| && 0 <= a < |l| && a in s && m < l[a]
    ensures Cost(s, w, l[a := m]) <= Cost(s, w, l)
  {
    hide Product;
    OneChanged(Costs(s, w, l), Costs(s, w, l[a := m]), a);
    ProductMono(w[a], m, l[a]);
  }

  lemma ProductMono(x: nat, m: nat, y: nat)
    requires m <= y
    ensures Product(x, m) <= Product(x, y)
  {
    MulMono(m, y, x);
  }

  lemma RoomForOne(s: set<int>, l: seq<nat>, top: nat, a: int, m: nat, d: nat)
    requires Code(s, l, top) && a in s && m < l[a] && (forall v :: v in s && v != a ==> l[v] <= m)
    requires d == Pow2(top - m)
    ensures Sum(Units(s, l, top)) - Unit(top, l[a]) + d <= Pow2(top)
  {
    hide Pow2, Product, Unit;
    var x, parts := Units(s, l, top), Units(s - {a}, l, m);
    var rest := x[a := 0];
    OneChanged(x, rest, a);
    forall v | 0 <= v < |rest| ensures rest[v] == parts[v] * d { PartOf(s, l, top, a, m, d, v); }
    SumTimes(rest, parts, d);
    Pow2Sum(m, top - m, top);
    UnitPositive(top, l[a]);
    UnitPositive(top, m);
    OneMoreFits(Sum(rest), Pow2(top), Sum(parts), Pow2(m), d, x[a]);
  }

  lemma UnitPositive(top: nat, n: nat)
    requires n <= top
    ensures Unit(top, n) == Pow2(top - n) >= 1
  {
    Pow2Mono(0, top - n);
  }

  lemma PartOf(s: set<int>, l: seq<nat>, top: nat, a: int, m: nat, d: nat, v: int)
    requires 0 <= v < |l| && 0 <= a < |l| && m <= top && d == Pow2(top - m) && (v in s && v != a ==> l[v] <= m)
    ensures Units(s, l, top)[a := 0][v] == Units(s - {a}, l, m)[v] * d
  {
    hide Pow2;
    if v in s && v != a { Pow2Sum(m - l[v], top - m, top - l[v]); }
  }

  /** Whole parts that leave anything over leave a whole part over. */
  lemma OneMoreFits(rest: int, whole: int, q: int, all: int, d: int, e: int)
    requires d >= 1 && e >= 1 && rest == q * d && whole == all * d && rest + e <= whole
    ensures rest + d <= whole
  {
    if q >= all { MulMono(all, q, d); }
    MulMono(q + 1, all, d);
  }

  /** The two lightest nodes may have the longest codes, equally long, at no greater cost. */
  lemma Level(s: set<int>, w: seq<nat>, l: seq<nat>, top: nat, a: int, b: int) returns (l2: seq<nat>)
    requires Code(s, l, top) && |w| == |l| && a in s && b in s && a != b && w[a] <= w[b]
    requires forall v :: v in s && v != a ==> w[b] <= w[v]
    ensures |l2| == |l| && Code(s, l2, top) && Cost(s, w, l2) <= Cost(s, w, l) && l2[a] == l2[b] >= 1
  {
    hide Cost, Pow2;
    CodeWithin(s, l, top);
    var u := Longest(s, l, a);
    hide Code;
    var l1 := Exchange(s, w, l, top, a, u);
    Exchanged(s, s, l, l1, a, u);
    var u2 := Longest(s - {a}, l1, b);
    l2 := Exchange(s, w, l1, top, b, u2);
    Exchanged(s, s - {a}, l1, l2, b, u2);
    if l2[b] < l2[a] { l2 := Shorten(s, w, l2, top, a, l2[b]); }
    NotEmpty(s, l2, top, a, b);
  }

  lemma CodeWithin(s: set<int>, l: seq<nat>, top: nat)
    requires Code(s, l, top)
    ensures forall v :: v in s ==> 0 <= v < |l|
  {
  }

  /** Of the nodes in r, a has the longest code now; the others' have not changed, but for u's. */
  lemma Exchanged(s: set<int>, r: set<int>, l: seq<nat>, l2: seq<nat>, a: int, u: int)
    requires r <= s && a in r && u in r && (forall v :: v in s ==> 0 <= v < |l|)
    requires (forall v :: v in r ==> l[v] <= l[u]) && l2 == l[a := l[u]][u := l[a]]
    ensures forall v :: v in r ==> l2[v] <= l2[a]
    ensures forall v :: v in s && v !in r ==> l2[v] == l[v]
    ensures l2[a] == l[u]
  {
  }

  lemma NotEmpty(s: set<int>, l: seq<nat>, top: nat, a: int, b: int)
    requires Code(s, l, top) && a in s && b in s && a != b && l[a] == l[b]
    ensures l[a] >= 1
  {
    TwoTerms(Units(s, l, top), a, b);
    Pow2Mono(0, top);
  }

  // ---- Joining two nodes ----

  /** Two nodes and the one they are joined in, one step closer to the root. */
  ghost predicate Joins(s: set<int>, s2: set<int>, w: seq<nat>, a: int, b: int, node: int) {
    && a in s && b in s && a != b && node !in s && s2 == s - {a, b} + {node}
    && (forall v :: v in s ==> 0 <= v < |w|) && 0 <= node < |w| && w[node] == w[a] + w[b]
  }

  lemma JoinedCost(s: set<int>, s2: set<int>, w: seq<nat>, l: seq<nat>, a: int, b: int, node: int)
    requires Joins(s, s2, w, a, b, node) && |l| == |w| && l[a] == l[b] == l[node] + 1
    ensures Cost(s, w, l) == Cost(s2, w, l) + w[a] + w[b]
  {
    hide Product;
    ThreeChanged(Costs(s, w, l), Costs(s2, w, l), a, b, node);
    JoinedProduct(w[a], w[b], w[node], l[node], l[a]);
  }

  lemma JoinedProduct(p: nat, q: nat, pq: nat, x: nat, y: nat)
    requires pq == p + q && y == x + 1
    ensures Product(p, y) + Product(q, y) == Product(pq, x) + p + q
  {
  }

  lemma JoinedCode(s: set<int>, s2: set<int>, w: seq<nat>, l: seq<nat>, top: nat, a: int, b: int, node: int)
    requires Joins(s, s2, w, a, b, node) && |l| == |w| && l[a] == l[b] == l[node] + 1 && l[a] <= top
    ensures Code(s, l, top) <==> Code(s2, l, top)
  {
    ThreeChanged(Units(s, l, top), Units(s2, l, top), a, b, node);
  }

  /** Lengths outside the set do not matter. */
  lemma SameOn(s: set<int>, w: seq<nat>, l: seq<nat>, l2: seq<nat>, top: nat)
    requires |l| == |l2| == |w| && forall v :: v in s ==> 0 <= v < |l| && l[v] == l2[v]
    ensures Cost(s, w, l) == Cost(s, w, l2) && (Code(s, l, top) ==> Code(s, l2, top))
  {
    assert Costs(s, w, l) == Costs(s, w, l2) && Units(s, l, top) == Units(s, l2, top);
  }

  /** Huffman's step. */
  lemma MergeBest(s: set<int>, s2: set<int>, w: seq<nat>, l: seq<nat>, a: int, b: int, node: int)
    requires Joins(s, s2, w, a, b, node) && Best(s2, w, l) && l[a] == l[b] == l[node] + 1
    requires w[a] <= w[b] && forall v :: v in s && v != a ==> w[b] <= w[v]
    ensures Best(s, w, l)
  {
    JoinedCost(s, s2, w, l, a, b, node);
    forall l2: seq<nat>, top: nat {:trigger Code(s, l2, top)} | |l2| == |w| && Code(s, l2, top)
      ensures Cost(s, w, l) <= Cost(s, w, l2)
    {
      CheapestIs(s, s2, w, l, a, b, node, l2, top);
    }
  }

  lemma CheapestIs(s: set<int>, s2: set<int>, w: seq<nat>, l: seq<nat>, a: int, b: int, node: int, l2: seq<nat>,
                   top: nat)
    requires Joins(s, s2, w, a, b, node) && Best(s2, w, l) && Cost(s, w, l) == Cost(s2, w, l) + w[a] + w[b]
    requires w[a] <= w[b] && forall v :: v in s && v != a ==> w[b] <= w[v]
    requires |l2| == |w| && Code(s, l2, top)
    ensures Cost(s, w, l) <= Cost(s, w, l2)
  {
    hide Pow2, Costs, Units;
    var l3 := Level(s, w, l2, top, a, b);
    var l4 := l3[node := l3[a] - 1];
    SameOn(s, w, l3, l4, top);
    JoinedCost(s, s2, w, l4, a, b, node);
    JoinedCode(s, s2, w, l4, top, a, b, node);
  }

  // ---- Fewer nodes ----

  lemma {:induction false} SumPrefix(x: seq<int>, n: nat)
    requires n <= |x| && forall v :: n <= v < |x| ==> x[v] == 0
    ensures Sum(x) == Sum(x[..n])
    decreases |x|
  {
    if n < |x| {
      var m := |x| - 1;
      SumPrefix(x[..m], n);
      assert x[..m][..n] == x[..n];
    } else {
      assert x[..n] == x;
    }
  }

  /** Nodes behind those of s do not matter. */
  lemma OnPrefix(s: set<int>, w: seq<nat>, l: seq<nat>, top: nat, n: nat)
    requires |w| == |l| && n <= |w| && forall v :: v in s ==> 0 <= v < n
    ensures Cost(s, w, l) == Cost(s, w[..n], l[..n]) && (Code(s, l[..n], top) <==> Code(s, l, top))
  {
    hide Pow2, Unit, Product;
    SumPrefix(Costs(s, w, l), n);
    SumPrefix(Units(s, l, top), n);
    assert Costs(s, w, l)[..n] == Costs(s, w[..n], l[..n]);
    assert Units(s, l, top)[..n] == Units(s, l[..n], top);
  }

  lemma BestPrefix(s: set<int>, w: seq<nat>, l: seq<nat>, n: nat)
    requires Best(s, w, l) && n <= |w| && forall v :: v in s ==> 0 <= v < n
    ensures Best(s, w[..n], l[..n])
  {
    hide Cost, Code;
    OnPrefix(s, w, l, 0, n);
    forall l2: seq<nat>, top: nat {:trigger Code(s, l2, top)} | |l2| == n && Code(s, l2, top)
      ensures Cost(s, w[..n], l[..n]) <= Cost(s, w[..n], l2)
    {
      var longer := l2 + l[n..];
      assert longer[..n] == l2;
      OnPrefix(s, w, longer, top, n);
    }
  }

  /** Lengths and weights that are the same on s. */
  lemma BestSame(s: set<int>, w: seq<nat>, l: seq<nat>, w2: seq<nat>, l2: seq<nat>)
    requires Best(s, w, l) && |w2| == |w| == |l2|
    requires forall v :: v in s ==> 0 <= v < |w| && w2[v] == w[v] && l2[v] == l[v]
    ensures Best(s, w2, l2)
  {
    assert Costs(s, w, l) == Costs(s, w2, l2);
    forall l3: seq<nat>, top: nat {:trigger Code(s, l3, top)} | |l3| == |w2| && Code(s, l3, top)
      ensures Cost(s, w2, l2) <= Cost(s, w2, l3)
    {
      assert Costs(s, w, l3) == Costs(s, w2, l3);
    }
  }

  /** One node needs no code. */
  lemma BestAlone(root: int, w: seq<nat>, l: seq<nat>)
    requires 0 <= root < |w| == |l| && l[root] == 0
    ensures Best({root}, w, l)
  {
    hide Pow2, Unit, Product;
    SumBlank(|w|);
    assert Costs({root}, w, l) == Blank(|w|);
    forall l2: seq<nat>, top: nat {:trigger Code({root}, l2, top)} | |l2| == |w| && Code({root}, l2, top)
      ensures Cost({root}, w, l) <= Cost({root}, w, l2)
    {
      SumNatural(Costs({root}, w, l2));
    }
  }
}
