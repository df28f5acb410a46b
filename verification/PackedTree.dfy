/** The trees that bzip2 builds for its code lengths, on weights that carry the heights of the nodes. */
module PackedTree {
  import opened Common

  function Fib(n: nat): nat { if n < 2 then n else Fib(n - 1) + Fib(n - 2) }

  lemma {:induction false} FibMono(a: nat, b: nat)
    requires a <= b
    ensures Fib(a) <= Fib(b)
    decreases b
  {
    if a < b {
      FibMono(a, b - 1);
    }
  }

  lemma FibValues()
    ensures Fib(20) == 6765 && Fib(35) == 9227465
  {
    assert Fib(10) == 55 && Fib(11) == 89;
    assert Fib(12) == 144 && Fib(13) == 233 && Fib(14) == 377 && Fib(15) == 610 && Fib(16) == 987;
    assert Fib(17) == 1597 && Fib(18) == 2584 && Fib(19) == 4181 && Fib(20) == 6765;
    assert Fib(21) == 10946 && Fib(22) == 17711 && Fib(23) == 28657 && Fib(24) == 46368;
    assert Fib(25) == 75025 && Fib(26) == 121393 && Fib(27) == 196418 && Fib(28) == 317811;
    assert Fib(29) == 514229 && Fib(30) == 832040 && Fib(31) == 1346269 && Fib(32) == 2178309;
    assert Fib(33) == 3524578 && Fib(34) == 5702887;
  }

  // ---- Packed weights ----

  function Weight(x: int): int { x / 256 }

  function Height(x: int): int { x % 256 }

  function Max(a: int, b: int): int { if a > b then a else b }

  /**
   * The ADDWEIGHTS macro. Its OR adds the new height while that fits in 8 bits;
   * a height of 256 would be ORed into the weight.
   */
  function AddWeights(x: int, y: int): (r: int)
    ensures 0 <= x && 0 <= y ==> 0 <= r
    ensures 0 <= x && 0 <= y && Max(Height(x), Height(y)) < 255 ==>
      Weight(r) == Weight(x) + Weight(y) && Height(r) == 1 + Max(Height(x), Height(y))
  {
    var sum := (x - x % 256) + (y - y % 256);
    var height := 1 + Max(x % 256, y % 256);
    if height < 256 then sum + height else if sum / 256 % 2 == 1 then sum else sum + 256
  }

  // ---- The forest of nodes 1..m ----

  /** Nodes above `alpha` are internal; ka and kb name their two children. */
  ghost predicate Forest(par: seq<int>, ka: seq<int>, kb: seq<int>, alpha: nat, m: nat) {
    var holds :=
      && alpha <= m < |par| && |ka| == |kb| == |par|
      && (forall v :: 1 <= v <= m ==> par[v] == -1 || (alpha < par[v] <= m && v < par[v]))
      && (forall v :: 1 <= v <= m && par[v] != -1 ==> v == ka[par[v]] || v == kb[par[v]])
      && (forall u {:trigger ka[u]} {:trigger kb[u]} :: alpha < u <= m ==>
          1 <= ka[u] < u && 1 <= kb[u] < u && ka[u] != kb[u] && par[ka[u]] == u && par[kb[u]] == u);
    holds
  }

  /** The roots that were left when only nodes 1..m existed, each with its value. */
  ghost function Frontier(par: seq<int>, val: seq<int>, m: nat): (f: seq<int>)
    requires m < |par| && m < |val|
    ensures |f| == m + 1
  {
    seq(m + 1, k requires 0 <= k <= m => if 1 <= k && (par[k] == -1 || par[k] > m) then val[k] else 0)
  }

  lemma FrontierStep(par: seq<int>, ka: seq<int>, kb: seq<int>, alpha: nat, top: nat, val: seq<int>, m: nat)
    requires Forest(par, ka, kb, alpha, top) && alpha < m <= top && |val| == |par|
    requires val[m] == val[ka[m]] + val[kb[m]]
    ensures Sum(Frontier(par, val, m)) == Sum(Frontier(par, val, m - 1))
  {
    var before, after := Frontier(par, val, m - 1), Frontier(par, val, m);
    var a, b := ka[m], kb[m];
    forall k | 0 <= k < m ensures after[k] == before[a := 0][b := 0][k] {
      if k != a && k != b && k >= 1 { assert par[k] != m; }
    }
    assert after[..m] == before[a := 0][b := 0];
    SumUpdate(before, a, 0);
    SumUpdate(before[a := 0], b, 0);
  }

  /** A value that every internal node takes from its children is conserved from leaves to roots. */
  lemma {:induction false} FrontierConserved(par: seq<int>, ka: seq<int>, kb: seq<int>, alpha: nat, top: nat,
                                             val: seq<int>, m: nat)
    requires Forest(par, ka, kb, alpha, top) && alpha <= m <= top && |val| == |par|
    requires forall u {:trigger ka[u]} {:trigger kb[u]} :: alpha < u <= top ==> val[u] == val[ka[u]] + val[kb[u]]
    ensures Sum(Frontier(par, val, m)) == Sum(Frontier(par, val, alpha))
  {
    if m > alpha {
      FrontierStep(par, ka, kb, alpha, top, val, m);
      FrontierConserved(par, ka, kb, alpha, top, val, m - 1);
    }
  }

  lemma {:induction false} SumAtLeast(s: seq<int>, k: int)
    requires 0 <= k < |s| && forall i :: 0 <= i < |s| ==> 0 <= s[i]
    ensures 0 <= s[k] <= Sum(s)
  {
    var n := |s| - 1;
    if k < n {
      SumAtLeast(s[..n], k);
    } else {
      SumNonNegative(s[..n]);
    }
  }

  lemma {:induction false} SumNonNegative(s: seq<int>)
    requires forall i :: 0 <= i < |s| ==> 0 <= s[i]
    ensures 0 <= Sum(s)
  {
    if s != [] { SumNonNegative(s[..|s| - 1]); }
  }

  ghost function Weights(w: seq<int>): (r: seq<int>)
    ensures |r| == |w|
  {
    seq(|w|, k requires 0 <= k < |w| => Weight(w[k]))
  }

  ghost function Leaves(w: seq<int>, alpha: nat): seq<int>
    requires alpha < |w|
  {
    w[1..alpha + 1]
  }

  /** The total weight of the leaves. */
  ghost function Total(w: seq<int>, alpha: nat): int
    requires alpha < |w|
  {
    Sum(Weights(Leaves(w, alpha)))
  }

  /** Weights add up, heights grow by one, and a node of height d weighs at least Fib(d+2). */
  ghost predicate Weighted(w: seq<int>, ka: seq<int>, kb: seq<int>, alpha: nat, m: nat)
  {
    var holds :=
      && m < |w| == |ka| == |kb|
      && (forall v :: 1 <= v <= m ==> 256 <= w[v] && Fib(Height(w[v]) + 2) <= Weight(w[v]))
      && (forall v :: 1 <= v <= alpha && v <= m ==> Height(w[v]) == 0)
      && (forall u {:trigger ka[u]} {:trigger kb[u]} :: alpha < u <= m ==>
          && 0 <= ka[u] < u && 0 <= kb[u] < u
          && Weight(w[u]) == Weight(w[ka[u]]) + Weight(w[kb[u]])
          && Height(w[u]) == 1 + Max(Height(w[ka[u]]), Height(w[kb[u]])));
    holds
  }

  /** Every root weighs at least `last`, which already outgrew the roots' children. */
  ghost predicate Spread(w: seq<int>, par: seq<int>, m: nat, last: int)
    requires m < |w| && m < |par|
  {
    var holds :=
      forall v :: 1 <= v <= m && par[v] == -1 ==>
        last <= Weight(w[v]) && (Height(w[v]) >= 1 ==> Fib(Height(w[v]) + 1) <= last);
    holds
  }

  lemma FrontierLeaves(par: seq<int>, ka: seq<int>, kb: seq<int>, alpha: nat, top: nat, val: seq<int>)
    requires Forest(par, ka, kb, alpha, top) && |val| == |par|
    ensures Sum(Frontier(par, val, alpha)) == Sum(val[1..alpha + 1])
  {
    var f := Frontier(par, val, alpha);
    assert f == [0] + val[1..alpha + 1];
    SumAppend([0], val[1..alpha + 1]);
    assert Sum([0]) == 0;
  }

  lemma FrontierAtLeast(par: seq<int>, val: seq<int>, m: nat, v: int)
    requires m < |par| && m < |val| && 1 <= v <= m && par[v] == -1 && forall k :: 1 <= k <= m ==> 0 <= val[k]
    ensures val[v] <= Sum(Frontier(par, val, m))
  {
    var f := Frontier(par, val, m);
    assert forall i :: 0 <= i < |f| ==> 0 <= f[i];
    SumAtLeast(f, v);
  }

  /** No root outweighs the leaves together. */
  lemma RootBound(w: seq<int>, par: seq<int>, ka: seq<int>, kb: seq<int>, alpha: nat, m: nat, v: int)
    requires Forest(par, ka, kb, alpha, m) && |w| == |par| && Weighted(w, ka, kb, alpha, m)
    requires 1 <= v <= m && par[v] == -1
    ensures Weight(w[v]) <= Total(w, alpha)
  {
    var val := Weights(w);
    NodesAddUp(w, val, ka, kb, alpha, m);
    FrontierConserved(par, ka, kb, alpha, m, val, m);
    FrontierLeaves(par, ka, kb, alpha, m, val);
    assert val[1..alpha + 1] == Weights(w[1..alpha + 1]);
    FrontierAtLeast(par, val, m, v);
  }

  lemma NodesAddUp(w: seq<int>, val: seq<int>, ka: seq<int>, kb: seq<int>, alpha: nat, m: nat)
    requires Weighted(w, ka, kb, alpha, m) && val == Weights(w)
    ensures forall u {:trigger ka[u]} {:trigger kb[u]} :: alpha < u <= m ==>
      0 <= ka[u] < u && 0 <= kb[u] < u && val[u] == val[ka[u]] + val[kb[u]]
    ensures forall k :: 1 <= k <= m ==> 0 <= val[k]
  {
  }

  lemma HeightBound(d: nat, weight: int)
    requires Fib(d + 2) <= weight < 0x80_0000
    ensures d <= 32
  {
    if d > 32 { FibMono(35, d + 2); FibValues(); assert false; }
  }

  /** Merging the two lightest roots keeps the Fibonacci bound. */
  lemma MergeGrows(x: int, y: int, last: int)
    requires 256 <= x <= y && Max(Height(x), Height(y)) < 255
    requires Fib(Height(x) + 2) <= Weight(x) && Fib(Height(y) + 2) <= Weight(y)
    requires last <= Weight(x) && (Height(x) >= 1 ==> Fib(Height(x) + 1) <= last)
    requires last <= Weight(y) && (Height(y) >= 1 ==> Fib(Height(y) + 1) <= last)
    ensures 256 <= AddWeights(x, y) && Weight(x) <= Weight(y)
    ensures Fib(Height(AddWeights(x, y)) + 2) <= Weight(AddWeights(x, y))
    ensures last <= Weight(y) && Fib(Height(AddWeights(x, y)) + 1) <= Weight(y)
  {
    FibGrows(Height(x), Height(y), Weight(x), Weight(y), last, Max(Height(x), Height(y)));
  }

  /** A node one higher than its children weighs enough, and so does the heavier child. */
  lemma FibGrows(hx: nat, hy: nat, wx: int, wy: int, last: int, d: nat)
    requires d == Max(hx, hy) && 1 <= wx <= wy && Fib(hx + 2) <= wx && Fib(hy + 2) <= wy
    requires last <= wx && (hx >= 1 ==> Fib(hx + 1) <= last) && (hy >= 1 ==> Fib(hy + 1) <= last)
    ensures Fib(d + 3) <= wx + wy && Fib(d + 2) <= wy
  {
    assert Fib(d + 3) == Fib(d + 2) + Fib(d + 1);
    assert Fib(1) == 1;
  }

  // ---- Building the tree ----

  /** x and y are the two lightest roots. */
  ghost predicate Lightest(w: seq<int>, par: seq<int>, m: nat, x: int, y: int)
    requires m < |w| && m < |par|
  {
    var holds :=
      && 1 <= x <= m && 1 <= y <= m && x != y && par[x] == -1 && par[y] == -1
      && (forall v :: 1 <= v <= m && par[v] == -1 ==> w[x] <= w[v])
      && (forall v :: 1 <= v <= m && par[v] == -1 && v != x ==> w[y] <= w[v]);
    holds
  }

  lemma MergedForest(par: seq<int>, ka: seq<int>, kb: seq<int>, alpha: nat, m: nat, x: int, y: int)
    requires Forest(par, ka, kb, alpha, m) && m + 1 < |par|
    requires 1 <= x <= m && 1 <= y <= m && x != y && par[x] == -1 && par[y] == -1
    ensures Forest(par[x := m + 1][y := m + 1][m + 1 := -1], ka[m + 1 := x], kb[m + 1 := y], alpha, m + 1)
  {
  }

  lemma MergedWeighted(w: seq<int>, w': seq<int>, ka: seq<int>, kb: seq<int>, ka': seq<int>, kb': seq<int>,
                       alpha: nat, m: nat, x: int, y: int)
    requires Weighted(w, ka, kb, alpha, m) && alpha <= m && m + 1 < |w| && 1 <= x <= m && 1 <= y <= m
    requires w[x] <= w[y] && Max(Height(w[x]), Height(w[y])) < 255
    requires w' == w[m + 1 := AddWeights(w[x], w[y])] && ka' == ka[m + 1 := x] && kb' == kb[m + 1 := y]
    requires 256 <= w'[m + 1] && Fib(Height(w'[m + 1]) + 2) <= Weight(w'[m + 1])
    ensures Weighted(w', ka', kb', alpha, m + 1)
  {
    var u := m + 1;
    assert w'[u] == AddWeights(w[x], w[y]) && w'[x] == w[x] && w'[y] == w[y];
    forall v {:trigger ka'[v]} {:trigger kb'[v]} | alpha < v <= m
      ensures 0 <= ka'[v] < v && 0 <= kb'[v] < v && w'[ka'[v]] == w[ka[v]] && w'[kb'[v]] == w[kb[v]]
    {
      assert ka'[v] == ka[v] && kb'[v] == kb[v];
    }
  }

  lemma MergedSpread(w: seq<int>, w': seq<int>, par: seq<int>, par': seq<int>, m: nat, last: int, x: int, y: int)
    requires m + 1 < |w| == |par| && Spread(w, par, m, last) && Lightest(w, par, m, x, y)
    requires 0 <= w[x] && Max(Height(w[x]), Height(w[y])) < 255
    requires w' == w[m + 1 := AddWeights(w[x], w[y])] && par' == par[x := m + 1][y := m + 1][m + 1 := -1]
    requires last <= Weight(w[y]) && Fib(Height(w'[m + 1]) + 1) <= Weight(w[y])
    ensures Spread(w', par', m + 1, Weight(w[y]))
  {
    forall v | 1 <= v <= m + 1 && par'[v] == -1
      ensures Weight(w[y]) <= Weight(w'[v]) && (Height(w'[v]) >= 1 ==> Fib(Height(w'[v]) + 1) <= Weight(w[y]))
    {
      if v <= m {
        assert v != x && v != y && par[v] == -1 && w'[v] == w[v];
        assert w[y] <= w[v];
      }
    }
  }

  ghost predicate TreePart(w: seq<int>, par: seq<int>, ka: seq<int>, kb: seq<int>, alpha: nat, m: nat, last: int) {
    var holds :=
      |w| == |par| && Forest(par, ka, kb, alpha, m) && Weighted(w, ka, kb, alpha, m) && Spread(w, par, m, last);
    holds
  }

  lemma Merged(w: seq<int>, par: seq<int>, ka: seq<int>, kb: seq<int>, alpha: nat, m: nat, last: int, x: int, y: int)
    requires TreePart(w, par, ka, kb, alpha, m, last) && m + 1 < |w| && Lightest(w, par, m, x, y)
    requires Total(w, alpha) < 0x80_0000
    ensures TreePart(w[m + 1 := AddWeights(w[x], w[y])], par[x := m + 1][y := m + 1][m + 1 := -1],
                     ka[m + 1 := x], kb[m + 1 := y], alpha, m + 1, Weight(w[y]))
  {
    var w', par' := w[m + 1 := AddWeights(w[x], w[y])], par[x := m + 1][y := m + 1][m + 1 := -1];
    MergedForest(par, ka, kb, alpha, m, x, y);
    PairGrows(w, par, ka, kb, alpha, m, last, x, y);
    MergedWeighted(w, w', ka, kb, ka[m + 1 := x], kb[m + 1 := y], alpha, m, x, y);
    MergedSpread(w, w', par, par', m, last, x, y);
  }

  /** The two lightest roots can be merged. */
  lemma PairGrows(w: seq<int>, par: seq<int>, ka: seq<int>, kb: seq<int>, alpha: nat, m: nat, last: int, x: int, y: int)
    requires TreePart(w, par, ka, kb, alpha, m, last) && m + 1 < |w| && Lightest(w, par, m, x, y)
    requires Total(w, alpha) < 0x80_0000
    ensures 256 <= w[x] <= w[y] && Max(Height(w[x]), Height(w[y])) < 255
    ensures Grown(AddWeights(w[x], w[y]), w[y], last)
  {
    RootsLight(w, par, ka, kb, alpha, m, x);
    RootsLight(w, par, ka, kb, alpha, m, y);
    RootFacts(w, par, ka, kb, alpha, m, last, x);
    RootFacts(w, par, ka, kb, alpha, m, last, y);
    MergeGrows(w[x], w[y], last);
  }

  /** z is heavy enough for its height, and so is its heavier child y. */
  ghost predicate Grown(z: int, y: int, last: int) {
    256 <= z && Fib(Height(z) + 2) <= Weight(z) && last <= Weight(y) && Fib(Height(z) + 1) <= Weight(y)
  }

  lemma RootFacts(w: seq<int>, par: seq<int>, ka: seq<int>, kb: seq<int>, alpha: nat, m: nat, last: int, v: int)
    requires TreePart(w, par, ka, kb, alpha, m, last) && 1 <= v <= m < |w| && par[v] == -1
    ensures 256 <= w[v] && Fib(Height(w[v]) + 2) <= Weight(w[v])
    ensures last <= Weight(w[v]) && (Height(w[v]) >= 1 ==> Fib(Height(w[v]) + 1) <= last)
  {
  }

  lemma RootsLight(w: seq<int>, par: seq<int>, ka: seq<int>, kb: seq<int>, alpha: nat, m: nat, v: int)
    requires Forest(par, ka, kb, alpha, m) && |w| == |par| && Weighted(w, ka, kb, alpha, m)
    requires 1 <= v <= m && par[v] == -1 && Total(w, alpha) < 0x80_0000
    ensures Height(w[v]) <= 32
  {
    RootBound(w, par, ka, kb, alpha, m, v);
    HeightBound(Height(w[v]), Weight(w[v]));
  }

  // ---- The order of the merges ----

  /** Node u joins the two lightest of the nodes that were roots before it. */
  ghost predicate JoinsLightest(w: seq<int>, par: seq<int>, x: int, y: int, u: int) {
    && 0 <= x < |w| == |par| && 0 <= y < |w| && u <= |w| && w[x] <= w[y]
    && forall v :: 1 <= v < u && (par[v] == -1 || par[v] >= u) && v != x ==> w[y] <= w[v]
  }

  ghost predicate Greedy(w: seq<int>, par: seq<int>, ka: seq<int>, kb: seq<int>, alpha: nat, m: nat) {
    var holds :=
      m < |ka| && m < |kb| && forall u {:trigger ka[u]} {:trigger kb[u]} ::
        alpha < u <= m ==> JoinsLightest(w, par, ka[u], kb[u], u);
    holds
  }

  lemma MergedGreedy(w: seq<int>, par: seq<int>, ka: seq<int>, kb: seq<int>, alpha: nat, m: nat, x: int, y: int,
                     z: int, u: nat)
    requires Greedy(w, par, ka, kb, alpha, m) && Forest(par, ka, kb, alpha, m) && u == m + 1 < |w| == |par|
    requires Lightest(w, par, m, x, y)
    ensures Greedy(w[u := z], par[x := u][y := u][u := -1], ka[u := x], kb[u := y], alpha, u)
  {
    var w', par', ka', kb' := w[u := z], par[x := u][y := u][u := -1], ka[u := x], kb[u := y];
    forall t {:trigger ka'[t]} {:trigger kb'[t]} | alpha < t <= u ensures JoinsLightest(w', par', ka'[t], kb'[t], t) {
      if t <= m {
        assert ka'[t] == ka[t] && kb'[t] == kb[t];
        assert JoinsLightest(w, par, ka[t], kb[t], t);
      }
    }
  }

  // ---- The finished tree ----

  /** The finished tree: every node but the last has a parent. */
  ghost predicate Built(w: seq<int>, par: seq<int>, ka: seq<int>, kb: seq<int>, alpha: nat, top: nat) {
    var holds :=
      && |w| == |par| && Forest(par, ka, kb, alpha, top) && Weighted(w, ka, kb, alpha, top)
      && 1 <= top && par[top] == -1 && (forall v :: 1 <= v < top ==> par[v] != -1);
    holds
  }

  /** Number of steps from node v up to the root. */
  ghost function Depth(par: seq<int>, top: nat, v: int): nat
    requires top < |par| && 1 <= v <= top && forall x :: 1 <= x < top ==> x < par[x] <= top
    decreases top - v
  {
    if v == top then 0 else 1 + Depth(par, top, par[v])
  }

  ghost predicate Rooted(par: seq<int>, top: nat) {
    var holds :=
      top < |par| && forall x :: 1 <= x < top ==> x < par[x] <= top;
    holds
  }

  lemma {:induction false} DepthBelowHeight(w: seq<int>, par: seq<int>, ka: seq<int>, kb: seq<int>, alpha: nat,
                                            top: nat, v: int)
    requires Built(w, par, ka, kb, alpha, top) && Rooted(par, top) && 1 <= v <= top
    ensures Depth(par, top, v) + Height(w[v]) <= Height(w[top])
    decreases top - v
  {
    if v < top {
      var u := par[v];
      DepthBelowHeight(w, par, ka, kb, alpha, top, u);
      assert v == ka[u] || v == kb[u];
    }
  }

  lemma BuiltRooted(w: seq<int>, par: seq<int>, ka: seq<int>, kb: seq<int>, alpha: nat, top: nat)
    requires Built(w, par, ka, kb, alpha, top)
    ensures Rooted(par, top) && par[top] == -1 && Forest(par, ka, kb, alpha, top) && alpha <= top
  {
  }

  /** A finished tree in which every merge took the two lightest roots. */
  ghost predicate HuffmanTree(w: seq<int>, par: seq<int>, ka: seq<int>, kb: seq<int>, alpha: nat, top: nat) {
    var holds := Built(w, par, ka, kb, alpha, top) && Greedy(w, par, ka, kb, alpha, top) && Rooted(par, top);
    holds
  }
}
