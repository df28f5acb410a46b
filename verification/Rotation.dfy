/** Cyclic rotations of a block, compared on their first `h` bytes. */
module Rotation {
  import opened Common

  /** Index arithmetic modulo the block size, for one wrap-around. */
  function Wrap(x: int, n: int): (r: int)
    requires 0 <= x < 2 * n
    ensures 0 <= r < n
  {
    if x >= n then x - n else x
  }

  function Next(i: int, n: int): (r: int)
    requires 0 <= i < n
    ensures 0 <= r < n
  {
    Wrap(i + 1, n)
  }

  function Prev(i: int, n: int): (r: int)
    requires 0 <= i < n
    ensures 0 <= r < n && Next(r, n) == i
  {
    if i == 0 then n - 1 else i - 1
  }

  /** The rotations starting at i and at j agree on h bytes. */
  ghost predicate EqH(b: seq<byte>, h: nat, i: int, j: int)
    requires 0 <= i < |b| && 0 <= j < |b|
  {
    h == 0 || (b[i] == b[j] && EqH(b, h - 1, Next(i, |b|), Next(j, |b|)))
  }

  /** The rotation at i is lexicographically at most the one at j on h bytes. */
  ghost predicate LeH(b: seq<byte>, h: nat, i: int, j: int)
    requires 0 <= i < |b| && 0 <= j < |b|
  {
    h == 0 || b[i] < b[j] || (b[i] == b[j] && LeH(b, h - 1, Next(i, |b|), Next(j, |b|)))
  }

  ghost predicate LtH(b: seq<byte>, h: nat, i: int, j: int)
    requires 0 <= i < |b| && 0 <= j < |b|
  {
    !LeH(b, h, j, i)
  }

  lemma {:induction false} LeTotal(b: seq<byte>, h: nat, i: int, j: int)
    requires 0 <= i < |b| && 0 <= j < |b|
    ensures LeH(b, h, i, j) || LeH(b, h, j, i)
    ensures EqH(b, h, i, j) <==> (LeH(b, h, i, j) && LeH(b, h, j, i))
  {
    if h > 0 { LeTotal(b, h - 1, Next(i, |b|), Next(j, |b|)); }
  }

  lemma {:induction false} LeTrans(b: seq<byte>, h: nat, i: int, j: int, k: int)
    requires 0 <= i < |b| && 0 <= j < |b| && 0 <= k < |b|
    requires LeH(b, h, i, j) && LeH(b, h, j, k)
    ensures LeH(b, h, i, k)
    decreases h
  {
    if h > 0 && b[i] == b[j] == b[k] {
      LeTrans(b, h - 1, Next(i, |b|), Next(j, |b|), Next(k, |b|));
    }
  }

  lemma {:induction false} EqRefl(b: seq<byte>, h: nat, i: int)
    requires 0 <= i < |b|
    ensures EqH(b, h, i, i)
  {
    if h > 0 { EqRefl(b, h - 1, Next(i, |b|)); }
  }

  lemma {:induction false} EqTrans(b: seq<byte>, h: nat, i: int, j: int, k: int)
    requires 0 <= i < |b| && 0 <= j < |b| && 0 <= k < |b|
    requires EqH(b, h, i, j) && EqH(b, h, j, k)
    ensures EqH(b, h, i, k)
  {
    if h > 0 { EqTrans(b, h - 1, Next(i, |b|), Next(j, |b|), Next(k, |b|)); }
  }

  lemma {:induction false} EqSym(b: seq<byte>, h: nat, i: int, j: int)
    requires 0 <= i < |b| && 0 <= j < |b|
    ensures EqH(b, h, i, j) == EqH(b, h, j, i)
    decreases h
  {
    if h > 0 { EqSym(b, h - 1, Next(i, |b|), Next(j, |b|)); }
  }

  /** A longer comparison decides a shorter one. */
  lemma {:induction false} LeShorter(b: seq<byte>, g: nat, h: nat, i: int, j: int)
    requires 0 <= i < |b| && 0 <= j < |b| && g <= h
    requires LeH(b, h, i, j)
    ensures LeH(b, g, i, j)
    decreases g
  {
    if g > 0 && b[i] == b[j] { LeShorter(b, g - 1, h - 1, Next(i, |b|), Next(j, |b|)); }
  }

  /** Comparing t = g + h bytes is comparing g bytes and, on a tie, the h bytes after them. */
  lemma {:induction false} LeSplit(b: seq<byte>, g: nat, h: nat, t: nat, i: int, j: int)
    requires 0 <= i < |b| && 0 <= j < |b| && g <= |b| && t == g + h
    ensures LeH(b, t, i, j) <==>
            LtH(b, g, i, j) || (EqH(b, g, i, j) && LeH(b, h, Wrap(i + g, |b|), Wrap(j + g, |b|)))
    decreases g
  {
    if g > 0 {
      var i', j' := Next(i, |b|), Next(j, |b|);
      LeSplit(b, g - 1, h, t - 1, i', j');
      assert Wrap(i' + g - 1, |b|) == Wrap(i + g, |b|);
      assert Wrap(j' + g - 1, |b|) == Wrap(j + g, |b|);
    }
  }

  lemma {:induction false} EqSplit(b: seq<byte>, g: nat, h: nat, t: nat, i: int, j: int)
    requires 0 <= i < |b| && 0 <= j < |b| && g <= |b| && t == g + h
    ensures EqH(b, t, i, j) <==>
            EqH(b, g, i, j) && EqH(b, h, Wrap(i + g, |b|), Wrap(j + g, |b|))
    decreases g
  {
    if g > 0 {
      var i', j' := Next(i, |b|), Next(j, |b|);
      EqSplit(b, g - 1, h, t - 1, i', j');
      assert Wrap(i' + g - 1, |b|) == Wrap(i + g, |b|);
      assert Wrap(j' + g - 1, |b|) == Wrap(j + g, |b|);
    }
  }

  /** Equal full rotations stay equal when both are advanced by one byte. */
  lemma EqNext(b: seq<byte>, i: int, j: int)
    requires 0 <= i < |b| && 0 <= j < |b|
    requires EqH(b, |b|, i, j)
    ensures EqH(b, |b|, Next(i, |b|), Next(j, |b|))
  {
    var i', j', n := Next(i, |b|), Next(j, |b|), |b| - 1;
    assert EqH(b, n, i', j') && b[i] == b[j];
    EqCycle(b, n, i, j, i', j');
  }

  /** The byte before a rotation is also the one after its last. */
  lemma EqCycle(b: seq<byte>, n: nat, i: int, j: int, i': int, j': int)
    requires 0 <= i < |b| && 0 <= j < |b| && n == |b| - 1 && i' == Next(i, |b|) && j' == Next(j, |b|)
    requires EqH(b, n, i', j') && b[i] == b[j]
    ensures EqH(b, |b|, i', j')
  {
    assert Wrap(i' + n, |b|) == i && Wrap(j' + n, |b|) == j;
    EqSplit(b, n, 1, |b|, i', j');
    assert EqH(b, 0, Next(i, |b|), Next(j, |b|));
  }

  /** The rows listed by `p` are sorted by their first h bytes. */
  ghost predicate SortedH(b: seq<byte>, h: nat, p: seq<int>)
    requires IsPerm(p, |b|)
  {
    forall x, y :: 0 <= x < y < |b| ==> LeH(b, h, p[x], p[y])
  }

  /**
   * Two listings of all rotations, both sorted, name equal rotations row by row.
   * They need not name the same start: a periodic block has equal rotations.
   */
  lemma SortedRowsAgree(b: seq<byte>, h: nat, u: seq<int>, v: seq<int>, k: int)
    requires IsPerm(u, |b|) && IsPerm(v, |b|)
    requires SortedH(b, h, u) && SortedH(b, h, v)
    requires 0 <= k < |b|
    ensures EqH(b, h, u[k], v[k])
  {
    RowNotAbove(b, h, u, v, k);
    RowNotAbove(b, h, v, u, k);
    LeTotal(b, h, u[k], v[k]);
  }

  lemma RowNotAbove(b: seq<byte>, h: nat, u: seq<int>, v: seq<int>, k: int)
    requires IsPerm(u, |b|) && IsPerm(v, |b|)
    requires SortedH(b, h, u) && SortedH(b, h, v)
    requires 0 <= k < |b|
    ensures LeH(b, h, v[k], u[k])
  {
    if !LeH(b, h, v[k], u[k]) {
      // The k+1 rows u[..k+1] all lie strictly below v[k], so all sit in v[..k].
      forall x | x in u[..k + 1] ensures x in v[..k] {
        var a :| 0 <= a <= k && u[a] == x;
        LeTotal(b, h, x, x);
        assert LeH(b, h, x, u[k]);
        PermOnto(v, |b|, x);
        var c :| 0 <= c < |b| && v[c] == x;
        if c >= k {
          LeTotal(b, h, x, x);
          assert LeH(b, h, v[k], x);
          LeTrans(b, h, v[k], x, u[k]);
          assert false;
        }
        assert v[..k][c] == x;
      }
      DistinctSize(u[..k + 1]);
      DistinctSize(v[..k]);
      assert Elems(u[..k + 1]) <= Elems(v[..k]);
      SubsetSize(Elems(u[..k + 1]), Elems(v[..k]));
      assert false;
    }
  }
}
