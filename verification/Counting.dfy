/** Counting in a sequence of small numbers, and the stable sort it describes. */
module Counting {
  import opened Common

  ghost function Count(l: seq<byte>, c: int): nat {
    if l == [] then 0 else Count(l[..|l| - 1], c) + if l[|l| - 1] == c then 1 else 0
  }

  ghost function CountBelow(l: seq<byte>, c: int): nat {
    if l == [] then 0 else CountBelow(l[..|l| - 1], c) + if l[|l| - 1] < c then 1 else 0
  }

  /** Where a stable sort by value puts entry i. */
  ghost function Rank(l: seq<byte>, i: int): nat
    requires 0 <= i < |l|
  {
    CountBelow(l, l[i]) + Count(l[..i], l[i])
  }

  lemma {:induction false} CountBelowStep(l: seq<byte>, c: int)
    ensures CountBelow(l, c) + Count(l, c) == CountBelow(l, c + 1)
    ensures c <= 0 ==> CountBelow(l, c) == 0
    ensures 256 <= c ==> CountBelow(l, c) == |l|
  {
    if l != [] { CountBelowStep(l[..|l| - 1], c); }
  }

  lemma {:induction false} CountBelowMono(l: seq<byte>, c: int, d: int)
    requires c <= d
    ensures CountBelow(l, c) <= CountBelow(l, d)
  {
    if l != [] { CountBelowMono(l[..|l| - 1], c, d); }
  }

  lemma {:induction false} CountPrefix(l: seq<byte>, i: int, j: int, c: int)
    requires 0 <= i <= j <= |l|
    ensures Count(l[..i], c) + (if i < j && l[i] == c then 1 else 0) <= Count(l[..j], c)
    decreases j
  {
    if i < j {
      assert l[..j][..j - 1] == l[..j - 1];
      CountPrefix(l, i, j - 1, c);
    }
  }

  lemma RankOrder(l: seq<byte>, i: int, j: int)
    requires 0 <= i < |l| && 0 <= j < |l|
    requires l[i] < l[j] || (l[i] == l[j] && i < j)
    ensures Rank(l, i) < Rank(l, j)
  {
    if l[i] == l[j] {
      CountPrefix(l, i, j, l[i]);
    } else {
      assert l[..|l|] == l;
      CountPrefix(l, i, |l|, l[i]);
      var c: int := l[i];
      CountBelowStep(l, c);
      CountBelowMono(l, c + 1, l[j]);
    }
  }

  lemma RankBound(l: seq<byte>, i: int)
    requires 0 <= i < |l|
    ensures Rank(l, i) < |l|
  {
    assert l[..|l|] == l;
    CountPrefix(l, i, |l|, l[i]);
    CountBelowStep(l, l[i]);
    var c: int := l[i];
    CountBelowMono(l, c + 1, 256);
    CountBelowStep(l, 256);
  }

  ghost function Ranks(l: seq<byte>): (r: seq<int>)
    ensures |r| == |l|
  {
    seq(|l|, i requires 0 <= i < |l| => Rank(l, i))
  }

  lemma RanksPerm(l: seq<byte>)
    ensures IsPerm(Ranks(l), |l|)
  {
    forall i | 0 <= i < |l| ensures 0 <= Ranks(l)[i] < |l| { RankBound(l, i); }
    forall i, j | 0 <= i < j < |l| ensures Ranks(l)[i] != Ranks(l)[j] {
      if l[i] <= l[j] { RankOrder(l, i, j); } else { RankOrder(l, j, i); }
    }
  }

  /** The entry that a stable sort puts at place k. */
  ghost function Row(l: seq<byte>, k: int): (i: int)
    requires 0 <= k < |l|
    ensures 0 <= i < |l| && Rank(l, i) == k
  {
    RanksPerm(l);
    PermOnto(Ranks(l), |l|, k);
    assert exists i :: 0 <= i < |l| && Ranks(l)[i] == k;
    var i :| 0 <= i < |l| && Ranks(l)[i] == k;
    i
  }

  lemma RowOfRank(l: seq<byte>, i: int)
    requires 0 <= i < |l|
    ensures Rank(l, i) < |l| && Row(l, Rank(l, i)) == i
  {
    RanksPerm(l);
    assert Ranks(l)[i] == Rank(l, i);
    var r := Row(l, Rank(l, i));
    assert Ranks(l)[r] == Ranks(l)[i];
  }

  lemma CountSnoc(l: seq<byte>, i: int, c: int)
    requires 0 <= i < |l|
    ensures Count(l[..i + 1], c) == Count(l[..i], c) + if l[i] == c then 1 else 0
  {
    assert l[..i + 1][..i] == l[..i];
  }

  /** cftab[c] is the next place for byte c once the first i rows are placed. */
  ghost predicate Places(cf: seq<int>, l: seq<byte>, i: int) {
    var holds :=
      |cf| == 257 && 0 <= i <= |l| && forall c :: 0 <= c < 256 ==> cf[c] == CountBelow(l, c) + Count(l[..i], c);
    holds
  }

  /** cf[c] counts the bytes below c. */
  ghost predicate Cumulative(cf: seq<int>, l: seq<byte>) {
    |cf| == 257 && forall c :: 0 <= c <= 256 ==> cf[c] == CountBelow(l, c)
  }

  lemma NonePlaced(cf: seq<int>, l: seq<byte>)
    requires Cumulative(cf, l)
    ensures Places(cf, l, 0)
  {
  }

  lemma PlacesStep(cf: seq<int>, l: seq<byte>, i: int, i': int)
    requires Places(cf, l, i) && i < |l| && i' == i + 1
    ensures cf[l[i]] == Rank(l, i) < |l| && Places(cf[l[i] := cf[l[i]] + 1], l, i')
  {
    RankBound(l, i);
    forall c | 0 <= c < 256 ensures Count(l[..i'], c) == Count(l[..i], c) + if c == l[i] then 1 else 0 {
      CountSnoc(l, i, c);
    }
  }

  ghost function Counts(l: seq<byte>): (u: seq<int>)
    ensures |u| == 256
  {
    seq(256, c => Count(l, c))
  }

  lemma {:induction false} CountsSum(l: seq<byte>, c: nat)
    requires c <= 256
    ensures Sum(Counts(l)[..c]) == CountBelow(l, c)
  {
    if c == 0 {
      CountBelowStep(l, 0);
    } else {
      CountsSum(l, c - 1);
      CountBelowStep(l, c - 1);
      assert Counts(l)[..c][..c - 1] == Counts(l)[..c - 1];
    }
  }
}
