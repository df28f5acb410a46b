/**
 * bzip2's first stage. A run of 4 to 255 equal bytes becomes four of them and a
 * count byte. `Remaining` is what a block still decodes to, from any place in it.
 */
module Rle {
  import opened Common
  import opened Mtf

  datatype Pair = Pair(ch: byte, len: int)

  /** The block bytes of one run. */
  ghost function PairCode(p: Pair): seq<byte>
    requires 1 <= p.len <= 255
  {
    if p.len < 4 then Repeat(p.ch, p.len) else Repeat(p.ch, 4) + [p.len - 4]
  }

  ghost predicate Lengths(ps: seq<Pair>) { forall i :: 0 <= i < |ps| ==> 1 <= ps[i].len <= 255 }

  /** Runs that do not touch: a run is followed by another byte unless it carries a count. */
  ghost predicate Proper(ps: seq<Pair>) {
    Lengths(ps) && forall i, j {:trigger ps[i], ps[j]} :: 0 <= i && j == i + 1 && j < |ps| ==>
      ps[i].ch != ps[j].ch || ps[i].len >= 4
  }

  /** The runs of a text, as long as they can be: only a run of 255 bytes goes on in the next one. */
  ghost predicate Maximal(ps: seq<Pair>) {
    Lengths(ps) && forall i, j {:trigger ps[i], ps[j]} :: 0 <= i && j == i + 1 && j < |ps| ==>
      ps[i].ch != ps[j].ch || ps[i].len == 255
  }

  ghost function Flatten(ps: seq<Pair>): seq<byte>
    requires Lengths(ps)
  {
    if ps == [] then [] else Flatten(ps[..|ps| - 1]) + PairCode(ps[|ps| - 1])
  }

  /** The bytes that the runs stand for. */
  ghost function Spread(ps: seq<Pair>): seq<byte>
    requires Lengths(ps)
  {
    if ps == [] then [] else Spread(ps[..|ps| - 1]) + Repeat(ps[|ps| - 1].ch, ps[|ps| - 1].len)
  }

  /** Only runs of exactly four bytes grow in the block, by a byte. */
  lemma {:induction false} FlattenSize(ps: seq<Pair>)
    requires Lengths(ps)
    ensures 4 * |Flatten(ps)| <= 5 * |Spread(ps)|
  {
    if ps != [] { FlattenSize(ps[..|ps| - 1]); }
  }

  // ---- Decoding ----

  /** A run found in the block, and the place after it. */
  datatype Found = Found(len: int, next: nat)

  /** The run that starts at i in a block of n bytes; t has one byte more, the first one again. */
  ghost function RunAt(t: seq<byte>, n: nat, i: nat): (f: Found)
    requires i < n < |t|
    ensures f.next > i && 1 <= f.len <= 259 && f.next <= n + 1
  {
    if i + 1 >= n || t[i + 1] != t[i] then Found(1, i + 1)
    else if i + 2 >= n || t[i + 2] != t[i] then Found(2, i + 2)
    else if i + 3 >= n || t[i + 3] != t[i] then Found(3, i + 3)
    else Found(t[i + 4] as int + 4, i + 5)
  }

  /** What the block decodes to from place i on. */
  ghost function Remaining(t: seq<byte>, n: nat, i: nat): seq<byte>
    requires n < |t|
    decreases n - i
  {
    if i >= n then [] else Repeat(t[i], RunAt(t, n, i).len) + Remaining(t, n, RunAt(t, n, i).next)
  }

  /** The last run of the block has its count byte. */
  ghost predicate Complete(t: seq<byte>, n: nat, i: nat)
    requires n < |t|
    decreases n - i
  {
    if i >= n then i == n else Complete(t, n, RunAt(t, n, i).next)
  }

  // ---- The round trip ----

  ghost function FlattenFront(ps: seq<Pair>): seq<byte>
    requires Lengths(ps)
  {
    if ps == [] then [] else PairCode(ps[0]) + FlattenFront(ps[1..])
  }

  ghost function SpreadFront(ps: seq<Pair>): seq<byte>
    requires Lengths(ps)
  {
    if ps == [] then [] else Repeat(ps[0].ch, ps[0].len) + SpreadFront(ps[1..])
  }

  lemma {:induction false} FrontSnoc(ps: seq<Pair>, p: Pair)
    requires Lengths(ps) && 1 <= p.len <= 255
    ensures Lengths(ps + [p]) && FlattenFront(ps + [p]) == FlattenFront(ps) + PairCode(p)
    ensures SpreadFront(ps + [p]) == SpreadFront(ps) + Repeat(p.ch, p.len)
  {
    var longer := ps + [p];
    if ps == [] {
      assert longer == [p] && [p][1..] == [];
    } else {
      var q, rest := ps[0], ps[1..];
      assert longer[0] == q && longer[1..] == rest + [p];
      FrontSnoc(rest, p);
      Associates(FlattenFront(ps), PairCode(q), FlattenFront(rest), PairCode(p));
      Associates(SpreadFront(ps), Repeat(q.ch, q.len), SpreadFront(rest), Repeat(p.ch, p.len));
    }
  }

  lemma {:induction false} SameFromFront(ps: seq<Pair>)
    requires Lengths(ps)
    ensures Flatten(ps) == FlattenFront(ps) && Spread(ps) == SpreadFront(ps)
  {
    if ps != [] {
      var n := |ps| - 1;
      SameFromFront(ps[..n]);
      FrontSnoc(ps[..n], ps[n]);
      assert ps == ps[..n] + [ps[n]];
    }
  }

  /** A pair's code, followed by another byte or the end, parses as that pair. */
  lemma RunAtCode(t: seq<byte>, n: nat, i: nat, p: Pair, next: nat)
    requires n < |t| && 1 <= p.len <= 255 && next == i + |PairCode(p)| <= n
    requires p.len < 4 ==> (forall k :: i <= k < next ==> t[k] == p.ch) && (next == n || t[next] != p.ch)
    requires p.len >= 4 ==> t[i] == t[i + 1] == t[i + 2] == t[i + 3] == p.ch && t[i + 4] == p.len - 4
    ensures i < n && t[i] == p.ch && RunAt(t, n, i) == Found(p.len, next)
  {
  }

  /** The bytes at the start of a pair's code, and the one after it. */
  lemma CodeBytes(s: seq<byte>, ps: seq<Pair>, p: Pair, rest: seq<byte>)
    requires Proper(ps) && ps != [] && p == ps[0] && s == FlattenFront(ps) && rest == FlattenFront(ps[1..])
    ensures |PairCode(p)| <= |s| && s[|PairCode(p)|..] == rest
    ensures p.len < 4 ==> (forall k :: 0 <= k < p.len ==> s[k] == p.ch) && (p.len == |s| || s[p.len] != p.ch)
    ensures p.len >= 4 ==> s[0] == s[1] == s[2] == s[3] == p.ch && s[4] == p.len - 4
  {
    var code := PairCode(p);
    assert s == code + rest;
    if p.len < 4 && |ps| > 1 {
      assert p.ch != ps[1].ch && ps[1..][0] == ps[1];
      FirstByte(ps[1..]);
    }
  }

  lemma FirstByte(ps: seq<Pair>)
    requires Lengths(ps) && ps != []
    ensures FlattenFront(ps) != [] && FlattenFront(ps)[0] == ps[0].ch
  {
  }

  /** Decoding a block of proper runs gives the bytes they stand for, and ends in place. */
  lemma {:induction false} RemainingOfPairs(t: seq<byte>, n: nat, i: nat, ps: seq<Pair>)
    requires n < |t| && i <= n && Proper(ps) && t[i..n] == FlattenFront(ps)
    ensures Remaining(t, n, i) == SpreadFront(ps) && Complete(t, n, i)
    decreases |ps|
  {
    if ps != [] {
      var next := FirstPair(t, n, i, ps, ps[0]);
      RemainingOfPairs(t, n, next, ps[1..]);
    }
  }

  /** The bytes of the first pair, and where the others begin. */
  lemma FirstPair(t: seq<byte>, n: nat, i: nat, ps: seq<Pair>, p: Pair) returns (next: nat)
    requires n < |t| && i <= n && Proper(ps) && ps != [] && p == ps[0] && t[i..n] == FlattenFront(ps)
    ensures i < next <= n && t[next..n] == FlattenFront(ps[1..])
    ensures i < n && t[i] == p.ch && RunAt(t, n, i) == Found(p.len, next)
  {
    var s := t[i..n];
    CodeBytes(s, ps, p, FlattenFront(ps[1..]));
    next := i + |PairCode(p)|;
    assert t[next..n] == s[|PairCode(p)|..];
    OffsetBytes(t, i, n, s, p, next);
    RunAtCode(t, n, i, p, next);
  }

  lemma OffsetBytes(t: seq<byte>, i: nat, n: nat, s: seq<byte>, p: Pair, next: nat)
    requires i <= n < |t| && s == t[i..n] && 1 <= p.len <= 255 && next == i + |PairCode(p)| <= n
    requires p.len < 4 ==> (forall k :: 0 <= k < p.len ==> s[k] == p.ch) && (p.len == |s| || s[p.len] != p.ch)
    requires p.len >= 4 ==> s[0] == s[1] == s[2] == s[3] == p.ch && s[4] == p.len - 4
    ensures p.len < 4 ==> (forall k :: i <= k < next ==> t[k] == p.ch) && (next == n || t[next] != p.ch)
    ensures p.len >= 4 ==> t[i] == t[i + 1] == t[i + 2] == t[i + 3] == p.ch && t[i + 4] == p.len - 4
  {
    forall k | i <= k < n ensures t[k] == s[k - i] {}
  }

  lemma RleRoundTrip(t: seq<byte>, n: nat, ps: seq<Pair>)
    requires n < |t| && Proper(ps) && t[..n] == Flatten(ps)
    ensures Remaining(t, n, 0) == Spread(ps) && Complete(t, n, 0)
  {
    SameFromFront(ps);
    RemainingOfPairs(t, n, 0, ps);
  }
}
