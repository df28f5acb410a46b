/**
 * The decompressor's move-to-front list: 16 lines of 16 bytes that slide down a
 * 4096-byte array, laid out afresh when they reach its start. Over any run of
 * operations it behaves as one list of 256 bytes.
 */
module MtfCache {
  import opened Common

  const MTFA_SIZE := 4096
  const MTFL_SIZE := 16
  const LINES := 16

  /** The list with entry n moved to its head. */
  function ToFront<T>(s: seq<T>, n: int): (r: seq<T>)
    requires 0 <= n < |s|
    ensures |r| == |s|
  {
    [s[n]] + s[..n] + s[n + 1..]
  }

  /** Entry o of line m. */
  ghost function Cell(a: seq<byte>, bs: seq<int>, m: int, o: int): int {
    if 0 <= m < |bs| && 0 <= bs[m] + o < |a| then a[bs[m] + o] else -1
  }

  /** Lines lie apart and in order; line l, if there is such a line, lacks its first entry. */
  ghost predicate Apart(bs: seq<int>, l: int) {
    var holds :=
      && |bs| == LINES && 0 <= bs[0]
      && (forall m, n {:trigger bs[m], bs[n]} :: 0 <= m < n < LINES ==> bs[m] + (if m == l then 15 else 16) <= bs[n])
      && (forall m :: 0 <= m < LINES ==> bs[m] + 16 * (LINES - m) <= MTFA_SIZE + if m == l then 1 else 0);
    holds
  }

  ghost predicate Holds(a: seq<byte>, bs: seq<int>, list: seq<byte>) {
    var holds :=
      && |a| == MTFA_SIZE && |list| == 256 && Apart(bs, -1)
      && forall m, o :: 0 <= m < LINES && 0 <= o < 16 ==> Cell(a, bs, m, o) == list[16 * m + o];
    holds
  }

  /** The lines from l on hold the new list but for the first entry of line l; the others hold the old list. */
  ghost predicate Moving(a: seq<byte>, bs: seq<int>, was: seq<byte>, now: seq<byte>, l: int) {
    var holds :=
      && |a| == MTFA_SIZE && |was| == 256 == |now| && 0 <= l < LINES && Apart(bs, l) && 1 <= bs[0]
      && (forall m, o :: 0 <= m < l && 0 <= o < 16 ==> Cell(a, bs, m, o) == was[16 * m + o])
      && (forall m, o :: l < m < LINES && 0 <= o < 16 ==> Cell(a, bs, m, o) == now[16 * m + o])
      && (forall o :: 0 <= o < 15 ==> Cell(a, bs, l, o) == now[16 * l + o + 1]);
    holds
  }

  ghost function ListOf(a: seq<byte>, bs: seq<int>): (list: seq<byte>)
    requires |a| == MTFA_SIZE && Apart(bs, -1)
    ensures Holds(a, bs, list)
  {
    seq(256, k requires 0 <= k < 256 => a[bs[k / 16] + k % 16])
  }

  lemma ListUnique(a: seq<byte>, bs: seq<int>, list: seq<byte>)
    requires Holds(a, bs, list)
    ensures ListOf(a, bs) == list
  {
    forall k | 0 <= k < 256 ensures ListOf(a, bs)[k] == list[k] {
      assert Cell(a, bs, k / 16, k % 16) == list[16 * (k / 16) + k % 16];
    }
  }

  /** Line l gets its first entry from the end of line l-1, whose first entry is then missing. */
  lemma MoveLine(a: seq<byte>, bs: seq<int>, was: seq<byte>, now: seq<byte>, n: int, l: int, l': int)
    requires Moving(a, bs, was, now, l) && 16 * l <= n < 256 && now == ToFront(was, n) && 0 <= l' && l == l' + 1
    ensures 0 <= bs[l] - 1 < MTFA_SIZE && 0 <= bs[l'] + 15 < MTFA_SIZE
    ensures Moving(a[bs[l] - 1 := a[bs[l'] + 15]], bs[l := bs[l] - 1], was, now, l')
  {
    var bs', p, v := bs[l := bs[l] - 1], bs[l] - 1, a[bs[l'] + 15];
    var a' := a[p := v];
    assert Cell(a, bs, l', 15) == was[16 * l' + 15] == now[16 * l];
    assert Apart(bs', l');
    forall m, o | 0 <= m < l' && 0 <= o < 16 ensures Cell(a', bs', m, o) == was[16 * m + o] {
      assert bs[m] + 16 <= bs[l] - 1;
      assert Cell(a', bs', m, o) == Cell(a, bs, m, o);
    }
    forall m, o | l' < m < LINES && 0 <= o < 16 ensures Cell(a', bs', m, o) == now[16 * m + o] {
      if m == l {
        if o > 0 { assert Cell(a', bs', m, o) == Cell(a, bs, m, o - 1); }
      } else {
        assert bs[l] + 15 <= bs[m];
        assert Cell(a', bs', m, o) == Cell(a, bs, m, o);
      }
    }
    forall o | 0 <= o < 15 ensures Cell(a', bs', l', o) == now[16 * l' + o + 1] {
      assert Cell(a', bs', l', o) == Cell(a, bs, l', o) == was[16 * l' + o];
    }
  }

  /** Line 0 gets the moved entry as its first. */
  lemma MoveHead(a: seq<byte>, bs: seq<int>, was: seq<byte>, now: seq<byte>, uc: byte)
    requires Moving(a, bs, was, now, 0) && now[0] == uc
    ensures bs[0] - 1 < MTFA_SIZE && Holds(a[bs[0] - 1 := uc], bs[0 := bs[0] - 1], now)
  {
    var bs', a' := bs[0 := bs[0] - 1], a[bs[0] - 1 := uc];
    assert Apart(bs', -1);
    forall m, o | 0 <= m < LINES && 0 <= o < 16 ensures Cell(a', bs', m, o) == now[16 * m + o] {
      if m == 0 {
        if o > 0 { assert Cell(a', bs', 0, o) == Cell(a, bs, 0, o - 1); }
      } else {
        assert bs[0] + 15 <= bs[m];
        assert Cell(a', bs', m, o) == Cell(a, bs, m, o);
      }
    }
  }

  /** Entries p..p+n-1 of `a` moved up by one place. */
  ghost predicate MovedUp(a: seq<byte>, a': seq<byte>, p: int, n: int) {
    var holds :=
      && 0 <= p && 0 <= n && p + n < |a| == |a'|
      && (forall x :: p < x <= p + n ==> a'[x] == a[x - 1])
      && (forall x :: 0 <= x < |a| && !(p < x <= p + n) ==> a'[x] == a[x]);
    holds
  }

  lemma MoveUpOne(a: seq<byte>, a': seq<byte>, p: int, n: int, p': int, n': int)
    requires MovedUp(a, a', p, n) && 1 <= p && p' == p - 1 && n' == n + 1
    ensures MovedUp(a, a'[p := a'[p']], p', n')
  {
  }

  lemma TakenCell(a: seq<byte>, bs: seq<int>, was: seq<byte>, n: int, l: int, off: int)
    requires Holds(a, bs, was) && 0 <= l < LINES && 0 <= off < 16 && n == 16 * l + off
    ensures 0 <= bs[l] && bs[l] + off < MTFA_SIZE && a[bs[l] + off] == was[n]
  {
    assert Cell(a, bs, l, off) == was[16 * l + off];
  }

  /** Closing the gap in its line leaves a list that lacks the first entry of that line. */
  lemma GapClosed(a: seq<byte>, a': seq<byte>, bs: seq<int>, was: seq<byte>, n: int, l: int, off: int)
    requires Holds(a, bs, was) && 0 <= l < LINES && 0 <= off < 16 && n == 16 * l + off && 1 <= bs[0]
    requires MovedUp(a, a', bs[l], off)
    ensures Moving(a', bs[l := bs[l] + 1], was, ToFront(was, n), l)
  {
    var bs', now := bs[l := bs[l] + 1], ToFront(was, n);
    assert Apart(bs', l);
    forall m, o | 0 <= m < LINES && m != l && 0 <= o < 16 ensures Cell(a', bs', m, o) == was[16 * m + o] {
      if m < l { assert bs[m] + 16 <= bs[l]; } else { assert bs[l] + 16 <= bs[m]; }
      assert Cell(a', bs', m, o) == Cell(a, bs, m, o);
    }
    forall o | 0 <= o < 15 ensures Cell(a', bs', l, o) == now[16 * l + o + 1] {
      if o < off { assert Cell(a', bs', l, o) == Cell(a, bs, l, o); }
      else { assert Cell(a', bs', l, o) == Cell(a, bs, l, o + 1); }
    }
  }

  /** In line 0 the head goes into the gap that moving up leaves. */
  lemma HeadLine(a: seq<byte>, a': seq<byte>, bs: seq<int>, was: seq<byte>, n: int)
    requires Holds(a, bs, was) && 0 <= n < 16 && MovedUp(a, a', bs[0], n)
    ensures bs[0] + n < MTFA_SIZE && Holds(a'[bs[0] := a[bs[0] + n]], bs, ToFront(was, n))
  {
    var now, a2 := ToFront(was, n), a'[bs[0] := a[bs[0] + n]];
    assert Cell(a, bs, 0, n) == was[n];
    forall m, o | 0 <= m < LINES && 0 <= o < 16 ensures Cell(a2, bs, m, o) == now[16 * m + o] {
      if m > 0 { assert bs[0] + 16 <= bs[m]; }
      if m == 0 && 0 < o <= n {
        assert Cell(a2, bs, m, o) == Cell(a, bs, 0, o - 1);
      } else if m == 0 && o == 0 {
        assert Cell(a2, bs, m, o) == Cell(a, bs, 0, n);
      } else {
        assert Cell(a2, bs, m, o) == Cell(a, bs, m, o);
      }
    }
  }

  /** Part way through a fresh layout: cells above kk hold the end of the list, the rest are as before. */
  ghost predicate LaidOut(a: seq<byte>, a': seq<byte>, list: seq<byte>, kk: int) {
    var holds :=
      && |a| == |a'| == MTFA_SIZE && |list| == 256 && MTFA_SIZE - 257 <= kk < MTFA_SIZE
      && (forall x :: 0 <= x <= kk ==> a'[x] == a[x])
      && (forall x :: kk < x < MTFA_SIZE ==> a'[x] == list[x - (MTFA_SIZE - 256)]);
    holds
  }

  class Cache {
    const mtfa: array<byte>
    const mtfbase: array<int>

    ghost predicate Valid()
      reads this, mtfa, mtfbase
    {
      mtfa.Length == MTFA_SIZE && Apart(mtfbase[..], -1) && 1 <= mtfbase[0]
    }

    ghost function List(): (list: seq<byte>)
      requires Valid()
      reads this, mtfa, mtfbase
    {
      ListOf(mtfa[..], mtfbase[..])
    }

    constructor ()
      ensures mtfa.Length == MTFA_SIZE && mtfbase.Length == LINES && fresh(mtfa) && fresh(mtfbase)
    {
      mtfa := new byte[MTFA_SIZE](_ => 0);
      mtfbase := new int[LINES](_ => 0);
    }

    /** The layout of the list 0, 1, ..., 255 at the end of the array. */
    method Init()
      requires mtfa.Length == MTFA_SIZE && mtfbase.Length == LINES
      modifies mtfa, mtfbase
      ensures Valid() && List() == seq(256, i => i)
    {
      var kk, ii := MTFA_SIZE - 1, 256 / MTFL_SIZE - 1;
      ghost var id: seq<byte> := seq(256, i requires 0 <= i < 256 => i);
      ghost var a := mtfa[..];
      while ii >= 0
        invariant -1 <= ii < LINES && kk == MTFA_SIZE - 256 + 16 * ii + 15 && LaidOut(a, mtfa[..], id, kk)
        invariant forall m :: ii < m < LINES ==> mtfbase[m] == MTFA_SIZE - 256 + 16 * m
      {
        var jj := MTFL_SIZE - 1;
        while jj >= 0
          modifies mtfa
          invariant -1 <= jj < 16 && kk == MTFA_SIZE - 256 + 16 * ii + jj && LaidOut(a, mtfa[..], id, kk)
        {
          mtfa[kk] := ii * MTFL_SIZE + jj;
          kk := kk - 1;
          jj := jj - 1;
        }
        mtfbase[ii] := kk + 1;
        ii := ii - 1;
      }
      FreshLayout(a, mtfa[..], mtfbase[..], id, kk);
    }

    /** Moves the lines back to the end of the array. */
    method LayOut(ghost list: seq<byte>)
      requires Holds(mtfa[..], mtfbase[..], list)
      modifies mtfa, mtfbase
      ensures Holds(mtfa[..], mtfbase[..], list) && 1 <= mtfbase[0]
    {
      var kk, ii := MTFA_SIZE - 1, 256 / MTFL_SIZE - 1;
      ghost var a, bs := mtfa[..], mtfbase[..];
      while ii >= 0
        invariant -1 <= ii < LINES && kk == MTFA_SIZE - 256 + 16 * ii + 15 && LaidOut(a, mtfa[..], list, kk)
        invariant forall m :: 0 <= m <= ii ==> mtfbase[m] == bs[m]
        invariant forall m :: ii < m < LINES ==> mtfbase[m] == MTFA_SIZE - 256 + 16 * m
      {
        var jj := MTFL_SIZE - 1;
        while jj >= 0
          modifies mtfa
          invariant -1 <= jj < 16 && kk == MTFA_SIZE - 256 + 16 * ii + jj && LaidOut(a, mtfa[..], list, kk)
        {
          assert Cell(a, bs, ii, jj) == list[16 * ii + jj];
          mtfa[kk] := mtfa[mtfbase[ii] + jj];
          kk := kk - 1;
          jj := jj - 1;
        }
        mtfbase[ii] := kk + 1;
        ii := ii - 1;
      }
      FreshLayout(a, mtfa[..], mtfbase[..], list, kk);
    }

    /** MTF(nn): the entry at place nn, which moves to the head. */
    method Take(n: nat) returns (uc: byte)
      requires Valid() && n < 256
      modifies mtfa, mtfbase
      ensures Valid() && uc == old(List())[n] && List() == ToFront(old(List()), n)
    {
      if n < MTFL_SIZE { uc := TakeNear(n); } else { uc := TakeFar(n); }
    }

    method ShiftOne(ghost a: seq<byte>, z: nat, ghost n: nat)
      requires 1 <= z && MovedUp(a, mtfa[..], z, n)
      modifies mtfa
      ensures MovedUp(a, mtfa[..], z - 1, n + 1)
    {
      MoveUpOne(a, mtfa[..], z, n, z - 1, n + 1);
      mtfa[z] := mtfa[z - 1];
    }

    /** The entry is in line 0, where it is moved by fours and then by ones. */
    method TakeNear(n: nat) returns (uc: byte)
      requires Valid() && n < MTFL_SIZE
      modifies mtfa
      ensures Valid() && uc == old(List())[n] && List() == ToFront(old(List()), n)
    {
      ghost var a, bs, was := mtfa[..], mtfbase[..], List();
      var pp, nn := mtfbase[0], n;
      assert Cell(a, bs, 0, n) == was[n];
      uc := mtfa[pp + nn];
      while nn > 3
        invariant 0 <= nn <= n && MovedUp(a, mtfa[..], pp + nn, n - nn)
      {
        ShiftOne(a, pp + nn, n - nn);
        ShiftOne(a, pp + nn - 1, n - nn + 1);
        ShiftOne(a, pp + nn - 2, n - nn + 2);
        ShiftOne(a, pp + nn - 3, n - nn + 3);
        nn := nn - 4;
      }
      while nn > 0
        invariant 0 <= nn <= n && MovedUp(a, mtfa[..], pp + nn, n - nn)
      {
        ShiftOne(a, pp + nn, n - nn);
        nn := nn - 1;
      }
      HeadLine(a, mtfa[..], bs, was, n);
      mtfa[pp] := uc;
      ListUnique(mtfa[..], bs, ToFront(was, n));
    }

    /** The entry is in a later line: every line before it passes on its last entry. */
    method TakeFar(n: nat) returns (uc: byte)
      requires Valid() && MTFL_SIZE <= n < 256
      modifies mtfa, mtfbase
      ensures Valid() && uc == old(List())[n] && List() == ToFront(old(List()), n)
    {
      ghost var was, now := List(), ToFront(List(), n);
      var lno, off := n / MTFL_SIZE, n % MTFL_SIZE;
      uc := CloseGap(lno, off, was, n);
      while lno > 0
        invariant 0 <= 16 * lno <= n
        invariant Moving(mtfa[..], mtfbase[..], was, now, lno)
      {
        PassOn(lno, was, now, n);
        lno := lno - 1;
      }
      PutHead(uc, was, now);
    }

    /** Line 0 grows down by the entry taken. */
    method PutHead(uc: byte, ghost was: seq<byte>, ghost now: seq<byte>)
      requires Moving(mtfa[..], mtfbase[..], was, now, 0) && now[0] == uc
      modifies mtfa, mtfbase
      ensures Valid() && List() == now
    {
      MoveHead(mtfa[..], mtfbase[..], was, now, uc);
      mtfbase[0] := mtfbase[0] - 1;
      mtfa[mtfbase[0]] := uc;
      if mtfbase[0] == 0 { LayOut(now); }
      ListUnique(mtfa[..], mtfbase[..], now);
    }

    /** Line lno grows down by the last entry of the line before it. */
    method PassOn(lno: nat, ghost was: seq<byte>, ghost now: seq<byte>, ghost n: nat)
      requires Moving(mtfa[..], mtfbase[..], was, now, lno) && 16 * lno <= n < 256 && now == ToFront(was, n) && 0 < lno
      modifies mtfa, mtfbase
      ensures Moving(mtfa[..], mtfbase[..], was, now, lno - 1)
    {
      MoveLine(mtfa[..], mtfbase[..], was, now, n, lno, lno - 1);
      mtfbase[lno] := mtfbase[lno] - 1;
      mtfa[mtfbase[lno]] := mtfa[mtfbase[lno - 1] + MTFL_SIZE - 1];
    }

    method CloseGap(lno: nat, off: nat, ghost was: seq<byte>, ghost n: nat) returns (uc: byte)
      requires Valid() && was == List() && off < 16 && n == 16 * lno + off < 256
      modifies mtfa, mtfbase
      ensures uc == was[n] && Moving(mtfa[..], mtfbase[..], was, ToFront(was, n), lno)
    {
      ghost var a, bs := mtfa[..], mtfbase[..];
      TakenCell(a, bs, was, n, lno, off);
      var base := mtfbase[lno];
      uc := mtfa[base + off];
      CloseLine(base, off);
      ghost var a', bs' := mtfa[..], bs[lno := base + 1];
      GapClosed(a, a', bs, was, n, lno, off);
      mtfbase[lno] := base + 1;
      ghost var cells, lines := mtfa[..], mtfbase[..];
      assert lines == bs';
      assert cells == a';
    }

    method CloseLine(base: nat, off: nat)
      requires base + off < mtfa.Length
      modifies mtfa
      ensures MovedUp(old(mtfa[..]), mtfa[..], base, off)
    {
      ghost var a := mtfa[..];
      var pp := base + off;
      while pp > base
        invariant base <= pp <= base + off && MovedUp(a, mtfa[..], pp, base + off - pp)
      {
        ShiftOne(a, pp, base + off - pp);
        pp := pp - 1;
      }
    }
  }

  lemma FreshLayout(a: seq<byte>, a': seq<byte>, bs: seq<int>, list: seq<byte>, kk: int)
    requires LaidOut(a, a', list, kk) && kk == MTFA_SIZE - 257
    requires |bs| == LINES && forall m :: 0 <= m < LINES ==> bs[m] == MTFA_SIZE - 256 + 16 * m
    ensures Holds(a', bs, list) && ListOf(a', bs) == list
  {
    ListUnique(a', bs, list);
  }
}
