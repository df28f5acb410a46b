/** Reading back the selectors and the code lengths of a block. */
module ReadingTables {
  import opened Common
  import opened Bits
  import opened HuffmanCodes
  import opened MtfCache
  import opened Parser
  import opened BlockFormat
  import opened Reading

  // ---- Selectors ----

  lemma {:induction false} UnaryCons(j: nat)
    requires j > 0
    ensures Unary(j) == [true] + Unary(j - 1)
  {
  }

  /** One selector, of which j0 has been counted. */
  lemma {:induction false} ReadsUnary(c: Ctl, left: nat, stop: nat, end: Ctl)
    requires Good(c) && c.Selector3? && stop == c.j + left < c.nGroups
    requires end == OnSelector(c.h, c.inUse, c.nGroups, c.nSelectors, c.selMtf, stop, true)
    ensures Reads(c, Unary(left), end)
    decreases left
  {
    hide Reads;
    if left == 0 {
      assert Unary(0) == [false];
      ReadsFlag(c, false, end);
    } else {
      var next := ReadsOneUp(c);
      ReadsUnary(next, left - 1, stop, end);
      UnaryCons(left);
      ReadsThen(c, [true], next, Unary(left - 1), end);
    }
  }

  lemma ReadsOneUp(c: Ctl) returns (next: Ctl)
    requires Good(c) && c.Selector3? && c.j + 1 < c.nGroups
    ensures next == Selector3(c.h, c.inUse, c.nGroups, c.nSelectors, c.selMtf, c.j + 1)
    ensures Good(next) && Reads(c, [true], next)
  {
    next := Selector3(c.h, c.inUse, c.nGroups, c.nSelectors, c.selMtf, c.j + 1);
    ReadsFlag(c, true, next);
  }

  /** The selectors that follow those already read. */
  lemma {:induction false} ReadsUnaries(c: Ctl, mtf: seq<nat>, end: Ctl)
    requires Good(c) && c.Selector3? && c.j == 0 && mtf != [] && |c.selMtf| + |mtf| == c.nSelectors
    requires forall i :: 0 <= i < |mtf| ==> mtf[i] < c.nGroups
    requires forall i :: 0 <= i < |c.selMtf + mtf| ==> (c.selMtf + mtf)[i] < c.nGroups
    requires end == Coding1(Coding(c.h, c.inUse, c.nGroups, UndoMtf(Tables0(c.nGroups), c.selMtf + mtf)), [])
    ensures Reads(c, UnaryAll(mtf), end)
    decreases |mtf|
  {
    var next, rest := OnSelector(c.h, c.inUse, c.nGroups, c.nSelectors, c.selMtf, mtf[0], true), mtf[1..];
    ReadsUnary(c, mtf[0], mtf[0], next);
    if |mtf| == 1 {
      assert mtf == [mtf[0]] && rest == [];
      assert Unary(mtf[0]) + [] == Unary(mtf[0]);
    } else {
      assert next == Selector3(c.h, c.inUse, c.nGroups, c.nSelectors, c.selMtf + [mtf[0]], 0);
      assert (c.selMtf + [mtf[0]]) + rest == c.selMtf + mtf;
      ReadsUnaries(next, rest, end);
      ReadsThen(c, Unary(mtf[0]), next, UnaryAll(rest), end);
    }
  }

  /** Undoing the move-to-front coding of the selectors. */
  lemma {:induction false} UndoDo(pos: seq<nat>, sels: seq<nat>)
    requires AllIn(sels, pos)
    ensures UndoMtf(pos, DoMtf(pos, sels)) == sels
    decreases |sels|
  {
    if sels != [] {
      var j, rest := Where(pos, sels[0]), sels[1..];
      FrontHas(pos, j, sels);
      UndoDo(ToFront(pos, j), rest);
      var mtf := DoMtf(pos, sels);
      assert mtf[0] == j && mtf[1..] == DoMtf(ToFront(pos, j), rest);
    }
  }

  lemma ReadsSelectors(c: Coding)
    requires GoodCoding(c) && |c.sels| < 0x8000
    ensures AllIn(c.sels, Tables0(c.nGroups))
    ensures Reads(Selector1(c.h, c.inUse), SelectorBits(c.nGroups, c.sels), Coding1(c, []))
  {
    SelectorsNamed(c.nGroups, c.sels);
    var mtf, n := DoMtf(Tables0(c.nGroups), c.sels), |c.sels|;
    UndoDo(Tables0(c.nGroups), c.sels);
    var s3, end := Selector3(c.h, c.inUse, c.nGroups, n, [], 0), Coding1(c, []);
    ReadsNumbers(c, n);
    assert [] + mtf == mtf;
    ReadsUnaries(s3, mtf, end);
    ReadsThen(Selector1(c.h, c.inUse), Spell(c.nGroups, 3) + Spell(n, 15), s3, UnaryAll(mtf), end);
  }

  lemma ReadsGroups(h: Hdr, inUse: seq<bool>, nGroups: nat)
    requires Good(Selector2(h, inUse, nGroups))
    ensures Reads(Selector1(h, inUse), Spell(nGroups, 3), Selector2(h, inUse, nGroups))
  {
    SmallPowers();
    ReadsField(Selector1(h, inUse), nGroups, 3, Selector2(h, inUse, nGroups));
  }

  lemma ReadsCount(h: Hdr, inUse: seq<bool>, nGroups: nat, n: nat)
    requires Good(Selector2(h, inUse, nGroups)) && 1 <= n < 0x8000
    ensures Reads(Selector2(h, inUse, nGroups), Spell(n, 15), Selector3(h, inUse, nGroups, n, [], 0))
  {
    SmallPowers();
    ReadsField(Selector2(h, inUse, nGroups), n, 15, Selector3(h, inUse, nGroups, n, [], 0));
  }

  /** The numbers of tables and of selectors. */
  lemma ReadsNumbers(c: Coding, n: nat)
    requires GoodCoding(c) && 1 <= n < 0x8000
    ensures Reads(Selector1(c.h, c.inUse), Spell(c.nGroups, 3) + Spell(n, 15),
                  Selector3(c.h, c.inUse, c.nGroups, n, [], 0))
  {
    ReadsGroups(c.h, c.inUse, c.nGroups);
    ReadsCount(c.h, c.inUse, c.nGroups, n);
    ReadsThen(Selector1(c.h, c.inUse), Spell(c.nGroups, 3), Selector2(c.h, c.inUse, c.nGroups), Spell(n, 15),
      Selector3(c.h, c.inUse, c.nGroups, n, [], 0));
  }

  // ---- Code lengths ----

  /** Two flags: a step up or down. */
  lemma ReadsStep(c: Coding, lens: seq<seq<byte>>, len: seq<byte>, curr: int, down: bool, to: int)
    requires Good(Coding2(c, lens, len, curr)) && to == if down then curr - 1 else curr + 1
    ensures Reads(Coding2(c, lens, len, curr), [true, down], OnLength(c, lens, len, to))
  {
    var c2, c3 := Coding2(c, lens, len, curr), Coding3(c, lens, len, curr);
    ReadsFlag(c2, true, c3);
    ReadsFlag(c3, down, OnLength(c, lens, len, to));
    assert [true] + [down] == [true, down];
    ReadsThen(c2, [true], c3, [down], OnLength(c, lens, len, to));
  }

  lemma {:induction false} ReadsSteps(c: Coding, lens: seq<seq<byte>>, len: seq<byte>, curr: int, to: int)
    requires Good(Coding2(c, lens, len, curr)) && 1 <= to <= LONGEST_CODE
    ensures Reads(Coding2(c, lens, len, curr), Steps(curr, to), OnStop(c, lens, len, to))
    decreases if curr < to then to - curr else curr - to
  {
    var c2, end := Coding2(c, lens, len, curr), OnStop(c, lens, len, to);
    if curr == to {
      ReadsFlag(c2, false, end);
    } else {
      var down := curr > to;
      var next := if down then curr - 1 else curr + 1;
      ReadsStep(c, lens, len, curr, down, next);
      ReadsSteps(c, lens, len, next, to);
      ReadsThen(c2, [true, down], Coding2(c, lens, len, next), Steps(next, to), end);
    }
  }

  /** The lengths that follow those already read. */
  lemma {:induction false} ReadsLengths(c: Coding, lens: seq<seq<byte>>, done: seq<byte>, curr: int, rest: seq<byte>,
                                        whole: seq<byte>)
    requires Good(Coding2(c, lens, done, curr)) && rest != [] && whole == done + rest
    requires Table(whole, AlphaSize(c.inUse))
    ensures Reads(Coding2(c, lens, done, curr), LengthsFrom(curr, rest), OnTables(c, lens + [whole]))
    decreases |rest|
  {
    var l: int, more := rest[0], rest[1..];
    assert whole[|done|] == l;
    var c2, next := Coding2(c, lens, done, curr), OnStop(c, lens, done, l);
    ReadsSteps(c, lens, done, curr, l);
    if more == [] {
      assert done + [l] == whole;
      assert Steps(curr, l) + [] == Steps(curr, l);
    } else {
      assert (done + [l]) + more == whole;
      ReadsLengths(c, lens, done + [l], l, more, whole);
      ReadsThen(c2, Steps(curr, l), next, LengthsFrom(l, more), OnTables(c, lens + [whole]));
    }
  }

  lemma ReadsTable(c: Coding, lens: seq<seq<byte>>, len: seq<byte>)
    requires Good(Coding1(c, lens)) && Table(len, AlphaSize(c.inUse))
    ensures Reads(Coding1(c, lens), TableBits(len), OnTables(c, lens + [len]))
  {
    ReadsFirstLength(c, lens, len[0]);
    assert [] + len == len;
    ReadsLengths(c, lens, [], len[0], len, len);
    ReadsThen(Coding1(c, lens), Spell(len[0], 5), Coding2(c, lens, [], len[0]), LengthsFrom(len[0], len),
      OnTables(c, lens + [len]));
  }

  lemma ReadsFirstLength(c: Coding, lens: seq<seq<byte>>, l: nat)
    requires Good(Coding1(c, lens)) && 1 <= l <= LONGEST_CODE
    ensures Good(Coding2(c, lens, [], l)) && Reads(Coding1(c, lens), Spell(l, 5), Coding2(c, lens, [], l))
  {
    SmallPowers();
    ReadsField(Coding1(c, lens), l, 5, Coding2(c, lens, [], l));
  }

  lemma {:induction false} ReadsTables(c: Coding, done: seq<seq<byte>>, rest: seq<seq<byte>>, whole: seq<seq<byte>>)
    requires GoodCodes(Codes(c, whole)) && whole == done + rest
    requires forall t :: 0 <= t < |done| ==> Table(done[t], AlphaSize(c.inUse))
    requires forall t :: 0 <= t < |rest| ==> rest[t] != []
    ensures Good(OnTables(c, done)) && Reads(OnTables(c, done), TablesBits(rest), OnTables(c, whole))
    decreases |rest|
  {
    if rest == [] {
      assert done == whole;
      ReadsNone(OnTables(c, done));
    } else {
      assert rest[0] == whole[|done|];
      ReadsTable(c, done, rest[0]);
      assert (done + [rest[0]]) + rest[1..] == whole;
      ReadsTables(c, done + [rest[0]], rest[1..], whole);
      ReadsThen(OnTables(c, done), TableBits(rest[0]), OnTables(c, done + [rest[0]]), TablesBits(rest[1..]),
        OnTables(c, whole));
    }
  }
}
