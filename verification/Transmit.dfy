/** The compressor's transmission of a block: every field in order, through the bit writer. */
module Transmit {
  import opened Common
  import opened Bits
  import opened BitIO
  import opened MtfCache
  import opened Parser
  import opened BlockFormat

  lemma OneBit(b: bool)
    ensures Bit(b) < Pow2(1) && Spell(Bit(b), 1) == [b]
  {
    assert Spell(Bit(b), 1) == Spell(Bit(b) / 2, 0) + [b];
  }

  method PutFlag(w: Writer, b: bool)
    requires w.Valid()
    modifies w
    ensures w.Valid() && w.Written() == old(w.Written()) + [b]
  {
    OneBit(b);
    w.Put(1, if b then 1 else 0);
  }

  // ---- The bytes in use ----

  method GroupFlags(inUse: seq<bool>) returns (use16: seq<bool>)
    requires |inUse| == 256
    ensures use16 == Use16(inUse)
  {
    use16 := [];
    while |use16| < 16
      invariant |use16| <= 16 && forall i :: 0 <= i < |use16| ==> use16[i] == GroupUsed(inUse, i)
    {
      var i, j, any := |use16|, 0, false;
      while j < 16
        invariant 0 <= j <= 16 && (any <==> exists k :: 16 * i <= k < 16 * i + j && inUse[k])
      {
        if inUse[i * 16 + j] { any := true; }
        j := j + 1;
      }
      use16 := use16 + [any];
    }
  }

  method PutFlags(w: Writer, flags: seq<bool>)
    requires w.Valid()
    modifies w
    ensures w.Valid() && w.Written() == old(w.Written()) + flags
  {
    var i := 0;
    assert flags[..0] == [];
    while i < |flags|
      invariant 0 <= i <= |flags| && w.Valid() && w.Written() == old(w.Written()) + flags[..i]
    {
      PutFlag(w, flags[i]);
      assert flags[..i + 1] == flags[..i] + [flags[i]];
      i := i + 1;
    }
    assert flags[..i] == flags;
  }

  method PutMap(w: Writer, inUse: seq<bool>)
    requires w.Valid() && |inUse| == 256
    modifies w
    ensures w.Valid() && w.Written() == old(w.Written()) + MapBits(inUse)
  {
    ghost var was, whole := w.Written(), MapBits(inUse);
    var use16 := GroupFlags(inUse);
    PutFlags(w, use16);
    ghost var done := use16;
    var i := 0;
    while i < 16
      invariant 0 <= i <= 16 && w.Valid() && w.Written() == was + done && whole == done + GroupsFrom(inUse, i)
    {
      if use16[i] {
        var flags := inUse[16 * i..16 * i + 16];
        PutFlags(w, flags);
        Grow(was, done, flags, GroupsFrom(inUse, i + 1), whole);
        done := done + flags;
      } else {
        assert [] + GroupsFrom(inUse, i + 1) == GroupsFrom(inUse, i + 1);
      }
      i := i + 1;
    }
    assert done + [] == done;
  }

  lemma Grow(was: bits, done: bits, part: bits, rest: bits, whole: bits)
    requires whole == done + (part + rest)
    ensures whole == (done + part) + rest && (was + done) + part == was + (done + part)
  {
  }

  // ---- Selectors ----

  /** The first places of the list pushed up by one, without the first. */
  ghost predicate Pushed(was: seq<nat>, now: seq<nat>, j: nat) {
    && |was| == |now| && j < |was|
    && (forall x :: 1 <= x <= j ==> now[x] == was[x - 1])
    && (forall x :: j < x < |was| ==> now[x] == was[x])
  }

  /** One selector's place in the list, from which it moves to the front. */
  method TakeSelector(pos0: seq<nat>, v: nat) returns (pos: seq<nat>, j: nat)
    requires v in pos0
    ensures j == Where(pos0, v) && pos == ToFront(pos0, j)
  {
    pos, j := pos0, 0;
    var tmp := pos[0];
    while v != tmp
      invariant j <= Where(pos0, v) && tmp == pos0[j] && Pushed(pos0, pos, j)
      decreases |pos0| - j
    {
      j := j + 1;
      var tmp2 := tmp;
      tmp := pos[j];
      pos := pos[j := tmp2];
    }
    pos := pos[0 := tmp];
  }

  method SelectorValues(nGroups: nat, sels: seq<nat>) returns (mtf: seq<nat>)
    requires AllIn(sels, Tables0(nGroups))
    ensures mtf == DoMtf(Tables0(nGroups), sels)
  {
    var pos: seq<nat> := seq(nGroups, i requires 0 <= i => i);
    assert pos == Tables0(nGroups);
    mtf := [];
    var i := 0;
    ghost var whole := DoMtf(pos, sels);
    assert sels[0..] == sels;
    while i < |sels|
      invariant 0 <= i <= |sels| && AllIn(sels, pos) && whole == mtf + DoMtf(pos, sels[i..])
    {
      SelectorStep(whole, mtf, pos, sels, i, i + 1);
      var j;
      pos, j := TakeSelector(pos, sels[i]);
      mtf := mtf + [j];
      i := i + 1;
    }
  }

  lemma SelectorStep(whole: seq<nat>, mtf: seq<nat>, pos: seq<nat>, sels: seq<nat>, i: nat, next: nat)
    requires i < |sels| && next == i + 1 && AllIn(sels, pos) && whole == mtf + DoMtf(pos, sels[i..])
    ensures sels[i] in pos
    ensures var j := Where(pos, sels[i]);
      AllIn(sels, ToFront(pos, j)) && whole == (mtf + [j]) + DoMtf(ToFront(pos, j), sels[next..])
  {
    var rest, j := sels[i..], Where(pos, sels[i]);
    assert rest[0] == sels[i] && rest[1..] == sels[next..];
    FrontHas(pos, j, sels);
    DoMtfCons(pos, rest, j);
    Snoc(whole, mtf, j, DoMtf(ToFront(pos, j), sels[next..]));
  }

  lemma DoMtfCons(pos: seq<nat>, sels: seq<nat>, j: nat)
    requires sels != [] && AllIn(sels, pos) && j == Where(pos, sels[0])
    ensures AllIn(sels[1..], ToFront(pos, j)) && DoMtf(pos, sels) == [j] + DoMtf(ToFront(pos, j), sels[1..])
  {
    FrontHas(pos, j, sels);
  }

  lemma Snoc(whole: seq<nat>, a: seq<nat>, x: nat, b: seq<nat>)
    requires whole == a + ([x] + b)
    ensures whole == (a + [x]) + b
  {
  }

  method PutUnary(w: Writer, j: nat)
    requires w.Valid()
    modifies w
    ensures w.Valid() && w.Written() == old(w.Written()) + Unary(j)
  {
    ghost var was := w.Written();
    var i := 0;
    while i < j
      invariant 0 <= i <= j && w.Valid() && w.Written() == was + seq(i, _ => true)
    {
      PutFlag(w, true);
      assert seq(i, _ => true) + [true] == seq(i + 1, _ => true);
      i := i + 1;
    }
    PutFlag(w, false);
    assert was + seq(j, _ => true) + [false] == was + Unary(j);
  }

  method PutUnaries(w: Writer, mtf: seq<nat>)
    requires w.Valid()
    modifies w
    ensures w.Valid() && w.Written() == old(w.Written()) + UnaryAll(mtf)
  {
    ghost var was, whole, done := w.Written(), UnaryAll(mtf), [];
    var i := 0;
    assert mtf[0..] == mtf;
    while i < |mtf|
      invariant 0 <= i <= |mtf| && w.Valid() && w.Written() == was + done && whole == done + UnaryAll(mtf[i..])
    {
      PutUnary(w, mtf[i]);
      assert mtf[i..][0] == mtf[i] && mtf[i..][1..] == mtf[i + 1..];
      Grow(was, done, Unary(mtf[i]), UnaryAll(mtf[i + 1..]), whole);
      done := done + Unary(mtf[i]);
      i := i + 1;
    }
    assert done + [] == done;
  }

  method PutSelectors(w: Writer, nGroups: nat, sels: seq<nat>)
    requires w.Valid() && nGroups < 8 && |sels| < 0x8000 && AllIn(sels, Tables0(nGroups))
    modifies w
    ensures w.Valid() && w.Written() == old(w.Written()) + SelectorBits(nGroups, sels)
  {
    var mtf := SelectorValues(nGroups, sels);
    ghost var was, a, b := w.Written(), Spell(nGroups, 3), Spell(|sels|, 15);
    SmallPowers();
    w.Put(3, nGroups);
    w.Put(15, |sels|);
    PutUnaries(w, mtf);
    ThreeParts(was, a, b, UnaryAll(mtf));
  }

  lemma ThreeParts(was: bits, a: bits, b: bits, c: bits)
    ensures was + a + b + c == was + (a + b + c)
  {
  }

  // ---- Code lengths ----

  lemma TwoBits(down: bool)
    ensures (if down then 3 else 2) < Pow2(2) && Spell(if down then 3 else 2, 2) == [true, down]
  {
    SmallPowers();
    assert Spell(1, 1) == Spell(0, 0) + [true];
  }

  lemma StepsUnfold(curr: int, to: int)
    ensures curr < to ==> Steps(curr, to) == [true, false] + Steps(curr + 1, to)
    ensures curr > to ==> Steps(curr, to) == [true, true] + Steps(curr - 1, to)
    ensures curr == to ==> Steps(curr, to) == [false]
  {
  }

  method PutStep(w: Writer, down: bool)
    requires w.Valid()
    modifies w
    ensures w.Valid() && w.Written() == old(w.Written()) + [true, down]
  {
    TwoBits(down);
    w.Put(2, if down then 3 else 2);
  }

  method PutUp(w: Writer, from: int, to: int, ghost was: bits, ghost whole: bits) returns (curr: int, ghost done: bits)
    requires w.Valid() && w.Written() == was && whole == Steps(from, to)
    modifies w
    ensures w.Valid() && w.Written() == was + done && whole == done + Steps(curr, to) && to <= curr
  {
    curr, done := from, [];
    while curr < to
      invariant w.Valid() && w.Written() == was + done && whole == done + Steps(curr, to)
    {
      ghost var next := curr + 1;
      StepsUnfold(curr, to);
      Grow(was, done, [true, false], Steps(next, to), whole);
      PutStep(w, false);
      done := done + [true, false];
      curr := curr + 1;
    }
  }

  method PutSteps(w: Writer, from: int, to: int)
    requires w.Valid()
    modifies w
    ensures w.Valid() && w.Written() == old(w.Written()) + Steps(from, to)
  {
    ghost var was, whole := w.Written(), Steps(from, to);
    var curr, done := PutUp(w, from, to, was, whole);
    while curr > to
      invariant w.Valid() && w.Written() == was + done && whole == done + Steps(curr, to) && to <= curr
    {
      curr, done := PutDown(w, curr, to, was, done, whole);
    }
    StepsUnfold(curr, to);
    PutFlag(w, false);
    assert was + done + [false] == was + whole;
  }

  method PutDown(w: Writer, curr: int, to: int, ghost was: bits, ghost done: bits, ghost whole: bits)
    returns (next: int, ghost now: bits)
    requires w.Valid() && w.Written() == was + done && whole == done + Steps(curr, to) && to < curr
    modifies w
    ensures w.Valid() && w.Written() == was + now && whole == now + Steps(next, to) && next == curr - 1
  {
    next := curr - 1;
    StepsUnfold(curr, to);
    Grow(was, done, [true, true], Steps(next, to), whole);
    PutStep(w, true);
    now := done + [true, true];
  }

  method PutTable(w: Writer, len: seq<byte>)
    requires w.Valid() && len != [] && len[0] < 32
    modifies w
    ensures w.Valid() && w.Written() == old(w.Written()) + TableBits(len)
  {
    ghost var was, whole := w.Written(), TableBits(len);
    SmallPowers();
    w.Put(5, len[0]);
    ghost var done := Spell(len[0], 5);
    var curr, i := len[0], 0;
    assert len[0..] == len;
    while i < |len|
      invariant 0 <= i <= |len| && w.Valid() && w.Written() == was + done && whole == done + LengthsFrom(curr, len[i..])
    {
      PutSteps(w, curr, len[i]);
      assert len[i..][0] == len[i] && len[i..][1..] == len[i + 1..];
      Grow(was, done, Steps(curr, len[i]), LengthsFrom(len[i], len[i + 1..]), whole);
      done := done + Steps(curr, len[i]);
      curr := len[i];
      i := i + 1;
    }
    assert done + [] == done;
  }

  method PutTables(w: Writer, lens: seq<seq<byte>>)
    requires w.Valid() && forall t :: 0 <= t < |lens| ==> lens[t] != [] && lens[t][0] < 32
    modifies w
    ensures w.Valid() && w.Written() == old(w.Written()) + TablesBits(lens)
  {
    ghost var was, whole, done := w.Written(), TablesBits(lens), [];
    var t := 0;
    assert lens[0..] == lens;
    while t < |lens|
      invariant 0 <= t <= |lens| && w.Valid() && w.Written() == was + done && whole == done + TablesBits(lens[t..])
    {
      PutTable(w, lens[t]);
      assert lens[t..][0] == lens[t] && lens[t..][1..] == lens[t + 1..];
      Grow(was, done, TableBits(lens[t]), TablesBits(lens[t + 1..]), whole);
      done := done + TableBits(lens[t]);
      t := t + 1;
    }
    assert done + [] == done;
  }
}
