/**
 * How the compressor picks coding tables: an initial partition of the symbols,
 * then four rounds in which every group of 50 symbols takes the cheapest table
 * and every table is rebuilt from the groups that took it.
 */
module TableChoice {
  import opened Common
  import opened CodeLengths
  import opened PackedTree
  import opened Parser

  const LESSER_ICOST := 0
  const GREATER_ICOST := 15
  const ITERATIONS := 4
  const MAX_LEN := 17

  /** Tables of the right size, with entries small enough for a group's cost to fit 16 bits. */
  ghost predicate Shaped(lens: seq<seq<int>>, nGroups: nat, alphaSize: nat) {
    |lens| == nGroups && forall t :: 0 <= t < nGroups ==>
      |lens[t]| == alphaSize && forall v :: 0 <= v < alphaSize ==> 0 <= lens[t][v] <= 20
  }

  ghost predicate InAlphabet(mtfv: seq<int>, alphaSize: nat) {
    forall i :: 0 <= i < |mtfv| ==> 0 <= mtfv[i] < alphaSize
  }

  /** How often each symbol of the alphabet stands in syms. */
  ghost function Counts(syms: seq<int>, alphaSize: nat): (r: seq<nat>)
    ensures |r| == alphaSize && forall v :: 0 <= v < alphaSize ==> r[v] == multiset(syms)[v]
  {
    seq(alphaSize, v => multiset(syms)[v])
  }

  lemma {:induction false} CountsTotal(syms: seq<int>, alphaSize: nat)
    requires InAlphabet(syms, alphaSize)
    ensures Sum(Counts(syms, alphaSize)) == |syms|
  {
    if syms == [] {
      SumBlank(alphaSize);
      assert Counts(syms, alphaSize) == Blank(alphaSize);
    } else {
      var n := |syms| - 1;
      var before := Counts(syms[..n], alphaSize);
      assert syms == syms[..n] + [syms[n]];
      assert Counts(syms, alphaSize) == before[syms[n] := before[syms[n]] + 1];
      SumUpdate(before, syms[n], before[syms[n]] + 1);
      CountsTotal(syms[..n], alphaSize);
    }
  }

  function GroupCount(nMTF: nat): (n: nat)
    ensures 2 <= n <= 6 && (n == 2 <==> nMTF < 200) && (n <= 3 <==> nMTF < 600)
    ensures (n <= 4 <==> nMTF < 1200) && (n <= 5 <==> nMTF < 2400)
  {
    if nMTF < 200 then 2 else if nMTF < 600 then 3 else if nMTF < 1200 then 4 else if nMTF < 2400 then 5 else 6
  }

  // ---- The initial partition ----

  /** Symbols from gs on are taken until they have a share of the block, or there are no more. */
  ghost predicate Reaches(freq: seq<nat>, gs: nat, end: nat, share: int) {
    && gs <= end <= |freq| && (end == |freq| || Sum(freq[gs..end]) >= share)
    && (end > gs ==> Sum(freq[gs..end - 1]) < share)
  }

  /**
   * Part k of the alphabet holds symbols gs..end - 1: as many as come up to an equal share of what
   * is left, but every second part in between gives its last symbol back.
   */
  ghost predicate Part(freq: seq<nat>, nGroups: nat, k: nat, gs: nat, end: nat) {
    && k < nGroups && gs <= |freq|
    && var share := Sum(freq[gs..]) / (nGroups - k);
    if k % 2 == 1 && k < nGroups - 1 && Reaches(freq, gs, end + 1, share) && end > gs then true
    else Reaches(freq, gs, end, share) && (k % 2 == 1 && k < nGroups - 1 ==> end <= gs + 1)
  }

  /** A table that charges nothing for the symbols gs..end - 1, and 15 for any other. */
  ghost function CheapRow(alphaSize: nat, gs: nat, end: nat): (row: seq<int>)
    ensures |row| == alphaSize
  {
    seq(alphaSize, v => if gs <= v < end then 0 else 15)
  }

  ghost predicate StartsAt(freq: seq<nat>, nGroups: nat, lens: seq<seq<int>>, cuts: seq<nat>, n: nat) {
    && |lens| == nGroups >= n && |cuts| == n + 1 && cuts[0] == 0
    && forall k :: 0 <= k < n ==>
      Part(freq, nGroups, k, cuts[k], cuts[k + 1]) && lens[nGroups - 1 - k] == CheapRow(|freq|, cuts[k], cuts[k + 1])
  }

  /** The last table is cheap for the first part of the alphabet, and so on. */
  ghost predicate Starts(freq: seq<nat>, nGroups: nat, lens: seq<seq<int>>) {
    exists cuts: seq<nat> :: StartsAt(freq, nGroups, lens, cuts, nGroups)
  }

  /** The initial partition: each table is cheap for one range of symbols. */
  method InitialTables(mtfFreq: seq<nat>, nMTF: nat, nGroups: nat, alphaSize: nat) returns (lens: seq<seq<int>>)
    requires |mtfFreq| == alphaSize && 1 <= nGroups && Sum(mtfFreq) == nMTF
    ensures Shaped(lens, nGroups, alphaSize) && Starts(mtfFreq, nGroups, lens)
  {
    lens := seq(nGroups, _ => seq(alphaSize, _ => GREATER_ICOST));
    var nPart, remF, gs := nGroups, nMTF, 0;
    ghost var cuts: seq<nat> := [0];
    assert mtfFreq[0..] == mtfFreq;
    while nPart > 0
      invariant 0 <= nPart <= nGroups && 0 <= gs <= alphaSize && Shaped(lens, nGroups, alphaSize)
      invariant StartsAt(mtfFreq, nGroups, lens, cuts, nGroups - nPart) && cuts[nGroups - nPart] == gs
      invariant remF == Sum(mtfFreq[gs..])
    {
      var ge, aFreq := NextPart(mtfFreq, remF, nPart, nGroups, alphaSize, gs);
      var row := seq(alphaSize, v => if gs <= v <= ge then LESSER_ICOST else GREATER_ICOST);
      PartAdded(mtfFreq, nGroups, lens, cuts, nGroups - nPart, gs, ge + 1, row);
      cuts := cuts + [ge + 1];
      lens := lens[nPart - 1 := row];
      nPart := nPart - 1;
      gs := ge + 1;
      remF := remF - aFreq;
    }
  }

  /** Takes symbols from gs on until they come up to the share. */
  method TakeShare(mtfFreq: seq<nat>, tFreq: int, alphaSize: nat, gs: nat) returns (ge: int, aFreq: int)
    requires |mtfFreq| == alphaSize && gs <= alphaSize
    ensures gs - 1 <= ge < alphaSize && Reaches(mtfFreq, gs, ge + 1, tFreq) && aFreq == Sum(mtfFreq[gs..ge + 1])
  {
    ge, aFreq := gs - 1, 0;
    while aFreq < tFreq && ge < alphaSize - 1
      invariant gs - 1 <= ge <= alphaSize - 1 && aFreq == Sum(mtfFreq[gs..ge + 1])
      invariant ge >= gs ==> Sum(mtfFreq[gs..ge]) < tFreq
      decreases alphaSize - ge
    {
      SumOneMore(mtfFreq, gs, ge + 1);
      ge := ge + 1;
      aFreq := aFreq + mtfFreq[ge];
    }
  }

  lemma SumOneMore(freq: seq<nat>, gs: nat, end: nat)
    requires gs <= end < |freq|
    ensures Sum(freq[gs..end + 1]) == Sum(freq[gs..end]) + freq[end]
  {
    assert freq[gs..end + 1] == freq[gs..end] + [freq[end]];
  }

  lemma SumRest(freq: seq<nat>, gs: nat, end: nat)
    requires gs <= end <= |freq|
    ensures Sum(freq[gs..]) == Sum(freq[gs..end]) + Sum(freq[end..])
  {
    SumAppend(freq[gs..end], freq[end..]);
    assert freq[gs..] == freq[gs..end] + freq[end..];
  }

  method NextPart(mtfFreq: seq<nat>, remF: int, nPart: nat, nGroups: nat, alphaSize: nat, gs: nat)
    returns (ge: int, aFreq: int)
    requires |mtfFreq| == alphaSize && 1 <= nPart <= nGroups && gs <= alphaSize && remF == Sum(mtfFreq[gs..])
    ensures gs - 1 <= ge < alphaSize && Part(mtfFreq, nGroups, nGroups - nPart, gs, ge + 1)
    ensures remF - aFreq == Sum(mtfFreq[ge + 1..])
  {
    NatSum(mtfFreq[gs..]);
    var tFreq := Quotient(remF, nPart);
    ge, aFreq := TakeShare(mtfFreq, tFreq, alphaSize, gs);
    hide Reaches, Sum;
    if ge > gs && nPart != nGroups && nPart != 1 && (nGroups - nPart) % 2 == 1 {
      SumOneMore(mtfFreq, gs, ge);
      aFreq := aFreq - mtfFreq[ge];
      ge := ge - 1;
    }
    SumRest(mtfFreq, gs, ge + 1);
  }

  lemma {:induction false} NatSum(s: seq<nat>)
    ensures 0 <= Sum(s)
  {
    if s != [] { NatSum(s[..|s| - 1]); }
  }

  lemma PartAdded(freq: seq<nat>, nGroups: nat, lens: seq<seq<int>>, cuts: seq<nat>, k: nat, gs: nat, end: nat,
                  row: seq<int>)
    requires StartsAt(freq, nGroups, lens, cuts, k) && k < nGroups && cuts[k] == gs && Part(freq, nGroups, k, gs, end)
    requires row == CheapRow(|freq|, gs, end)
    ensures StartsAt(freq, nGroups, lens[nGroups - 1 - k := row], cuts + [end], k + 1)
  {
    hide Part;
  }

  /** The last part takes all that is left, since the last symbol occurs. */
  lemma LastPart(freq: seq<nat>, nGroups: nat, gs: nat, end: nat)
    requires 1 <= nGroups && freq != [] && freq[|freq| - 1] >= 1 && Part(freq, nGroups, nGroups - 1, gs, end)
    ensures end == |freq|
  {
    if end < |freq| {
      RestCounts(freq, end);
      SumRest(freq, gs, end);
    }
  }

  lemma RestCounts(freq: seq<nat>, end: nat)
    requires end < |freq| && freq[|freq| - 1] >= 1
    ensures Sum(freq[end..]) >= 1
  {
    NatSum(freq[end..|freq| - 1]);
    assert freq[end..] == freq[end..|freq| - 1] + [freq[|freq| - 1]];
  }

  lemma {:induction false} CutsRise(freq: seq<nat>, nGroups: nat, lens: seq<seq<int>>, cuts: seq<nat>, i: nat, j: nat)
    requires StartsAt(freq, nGroups, lens, cuts, nGroups) && i <= j <= nGroups
    ensures cuts[i] <= cuts[j]
    decreases j
  {
    if i < j {
      CutsRise(freq, nGroups, lens, cuts, i, j - 1);
      assert Part(freq, nGroups, j - 1, cuts[j - 1], cuts[j - 1 + 1]);
    }
  }

  lemma {:induction false} PartOf(freq: seq<nat>, nGroups: nat, lens: seq<seq<int>>, cuts: seq<nat>, v: nat, n: nat)
    returns (k: nat)
    requires StartsAt(freq, nGroups, lens, cuts, nGroups) && n <= nGroups && v < cuts[n]
    ensures k < n && cuts[k] <= v < cuts[k + 1]
  {
    if cuts[n - 1] <= v { k := n - 1; } else { k := PartOf(freq, nGroups, lens, cuts, v, n - 1); }
  }

  /** In the initial tables every symbol is cheap in exactly one. */
  lemma OneCheapTable(freq: seq<nat>, nGroups: nat, lens: seq<seq<int>>, v: nat) returns (t: nat)
    requires Starts(freq, nGroups, lens) && 1 <= nGroups && v < |freq| && freq[|freq| - 1] >= 1
    ensures t < nGroups == |lens| && (forall u :: 0 <= u < nGroups ==> |lens[u]| == |freq|)
    ensures forall u :: 0 <= u < nGroups ==> lens[u][v] == if u == t then 0 else 15
  {
    var cuts: seq<nat> :| StartsAt(freq, nGroups, lens, cuts, nGroups);
    assert Part(freq, nGroups, nGroups - 1, cuts[nGroups - 1], cuts[nGroups - 1 + 1]);
    LastPart(freq, nGroups, cuts[nGroups - 1], cuts[nGroups]);
    var k := PartOf(freq, nGroups, lens, cuts, v, nGroups);
    t := nGroups - 1 - k;
    hide Part;
    forall u | 0 <= u < nGroups ensures |lens[u]| == |freq| && lens[u][v] == if u == t then 0 else 15 {
      var i := nGroups - 1 - u;
      assert lens[nGroups - 1 - i] == CheapRow(|freq|, cuts[i], cuts[i + 1]);
      if i < k { CutsRise(freq, nGroups, lens, cuts, i + 1, k); }
      if i > k { CutsRise(freq, nGroups, lens, cuts, k + 1, i); }
    }
  }

  /** The division of C, which truncates. */
  function Quotient(a: int, b: int): int
    requires b > 0
  {
    if a >= 0 then a / b else -((-a) / b)
  }

  /** What a table charges for a group. */
  ghost function Cost(len: seq<int>, group: seq<int>): int
    requires InAlphabet(group, |len|)
  {
    if group == [] then 0 else Cost(len, group[..|group| - 1]) + len[group[|group| - 1]]
  }

  lemma {:induction false} CostBound(len: seq<int>, group: seq<int>)
    requires InAlphabet(group, |len|) && forall v :: 0 <= v < |len| ==> 0 <= len[v] <= 20
    ensures 0 <= Cost(len, group) <= 20 * |group|
  {
    if group != [] { CostBound(len, group[..|group| - 1]); }
  }

  /** The first of the cheapest tables for a group. */
  method BestTable(lens: seq<seq<int>>, nGroups: nat, alphaSize: nat, group: seq<int>) returns (bt: nat)
    requires Shaped(lens, nGroups, alphaSize) && 1 <= nGroups && InAlphabet(group, alphaSize) && |group| <= GROUP_SIZE
    ensures FirstCheapest(lens, nGroups, alphaSize, group, bt)
  {
    var cost := GroupCosts(lens, nGroups, alphaSize, group);
    var bc, best, t := 999999999, -1, 0;
    CostBound(lens[0], group);
    while t < nGroups
      invariant 0 <= t <= nGroups && (t == 0 ==> best == -1 && bc == 999999999)
      invariant (t > 0 ==> 0 <= best < t && bc == cost[best])
      invariant forall u :: 0 <= u < t ==> bc <= cost[u]
      invariant forall u :: 0 <= u < best ==> bc < cost[u]
    {
      if cost[t] < bc { bc := cost[t]; best := t; }
      t := t + 1;
    }
    bt := best;
  }

  method GroupCosts(lens: seq<seq<int>>, nGroups: nat, alphaSize: nat, group: seq<int>) returns (cost: seq<int>)
    requires Shaped(lens, nGroups, alphaSize) && InAlphabet(group, alphaSize) && |group| <= GROUP_SIZE
    ensures |cost| == nGroups && forall t :: 0 <= t < nGroups ==> cost[t] == Cost(lens[t], group)
  {
    if nGroups == 6 && |group| == 50 {
      var c0, c1 := PackedCosts(lens[0], lens[1], group);
      var c2, c3 := PackedCosts(lens[2], lens[3], group);
      var c4, c5 := PackedCosts(lens[4], lens[5], group);
      cost := [c0, c1, c2, c3, c4, c5];
    } else {
      cost := seq(nGroups, _ => 0);
      var i := 0;
      while i < |group|
        invariant 0 <= i <= |group| && |cost| == nGroups
        invariant forall t :: 0 <= t < nGroups ==> cost[t] == Cost(lens[t], group[..i])
      {
        var icv := group[i];
        assert group[..i + 1][..i] == group[..i];
        cost := seq(nGroups, t requires 0 <= t < nGroups => cost[t] + lens[t][icv]);
        i := i + 1;
      }
      assert group[..i] == group;
    }
  }

  /** The fast form: the costs of two tables are summed in the halves of one 32-bit word. */
  method PackedCosts(len0: seq<int>, len1: seq<int>, group: seq<int>) returns (c0: int, c1: int)
    requires |len0| == |len1| && InAlphabet(group, |len0|) && |group| <= GROUP_SIZE
    requires forall v :: 0 <= v < |len0| ==> 0 <= len0[v] <= 20 && 0 <= len1[v] <= 20
    ensures c0 == Cost(len0, group) && c1 == Cost(len1, group)
  {
    var cost01, i := 0, 0;
    while i < |group|
      invariant 0 <= i <= |group|
      invariant cost01 == Cost(len1, group[..i]) * 0x1_0000 + Cost(len0, group[..i])
    {
      assert group[..i + 1][..i] == group[..i];
      CostBound(len0, group[..i + 1]);
      CostBound(len1, group[..i + 1]);
      cost01 := (cost01 + len1[group[i]] * 0x1_0000 + len0[group[i]]) % 0x1_0000_0000;
      i := i + 1;
    }
    assert group[..i] == group;
    CostBound(len0, group);
    CostBound(len1, group);
    c0, c1 := cost01 % 0x1_0000, cost01 / 0x1_0000;
  }

  /** Group i of the block: 50 symbols, or what is left. */
  ghost function GroupNo(mtfv: seq<int>, i: nat): (g: seq<int>)
    ensures |g| <= 50
  {
    if 50 * i >= |mtfv| then [] else if 50 * i + 50 > |mtfv| then mtfv[50 * i..] else mtfv[50 * i..50 * i + 50]
  }

  /** The symbols of the groups that have table t. */
  ghost function Taken(mtfv: seq<int>, sels: seq<nat>, t: nat): (r: seq<int>)
    ensures |r| <= 50 * |sels|
  {
    if sels == [] then []
    else
      var n := |sels| - 1;
      Taken(mtfv, sels[..n], t) + if sels[n] == t then GroupNo(mtfv, n) else []
  }

  /** Table s is the first of those that are cheapest for the group. */
  ghost predicate FirstCheapest(lens: seq<seq<int>>, nGroups: nat, alphaSize: nat, group: seq<int>, s: nat) {
    && Shaped(lens, nGroups, alphaSize) && InAlphabet(group, alphaSize) && s < nGroups
    && (forall t :: 0 <= t < nGroups ==> Cost(lens[s], group) <= Cost(lens[t], group))
    && (forall t :: 0 <= t < s ==> Cost(lens[s], group) < Cost(lens[t], group))
  }

  /** Every group has the first of the tables that are cheapest for it. */
  ghost predicate AllCheapest(lens: seq<seq<int>>, nGroups: nat, alphaSize: nat, mtfv: seq<int>, sels: seq<nat>) {
    forall i :: 0 <= i < |sels| ==> FirstCheapest(lens, nGroups, alphaSize, GroupNo(mtfv, i), sels[i])
  }

  /** Every table's counts are those of the groups that have it. */
  ghost predicate Tallied(rfreq: seq<seq<nat>>, nGroups: nat, alphaSize: nat, mtfv: seq<int>, sels: seq<nat>) {
    |rfreq| == nGroups && forall t :: 0 <= t < nGroups ==> rfreq[t] == Counts(Taken(mtfv, sels, t), alphaSize)
  }

  method CountGroup(freq: seq<nat>, alphaSize: nat, group: seq<int>) returns (now: seq<nat>)
    requires |freq| == alphaSize && InAlphabet(group, alphaSize)
    ensures |now| == alphaSize && forall v :: 0 <= v < alphaSize ==> now[v] == freq[v] + multiset(group)[v]
  {
    now := freq;
    var i := 0;
    while i < |group|
      invariant 0 <= i <= |group| && |now| == alphaSize
      invariant forall v :: 0 <= v < alphaSize ==> now[v] == freq[v] + multiset(group[..i])[v]
    {
      assert group[..i + 1] == group[..i] + [group[i]];
      now := now[group[i] := now[group[i]] + 1];
      i := i + 1;
    }
    assert group[..i] == group;
  }

  /** Symbols gs..ge of the block, at most 50 of them. */
  function GroupAt(mtfv: seq<int>, gs: nat): (g: seq<int>)
    requires gs <= |mtfv|
    ensures |g| <= GROUP_SIZE
  {
    if gs + GROUP_SIZE <= |mtfv| then mtfv[gs..gs + GROUP_SIZE] else mtfv[gs..]
  }

  ghost predicate Selected(sels: seq<nat>, nGroups: nat, gs: nat, nMTF: nat) {
    && (forall i :: 0 <= i < |sels| ==> sels[i] < nGroups)
    && if gs < nMTF then gs == GROUP_SIZE * |sels|
      else gs == nMTF && GROUP_SIZE * (|sels| - 1) < nMTF <= GROUP_SIZE * |sels|
  }

  /** Every group takes its cheapest table, whose counts grow by its symbols. */
  method AssignGroups(mtfv: seq<int>, lens: seq<seq<int>>, nGroups: nat, alphaSize: nat)
    returns (sels: seq<nat>, rfreq: seq<seq<nat>>)
    requires Shaped(lens, nGroups, alphaSize) && 2 <= nGroups && 0 < |mtfv| && InAlphabet(mtfv, alphaSize)
    ensures Selected(sels, nGroups, |mtfv|, |mtfv|) && Tallied(rfreq, nGroups, alphaSize, mtfv, sels)
    ensures AllCheapest(lens, nGroups, alphaSize, mtfv, sels)
  {
    rfreq := seq(nGroups, _ => seq(alphaSize, _ => 0));
    sels := [];
    NoneTaken(rfreq, nGroups, alphaSize, mtfv);
    var gs := 0;
    while gs < |mtfv|
      invariant 0 <= gs <= |mtfv| && Selected(sels, nGroups, gs, |mtfv|)
      invariant Tallied(rfreq, nGroups, alphaSize, mtfv, sels) && AllCheapest(lens, nGroups, alphaSize, mtfv, sels)
    {
      var bt, freq, next := AssignGroup(mtfv, lens, nGroups, alphaSize, sels, rfreq, gs);
      rfreq := rfreq[bt := freq];
      sels := sels + [bt];
      gs := next;
    }
  }

  lemma NoneTaken(rfreq: seq<seq<nat>>, nGroups: nat, alphaSize: nat, mtfv: seq<int>)
    requires |rfreq| == nGroups && forall t :: 0 <= t < nGroups ==> rfreq[t] == seq(alphaSize, _ => 0)
    ensures Tallied(rfreq, nGroups, alphaSize, mtfv, [])
  {
  }

  method AssignGroup(mtfv: seq<int>, lens: seq<seq<int>>, nGroups: nat, alphaSize: nat, ghost sels: seq<nat>,
                     rfreq: seq<seq<nat>>, gs: nat)
    returns (bt: nat, freq: seq<nat>, next: nat)
    requires Shaped(lens, nGroups, alphaSize) && 2 <= nGroups && InAlphabet(mtfv, alphaSize) && gs < |mtfv|
    requires Selected(sels, nGroups, gs, |mtfv|) && Tallied(rfreq, nGroups, alphaSize, mtfv, sels)
    requires AllCheapest(lens, nGroups, alphaSize, mtfv, sels)
    ensures bt < nGroups == |rfreq| && gs < next <= |mtfv| && Selected(sels + [bt], nGroups, next, |mtfv|)
    ensures Tallied(rfreq[bt := freq], nGroups, alphaSize, mtfv, sels + [bt])
    ensures AllCheapest(lens, nGroups, alphaSize, mtfv, sels + [bt])
  {
    var group := GroupAt(mtfv, gs);
    bt := BestTable(lens, nGroups, alphaSize, group);
    freq := CountGroup(rfreq[bt], alphaSize, group);
    next := gs + |group|;
    assert group == GroupNo(mtfv, |sels|);
    GroupTaken(sels, nGroups, gs, mtfv, bt, next);
    CheapestAdded(lens, nGroups, alphaSize, mtfv, sels, bt);
    TallyAdded(rfreq, nGroups, alphaSize, mtfv, sels, bt, freq);
  }

  lemma GroupTaken(sels: seq<nat>, nGroups: nat, gs: nat, mtfv: seq<int>, bt: nat, next: nat)
    requires gs < |mtfv| && Selected(sels, nGroups, gs, |mtfv|) && bt < nGroups && next == gs + |GroupAt(mtfv, gs)|
    ensures next <= |mtfv| && Selected(sels + [bt], nGroups, next, |mtfv|)
  {
  }

  lemma CheapestAdded(lens: seq<seq<int>>, nGroups: nat, alphaSize: nat, mtfv: seq<int>, sels: seq<nat>, bt: nat)
    requires AllCheapest(lens, nGroups, alphaSize, mtfv, sels)
    requires FirstCheapest(lens, nGroups, alphaSize, GroupNo(mtfv, |sels|), bt)
    ensures AllCheapest(lens, nGroups, alphaSize, mtfv, sels + [bt])
  {
    hide FirstCheapest;
  }

  lemma TallyAdded(rfreq: seq<seq<nat>>, nGroups: nat, alphaSize: nat, mtfv: seq<int>, sels: seq<nat>, bt: nat,
                   freq: seq<nat>)
    requires Tallied(rfreq, nGroups, alphaSize, mtfv, sels) && bt < nGroups && |freq| == alphaSize
    requires forall v :: 0 <= v < alphaSize ==> freq[v] == rfreq[bt][v] + multiset(GroupNo(mtfv, |sels|))[v]
    ensures Tallied(rfreq[bt := freq], nGroups, alphaSize, mtfv, sels + [bt])
  {
    hide GroupNo;
    assert (sels + [bt])[..|sels|] == sels;
    forall t | 0 <= t < nGroups ensures rfreq[bt := freq][t] == Counts(Taken(mtfv, sels + [bt], t), alphaSize) {
      if t != bt { assert Taken(mtfv, sels + [bt], t) == Taken(mtfv, sels, t); }
    }
  }

  lemma {:induction false} SumInitial(freq: seq<nat>)
    ensures Sum(Initial(freq)) <= Sum(freq) + |freq|
  {
    if freq != [] {
      var n := |freq| - 1;
      assert Initial(freq)[..n] == Initial(freq[..n]);
      SumInitial(freq[..n]);
    }
  }

  /** The lengths for the counts of one table. */
  method LengthsFor(freq: seq<nat>, alphaSize: nat) returns (len: seq<int>)
    requires 2 <= alphaSize <= 258 && |freq| == alphaSize && Sum(freq) <= 1_000_050
    ensures |len| == alphaSize && Settled(freq, 17, len)
  {
    hide Settled, Fib;
    var f := new int[alphaSize](i requires 0 <= i < alphaSize => freq[i]);
    var l := new int[alphaSize](_ => 0);
    assert f[..] == freq;
    SumInitial(freq);
    SeventeenBitsSuffice(alphaSize);
    MakeCodeLengths(l, f, alphaSize, MAX_LEN);
    len := l[..];
  }

  /** Every table has the lengths for the counts of its groups. */
  ghost predicate Rebuilt(lens: seq<seq<int>>, nGroups: nat, alphaSize: nat, mtfv: seq<int>, sels: seq<nat>) {
    && |lens| == nGroups
    && forall t :: 0 <= t < nGroups ==>
      |lens[t]| == alphaSize && Settled(Counts(Taken(mtfv, sels, t), alphaSize), 17, lens[t])
  }

  lemma RebuiltComplete(lens: seq<seq<int>>, nGroups: nat, alphaSize: nat, mtfv: seq<int>, sels: seq<nat>)
    requires Rebuilt(lens, nGroups, alphaSize, mtfv, sels)
    ensures forall t :: 0 <= t < nGroups ==> |lens[t]| == alphaSize && CompleteLengths(lens[t], 17)
    ensures Shaped(lens, nGroups, alphaSize)
  {
  }

  lemma TakenWithin(mtfv: seq<int>, sels: seq<nat>, t: nat, alphaSize: nat)
    requires InAlphabet(mtfv, alphaSize)
    ensures InAlphabet(Taken(mtfv, sels, t), alphaSize)
  {
  }

  method RebuildTables(rfreq: seq<seq<nat>>, nGroups: nat, alphaSize: nat, ghost mtfv: seq<int>, ghost sels: seq<nat>)
    returns (lens: seq<seq<int>>)
    requires 2 <= alphaSize <= 258 && Tallied(rfreq, nGroups, alphaSize, mtfv, sels)
    requires InAlphabet(mtfv, alphaSize) && |mtfv| <= 1_000_000 && Selected(sels, nGroups, |mtfv|, |mtfv|)
    ensures Rebuilt(lens, nGroups, alphaSize, mtfv, sels)
  {
    lens := [];
    while |lens| < nGroups
      invariant |lens| <= nGroups
      invariant forall t :: 0 <= t < |lens| ==> |lens[t]| == alphaSize && Settled(rfreq[t], 17, lens[t])
    {
      ghost var t := |lens|;
      TakenWithin(mtfv, sels, t, alphaSize);
      CountsTotal(Taken(mtfv, sels, t), alphaSize);
      var len := LengthsFor(rfreq[|lens|], alphaSize);
      lens := lens + [len];
    }
  }

  /** One round: the groups choose among the tables there are, and the tables are rebuilt. */
  ghost predicate Round(mtfv: seq<int>, nGroups: nat, alphaSize: nat, before: seq<seq<int>>, sels: seq<nat>,
                        lens: seq<seq<int>>) {
    && Selected(sels, nGroups, |mtfv|, |mtfv|) && AllCheapest(before, nGroups, alphaSize, mtfv, sels)
    && Rebuilt(lens, nGroups, alphaSize, mtfv, sels)
  }

  /** Rounds, from the initial tables on. */
  ghost predicate Rounds(mtfv: seq<int>, nGroups: nat, alphaSize: nat, picks: seq<seq<nat>>,
                         tables: seq<seq<seq<int>>>) {
    && |tables| == |picks| + 1 && Starts(Counts(mtfv, alphaSize), nGroups, tables[0])
    && forall r :: 0 <= r < |picks| ==> Round(mtfv, nGroups, alphaSize, tables[r], picks[r], tables[r + 1])
  }

  /** The tables and selectors of a block: those of the fourth round. */
  ghost predicate Chosen(mtfv: seq<int>, alphaSize: nat, nGroups: nat, sels: seq<nat>, lens: seq<seq<int>>) {
    && nGroups == GroupCount(|mtfv|)
    && exists picks: seq<seq<nat>>, tables: seq<seq<seq<int>>> ::
      Rounds(mtfv, nGroups, alphaSize, picks, tables) && |picks| == 4 && picks[3] == sels && tables[4] == lens
  }

  lemma RoundAdded(mtfv: seq<int>, nGroups: nat, alphaSize: nat, picks: seq<seq<nat>>, tables: seq<seq<seq<int>>>,
                   sels: seq<nat>, lens: seq<seq<int>>)
    requires Rounds(mtfv, nGroups, alphaSize, picks, tables)
    requires Round(mtfv, nGroups, alphaSize, tables[|picks|], sels, lens)
    ensures Rounds(mtfv, nGroups, alphaSize, picks + [sels], tables + [lens])
  {
    hide Round, Starts;
  }

  /** The tables and selectors of a block: complete codes, and a table for each group. */
  method ChooseTables(mtfv: seq<int>, mtfFreq: seq<nat>, alphaSize: nat)
    returns (nGroups: nat, sels: seq<nat>, lens: seq<seq<int>>)
    requires 2 <= alphaSize <= 258 && 0 < |mtfv| <= 1_000_000 && InAlphabet(mtfv, alphaSize)
    requires mtfFreq == Counts(mtfv, alphaSize)
    ensures Chosen(mtfv, alphaSize, nGroups, sels, lens)
    ensures Selected(sels, nGroups, |mtfv|, |mtfv|) && |lens| == nGroups
    ensures forall t :: 0 <= t < nGroups ==> |lens[t]| == alphaSize && CompleteLengths(lens[t], 17)
  {
    nGroups := GroupCount(|mtfv|);
    CountsTotal(mtfv, alphaSize);
    lens := InitialTables(mtfFreq, |mtfv|, nGroups, alphaSize);
    sels := [];
    ghost var picks, tables := [], [lens];
    var iter := 0;
    while iter < ITERATIONS
      invariant 0 <= iter <= ITERATIONS == 4 && Shaped(lens, nGroups, alphaSize)
      invariant Rounds(mtfv, nGroups, alphaSize, picks, tables) && |picks| == iter && tables[iter] == lens
      invariant iter > 0 ==> picks[iter - 1] == sels && Round(mtfv, nGroups, alphaSize, tables[iter - 1], sels, lens)
    {
      var rfreq;
      sels, rfreq := AssignGroups(mtfv, lens, nGroups, alphaSize);
      lens := RebuildTables(rfreq, nGroups, alphaSize, mtfv, sels);
      RebuiltComplete(lens, nGroups, alphaSize, mtfv, sels);
      RoundAdded(mtfv, nGroups, alphaSize, picks, tables, sels, lens);
      picks, tables := picks + [sels], tables + [lens];
      iter := iter + 1;
    }
    RebuiltComplete(lens, nGroups, alphaSize, mtfv, sels);
  }
}
