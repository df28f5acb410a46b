/**
 * How deflate sends the code lengths of its trees and inflate reads them back
 * (section 3.2.7 of RFC 1951): lengths 0 to 15 stand for themselves, 16 repeats
 * the last length 3 to 6 times, 17 and 18 stand for 3 to 10 and 11 to 138 zeros.
 */
module TreeLengths {
  import opened Common

  const REP_3_6 := 16
  const REPZ_3_10 := 17
  const REPZ_11_138 := 18
  const GUARD := 0xffff

  /** A code of the bit length tree and the value of its extra bits. */
  datatype Token = Token(code: nat, extra: nat)

  ghost function RunOf(v: nat, n: nat): (s: seq<nat>)
    ensures |s| == n
  {
    seq(n, _ => v)
  }

  // ---- Sending ----

  function MaxCount(prev: int, cur: int): nat { if cur == 0 then 138 else if prev == cur then 6 else 7 }

  function MinCount(prev: int, cur: int): nat { if cur == 0 || prev == cur then 3 else 4 }

  /** The tokens for a run of c lengths cur after the length prev. */
  ghost function RunTokens(prev: int, cur: nat, c: nat): seq<Token> {
    if c < MinCount(prev, cur) then seq(c, _ => Token(cur, 0))
    else if cur != 0 then
      if cur != prev then [Token(cur, 0), Token(REP_3_6, if c >= 4 then c - 4 else 0)]
        else [Token(REP_3_6, if c >= 3 then c - 3 else 0)]
    else if c <= 10 then [Token(REPZ_3_10, if c >= 3 then c - 3 else 0)]
    else [Token(REPZ_11_138, c - 11)]
  }

  ghost predicate Lengths(lens: seq<nat>) { forall i :: 0 <= i < |lens| ==> lens[i] <= 15 }

  function NextOf(lens: seq<nat>, n: nat): nat
    requires n < |lens|
  {
    if n + 1 < |lens| then lens[n + 1] else GUARD
  }

  /** The tokens for the lengths from n on, count of the same length being pending before it. */
  ghost function TokensFrom(lens: seq<nat>, n: nat, count: nat, prev: int): seq<Token>
    requires n <= |lens|
    decreases |lens| - n
  {
    if n == |lens| then []
    else
      var cur, c := lens[n], count + 1;
      if c < MaxCount(prev, cur) && cur == NextOf(lens, n) then TokensFrom(lens, n + 1, c, prev)
      else RunTokens(prev, cur, c) + TokensFrom(lens, n + 1, 0, cur)
  }

  ghost function Tokens(lens: seq<nat>): seq<Token> { TokensFrom(lens, 0, 0, -1) }

  /** send_tree. */
  method SendTree(lens: seq<nat>) returns (tokens: seq<Token>)
    requires Lengths(lens) && lens != []
    ensures tokens == Tokens(lens)
  {
    var prevlen: int, nextlen, count, max_count, min_count := -1, lens[0], 0, 7, 4;
    if nextlen == 0 { max_count, min_count := 138, 3; }
    tokens := [];
    ghost var whole := Tokens(lens);
    var n := 0;
    while n < |lens|
      invariant 0 <= n <= |lens| && 0 <= count
      invariant (n < |lens| ==>
        nextlen == lens[n] && max_count == MaxCount(prevlen, nextlen) && min_count == MinCount(prevlen, nextlen))
      invariant whole == tokens + TokensFrom(lens, n, count, prevlen)
    {
      var curlen := nextlen;
      nextlen := NextOf(lens, n);
      count := count + 1;
      ghost var next := n + 1;
      if count < max_count && curlen == nextlen {
        n := n + 1;
        continue;
      }
      var run := SendRun(prevlen, curlen, count, min_count);
      Associates(tokens + run, tokens, run, TokensFrom(lens, next, 0, curlen));
      tokens := tokens + run;
      count, prevlen := 0, curlen;
      if nextlen == 0 { max_count, min_count := 138, 3; }
      else if curlen == nextlen { max_count, min_count := 6, 3; }
      else { max_count, min_count := 7, 4; }
      n := n + 1;
    }
  }

  method SendRun(prevlen: int, curlen: nat, count: nat, min_count: nat) returns (run: seq<Token>)
    requires min_count == MinCount(prevlen, curlen)
    ensures run == RunTokens(prevlen, curlen, count)
  {
    var c := count;
    if c < min_count {
      run := [];
      while c > 0
        invariant 0 <= c <= count && |run| == count - c && forall i :: 0 <= i < |run| ==> run[i] == Token(curlen, 0)
      {
        run := run + [Token(curlen, 0)];
        c := c - 1;
      }
    } else if curlen != 0 {
      run := [];
      if curlen != prevlen {
        run := [Token(curlen, 0)];
        c := c - 1;
      }
      run := run + [Token(REP_3_6, c - 3)];
    } else if c <= 10 {
      run := [Token(REPZ_3_10, c - 3)];
    } else {
      run := [Token(REPZ_11_138, c - 11)];
    }
  }

  // ---- Counting what will be sent ----

  ghost function Occurs(tokens: seq<Token>, code: nat): nat {
    if tokens == [] then 0 else Occurs(tokens[..|tokens| - 1], code) + if tokens[|tokens| - 1].code == code then 1
      else 0
  }

  lemma {:induction false} OccursAppend(s: seq<Token>, t: seq<Token>, code: nat)
    ensures Occurs(s + t, code) == Occurs(s, code) + Occurs(t, code)
  {
    if t == [] {
      assert s + t == s;
    } else {
      var n := |t| - 1;
      assert (s + t)[..|s + t| - 1] == s + t[..n];
      OccursAppend(s, t[..n], code);
    }
  }

  lemma {:induction false} OccursSame(c: nat, cur: nat, code: nat)
    ensures Occurs(seq(c, _ => Token(cur, 0)), code) == if code == cur then c else 0
  {
    if c > 0 {
      var s, t := seq(c, _ => Token(cur, 0)), seq(c - 1, _ => Token(cur, 0));
      assert s[..c - 1] == t;
      OccursSame(c - 1, cur, code);
    }
  }

  lemma OccursOne(t: Token, code: nat)
    ensures Occurs([t], code) == if t.code == code then 1 else 0
  {
    assert [t][..0] == [];
  }

  lemma OccursTwo(t: Token, u: Token, code: nat)
    ensures Occurs([t, u], code) == (if t.code == code then 1 else 0) + (if u.code == code then 1 else 0)
  {
    assert [t, u][..1] == [t];
    OccursOne(t, code);
  }

  /** The counts of a run's codes. */
  method TallyRun(freq0: seq<nat>, prevlen: int, curlen: nat, count: nat, min_count: nat) returns (freq: seq<nat>)
    requires |freq0| == 19 && curlen <= 15 && min_count == MinCount(prevlen, curlen)
    ensures |freq| == 19
    ensures forall c :: 0 <= c < 19 ==> freq[c] == freq0[c] + Occurs(RunTokens(prevlen, curlen, count), c)
  {
    freq := freq0;
    if count < min_count {
      freq := freq[curlen := freq[curlen] + count];
      forall c | 0 <= c < 19
        ensures freq[c] == freq0[c] + Occurs(RunTokens(prevlen, curlen, count), c) { OccursSame(count, curlen, c); }
    } else if curlen != 0 {
      if curlen != prevlen { freq := freq[curlen := freq[curlen] + 1]; }
      freq := freq[REP_3_6 := freq[REP_3_6] + 1];
      forall c | 0 <= c < 19 ensures freq[c] == freq0[c] + Occurs(RunTokens(prevlen, curlen, count), c) {
        OccursTwo(Token(curlen, 0), Token(REP_3_6, if count >= 4 then count - 4 else 0), c);
        OccursOne(Token(REP_3_6, if count >= 3 then count - 3 else 0), c);
      }
    } else if count <= 10 {
      freq := freq[REPZ_3_10 := freq[REPZ_3_10] + 1];
      forall c | 0 <= c < 19 ensures freq[c] == freq0[c] + Occurs(RunTokens(prevlen, curlen, count), c) {
        OccursOne(Token(REPZ_3_10, if count >= 3 then count - 3 else 0), c);
      }
    } else {
      freq := freq[REPZ_11_138 := freq[REPZ_11_138] + 1];
      forall c | 0 <= c < 19
        ensures freq[c] == freq0[c] + Occurs(RunTokens(prevlen, curlen, count), c) {
          OccursOne(Token(REPZ_11_138, count - 11), c); }
    }
  }

  /** scan_tree: what it adds to the frequencies are the codes that send_tree will send. */
  method ScanTree(lens: seq<nat>, freq0: seq<nat>) returns (freq: seq<nat>)
    requires Lengths(lens) && lens != [] && |freq0| == 19
    ensures |freq| == 19 && forall c :: 0 <= c < 19 ==> freq[c] == freq0[c] + Occurs(Tokens(lens), c)
  {
    var prevlen: int, nextlen, count, max_count, min_count := -1, lens[0], 0, 7, 4;
    if nextlen == 0 { max_count, min_count := 138, 3; }
    freq := freq0;
    ghost var whole, tokens := Tokens(lens), [];
    var n := 0;
    while n < |lens|
      invariant 0 <= n <= |lens| && 0 <= count
      invariant (n < |lens| ==>
        nextlen == lens[n] && max_count == MaxCount(prevlen, nextlen) && min_count == MinCount(prevlen, nextlen))
      invariant whole == tokens + TokensFrom(lens, n, count, prevlen)
      invariant |freq| == 19 && forall c :: 0 <= c < 19 ==> freq[c] == freq0[c] + Occurs(tokens, c)
    {
      var curlen := nextlen;
      nextlen := NextOf(lens, n);
      count := count + 1;
      ghost var next := n + 1;
      if count < max_count && curlen == nextlen {
        n := n + 1;
        continue;
      }
      ghost var run := RunTokens(prevlen, curlen, count);
      freq := TallyRun(freq, prevlen, curlen, count, min_count);
      Associates(tokens + run, tokens, run, TokensFrom(lens, next, 0, curlen));
      forall c | 0 <= c < 19
        ensures Occurs(tokens + run, c) == Occurs(tokens, c) + Occurs(run, c) { OccursAppend(tokens, run, c); }
      tokens := tokens + run;
      count, prevlen := 0, curlen;
      if nextlen == 0 { max_count, min_count := 138, 3; }
      else if curlen == nextlen { max_count, min_count := 6, 3; }
      else { max_count, min_count := 7, 4; }
      n := n + 1;
    }
    assert whole == tokens;
  }

  // ---- Reading ----

  /** The lengths read, and the tokens not yet read. */
  datatype Read = Lens(lens: seq<nat>, rest: seq<Token>) | Bad

  /** One token of the CODELENS loop. */
  ghost function ReadToken(have: seq<nat>, total: nat, t: Token, rest: seq<Token>): Read {
    if t.code < 16 then Lens(have + [t.code], rest)
    else if t.code == 16 && have == [] then Bad
    else
      var len := if t.code == 16 then have[|have| - 1] else 0;
      var copy := t.extra + if t.code == 18 then 11 else 3;
      if |have| + copy > total then Bad else Lens(have + RunOf(len, copy), rest)
  }

  /** The loop: it reads until it has as many lengths as were announced. */
  ghost function ReadTokens(have: seq<nat>, total: nat, tokens: seq<Token>): Read
    decreases |tokens|
  {
    if |have| >= total || tokens == [] then Lens(have, tokens)
    else
      var r := ReadToken(have, total, tokens[0], tokens[1..]);
      if r.Bad? then Bad else ReadTokens(r.lens, total, r.rest)
  }

  lemma {:induction false} ReadAppend(have: seq<nat>, total: nat, s: seq<Token>, t: seq<Token>)
    requires ReadTokens(have, total, s).Lens? && ReadTokens(have, total, s).rest == []
    ensures ReadTokens(have, total, s + t) == ReadTokens(ReadTokens(have, total, s).lens, total, t)
    decreases |s|
  {
    if s == [] {
      assert s + t == t;
    } else {
      assert (s + t)[0] == s[0] && (s + t)[1..] == s[1..] + t;
      var r := ReadToken(have, total, s[0], s[1..]);
      ReadAppend(r.lens, total, s[1..], t);
    }
  }

  method RepeatLength(lens: seq<nat>, len: nat, copy: nat) returns (r: seq<nat>)
    ensures r == lens + RunOf(len, copy)
  {
    r := lens;
    var k := 0;
    while k < copy
      invariant 0 <= k <= copy && r == lens + RunOf(len, k)
    {
      r := r + [len];
      k := k + 1;
    }
  }

  // ---- The round trip ----

  lemma {:induction false} ReadSingles(have: seq<nat>, total: nat, cur: nat, c: nat)
    requires cur <= 15 && |have| + c <= total
    ensures ReadTokens(have, total, seq(c, _ => Token(cur, 0))) == Lens(have + RunOf(cur, c), [])
    decreases c
  {
    if c == 0 {
      assert have + RunOf(cur, 0) == have;
    } else {
      var s, t := seq(c, _ => Token(cur, 0)), seq(c - 1, _ => Token(cur, 0));
      assert s[0] == Token(cur, 0) && s[1..] == t;
      ReadSingles(have + [cur], total, cur, c - 1);
      assert have + [cur] + RunOf(cur, c - 1) == have + RunOf(cur, c);
    }
  }

  lemma ReadOne(have: seq<nat>, total: nat, t: Token)
    requires |have| < total && ReadToken(have, total, t, []).Lens?
    ensures ReadTokens(have, total, [t]) == ReadToken(have, total, t, [])
  {
    assert [t][1..] == [];
  }

  lemma ReadPair(have: seq<nat>, total: nat, cur: nat, k: nat)
    requires cur <= 15 && |have| + 1 + k + 3 <= total
    ensures ReadTokens(have, total, [Token(cur, 0), Token(REP_3_6, k)]) == Lens(have + RunOf(cur, k + 4), [])
  {
    var ts := [Token(cur, 0), Token(REP_3_6, k)];
    assert ts[1..] == [Token(REP_3_6, k)];
    ReadOne(have + [cur], total, Token(REP_3_6, k));
    assert have + [cur] + RunOf(cur, k + 3) == have + RunOf(cur, k + 4);
  }

  /** A run is read back, whatever was sent before it, if prev is the length before it. */
  lemma ReadRun(have: seq<nat>, total: nat, prev: int, cur: nat, c: nat)
    requires cur <= 15 && 1 <= c <= MaxCount(prev, cur) && |have| + c <= total
    requires prev == cur ==> have != [] && have[|have| - 1] == cur
    ensures ReadTokens(have, total, RunTokens(prev, cur, c)) == Lens(have + RunOf(cur, c), [])
  {
    if c < MinCount(prev, cur) {
      ReadSingles(have, total, cur, c);
    } else if cur != 0 && cur != prev {
      ReadPair(have, total, cur, c - 4);
    } else if cur != 0 {
      ReadOne(have, total, Token(REP_3_6, c - 3));
    } else if c <= 10 {
      ReadOne(have, total, Token(REPZ_3_10, c - 3));
    } else {
      ReadOne(have, total, Token(REPZ_11_138, c - 11));
    }
  }

  /** The extra bits of every token fit their field. */
  ghost predicate FitsField(t: Token) {
    t.code <= 18 && (t.code < 16 ==> t.extra == 0) && (t.code == 16 ==> t.extra < 4)
      && (t.code == 17 ==> t.extra < 8) && (t.code == 18 ==> t.extra < 128)
  }

  lemma RunFits(prev: int, cur: nat, c: nat)
    requires cur <= 15 && 1 <= c <= MaxCount(prev, cur)
    ensures forall i :: 0 <= i < |RunTokens(prev, cur, c)| ==> FitsField(RunTokens(prev, cur, c)[i])
  {
  }

  /** Where the sender is at n: a run of `count` pending after `prev`. */
  ghost predicate At(lens: seq<nat>, n: nat, count: nat, prev: int) {
    && count <= n <= |lens| && (n < |lens| ==> count < MaxCount(prev, lens[n])) && (n == |lens| ==> count == 0)
    && (forall i :: n - count <= i < n ==> n < |lens| && lens[i] == lens[n])
    && (prev != -1 ==> 0 < n - count && prev == lens[n - count - 1])
  }

  lemma RunIs(lens: seq<nat>, n: nat, count: nat, next: nat, start: nat)
    requires n < |lens| && count <= n && next == n + 1 && start == n - count
    requires forall i :: start <= i < n ==> lens[i] == lens[n]
    ensures lens[..start] + RunOf(lens[n], count + 1) == lens[..next]
  {
  }

  /** Reading exactly these tokens takes the lengths from `have` to `now`. */
  ghost predicate Reads(have: seq<nat>, total: nat, tokens: seq<Token>, now: seq<nat>) {
    forall k {:trigger Key(k)} :: Key(k) ==> ReadTokens(have, total, tokens) == Lens(now, [])
  }

  lemma ReadsThen(have: seq<nat>, total: nat, s: seq<Token>, mid: seq<nat>, t: seq<Token>, now: seq<nat>)
    requires Reads(have, total, s, mid) && Reads(mid, total, t, now)
    ensures Reads(have, total, s + t, now)
  {
    assert Key(0);
    ReadAppend(have, total, s, t);
  }

  lemma ReadsRun(have: seq<nat>, total: nat, prev: int, cur: nat, c: nat, now: seq<nat>)
    requires cur <= 15 && 1 <= c <= MaxCount(prev, cur) && |have| + c <= total && now == have + RunOf(cur, c)
    requires prev == cur ==> have != [] && have[|have| - 1] == cur
    ensures Reads(have, total, RunTokens(prev, cur, c), now)
  {
    ReadRun(have, total, prev, cur, c);
  }

  lemma ReadsNothing(have: seq<nat>, total: nat)
    ensures Reads(have, total, [], have)
  {
  }

  /** What is sent from n on completes what has been read so far. */
  lemma {:induction false} SendThenRead(base: seq<nat>, lens: seq<nat>, total: nat, n: nat, count: nat, prev: int)
    requires Lengths(lens) && At(lens, n, count, prev) && |base| + |lens| <= total
    ensures Reads(base + lens[..n - count], total, TokensFrom(lens, n, count, prev), base + lens)
    decreases |lens| - n
  {
    var start := n - count;
    if n == |lens| {
      assert lens[..start] == lens;
      ReadsNothing(base + lens, total);
    } else {
      var cur, c, next := lens[n], count + 1, n + 1;
      if c < MaxCount(prev, cur) && cur == NextOf(lens, n) {
        SendThenRead(base, lens, total, next, c, prev);
      } else {
        var have, mid := base + lens[..start], base + lens[..next];
        RunIs(lens, n, count, next, start);
        ReadsRun(have, total, prev, cur, c, mid);
        SendThenRead(base, lens, total, next, 0, cur);
        ReadsThen(have, total, RunTokens(prev, cur, c), mid, TokensFrom(lens, next, 0, cur), base + lens);
      }
    }
  }

  lemma {:induction false} SentFits(lens: seq<nat>, n: nat, count: nat, prev: int)
    requires Lengths(lens) && n <= |lens| && (n < |lens| ==> count < MaxCount(prev, lens[n]))
    ensures forall i :: 0 <= i < |TokensFrom(lens, n, count, prev)| ==> FitsField(TokensFrom(lens, n, count, prev)[i])
    decreases |lens| - n
  {
    if n < |lens| {
      var cur, c, next := lens[n], count + 1, n + 1;
      if c < MaxCount(prev, cur) && cur == NextOf(lens, n) {
        SentFits(lens, next, c, prev);
      } else {
        RunFits(prev, cur, c);
        SentFits(lens, next, 0, cur);
      }
    }
  }

  /** What is sent for one tree is read back after anything that has been read before, and fits its fields. */
  lemma TreeRoundTrip(base: seq<nat>, lens: seq<nat>, total: nat)
    requires Lengths(lens) && |base| + |lens| <= total
    ensures Reads(base, total, Tokens(lens), base + lens)
    ensures forall i :: 0 <= i < |Tokens(lens)| ==> FitsField(Tokens(lens)[i])
  {
    assert base + lens[..0] == base;
    SendThenRead(base, lens, total, 0, 0, -1);
    SentFits(lens, 0, 0, -1);
  }

  lemma ReadsBefore(have: seq<nat>, total: nat, s: seq<Token>, now: seq<nat>, rest: seq<Token>)
    requires Reads(have, total, s, now) && |now| == total
    ensures ReadTokens(have, total, s + rest) == Lens(now, rest)
  {
    assert Key(0);
    ReadAppend(have, total, s, rest);
  }

  /** Literal and distance lengths, sent as two trees, are read back as one array, and no more is read. */
  lemma TwoTreesRoundTrip(lit: seq<nat>, dist: seq<nat>, rest: seq<Token>)
    requires Lengths(lit) && Lengths(dist)
    ensures ReadTokens([], |lit| + |dist|, Tokens(lit) + Tokens(dist) + rest) == Lens(lit + dist, rest)
  {
    var total := |lit| + |dist|;
    TreeRoundTrip([], lit, total);
    assert [] + lit == lit;
    TreeRoundTrip(lit, dist, total);
    ReadsThen([], total, Tokens(lit), lit, Tokens(dist), lit + dist);
    ReadsBefore([], total, Tokens(lit) + Tokens(dist), lit + dist, rest);
  }
}
