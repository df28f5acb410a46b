/**
 * The header of a dynamic block on the wire (section 3.2.7 of RFC 1951): deflate sends the
 * counts, the lengths of the bit length codes, and both trees in those codes; inflate reads
 * them back bit by bit, through a table that it builds on the way.
 */
module DynamicTrees {
  import opened Common
  import opened Bits
  import opened KraftSum
  import opened DeflateCodes
  import opened InflateEntries
  import opened InflateLoop
  import opened InflateTable
  import opened TreeLengths
  import DeflateTree

  const BL_CODES := 19
  const MAX_BL_BITS := 7

  /** The order in which the lengths of the bit length codes are sent. */
  const BL_ORDER: seq<nat> := [16, 17, 18, 0, 8, 7, 9, 6, 10, 5, 11, 4, 12, 3, 13, 2, 14, 1, 15]

  /** Where the length of bit length code c comes: after the repeats and 0, the lengths from the middle outwards. */
  function RankOf(c: nat): (r: nat)
    requires c < BL_CODES
    ensures r < BL_CODES && CodeAt(r) == c
  {
    if c >= 16 then c - 16 else if c == 0 then 3 else if c >= 8 then 2 * (c - 8) + 4 else 2 * (7 - c) + 5
  }

  function CodeAt(r: nat): (c: nat)
    requires r < BL_CODES
    ensures c < BL_CODES
  {
    if r < 3 then 16 + r else if r == 3 then 0 else if r % 2 == 0 then 8 + (r - 4) / 2 else 7 - (r - 5) / 2
  }

  /** The table has them so. */
  function BlOrder(r: nat): (c: nat)
    requires r < BL_CODES
    ensures c == CodeAt(r) && c < BL_CODES && RankOf(c) == r
  {
    BL_ORDER[r]
  }

  // ---- Tokens ----

  function ExtraBits(code: nat): nat {
    if code == REP_3_6 then 2 else if code == REPZ_3_10 then 3 else if code == REPZ_11_138 then 7 else 0
  }

  /** A code of the bit length tree, and its extra bits lowest first. */
  ghost function TokenBits(bl: seq<byte>, t: Token): bits
    requires |bl| == BL_CODES && t.code < BL_CODES
  {
    Sent(bl, t.code) + LowFirst(t.extra, ExtraBits(t.code))
  }

  ghost predicate Coded(tokens: seq<Token>) { forall i :: 0 <= i < |tokens| ==> tokens[i].code < BL_CODES }

  ghost function WireBits(bl: seq<byte>, tokens: seq<Token>): bits
    requires |bl| == BL_CODES && Coded(tokens)
  {
    if tokens == [] then [] else TokenBits(bl, tokens[0]) + WireBits(bl, tokens[1..])
  }

  lemma {:induction false} WireAppend(bl: seq<byte>, s: seq<Token>, t: seq<Token>)
    requires |bl| == BL_CODES && Coded(s) && Coded(t)
    ensures Coded(s + t) && WireBits(bl, s + t) == WireBits(bl, s) + WireBits(bl, t)
    decreases |s|
  {
    if s == [] {
      assert s + t == t;
    } else {
      assert (s + t)[0] == s[0] && (s + t)[1..] == s[1..] + t;
      WireAppend(bl, s[1..], t);
    }
  }

  // ---- Sending ----

  /** The tokens of a tree, each with send_code and send_bits. */
  method SendTokens(bl: seq<byte>, codes: seq<nat>, tokens: seq<Token>) returns (out: bits)
    requires |bl| == |codes| == BL_CODES && Stored(codes, bl) && Coded(tokens)
    requires forall i :: 0 <= i < |tokens| ==> bl[tokens[i].code] != 0
    ensures out == WireBits(bl, tokens)
  {
    out := [];
    var i := 0;
    assert tokens[..0] == [];
    while i < |tokens|
      invariant 0 <= i <= |tokens| && out == WireBits(bl, tokens[..i])
    {
      var t := tokens[i];
      assert tokens[..i + 1] == tokens[..i] + [t] && [t][1..] == [];
      WireAppend(bl, tokens[..i], [t]);
      out := out + (LowFirst(codes[t.code], bl[t.code]) + LowFirst(t.extra, ExtraBits(t.code)));
      i := i + 1;
    }
    assert tokens[..i] == tokens;
  }

  /** The lengths of the first n bit length codes, in the order in which they are sent. */
  ghost function Ranked(bl: seq<byte>, n: nat): (r: seq<byte>)
    requires |bl| == BL_CODES && n <= BL_CODES
    ensures |r| == n
  {
    seq(n, i requires 0 <= i < n => bl[CodeAt(i)])
  }

  /** Fields of three bits each. */
  ghost function Threes(v: seq<byte>): (s: bits)
    ensures |s| == 3 * |v|
  {
    if v == [] then [] else LowFirst(v[0], 3) + Threes(v[1..])
  }

  lemma {:induction false} ThreesSnoc(v: seq<byte>, x: byte)
    ensures Threes(v + [x]) == Threes(v) + LowFirst(x, 3)
  {
    if v == [] {
      assert ([] + [x])[1..] == [];
    } else {
      assert (v + [x])[1..] == v[1..] + [x];
      ThreesSnoc(v[1..], x);
    }
  }

  lemma {:induction false} ThreesAt(v: seq<byte>, rest: bits, k: nat)
    requires k < |v|
    ensures (Threes(v) + rest)[3 * k..3 * k + 3] == LowFirst(v[k], 3)
    decreases |v|
  {
    var s := Threes(v) + rest;
    assert s == LowFirst(v[0], 3) + (Threes(v[1..]) + rest);
    if k > 0 {
      ThreesAt(v[1..], rest, k - 1);
      assert s[3..] == Threes(v[1..]) + rest;
      assert s[3..][3 * (k - 1)..3 * (k - 1) + 3] == s[3 * k..3 * k + 3];
    }
  }

  /** The header of a block: what send_all_trees puts out. */
  ghost function HeaderBits(lit: seq<nat>, dist: seq<nat>, bl: seq<byte>, n: nat): bits
    requires |bl| == BL_CODES && 4 <= n <= BL_CODES && Coded(Tokens(lit) + Tokens(dist))
    requires 257 <= |lit| && 1 <= |dist|
  {
    (LowFirst(|lit| - 257, 5) + LowFirst(|dist| - 1, 5) + LowFirst(n - 4, 4)) +
      (Threes(Ranked(bl, n)) + WireBits(bl, Tokens(lit) + Tokens(dist)))
  }

  method SendRanks(bl: seq<byte>, n: nat) returns (out: bits)
    requires |bl| == BL_CODES && n <= BL_CODES
    ensures out == Threes(Ranked(bl, n))
  {
    hide RankOf, CodeAt, BlOrder;
    out := [];
    var rank := 0;
    while rank < n
      invariant 0 <= rank <= n && out == Threes(Ranked(bl, rank))
    {
      RankedSnoc(bl, rank);
      out := out + LowFirst(bl[BlOrder(rank)], 3);
      rank := rank + 1;
    }
  }

  lemma RankedSnoc(bl: seq<byte>, n: nat)
    requires |bl| == BL_CODES && n < BL_CODES
    ensures Threes(Ranked(bl, n + 1)) == Threes(Ranked(bl, n)) + LowFirst(bl[CodeAt(n)], 3)
  {
    assert Ranked(bl, n + 1) == Ranked(bl, n) + [bl[CodeAt(n)]];
    ThreesSnoc(Ranked(bl, n), bl[CodeAt(n)]);
  }

  /** Where the counts and the lengths of the bit length codes stand in a header (section 3.2.7 of RFC 1951). */
  ghost predicate LaidOut(s: bits, nlen: nat, ndist: nat, bl: seq<byte>, n: nat) {
    && nlen >= 257 && ndist >= 1 && n >= 4 && |bl| == 19 && |s| >= 14 + 3 * n
    && s[..5] == LowFirst(nlen - 257, 5) && s[5..10] == LowFirst(ndist - 1, 5) && s[10..14] == LowFirst(n - 4, 4)
    && forall c :: 0 <= c < 19 && RankOf(c) < n ==> s[14 + 3 * RankOf(c)..17 + 3 * RankOf(c)] == LowFirst(bl[c], 3)
  }

  /** send_all_trees. */
  method SendAllTrees(lit: seq<nat>, dist: seq<nat>, bl: seq<byte>, codes: seq<nat>, n: nat) returns (out: bits)
    requires |bl| == |codes| == BL_CODES && Stored(codes, bl) && 4 <= n <= BL_CODES
    requires Lengths(lit) && Lengths(dist) && 257 <= |lit| && 1 <= |dist| && Coded(Tokens(lit) + Tokens(dist))
    requires forall t :: t in Tokens(lit) + Tokens(dist) ==> bl[t.code] != 0
    ensures out == HeaderBits(lit, dist, bl, n) && LaidOut(out, |lit|, |dist|, bl, n)
  {
    hide Tokens, WireBits, Threes, LowFirst, Stored, LaidOut;
    var ranks := SendRanks(bl, n);
    var a := SendTree(lit);
    var b := SendTree(dist);
    SplitCoded(a, b, bl);
    var x := SendTokens(bl, codes, a);
    var y := SendTokens(bl, codes, b);
    WireAppend(bl, a, b);
    out := LowFirst(|lit| - 257, 5) + LowFirst(|dist| - 1, 5) + LowFirst(n - 4, 4);
    Regroup(out, ranks, x, y);
    out := out + ranks + x + y;
    HeaderLaidOut(lit, dist, bl, n);
  }

  lemma HeaderLaidOut(lit: seq<nat>, dist: seq<nat>, bl: seq<byte>, n: nat)
    requires |bl| == BL_CODES && 4 <= n <= BL_CODES && Coded(Tokens(lit) + Tokens(dist))
    requires 257 <= |lit| && 1 <= |dist|
    ensures LaidOut(HeaderBits(lit, dist, bl, n), |lit|, |dist|, bl, n)
  {
    hide LowFirst, Tokens, WireBits;
    var s, rest := HeaderBits(lit, dist, bl, n), WireBits(bl, Tokens(lit) + Tokens(dist));
    var tail := Threes(Ranked(bl, n)) + rest;
    assert s[14..] == tail;
    forall c | 0 <= c < 19 && RankOf(c) < n
      ensures s[14 + 3 * RankOf(c)..17 + 3 * RankOf(c)] == LowFirst(bl[c], 3)
    {
      ThreesAt(Ranked(bl, n), rest, RankOf(c));
      assert s[14..][3 * RankOf(c)..3 * RankOf(c) + 3] == s[14 + 3 * RankOf(c)..17 + 3 * RankOf(c)];
    }
  }

  lemma Regroup(a: bits, b: bits, c: bits, d: bits)
    ensures a + b + c + d == a + (b + (c + d))
  {
  }

  lemma SplitCoded(a: seq<Token>, b: seq<Token>, bl: seq<byte>)
    requires |bl| == BL_CODES && Coded(a + b) && forall t :: t in a + b ==> bl[t.code] != 0
    ensures Coded(a) && Coded(b)
    ensures forall i :: 0 <= i < |a| ==> bl[a[i].code] != 0
    ensures forall i :: 0 <= i < |b| ==> bl[b[i].code] != 0
  {
    forall i | 0 <= i < |a| ensures a[i].code < BL_CODES && bl[a[i].code] != 0 { assert (a + b)[i] == a[i]; }
    forall i | 0 <= i < |b| ensures b[i].code < BL_CODES && bl[b[i].code] != 0 { assert (a + b)[|a| + i] == b[i]; }
  }

  /** From rank n on no bit length code is in use. */
  ghost predicate NoneBehind(bl: seq<byte>, n: nat) {
    |bl| == BL_CODES && forall i :: 0 <= i < BL_CODES && RankOf(i) >= n ==> bl[i] == 0
  }

  lemma NoneMore(bl: seq<byte>, k: nat, next: nat)
    requires k < BL_CODES && next == k + 1 && NoneBehind(bl, next) && bl[CodeAt(k)] == 0
    ensures NoneBehind(bl, k)
  {
    hide CodeAt;
    forall i | 0 <= i < BL_CODES && RankOf(i) >= k ensures bl[i] == 0 { if RankOf(i) == k { assert i == CodeAt(k); } }
  }

  lemma SomeAhead(bl: seq<byte>, v: nat)
    requires |bl| == BL_CODES && v < 16
    ensures 3 <= RankOf(v) < BL_CODES && NoneBehind(bl, BL_CODES)
  {
  }

  /** build_bl_tree's count of the bit length codes to send: all that are in use, of which one is a length. */
  method CountToSend(bl: seq<byte>, ghost v: nat) returns (max_blindex: nat)
    requires |bl| == BL_CODES && v < 16 && bl[v] != 0
    ensures 3 <= max_blindex < BL_CODES && NoneBehind(bl, max_blindex + 1)
    ensures max_blindex > 3 ==> bl[CodeAt(max_blindex)] != 0
  {
    SomeAhead(bl, v);
    hide RankOf, CodeAt, BlOrder, NoneBehind;
    max_blindex := BL_CODES - 1;
    while max_blindex >= 3
      invariant RankOf(v) <= max_blindex < BL_CODES && NoneBehind(bl, max_blindex + 1)
    {
      if bl[BlOrder(max_blindex)] != 0 { break; }
      NoneMore(bl, max_blindex, max_blindex + 1);
      max_blindex := max_blindex - 1;
    }
  }

  // ---- Reading ----

  /** The stream begins with the code of i. */
  ghost predicate IsAhead(bl: seq<byte>, s: bits, i: int) {
    0 <= i < |bl| && bl[i] != 0 && Sent(bl, i) == Ahead(s, 0, bl[i])
  }

  /** The symbol whose code comes next, and its length; or what the table for no codes at all gives. */
  ghost function CodeAhead(bl: seq<byte>, s: bits): (int, nat) {
    if i :| IsAhead(bl, s, i) then (i, bl[i]) else (0, 1)
  }

  lemma OneAhead(bl: seq<byte>, s: bits, i: int)
    requires Complete(bl, MAX_BITS) && IsAhead(bl, s, i)
    ensures CodeAhead(bl, s) == (i, bl[i])
  {
    forall j | IsAhead(bl, s, j) ensures j == i {
      OneBegins(Sent(bl, i), Sent(bl, j), s);
      CodesPrefixFree(bl, MAX_BITS, i, j);
      CodesPrefixFree(bl, MAX_BITS, j, i);
    }
  }

  /** The entry for the bits at hand: its value and its length. */
  function Here(t: seq<Entry>, root: nat, s: bits): (int, nat) {
    var i := LowValue(Ahead(s, 0, root));
    if i >= |t| then (0, 1) else
      match t[i]
      case Leaf(sym, n) => (sym, n)
      case Invalid(n) => (0, n)
      case Link(n, _) => (0, n)
  }

  /** The table decodes the code bl. */
  ghost predicate Serves(t: seq<Entry>, root: nat, bl: seq<byte>) {
    forall s {:trigger Here(t, root, s)} :: Here(t, root, s) == CodeAhead(bl, s)
  }

  lemma TableServes(t: seq<Entry>, root: nat, bl: seq<byte>)
    requires Complete(bl, MAX_BITS) && Decodes(t, root, bl) && Flat(t, root)
    ensures Serves(t, root, bl)
  {
    forall s {:trigger Here(t, root, s)} ensures Here(t, root, s) == CodeAhead(bl, s) {
      LowValueBound(Ahead(s, 0, root));
      assert Finds(Lookup(t, root, s), bl, s);
      OneAhead(bl, s, Lookup(t, root, s).sym);
    }
  }

  lemma {:induction false} UsedNone(bl: seq<byte>)
    requires Used(bl) == []
    ensures forall i :: 0 <= i < |bl| ==> bl[i] == 0
  {
    if bl != [] { UsedNone(bl[..|bl| - 1]); }
  }

  lemma NoneServes(bl: seq<byte>)
    requires Used(bl) == []
    ensures Serves([Invalid(1), Invalid(1)], 1, bl)
  {
    UsedNone(bl);
    forall s {:trigger Here([Invalid(1), Invalid(1)], 1, s)}
      ensures Here([Invalid(1), Invalid(1)], 1, s) == CodeAhead(bl, s)
    {
      LowValueBound(Ahead(s, 0, 1));
    }
  }

  datatype WireRead = AllRead(lens: seq<nat>, rest: bits) | BadRepeat | Starved

  /** The CODELENS loop: `total` lengths, of which `have` has been read. */
  ghost function ReadWire(bl: seq<byte>, have: seq<nat>, total: nat, s: bits): WireRead
    decreases total - |have|
  {
    if |have| >= total then AllRead(have, s)
    else
      var (sym, used) := CodeAhead(bl, s);
      var need := used + ExtraBits(if sym < 0 then 0 else sym);
      if sym < 0 || need > |s| then Starved
      else
        var r := ReadToken(have, total, Token(sym, LowValue(s[used..need])), []);
        if r.Bad? || |r.lens| <= |have| then BadRepeat else ReadWire(bl, r.lens, total, s[need..])
  }

  /** The CODELENS state, through the table. */
  method ReadCodeLens(table: seq<Entry>, root: nat, ghost bl: seq<byte>, total: nat, s: bits) returns (r: WireRead)
    requires Serves(table, root, bl)
    ensures r == ReadWire(bl, [], total, s)
  {
    var lens: seq<nat>, rest := [], s;
    while |lens| < total
      invariant ReadWire(bl, [], total, s) == ReadWire(bl, lens, total, rest)
      decreases total - |lens|
    {
      var (val, used) := Here(table, root, rest);
      if val < 0 || used > |rest| { return Starved; }
      if val < 16 {
        assert rest[used..used] == [];
        lens, rest := lens + [val], rest[used..];
      } else {
        var extra := ExtraBits(val);
        if used + extra > |rest| { return Starved; }
        var copy := LowValue(rest[used..used + extra]) + if val == 18 then 11 else 3;
        if val == 16 && lens == [] { return BadRepeat; }
        var len := if val == 16 then lens[|lens| - 1] else 0;
        if |lens| + copy > total { return BadRepeat; }
        var more := RepeatLength(lens, len, copy);
        lens, rest := more, rest[used + extra..];
      }
    }
    r := AllRead(lens, rest);
  }

  datatype Header = Trees(lit: seq<nat>, dist: seq<nat>, rest: bits) | BadData | NeedMore

  function Bits3(s: bits): (v: byte)
    requires |s| == 3
    ensures v < 8
  {
    LowValueBound(s);
    LowValue(s)
  }

  /** The lengths of the bit length codes, n of which have been sent in three bits each. */
  ghost function CodeLens(s: bits, n: nat): (bl: seq<byte>)
    requires 3 * n <= |s|
    ensures |bl| == BL_CODES && NoneOver(bl, MAX_BL_BITS)
  {
    seq(BL_CODES, c requires 0 <= c < BL_CODES =>
      if RankOf(c) < n then Bits3(s[3 * RankOf(c)..3 * RankOf(c) + 3]) else 0)
  }

  /** What inflate makes of the header of a dynamic block. */
  ghost function ReadHeader(s: bits): Header {
    if |s| < 14 then NeedMore
    else
      LowValueBound(s[10..14]);
      assert Pow2(4) == 16;
      var nlen, ndist, ncode := LowValue(s[..5]) + 257, LowValue(s[5..10]) + 1, LowValue(s[10..14]) + 4;
      if nlen > 286 || ndist > 30 then BadData else AfterCounts(nlen, ndist, ncode, s[14..])
  }

  ghost function AfterCounts(nlen: nat, ndist: nat, ncode: nat, s: bits): Header
    requires ncode <= BL_CODES && 257 <= nlen
  {
    if |s| < 3 * ncode then NeedMore else InCode(CodeLens(s, ncode), nlen, ndist, s[3 * ncode..])
  }

  ghost function InCode(bl: seq<byte>, nlen: nat, ndist: nat, s: bits): Header
    requires 257 <= nlen && NoneOver(bl, MAX_BL_BITS)
  {
    if !Accepted(bl, Codes) then BadData else Parted(ReadWire(bl, [], nlen + ndist, s), nlen)
  }

  /** Both trees, if the end-of-block code is there. */
  function Parted(r: WireRead, nlen: nat): Header
    requires 257 <= nlen
  {
    match r
    case AllRead(lens, rest) =>
      if nlen > |lens| || lens[256] == 0 then BadData else Trees(lens[..nlen], lens[nlen..], rest)
    case BadRepeat => BadData
    case Starved => NeedMore
  }

  /** The LENLENS state. */
  method ReadRanks(s: bits, ncode: nat) returns (bl: seq<byte>)
    requires ncode <= BL_CODES && 3 * ncode <= |s|
    ensures bl == CodeLens(s, ncode)
  {
    hide RankOf, CodeAt, BlOrder;
    var have := 0;
    bl := seq(BL_CODES, _ => 0);
    while have < BL_CODES
      invariant 0 <= have <= BL_CODES && |bl| == BL_CODES
      invariant forall c :: 0 <= c < BL_CODES && RankOf(c) < have ==>
        bl[c] == if RankOf(c) < ncode then Bits3(s[3 * RankOf(c)..3 * RankOf(c) + 3]) else 0
    {
      var field := if have < ncode then Bits3(s[3 * have..3 * have + 3]) else 0;
      bl := bl[BlOrder(have) := field];
      have := have + 1;
    }
  }

  /** The states TABLE, LENLENS and CODELENS. */
  method ReadTrees(s: bits) returns (r: Header)
    ensures r == ReadHeader(s)
  {
    hide LowValue, CodeLens, ReadWire, Parted, Accepted;
    if |s| < 14 { return NeedMore; }
    LowValueBound(s[10..14]);
    var nlen, ndist, ncode := LowValue(s[..5]) + 257, LowValue(s[5..10]) + 1, LowValue(s[10..14]) + 4;
    if nlen > 286 || ndist > 30 { return BadData; }
    var rest := s[14..];
    if |rest| < 3 * ncode { return NeedMore; }
    var bl := ReadRanks(rest, ncode);
    var ok, w := DecodeTrees(bl, nlen + ndist, rest[3 * ncode..]);
    r := if ok then Parted(w, nlen) else BadData;
  }

  lemma {:induction false} WireTotal(bl: seq<byte>, have: seq<nat>, total: nat, s: bits)
    requires |have| <= total
    ensures var r := ReadWire(bl, have, total, s); r.AllRead? ==> |r.lens| == total
    decreases total - |have|
  {
    hide CodeAhead, LowValue;
    if |have| < total {
      var (sym, used) := CodeAhead(bl, s);
      var need := used + ExtraBits(if sym < 0 then 0 else sym);
      if 0 <= sym && need <= |s| {
        var r := ReadToken(have, total, Token(sym, LowValue(s[used..need])), []);
        if r.Lens? && |r.lens| > |have| { WireTotal(bl, r.lens, total, s[need..]); }
      }
    }
  }

  /** Trees are taken only from a header that is laid out as one that is sent. */
  lemma TakenAsLaidOut(s: bits) returns (bl: seq<byte>, n: nat)
    requires ReadHeader(s).Trees?
    ensures var h := ReadHeader(s);
      && n <= 19 && LaidOut(s, |h.lit|, |h.dist|, bl, n) && NoneBehind(bl, n)
      && ReadWire(bl, [], |h.lit| + |h.dist|, s[14 + 3 * n..]) == AllRead(h.lit + h.dist, h.rest)
  {
    hide LowValue, LowFirst, ReadWire, Accepted, CodeLens;
    LowValueBound(s[10..14]);
    var nlen, ndist := LowValue(s[..5]) + 257, LowValue(s[5..10]) + 1;
    n := LowValue(s[10..14]) + 4;
    assert Pow2(4) == 16;
    bl := CodeLens(s[14..], n);
    var r := ReadWire(bl, [], nlen + ndist, s[14..][3 * n..]);
    WireTotal(bl, [], nlen + ndist, s[14..][3 * n..]);
    assert s[14..][3 * n..] == s[14 + 3 * n..];
    assert r.lens[..nlen] + r.lens[nlen..] == r.lens;
    LowFirstValue(s[..5]);
    LowFirstValue(s[5..10]);
    LowFirstValue(s[10..14]);
    forall c | 0 <= c < 19 ensures if RankOf(c) < n
      then s[14 + 3 * RankOf(c)..17 + 3 * RankOf(c)] == LowFirst(bl[c], 3) else bl[c] == 0 { LensAt(s, n, c); }
  }

  lemma LensAt(s: bits, n: nat, c: nat)
    requires c < BL_CODES && 14 + 3 * n <= |s|
    ensures var bl := CodeLens(s[14..], n); if RankOf(c) < n
      then s[14 + 3 * RankOf(c)..17 + 3 * RankOf(c)] == LowFirst(bl[c], 3) else bl[c] == 0
  {
    var k := RankOf(c);
    if k < n {
      assert s[14..][3 * k..3 * k + 3] == s[14 + 3 * k..17 + 3 * k];
      LowFirstValue(s[14 + 3 * k..17 + 3 * k]);
    }
  }

  method DecodeTrees(bl: seq<byte>, total: nat, s: bits) returns (ok: bool, r: WireRead)
    requires |bl| == BL_CODES && NoneOver(bl, MAX_BL_BITS)
    ensures ok <==> Accepted(bl, Codes)
    ensures ok ==> r == ReadWire(bl, [], total, s)
  {
    var work := seq(BL_CODES, _ => 0);
    var ret, table, root := Build(Codes, bl, MAX_BL_BITS, work);
    ok, r := ret == 0, Starved;
    if ok {
      if Used(bl) == [] { NoneServes(bl); } else { TableServes(table, root, bl); }
      r := ReadCodeLens(table, root, bl, total, s);
    }
  }

  // ---- The round trip ----

  lemma LowBack(v: nat, n: nat)
    requires v < Pow2(n)
    ensures LowValue(LowFirst(v, n)) == v
  {
    var s := LowFirst(v, n);
    LowFirstValue(s);
    LowValueBound(s);
    LowFirstInjective(v, LowValue(s), n);
  }

  lemma LensBack(bl: seq<byte>, n: nat, rest: bits)
    requires n <= BL_CODES && NoneBehind(bl, n) && NoneOver(bl, MAX_BL_BITS)
    ensures CodeLens(Threes(Ranked(bl, n)) + rest, n) == bl
  {
    hide LowValue, LowFirst, Threes;
    var s := Threes(Ranked(bl, n)) + rest;
    forall c | 0 <= c < BL_CODES ensures CodeLens(s, n)[c] == bl[c] {
      if RankOf(c) < n {
        ThreesAt(Ranked(bl, n), rest, RankOf(c));
        SmallPowers();
        LowBack(bl[c], 3);
      }
    }
  }

  /** One token is read as it was sent. */
  lemma TokenBack(bl: seq<byte>, t: Token, more: bits, s: bits)
    requires Complete(bl, MAX_BITS) && |bl| == BL_CODES && FitsField(t) && bl[t.code] != 0
    requires s == TokenBits(bl, t) + more
    ensures CodeAhead(bl, s) == (t.code, bl[t.code])
    ensures var need := bl[t.code] + ExtraBits(t.code);
      need <= |s| && LowValue(s[bl[t.code]..need]) == t.extra && s[need..] == more
  {
    var used, k := bl[t.code], ExtraBits(t.code);
    assert s[..used] == Sent(bl, t.code) && s[used..used + k] == LowFirst(t.extra, k) && s[used + k..] == more;
    OneAhead(bl, s, t.code);
    FieldPowers();
    LowBack(t.extra, k);
  }

  lemma FieldPowers()
    ensures Pow2(0) == 1 && Pow2(2) == 4 && Pow2(3) == 8 && Pow2(7) == 128
  {
  }

  lemma {:induction false} WireBack(bl: seq<byte>, have: seq<nat>, total: nat, tokens: seq<Token>, now: seq<nat>,
                                    rest: bits)
    requires Complete(bl, MAX_BITS) && |bl| == BL_CODES && Coded(tokens) && |now| == total
    requires forall i :: 0 <= i < |tokens| ==> FitsField(tokens[i]) && bl[tokens[i].code] != 0
    requires ReadTokens(have, total, tokens) == Read.Lens(now, [])
    ensures ReadWire(bl, have, total, WireBits(bl, tokens) + rest) == AllRead(now, rest)
    decreases |tokens|
  {
    hide LowValue, LowFirst, Sent, CodeAhead, TokenBits, Complete;
    if tokens == [] {
      assert [] + rest == rest;
    } else {
      var t, more := tokens[0], WireBits(bl, tokens[1..]) + rest;
      var s := WireBits(bl, tokens) + rest;
      assert s == TokenBits(bl, t) + more;
      TokenBack(bl, t, more, s);
      WireBack(bl, ReadToken(have, total, t, []).lens, total, tokens[1..], now, rest);
    }
  }

  /** One token of the code bl, with k extra bits, that adds `copy` lengths. */
  lemma RepeatOnWire(bl: seq<byte>, have: seq<nat>, total: nat, t: Token, k: nat, copy: nat, rest: bits)
    requires Complete(bl, MAX_BITS) && |bl| == BL_CODES && FitsField(t) && bl[t.code] != 0 && t.code >= 16
    requires (t.code == 16 ==> have != []) && |have| + copy <= total && copy >= 3
    requires k == (if t.code == 16 then 2 else if t.code == 17 then 3 else 7)
    requires copy == t.extra + if t.code == 18 then 11 else 3
    ensures ReadWire(bl, have, total, Sent(bl, t.code) + LowFirst(t.extra, k) + rest) ==
      ReadWire(bl, have + RunOf(if t.code == 16 then have[|have| - 1] else 0, copy), total, rest)
  {
    hide LowValue, LowFirst, Sent, CodeAhead, Complete;
    TokenBack(bl, t, rest, Sent(bl, t.code) + LowFirst(t.extra, k) + rest);
  }

  /**
   * Repeats on the wire: code 16 and two bits repeat the last length 3 to 6 times, code 17 and three
   * bits stand for 3 to 10 zeros, code 18 and seven bits for 11 to 138.
   */
  lemma RepeatLaw(bl: seq<byte>, have: seq<nat>, total: nat, e: nat, rest: bits)
    requires Complete(bl, MAX_BITS) && |bl| == 19
    ensures e < 4 && bl[16] != 0 && have != [] && |have| + e + 3 <= total ==>
      ReadWire(bl, have, total, Sent(bl, 16) + LowFirst(e, 2) + rest) ==
      ReadWire(bl, have + RunOf(have[|have| - 1], e + 3), total, rest)
    ensures e < 8 && bl[17] != 0 && |have| + e + 3 <= total ==>
      ReadWire(bl, have, total, Sent(bl, 17) + LowFirst(e, 3) + rest) ==
      ReadWire(bl, have + RunOf(0, e + 3), total, rest)
    ensures e < 128 && bl[18] != 0 && |have| + e + 11 <= total ==>
      ReadWire(bl, have, total, Sent(bl, 18) + LowFirst(e, 7) + rest) ==
      ReadWire(bl, have + RunOf(0, e + 11), total, rest)
  {
    hide LowFirst, Sent, ReadWire, Complete;
    if e < 4 && bl[16] != 0 && have != [] && |have| + e + 3 <= total {
      RepeatOnWire(bl, have, total, Token(16, e), 2, e + 3, rest);
    }
    if e < 8 && bl[17] != 0 && |have| + e + 3 <= total {
      RepeatOnWire(bl, have, total, Token(17, e), 3, e + 3, rest);
    }
    if e < 128 && bl[18] != 0 && |have| + e + 11 <= total {
      RepeatOnWire(bl, have, total, Token(18, e), 7, e + 11, rest);
    }
  }

  // ---- The whole header ----

  lemma CompleteLonger(bl: seq<byte>)
    requires Complete(bl, MAX_BL_BITS)
    ensures Complete(bl, MAX_BITS)
  {
    UsedWithin(bl, MAX_BL_BITS);
    KraftRescale(Used(bl), MAX_BL_BITS, MAX_BITS);
  }

  /** What a header needs to be sent: the trees, and a code for every token. */
  ghost predicate Ready(lit: seq<nat>, dist: seq<nat>, bl: seq<byte>, n: nat) {
    && Lengths(lit) && Lengths(dist) && 257 <= |lit| <= 286 && 1 <= |dist| <= 30 && lit[256] != 0
    && 4 <= n <= BL_CODES && NoneBehind(bl, n) && Complete(bl, MAX_BL_BITS)
    && Coded(Tokens(lit) + Tokens(dist)) && forall t :: t in Tokens(lit) + Tokens(dist) ==> bl[t.code] != 0
  }

  /** inflate reads from the wire the trees that deflate has sent, and not a bit more. */
  lemma HeaderComesBack(lit: seq<nat>, dist: seq<nat>, bl: seq<byte>, n: nat, rest: bits)
    requires Ready(lit, dist, bl, n)
    ensures ReadHeader(HeaderBits(lit, dist, bl, n) + rest) == Trees(lit, dist, rest)
  {
    hide LowValue, LowFirst, Threes, CodeLens, Ranked, WireBits, ReadWire, Tokens, ReadTokens;
    var s, tokens, total := HeaderBits(lit, dist, bl, n) + rest, Tokens(lit) + Tokens(dist), |lit| + |dist|;
    var tail := WireBits(bl, tokens) + rest;
    CountsBack(|lit| - 257, |dist| - 1, n - 4, Threes(Ranked(bl, n)) + WireBits(bl, tokens), rest, s);
    assert s[14..] == Threes(Ranked(bl, n)) + tail;
    UsedWithin(bl, MAX_BL_BITS);
    LensBack(bl, n, tail);
    CompleteLonger(bl);
    TreeRoundTrip([], lit, total);
    TreeRoundTrip(lit, dist, total);
    TwoTreesRoundTrip(lit, dist, []);
    assert tokens + [] == tokens;
    WireBack(bl, [], total, tokens, lit + dist, rest);
    assert (lit + dist)[..|lit|] == lit && (lit + dist)[|lit|..] == dist;
  }

  lemma CountsBack(a: nat, b: nat, c: nat, x: bits, rest: bits, s: bits)
    requires a < 32 && b < 32 && c < 16 && s == (LowFirst(a, 5) + LowFirst(b, 5) + LowFirst(c, 4)) + x + rest
    ensures |s| >= 14 && LowValue(s[..5]) == a && LowValue(s[5..10]) == b && LowValue(s[10..14]) == c
    ensures s[14..] == x + rest
  {
    hide LowValue, LowFirst;
    assert s[..5] == LowFirst(a, 5) && s[5..10] == LowFirst(b, 5) && s[10..14] == LowFirst(c, 4);
    assert Pow2(5) == 32 && Pow2(4) == 16;
    LowBack(a, 5);
    LowBack(b, 5);
    LowBack(c, 4);
  }

  lemma {:induction false} OccursIn(tokens: seq<Token>, t: Token)
    requires t in tokens
    ensures Occurs(tokens, t.code) >= 1
  {
    var n := |tokens| - 1;
    if tokens[n] != t {
      assert tokens == tokens[..n] + [tokens[n]];
      OccursIn(tokens[..n], t);
    }
  }

  /** Repeats alone make only zeros. */
  lemma {:induction false} OnlyRepeats(have: seq<nat>, total: nat, tokens: seq<Token>)
    requires (forall i :: 0 <= i < |have| ==> have[i] == 0) && ReadTokens(have, total, tokens).Lens?
    requires forall i :: 0 <= i < |tokens| ==> tokens[i].code >= 16
    ensures var r := ReadTokens(have, total, tokens).lens; forall i :: 0 <= i < |r| ==> r[i] == 0
    decreases |tokens|
  {
    if |have| < total && tokens != [] {
      OnlyRepeats(ReadToken(have, total, tokens[0], tokens[1..]).lens, total, tokens[1..]);
    }
  }

  /** A length that is not 0 is sent as itself, once at least. */
  lemma SentAsItself(lit: seq<nat>) returns (i: nat)
    requires Lengths(lit) && exists k :: 0 <= k < |lit| && lit[k] != 0
    ensures i < |Tokens(lit)| && Tokens(lit)[i].code < 16
  {
    var tokens := Tokens(lit);
    TwoTreesRoundTrip(lit, [], []);
    assert tokens + Tokens([]) + [] == tokens && lit + [] == lit;
    if forall k :: 0 <= k < |tokens| ==> tokens[k].code >= 16 {
      OnlyRepeats([], |lit|, tokens);
      assert false;
    }
    i :| i < |tokens| && tokens[i].code < 16;
  }

  /** build_bl_tree and send_all_trees: the header of a block with these trees. */
  method SendDynamic(lit: seq<nat>, dist: seq<nat>) returns (out: bits, ghost bl: seq<byte>, ghost n: nat)
    requires Lengths(lit) && Lengths(dist) && 257 <= |lit| <= 286 && 1 <= |dist| <= 30 && lit[256] != 0
    ensures Ready(lit, dist, bl, n) && out == HeaderBits(lit, dist, bl, n)
  {
    hide Tokens, LaidOut, HeaderBits, NoneBehind, Stored, Complete, Occurs;
    var freq: seq<nat> := seq(BL_CODES, _ => 0);
    freq := ScanTree(lit, freq);
    freq := ScanTree(dist, freq);
    FieldPowers();
    var lens, codes, _ := DeflateTree.BuildCodes(freq, MAX_BL_BITS);
    TokensCounted(lit, dist, freq, lens);
    ghost var i := SentAsItself(lit);
    assert Tokens(lit)[i] in Tokens(lit) + Tokens(dist);
    var max_blindex := CountToSend(lens, Tokens(lit)[i].code);
    bl, n := lens, max_blindex + 1;
    out := SendAllTrees(lit, dist, lens, codes, max_blindex + 1);
  }

  /** Every token that will be sent has been counted, and so has a code. */
  lemma TokensCounted(lit: seq<nat>, dist: seq<nat>, freq: seq<nat>, bl: seq<byte>)
    requires Lengths(lit) && Lengths(dist) && |freq| == |bl| == BL_CODES
    requires forall c :: 0 <= c < BL_CODES ==> freq[c] == Occurs(Tokens(lit), c) + Occurs(Tokens(dist), c)
    requires forall v :: 0 <= v < BL_CODES && freq[v] != 0 ==> bl[v] != 0
    ensures Coded(Tokens(lit) + Tokens(dist)) && forall t :: t in Tokens(lit) + Tokens(dist) ==> bl[t.code] != 0
  {
    TreeRoundTrip([], lit, |lit|);
    TreeRoundTrip([], dist, |dist|);
    forall t | t in Tokens(lit) + Tokens(dist) ensures t.code < BL_CODES && bl[t.code] != 0 {
      if t in Tokens(lit) { OccursIn(Tokens(lit), t); } else { OccursIn(Tokens(dist), t); }
    }
  }

  /** Both ends of the wire. */
  method SendAndRead(lit: seq<nat>, dist: seq<nat>, rest: bits) returns (r: Header)
    requires Lengths(lit) && Lengths(dist) && 257 <= |lit| <= 286 && 1 <= |dist| <= 30 && lit[256] != 0
    ensures r == Trees(lit, dist, rest)
  {
    var out, bl, n := SendDynamic(lit, dist);
    HeaderComesBack(lit, dist, bl, n, rest);
    r := ReadTrees(out + rest);
  }
}
