/**
 * gen_codes: deflate's codes (section 3.2.2 of RFC 1951). Symbols of length 0 have
 * no code; the others are numbered by length and then by symbol, and each code is
 * stored with its bits reversed, since it is sent from its lowest bit.
 */
module DeflateCodes {
  import opened Common
  import opened Counting
  import opened Bits
  import opened KraftSum
  import opened HuffmanCodes
  import DeflateLengths

  const MAX_BITS := 15

  // ---- Symbols that have a code ----

  /** The lengths other than 0, in order. */
  ghost function Used(len: seq<byte>): (r: seq<byte>)
    ensures |r| <= |len| && forall i :: 0 <= i < |r| ==> r[i] >= 1
  {
    if len == [] then [] else Used(len[..|len| - 1]) + if len[|len| - 1] == 0 then [] else [len[|len| - 1]]
  }

  lemma {:induction false} UsedWithin(len: seq<byte>, limit: nat)
    requires forall i :: 0 <= i < |len| ==> len[i] <= limit
    ensures forall i :: 0 <= i < |Used(len)| ==> Used(len)[i] <= limit
  {
    if len != [] { UsedWithin(len[..|len| - 1], limit); }
  }

  /** The share of the code space that the codes take, in units of 2^-limit. */
  ghost function Share(len: seq<byte>, limit: nat): nat
    requires forall i :: 0 <= i < |len| ==> len[i] <= limit
  {
    UsedWithin(len, limit);
    Kraft(Used(len), limit)
  }

  /** The number of symbols with a code before symbol i. */
  ghost function Index(len: seq<byte>, i: int): (k: nat)
    requires 0 <= i < |len|
  {
    |Used(len[..i])|
  }

  lemma {:induction false} UsedPrefix(len: seq<byte>, i: int)
    requires 0 <= i <= |len|
    ensures Used(len[..i]) <= Used(len)
  {
    if i < |len| {
      var n := |len| - 1;
      UsedPrefix(len[..n], i);
      assert len[..n][..i] == len[..i];
    } else {
      assert len[..i] == len;
    }
  }

  lemma UsedAt(len: seq<byte>, i: int)
    requires 0 <= i < |len| && len[i] != 0
    ensures Index(len, i) < |Used(len)| && Used(len)[Index(len, i)] == len[i]
    ensures Used(len)[..Index(len, i)] == Used(len[..i])
  {
    UsedPrefix(len, i);
    UsedPrefix(len, i + 1);
    assert len[..i + 1][..i] == len[..i] && len[..i + 1][i] == len[i];
  }

  lemma {:induction false} IndexGrows(len: seq<byte>, i: int, j: int)
    requires 0 <= i < j < |len| && len[i] != 0
    ensures Index(len, i) < Index(len, j)
  {
    UsedAt(len[..j], i);
    assert len[..j][..i] == len[..i];
  }

  lemma {:induction false} CountUsed(len: seq<byte>, b: int)
    requires b >= 1
    ensures Count(Used(len), b) == Count(len, b)
  {
    if len != [] {
      var n := |len| - 1;
      CountUsed(len[..n], b);
      var u := Used(len[..n]);
      if len[n] != 0 { assert (u + [len[n]])[..|u|] == u; } else { assert u + [] == u; }
    }
  }

  lemma {:induction false} FirstUsed(len: seq<byte>, n: nat)
    ensures First(Used(len), 1, n) == First(len, 1, n)
  {
    if n > 1 {
      CountUsed(len, n - 1);
      FirstUsed(len, n - 1);
    }
  }

  /** The code of symbol i before its bits are reversed. */
  ghost function CodeOf(len: seq<byte>, i: int): nat
    requires 0 <= i < |len|
  {
    Code(len, 1, i)
  }

  /** The symbols without a code take no part in the numbering. */
  lemma CodeUsed(len: seq<byte>, i: int)
    requires 0 <= i < |len| && len[i] != 0
    ensures Index(len, i) < |Used(len)| && Used(len)[Index(len, i)] == len[i]
    ensures CodeOf(len, i) == Code(Used(len), 1, Index(len, i))
  {
    UsedAt(len, i);
    FirstUsed(len, len[i]);
    CountUsed(len[..i], len[i]);
  }

  /** Lengths within the limit whose codes fill it exactly. */
  ghost predicate Complete(len: seq<byte>, limit: nat) {
    && 1 <= limit <= MAX_BITS && (forall i :: 0 <= i < |len| ==> len[i] <= limit)
    && Share(len, limit) == Pow2(limit)
  }

  lemma {:induction false} LongestExists(u: seq<byte>) returns (hi: nat)
    requires u != []
    ensures hi in u && forall i :: 0 <= i < |u| ==> u[i] <= hi
  {
    var n, l: int := |u| - 1, u[|u| - 1];
    hi := l;
    if n > 0 {
      var h := LongestExists(u[..n]);
      if h > l { hi := h; }
    }
  }

  /** The lengths in use are those of a code in the sense of the search tables. */
  lemma CompleteCodeSet(len: seq<byte>, limit: nat) returns (hi: nat)
    requires Complete(len, limit)
    ensures hi <= limit && CodeSet(Used(len), 1, hi)
  {
    var u := Used(len);
    Pow2Mono(0, limit);
    UsedWithin(len, limit);
    hi := LongestExists(u);
    KraftRescale(u, hi, limit);
  }

  /** The bits of symbol i's code, in the order in which they are sent. */
  ghost function Sent(len: seq<byte>, i: int): (w: bits)
    requires 0 <= i < |len|
    ensures |w| == len[i]
  {
    Spell(CodeOf(len, i), len[i])
  }

  /** Codes fit their lengths, and none is a prefix of another. */
  lemma CodesPrefixFree(len: seq<byte>, limit: nat, i: int, j: int)
    requires Complete(len, limit) && 0 <= i < |len| && 0 <= j < |len| && len[i] != 0 && len[j] != 0
    ensures CodeOf(len, i) < Pow2(len[i])
    ensures Sent(len, i) <= Sent(len, j) ==> i == j
  {
    var u := Used(len);
    var hi := CompleteCodeSet(len, limit);
    CodeUsed(len, i);
    CodeUsed(len, j);
    CodeFits(u, 1, hi, Index(len, i));
    if Sent(len, i) <= Sent(len, j) {
      PrefixFree(u, 1, hi, Index(len, i), Index(len, j));
      if i < j { IndexGrows(len, i, j); } else if j < i { IndexGrows(len, j, i); }
    }
  }

  /** The last code of the greatest length is all ones: the source's consistency check. */
  lemma LastCodeAllOnes(len: seq<byte>, limit: nat)
    requires Complete(len, limit)
    ensures First(len, 1, MAX_BITS) + Count(len, MAX_BITS) - 1 == Pow2(MAX_BITS) - 1
  {
    var u := Used(len);
    FirstIsPartial(u, 1, MAX_BITS);
    FirstUsed(len, MAX_BITS);
    CountUsed(len, MAX_BITS);
    UsedWithin(len, limit);
    KraftRescale(u, limit, MAX_BITS);
    PartialIsKraft(u, MAX_BITS);
  }

  lemma {:induction false} PartialIsKraft(len: seq<int>, n: nat)
    requires forall i :: 0 <= i < |len| ==> 0 <= len[i] <= n
    ensures Partial(len, n) == Kraft(len, n)
  {
    if len != [] { PartialIsKraft(len[..|len| - 1], n); }
  }

  // ---- From the counts of gen_bitlen ----

  /** The symbols of length b. */
  ghost function Having(len: seq<byte>, b: int): set<int> { set v | 0 <= v < |len| && len[v] == b }

  lemma {:induction false} CountIsSize(len: seq<byte>, b: int)
    ensures Count(len, b) == |Having(len, b)|
  {
    if len == [] {
      assert Having(len, b) == {};
    } else {
      var n := |len| - 1;
      CountIsSize(len[..n], b);
      var was, now := Having(len[..n], b), Having(len, b);
      if len[n] == b { assert now == was + {n}; } else { assert now == was; }
    }
  }

  /** bl counts the symbols of every length. */
  ghost predicate CountsOf(bl: seq<int>, len: seq<byte>, limit: nat) {
    limit < |bl| && bl[0] == 0 && forall b :: 1 <= b <= limit ==> bl[b] == Count(len, b)
  }

  /** The Kraft sum of the counts is that of the lengths. */
  lemma {:induction false} KraftOfCounts(bl: seq<int>, len: seq<byte>, limit: nat)
    requires CountsOf(bl, len, limit) && forall i :: 0 <= i < |len| ==> len[i] <= limit
    ensures DeflateLengths.KraftOf(bl, limit) == Share(len, limit)
    decreases |len|
  {
    if len == [] {
      DeflateLengths.WeighBlank(bl, limit, limit + 1);
    } else {
      var n, l := |len| - 1, len[|len| - 1];
      var u := Used(len[..n]);
      if l == 0 {
        assert u + [] == u;
        KraftOfCounts(bl, len[..n], limit);
      } else {
        var was := bl[l := bl[l] - 1];
        KraftOfCounts(was, len[..n], limit);
        DeflateLengths.WeighUpdate(bl, limit, limit + 1, l, bl[l] - 1);
        assert (u + [l])[..|u|] == u;
        MinusOne(Pow2(limit - l));
      }
    }
  }

  lemma MinusOne(p: int)
    ensures -1 * p == -p
  {
  }

  // ---- Writing the codes ----

  /** bi_reverse. */
  method BiReverse(code0: nat, len0: nat) returns (r: nat)
    requires 1 <= len0
    ensures LowFirst(r, len0) == Spell(code0, len0)
  {
    var res, code, len := 0, code0, len0;
    ghost var whole, done := LowFirst(code0, len0), [];
    while len > 0
      invariant 0 <= len && |done| + len == len0 && res == 2 * Value(done) && whole == done + LowFirst(code, len)
    {
      ghost var b, next := code % 2 == 1, len - 1;
      assert (done + [b])[..|done|] == done;
      Moved(whole, done, b, LowFirst(code / 2, next));
      res := res + code % 2;
      code, res := code / 2, res * 2;
      done := done + [b];
      len := len - 1;
    }
    assert whole == done;
    SentInOrder(code0, len0);
    r := res / 2;
  }

  lemma Moved(whole: bits, done: bits, b: bool, rest: bits)
    requires whole == done + ([b] + rest)
    ensures whole == (done + [b]) + rest
  {
  }

  /** next_code[b] is the next code of length b, the first n symbols having theirs. */
  ghost predicate Numbered(next_code: seq<nat>, len: seq<byte>, n: nat) {
    var holds :=
      |next_code| == MAX_BITS + 1 && n <= |len|
      && forall b :: 1 <= b <= MAX_BITS ==> next_code[b] == First(len, 1, b) + Count(len[..n], b);
    holds
  }

  lemma NumberedStep(next_code: seq<nat>, len: seq<byte>, n: nat, m: nat)
    requires Numbered(next_code, len, n) && n < |len| && m == n + 1 && len[n] <= MAX_BITS
    ensures len[n] == 0 ==> Numbered(next_code, len, m)
    ensures len[n] != 0 ==>
      next_code[len[n]] == CodeOf(len, n) && Numbered(next_code[len[n] := next_code[len[n]] + 1], len, m)
  {
    forall b | 1 <= b <= MAX_BITS
      ensures Count(len[..m], b) == Count(len[..n], b) + if len[n] == b then 1 else 0 { CountSnoc(len, n, b); }
  }

  /** The first n symbols have their codes, bits reversed. */
  ghost predicate Stored(codes: seq<nat>, len: seq<byte>) {
    |codes| <= |len| && forall i :: 0 <= i < |codes| && len[i] != 0 ==> LowFirst(codes[i], len[i]) == Sent(len, i)
  }

  /** gen_codes: next_code numbers the codes of each length, and every code is stored reversed. */
  method GenCodes(len: seq<byte>, bl: seq<int>, limit: nat) returns (codes: seq<nat>)
    requires Complete(len, limit) && CountsOf(bl, len, limit) && |bl| == MAX_BITS + 1
    requires forall b :: limit < b <= MAX_BITS ==> bl[b] == 0
    ensures |codes| == |len| && Stored(codes, len)
  {
    var next_code := NextCodes(len, bl, limit);
    codes := [];
    var n := 0;
    while n < |len|
      invariant 0 <= n <= |len| && |codes| == n && Numbered(next_code, len, n) && Stored(codes, len)
    {
      var l, c := len[n], 0;
      NumberedStep(next_code, len, n, n + 1);
      if l != 0 {
        c := BiReverse(next_code[l], l);
        next_code := next_code[l := next_code[l] + 1];
      }
      codes := codes + [c];
      n := n + 1;
    }
  }

  method NextCodes(len: seq<byte>, bl: seq<int>, limit: nat) returns (next_code: seq<nat>)
    requires Complete(len, limit) && CountsOf(bl, len, limit) && |bl| == MAX_BITS + 1
    requires forall b :: limit < b <= MAX_BITS ==> bl[b] == 0
    ensures Numbered(next_code, len, 0)
  {
    next_code := [0];
    var code, bits := 0, 1;
    while bits <= MAX_BITS
      invariant 1 <= bits <= MAX_BITS + 1 && |next_code| == bits
      invariant forall b :: 1 <= b < bits ==> next_code[b] == First(len, 1, b)
      invariant code == if bits == 1 then 0 else First(len, 1, bits - 1)
    {
      ghost var before := bits - 1;
      if before > limit { NoneOfLength(len, before); }
      if bits > 1 { FirstStep(len, 1, bits, before); }
      code := (code + bl[bits - 1]) * 2;
      next_code := next_code + [code];
      bits := bits + 1;
    }
  }

  lemma {:induction false} NoneOfLength(len: seq<byte>, b: nat)
    requires forall i :: 0 <= i < |len| ==> len[i] < b
    ensures Count(len, b) == 0
  {
    if len != [] { NoneOfLength(len[..|len| - 1], b); }
  }
}
