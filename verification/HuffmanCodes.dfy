/**
 * Canonical Huffman codes: how the compressor numbers them, the limit/base/perm
 * tables the decompressor searches, and the proof that the search inverts the
 * numbering.
 */
module HuffmanCodes {
  import opened Common
  import opened Counting
  import opened Bits
  import opened KraftSum

  const MAX_CODE_LEN := 23
  const LONGEST_CODE := 20

  /** The first code of length n, in the numbering that starts at length lo. */
  ghost function First(len: seq<byte>, lo: nat, n: nat): nat {
    if n <= lo then 0 else 2 * (First(len, lo, n - 1) + Count(len, n - 1))
  }

  lemma FirstStep(len: seq<byte>, lo: nat, n: nat, m: nat)
    requires lo < n == m + 1
    ensures First(len, lo, n) == 2 * (First(len, lo, m) + Count(len, m))
  {
  }

  ghost function Code(len: seq<byte>, lo: nat, i: int): nat
    requires 0 <= i < |len|
  {
    First(len, lo, len[i]) + Count(len[..i], len[i])
  }

  ghost predicate LengthsIn(len: seq<byte>, lo: nat, hi: nat) {
    forall i :: 0 <= i < |len| ==> lo <= len[i] <= hi
  }

  /** Numbers the codes in order of length, then of symbol. */
  method AssignCodes(code: array<int>, length: array<byte>, minLen: nat, maxLen: nat)
    requires code.Length == length.Length && LengthsIn(length[..], minLen, maxLen)
    modifies code
    ensures forall i :: 0 <= i < code.Length ==> code[i] == Code(length[..], minLen, i)
  {
    ghost var len := length[..];
    var vec, n := 0, minLen;
    while n <= maxLen
      invariant minLen <= n && vec == First(len, minLen, n)
      invariant forall i :: 0 <= i < |len| && len[i] < n ==> code[i] == Code(len, minLen, i)
    {
      var i := 0;
      while i < length.Length
        invariant 0 <= i <= |len| && vec == First(len, minLen, n) + Count(len[..i], n)
        invariant forall j :: 0 <= j < |len| && (len[j] < n || (len[j] == n && j < i)) ==>
          code[j] == Code(len, minLen, j)
      {
        CountSnoc(len, i, n);
        if length[i] == n {
          code[i] := vec;
          vec := vec + 1;
        }
        i := i + 1;
      }
      assert len[..i] == len;
      vec := 2 * vec;
      n := n + 1;
    }
  }

  /** The decoding tables of one set of lengths. */
  datatype Tables = Tables(limit: seq<int>, base: seq<int>, perm: seq<int>)

  ghost predicate TablesFor(t: Tables, len: seq<byte>, lo: nat, hi: nat) {
    && |t.limit| == MAX_CODE_LEN && |t.base| == MAX_CODE_LEN && |len| <= |t.perm| == MAX_ALPHA_SIZE
    && forall k {:trigger Seal(k)} :: Seal(k) ==> TableEntries(t, len, lo, hi)
  }

  ghost predicate TableEntries(t: Tables, len: seq<byte>, lo: nat, hi: nat)
    requires |t.limit| == MAX_CODE_LEN && |t.base| == MAX_CODE_LEN && |len| <= |t.perm|
  {
    && (forall n :: lo <= n <= hi && n < MAX_CODE_LEN ==> t.limit[n] == First(len, lo, n) + Count(len, n) - 1)
    && (forall n :: hi < n < MAX_CODE_LEN ==> t.limit[n] == 0)
    && (forall n :: lo <= n <= hi && n < MAX_CODE_LEN ==> t.base[n] == First(len, lo, n) - CountBelow(len, n))
    && (forall n :: hi < n < MAX_CODE_LEN ==> t.base[n] == |len|)
    && (forall i :: 0 <= i < |len| ==> Rank(len, i) < |len| && t.perm[Rank(len, i)] == i)
  }

  lemma LimitAt(t: Tables, len: seq<byte>, lo: nat, hi: nat, n: nat)
    requires TablesFor(t, len, lo, hi) && lo <= n < MAX_CODE_LEN
    ensures t.limit[n] == if n <= hi then First(len, lo, n) + Count(len, n) - 1 else 0
  {
    assert Seal(0);
  }

  lemma BaseAt(t: Tables, len: seq<byte>, lo: nat, hi: nat, n: nat)
    requires TablesFor(t, len, lo, hi) && lo <= n < MAX_CODE_LEN
    ensures t.base[n] == if n <= hi then First(len, lo, n) - CountBelow(len, n) else |len|
  {
    assert Seal(0);
  }

  lemma PermAt(t: Tables, len: seq<byte>, lo: nat, hi: nat, i: nat)
    requires TablesFor(t, len, lo, hi) && i < |len|
    ensures Rank(len, i) < |len| && t.perm[Rank(len, i)] == i
  {
    assert Seal(0);
  }

  method FillPerm(perm: array<int>, length: array<byte>, minLen: nat, maxLen: nat)
    requires length.Length <= perm.Length && LengthsIn(length[..], minLen, maxLen)
    modifies perm
    ensures forall i :: 0 <= i < length.Length ==> Rank(length[..], i) < length.Length && perm[Rank(length[..], i)] == i
  {
    ghost var len := length[..];
    ghost var place := Ranks(len);
    RanksPerm(len);
    var pp, i := 0, minLen;
    NoneBelow(len, minLen);
    while i <= maxLen
      invariant minLen <= i && pp == CountBelow(len, i)
      invariant forall x :: 0 <= x < |len| && len[x] < i ==> perm[place[x]] == x
    {
      var j := 0;
      while j < length.Length
        invariant 0 <= j <= |len| && pp == CountBelow(len, i) + Count(len[..j], i)
        invariant forall x :: 0 <= x < |len| && (len[x] < i || (len[x] == i && x < j)) ==> perm[place[x]] == x
      {
        CountSnoc(len, j, i);
        if length[j] == i {
          assert pp == place[j];
          perm[pp] := j;
          pp := pp + 1;
        }
        j := j + 1;
      }
      assert len[..j] == len;
      CountBelowStep(len, i);
      i := i + 1;
    }
    forall x | 0 <= x < |len| ensures Rank(len, x) < |len| && perm[Rank(len, x)] == x {
      assert place[x] == Rank(len, x);
    }
  }

  lemma {:induction false} NoneBelow(len: seq<byte>, c: nat)
    requires forall i :: 0 <= i < |len| ==> c <= len[i]
    ensures CountBelow(len, c) == 0
  {
    if len != [] { NoneBelow(len[..|len| - 1], c); }
  }

  /** Counts of shorter codes: base[n] ends as the number of lengths below n. */
  method CountLengths(base: array<int>, length: array<byte>)
    requires base.Length == MAX_CODE_LEN
    requires forall i :: 0 <= i < length.Length ==> length[i] <= LONGEST_CODE
    modifies base
    ensures forall n :: 0 <= n < MAX_CODE_LEN ==> base[n] == CountBelow(length[..], n)
  {
    ghost var len := length[..];
    var i := 0;
    while i < MAX_CODE_LEN
      invariant 0 <= i <= MAX_CODE_LEN && forall n :: 0 <= n < i ==> base[n] == 0
    {
      base[i] := 0;
      i := i + 1;
    }
    i := 0;
    while i < length.Length
      invariant 0 <= i <= |len|
      invariant forall n :: 0 <= n < MAX_CODE_LEN ==> base[n] == Count(len[..i], n - 1)
    {
      forall c | -1 <= c < MAX_CODE_LEN
        ensures Count(len[..i + 1], c) == Count(len[..i], c) + if len[i] == c then 1 else 0 {
        CountSnoc(len, i, c);
      }
      base[length[i] + 1] := base[length[i] + 1] + 1;
      i := i + 1;
    }
    assert len[..i] == len;
    CountBelowStep(len, 0);
    CountBelowStep(len, -1);
    i := 1;
    while i < MAX_CODE_LEN
      invariant 1 <= i <= MAX_CODE_LEN
      invariant forall n :: 0 <= n < i ==> base[n] == CountBelow(len, n)
      invariant forall n :: i <= n < MAX_CODE_LEN ==> base[n] == Count(len, n - 1)
    {
      CountBelowStep(len, i - 1);
      base[i] := base[i] + base[i - 1];
      i := i + 1;
    }
  }

  /** first[n] numbers the first code of length n, and below[n] counts the codes shorter than n. */
  ghost predicate Numbering(first: seq<int>, below: seq<int>, lo: nat) {
    var holds :=
      && |first| == MAX_CODE_LEN == |below| && lo < MAX_CODE_LEN
      && first[lo] == 0
      && forall m, n {:trigger first[m], first[n]} :: lo <= m && n == m + 1 && n < MAX_CODE_LEN ==>
        first[n] == 2 * (first[m] + (below[n] - below[m]));
    holds
  }

  ghost function Firsts(len: seq<byte>, lo: nat): (f: seq<int>)
    ensures |f| == MAX_CODE_LEN
  {
    seq(MAX_CODE_LEN, n requires n >= 0 => First(len, lo, n))
  }

  ghost function Below(len: seq<byte>): (f: seq<int>)
    ensures |f| == MAX_CODE_LEN
  {
    seq(MAX_CODE_LEN, n => CountBelow(len, n))
  }

  lemma Numbered(len: seq<byte>, lo: nat)
    requires lo < MAX_CODE_LEN
    ensures Numbering(Firsts(len, lo), Below(len), lo)
  {
    var first, below := Firsts(len, lo), Below(len);
    forall m, n | lo <= m && n == m + 1 && n < MAX_CODE_LEN ensures first[n] == 2 * (first[m] + (below[n] - below[m])) {
      FirstStep(len, lo, n, m);
      CountBelowStep(len, m);
    }
  }

  method CreateDecodeTables(limit: array<int>, base: array<int>, perm: array<int>, length: array<byte>, minLen: nat,
                            maxLen: nat)
    requires limit != base && limit != perm && base != perm
    requires limit.Length == base.Length == MAX_CODE_LEN && length.Length <= perm.Length == MAX_ALPHA_SIZE
    requires LengthsIn(length[..], minLen, maxLen) && minLen <= maxLen <= LONGEST_CODE
    modifies limit, base, perm
    ensures TablesFor(Tables(limit[..], base[..], perm[..]), length[..], minLen, maxLen)
  {
    ghost var len := length[..];
    FillPerm(perm, length, minLen, maxLen);
    CountLengths(base, length);
    ghost var first, below := Firsts(len, minLen), Below(len);
    Numbered(len, minLen);
    NoneBelow(len, minLen);
    assert base[..] == below;
    SetLimits(limit, base, first, below, minLen, maxLen);
    SetBases(limit, base, first, below, minLen, maxLen);
    TablesMatch(limit[..], base[..], perm[..], len, minLen, maxLen);
  }

  lemma TablesMatch(limit: seq<int>, base: seq<int>, perm: seq<int>, len: seq<byte>, lo: nat, hi: nat)
    requires |limit| == |base| == MAX_CODE_LEN && |len| <= |perm| == MAX_ALPHA_SIZE && lo <= hi <= LONGEST_CODE
    requires LimitsSet(limit, Firsts(len, lo), Below(len), lo, hi + 1)
    requires forall n :: hi < n < MAX_CODE_LEN ==> limit[n] == 0
    requires forall n :: lo <= n <= hi ==> base[n] == Firsts(len, lo)[n] - Below(len)[n]
    requires LengthsIn(len, lo, hi) && forall n :: hi < n < MAX_CODE_LEN ==> base[n] == Below(len)[n]
    requires forall i :: 0 <= i < |len| ==> Rank(len, i) < |len| && perm[Rank(len, i)] == i
    ensures TablesFor(Tables(limit, base, perm), len, lo, hi)
  {
    var first, below := Firsts(len, lo), Below(len);
    forall n | lo <= n <= hi ensures limit[n] == First(len, lo, n) + Count(len, n) - 1 {
      var after := n + 1;
      CountBelowStep(len, n);
      assert limit[n] == first[n] + (below[after] - below[n]) - 1;
    }
    forall n | hi < n < MAX_CODE_LEN ensures base[n] == |len| {
      AllBelow(len, n);
      assert base[n] == below[n];
    }
  }

  lemma {:induction false} AllBelow(len: seq<byte>, c: nat)
    requires forall i :: 0 <= i < |len| ==> len[i] < c
    ensures CountBelow(len, c) == |len|
  {
    if len != [] { AllBelow(len[..|len| - 1], c); }
  }

  /** The tables as a function of the lengths. */
  ghost function TablesOf(len: seq<byte>, lo: nat, hi: nat): (t: Tables)
    ensures |t.limit| == MAX_CODE_LEN && |t.base| == MAX_CODE_LEN && |t.perm| == MAX_ALPHA_SIZE
  {
    Tables(
      seq(MAX_CODE_LEN, n requires 0 <= n => if lo <= n <= hi then First(len, lo, n) + Count(len, n) - 1 else 0),
      seq(MAX_CODE_LEN, n requires 0 <= n => if n <= hi then First(len, lo, n) - CountBelow(len, n) else |len|),
      seq(MAX_ALPHA_SIZE, k requires 0 <= k => if k < |len| then Row(len, k) else 0))
  }

  lemma TablesOfFor(len: seq<byte>, lo: nat, hi: nat)
    requires |len| <= MAX_ALPHA_SIZE && lo <= hi <= LONGEST_CODE && LengthsIn(len, lo, hi)
    ensures TablesFor(TablesOf(len, lo, hi), len, lo, hi)
  {
    var t := TablesOf(len, lo, hi);
    RowsOfRanks(len, t.perm);
  }

  lemma RowsOfRanks(len: seq<byte>, perm: seq<int>)
    requires |len| <= |perm| && forall k :: 0 <= k < |len| ==> perm[k] == Row(len, k)
    ensures forall i :: 0 <= i < |len| ==> Rank(len, i) < |len| && perm[Rank(len, i)] == i
  {
    forall i | 0 <= i < |len| ensures Rank(len, i) < |len| && perm[Rank(len, i)] == i { RowOfRank(len, i); }
  }

  /** A code within the limit of its length stands for a symbol or for none; never for a place past the symbols. */
  lemma PlaceInRange(t: Tables, len: seq<byte>, lo: nat, hi: nat, zn: nat, zvec: int)
    requires TablesFor(t, len, lo, hi) && len != [] && lo <= hi && lo <= zn <= LONGEST_CODE && zvec <= t.limit[zn]
    requires 0 <= zvec - t.base[zn]
    ensures zvec - t.base[zn] < |len| && 0 <= t.perm[zvec - t.base[zn]] < |len|
  {
    var p := zvec - t.base[zn];
    PlaceBound(len, zn);
    LimitAt(t, len, lo, hi, zn);
    BaseAt(t, len, lo, hi, zn);
    assert p < CountBelow(len, zn) + Count(len, zn);
    PermAt(t, len, lo, hi, Row(len, p));
  }

  /** limit[n] is the last code of each length from lo to before hi. */
  ghost predicate LimitsSet(limit: seq<int>, first: seq<int>, below: seq<int>, lo: nat, hi: nat) {
    var holds :=
      && |limit| == MAX_CODE_LEN == |first| == |below| && hi < MAX_CODE_LEN
      && forall m, n {:trigger limit[m], below[n]} :: lo <= m < hi && n == m + 1 ==>
        limit[m] == first[m] + (below[n] - below[m]) - 1;
    holds
  }

  method SetLimits(limit: array<int>, base: array<int>, ghost first: seq<int>, ghost below: seq<int>, minLen: nat,
                   maxLen: nat)
    requires limit != base && limit.Length == base.Length == MAX_CODE_LEN && minLen <= maxLen <= LONGEST_CODE
    requires Numbering(first, below, minLen) && base[..] == below
    modifies limit
    ensures LimitsSet(limit[..], first, below, minLen, maxLen + 1)
    ensures forall n :: maxLen < n < MAX_CODE_LEN ==> limit[n] == 0
  {
    var i := 0;
    while i < MAX_CODE_LEN
      invariant 0 <= i <= MAX_CODE_LEN && forall n :: 0 <= n < i ==> limit[n] == 0
    {
      limit[i] := 0;
      i := i + 1;
    }
    var vec := 0;
    i := minLen;
    while i <= maxLen
      invariant minLen <= i <= maxLen + 1 && vec == first[i]
      invariant LimitsSet(limit[..], first, below, minLen, i)
      invariant forall n :: maxLen < n < MAX_CODE_LEN ==> limit[n] == 0
    {
      var after := i + 1;
      vec := vec + (base[after] - base[i]);
      limit[i] := vec - 1;
      vec := 2 * vec;
      i := after;
    }
  }

  method SetBases(limit: array<int>, base: array<int>, ghost first: seq<int>, ghost below: seq<int>, minLen: nat,
                  maxLen: nat)
    requires limit != base && limit.Length == base.Length == MAX_CODE_LEN && minLen <= maxLen <= LONGEST_CODE
    requires Numbering(first, below, minLen) && base[..] == below && below[minLen] == 0
    requires LimitsSet(limit[..], first, below, minLen, maxLen + 1)
    modifies base
    ensures forall n :: minLen <= n <= maxLen ==> base[n] == first[n] - below[n]
    ensures forall n :: maxLen < n < MAX_CODE_LEN ==> base[n] == below[n]
  {
    var i := minLen + 1;
    while i <= maxLen
      invariant minLen < i <= maxLen + 1
      invariant forall n :: minLen <= n < i ==> base[n] == first[n] - below[n]
      invariant forall n :: i <= n < MAX_CODE_LEN ==> base[n] == below[n]
    {
      var before := i - 1;
      assert limit[..][before] == first[before] + (below[i] - below[before]) - 1;
      base[i] := 2 * (limit[before] + 1) - base[i];
      i := i + 1;
    }
  }

  // ---- Searching the tables ----

  datatype Found = Found(sym: int, rest: bits) | Bad | Starved

  /** The loop of GET_MTF_VAL: lengthen the code until it is within the limit of its length. */
  ghost function Search(t: Tables, zn: nat, zvec: int, rest: bits): Found
    requires |t.limit| == MAX_CODE_LEN && |t.base| == MAX_CODE_LEN && |t.perm| == MAX_ALPHA_SIZE
    decreases |rest|
  {
    if zn > LONGEST_CODE then Bad
    else if zvec <= t.limit[zn] then
      if 0 <= zvec - t.base[zn] < MAX_ALPHA_SIZE then Found(t.perm[zvec - t.base[zn]], rest) else Bad
    else if rest == [] then Starved
    else Search(t, zn + 1, 2 * zvec + Bit(rest[0]), rest[1..])
  }

  ghost function Decode(t: Tables, minLen: nat, stream: bits): Found
    requires |t.limit| == MAX_CODE_LEN && |t.base| == MAX_CODE_LEN && |t.perm| == MAX_ALPHA_SIZE
  {
    if |stream| < minLen then Starved
    else Search(t, minLen, Value(stream[..minLen]), stream[minLen..])
  }

  ghost function Word(len: seq<byte>, lo: nat, i: int): (w: bits)
    requires 0 <= i < |len|
    ensures |w| == len[i]
  {
    Spell(Code(len, lo, i), len[i])
  }

  /** The lengths of one coding table, with lo and hi its shortest and longest. */
  ghost predicate CodeSet(len: seq<byte>, lo: nat, hi: nat) {
    var holds :=
      && 1 <= lo <= hi <= LONGEST_CODE && LengthsIn(len, lo, hi) && hi in len
      && Kraft(len, hi) <= Pow2(hi);
    holds
  }

  lemma {:induction false} PartialStep(len: seq<byte>, n: nat)
    requires n > 0
    ensures Partial(len, n) == 2 * Partial(len, n - 1) + Count(len, n)
  {
    if len != [] { PartialStep(len[..|len| - 1], n); }
  }

  lemma {:induction false} PartialNone(len: seq<byte>, n: nat)
    requires forall i :: 0 <= i < |len| ==> n < len[i]
    ensures Partial(len, n) == 0
  {
    if len != [] { PartialNone(len[..|len| - 1], n); }
  }

  lemma {:induction false} FirstIsPartial(len: seq<byte>, lo: nat, n: nat)
    requires 1 <= lo <= n && forall i :: 0 <= i < |len| ==> lo <= len[i]
    ensures First(len, lo, n) + Count(len, n) == Partial(len, n)
  {
    PartialStep(len, n);
    if n == lo { PartialNone(len, n - 1); } else { FirstIsPartial(len, lo, n - 1); }
  }

  /** Kraft leaves every code within its own number of bits. */
  lemma CodeFits(len: seq<byte>, lo: nat, hi: nat, i: int)
    requires CodeSet(len, lo, hi) && 0 <= i < |len|
    ensures First(len, lo, len[i]) <= Code(len, lo, i) < First(len, lo, len[i]) + Count(len, len[i])
    ensures Code(len, lo, i) < Pow2(len[i])
  {
    assert len[..|len|] == len;
    CountPrefix(len, i, |len|, len[i]);
    FirstIsPartial(len, lo, len[i]);
    KraftBoundsPartial(len, len[i], hi);
  }

  /** Codes of length n start after every shorter code, extended to n bits. */
  lemma {:induction false} FirstGrows(len: seq<byte>, lo: nat, m: nat, n: nat)
    requires lo <= m < n
    ensures (First(len, lo, m) + Count(len, m)) * Pow2(n - m) <= First(len, lo, n)
    decreases n
  {
    var e := First(len, lo, m) + Count(len, m);
    if m == n - 1 {
      assert Pow2(1) == 2;
    } else {
      FirstGrows(len, lo, m, n - 1);
      MulDouble(e, Pow2(n - 1 - m));
      assert Pow2(n - m) == 2 * Pow2(n - 1 - m);
    }
  }

  /** A proper prefix of a code word lies above the limit of its length. */
  lemma PrefixAbove(len: seq<byte>, lo: nat, hi: nat, i: int, m: nat)
    requires CodeSet(len, lo, hi) && 0 <= i < |len| && lo <= m < len[i]
    ensures Value(Word(len, lo, i)[..m]) >= First(len, lo, m) + Count(len, m)
  {
    var n: nat, c := len[i], Code(len, lo, i);
    var p, e := Value(Word(len, lo, i)[..m]), First(len, lo, m) + Count(len, m);
    CodeFits(len, lo, hi, i);
    SpellPrefix(c, n, m);
    FirstGrows(len, lo, m, n);
    if p < e {
      Pow2Mono(0, n - m);
      MulMono(p + 1, e, Pow2(n - m));
      Distribute(p, 1, Pow2(n - m));
      assert false;
    }
  }

  lemma SearchStep(t: Tables, zn: nat, zvec: int, rest: bits)
    requires |t.limit| == MAX_CODE_LEN && |t.base| == MAX_CODE_LEN && |t.perm| == MAX_ALPHA_SIZE
    requires zn <= LONGEST_CODE && t.limit[zn] < zvec && rest != []
    ensures Search(t, zn, zvec, rest) == Search(t, zn + 1, 2 * zvec + Bit(rest[0]), rest[1..])
  {
  }

  lemma SearchHit(t: Tables, len: seq<byte>, lo: nat, hi: nat, i: int, rest: bits)
    requires TablesFor(t, len, lo, hi) && CodeSet(len, lo, hi) && 0 <= i < |len|
    ensures Search(t, len[i], Code(len, lo, i), rest) == Found(i, rest)
  {
    var n: nat := len[i];
    CodeFits(len, lo, hi, i);
    LimitAt(t, len, lo, hi, n);
    BaseAt(t, len, lo, hi, n);
    PermAt(t, len, lo, hi, i);
  }

  lemma WordStep(w: bits, m: nat, rest: bits)
    requires m < |w|
    ensures w[m..] + rest == [w[m]] + (w[m + 1..] + rest)
    ensures Value(w[..m + 1]) == 2 * Value(w[..m]) + Bit(w[m])
  {
    assert w[..m + 1][..m] == w[..m];
  }

  /** Reading the rest of a word, from its first m bits on, finds its symbol. */
  lemma {:induction false} SearchFinds(t: Tables, len: seq<byte>, lo: nat, hi: nat, i: int, m: nat, rest: bits)
    requires TablesFor(t, len, lo, hi) && CodeSet(len, lo, hi) && 0 <= i < |len| && lo <= m <= len[i]
    ensures Search(t, m, Value(Word(len, lo, i)[..m]), Word(len, lo, i)[m..] + rest) == Found(i, rest)
    decreases len[i] - m
  {
    var w, n: nat := Word(len, lo, i), len[i];
    if m == n {
      CodeFits(len, lo, hi, i);
      assert w[..m] == w && w[m..] + rest == rest;
      ValueSpell(Code(len, lo, i), n);
      SearchHit(t, len, lo, hi, i, rest);
    } else {
      PrefixAbove(len, lo, hi, i, m);
      LimitAt(t, len, lo, hi, m);
      WordStep(w, m, rest);
      SearchStep(t, m, Value(w[..m]), w[m..] + rest);
      SearchFinds(t, len, lo, hi, i, m + 1, rest);
    }
  }

  /** Decoding inverts the numbering: a word followed by anything yields its symbol. */
  lemma DecodeFinds(t: Tables, len: seq<byte>, lo: nat, hi: nat, i: int, rest: bits)
    requires TablesFor(t, len, lo, hi) && CodeSet(len, lo, hi) && 0 <= i < |len|
    ensures Decode(t, lo, Word(len, lo, i) + rest) == Found(i, rest)
  {
    var w := Word(len, lo, i);
    assert (w + rest)[..lo] == w[..lo] && (w + rest)[lo..] == w[lo..] + rest;
    SearchFinds(t, len, lo, hi, i, lo, rest);
  }

  /** The symbol at place CountBelow(n) + k is the k-th of length n. */
  lemma PlaceOfLength(len: seq<byte>, n: nat, k: nat, s: int)
    requires 0 <= s < |len| && Rank(len, s) == CountBelow(len, n) + k && k < Count(len, n)
    ensures len[s] == n && Count(len[..s], n) == k
  {
    var c: int := len[s];
    assert len[..|len|] == len;
    CountPrefix(len, s, |len|, c);
    CountBelowStep(len, c);
    CountBelowStep(len, n);
    if c < n { CountBelowMono(len, c + 1, n); assert false; }
    if n < c { CountBelowMono(len, n + 1, c); assert false; }
  }

  /** A code within the limits of its length is the word of a symbol of that length. */
  lemma HitSound(t: Tables, len: seq<byte>, lo: nat, hi: nat, read: bits)
    requires TablesFor(t, len, lo, hi) && CodeSet(len, lo, hi) && lo <= |read| <= hi
    requires First(len, lo, |read|) <= Value(read) <= t.limit[|read|]
    ensures var p := Value(read) - t.base[|read|];
      0 <= p < |len| && 0 <= t.perm[p] < |len| && Word(len, lo, t.perm[p]) == read
  {
    var zn := |read|;
    LimitAt(t, len, lo, hi, zn);
    BaseAt(t, len, lo, hi, zn);
    PlaceBound(len, zn);
    var k, p := Value(read) - First(len, lo, zn), Value(read) - t.base[zn];
    var s := Row(len, p);
    PermAt(t, len, lo, hi, s);
    PlaceOfLength(len, zn, k, s);
    assert Code(len, lo, s) == Value(read);
    SpellValue(read);
  }

  lemma PlaceBound(len: seq<byte>, n: nat)
    ensures CountBelow(len, n) + Count(len, n) <= |len|
  {
    CountBelowStep(len, n);
    CountBelowMono(len, n + 1, n + 256);
    CountBelowStep(len, n + 256);
  }

  lemma SearchStop(t: Tables, zn: nat, zvec: int, rest: bits)
    requires |t.limit| == MAX_CODE_LEN && |t.base| == MAX_CODE_LEN && |t.perm| == MAX_ALPHA_SIZE
    requires zn <= LONGEST_CODE && zvec <= t.limit[zn] && 0 <= zvec - t.base[zn] < MAX_ALPHA_SIZE
    ensures Search(t, zn, zvec, rest) == Found(t.perm[zvec - t.base[zn]], rest)
  {
  }

  /** `read` is a code that may still be found: not below the first of its length. */
  ghost predicate Live(len: seq<byte>, lo: nat, hi: nat, read: bits) {
    lo <= |read| && if |read| <= hi then First(len, lo, |read|) <= Value(read) else 0 < Value(read)
  }

  lemma LiveStep(len: seq<byte>, lo: nat, hi: nat, read: bits, b: bool)
    requires CodeSet(len, lo, hi) && Live(len, lo, hi, read)
    requires |read| <= hi ==> First(len, lo, |read|) + Count(len, |read|) <= Value(read)
    ensures Live(len, lo, hi, read + [b]) && Value(read + [b]) == 2 * Value(read) + Bit(b)
  {
    assert (read + [b])[..|read|] == read;
    if |read| == hi { CountAtLeastOne(len, hi); }
  }

  /** What the search returns is a symbol whose word was read. */
  lemma {:induction false} SearchSound(t: Tables, len: seq<byte>, lo: nat, hi: nat, read: bits, rest: bits)
    requires TablesFor(t, len, lo, hi) && CodeSet(len, lo, hi) && Live(len, lo, hi, read)
    ensures var r := Search(t, |read|, Value(read), rest);
      r.Found? ==> 0 <= r.sym < |len| && read + rest == Word(len, lo, r.sym) + r.rest
    decreases |rest|
  {
    var zn := |read|;
    if zn <= LONGEST_CODE {
      LimitAt(t, len, lo, hi, zn);
      if Value(read) <= t.limit[zn] {
        HitSound(t, len, lo, hi, read);
        SearchStop(t, zn, Value(read), rest);
      } else if rest != [] {
        var b, more := rest[0], rest[1..];
        LiveStep(len, lo, hi, read, b);
        assert (read + [b]) + more == read + rest;
        SearchStep(t, zn, Value(read), rest);
        SearchSound(t, len, lo, hi, read + [b], more);
      }
    }
  }

  lemma {:induction false} CountAtLeastOne(len: seq<byte>, c: byte)
    requires c in len
    ensures Count(len, c) >= 1
  {
    var n := |len| - 1;
    if len[n] != c {
      assert c in len[..n];
      CountAtLeastOne(len[..n], c);
    }
  }

  /** Decoding succeeds exactly on a code word, and then on that word's symbol. */
  lemma DecodeExact(t: Tables, len: seq<byte>, lo: nat, hi: nat, stream: bits, i: int, rest: bits)
    requires TablesFor(t, len, lo, hi) && CodeSet(len, lo, hi)
    ensures Decode(t, lo, stream) == Found(i, rest) <==>
      0 <= i < |len| && stream == Word(len, lo, i) + rest
  {
    if 0 <= i < |len| && stream == Word(len, lo, i) + rest { DecodeFinds(t, len, lo, hi, i, rest); }
    if Decode(t, lo, stream) == Found(i, rest) {
      SearchSound(t, len, lo, hi, stream[..lo], stream[lo..]);
      assert stream[..lo] + stream[lo..] == stream;
    }
  }

  /** No code word is a prefix of another. */
  lemma PrefixFree(len: seq<byte>, lo: nat, hi: nat, i: int, j: int)
    requires CodeSet(len, lo, hi) && 0 <= i < |len| && 0 <= j < |len|
    requires Word(len, lo, i) <= Word(len, lo, j)
    ensures i == j
  {
    var m: nat := len[i];
    CodeFits(len, lo, hi, i);
    CodeFits(len, lo, hi, j);
    ValueSpell(Code(len, lo, i), m);
    ValueSpell(Code(len, lo, j), len[j]);
    assert Word(len, lo, j)[..m] == Word(len, lo, i);
    if m < len[j] {
      PrefixAbove(len, lo, hi, j, m);
      assert false;
    } else {
      assert Word(len, lo, i) == Word(len, lo, j);
      if i < j {
        CountPrefix(len, i, j, m);
      } else if j < i {
        CountPrefix(len, j, i, m);
      }
    }
  }
}
