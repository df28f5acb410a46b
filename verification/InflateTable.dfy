/**
 * inflate_table: which sets of lengths it turns down, and what its tables do for
 * the others. Whatever the stream, one lookup or two find the one code that it
 * begins with (section 3.2.2 of RFC 1951).
 */
module InflateTable {
  import opened Common
  import opened Counting
  import opened Bits
  import opened KraftSum
  import opened SortedCodes
  import opened DeflateCodes
  import opened InflateEntries
  import opened InflateSize
  import opened InflateLoop
  import opened InflateSort

  // ---- Looking up ----

  /** n bits of the stream from place `from` on; past its end inflate's bit buffer holds zeros. */
  function Ahead(s: bits, from: nat, n: nat): (r: bits)
    ensures |r| == n
  {
    seq(n, i requires 0 <= i => from + i < |s| && s[from + i])
  }

  /** A symbol and the bits of its code, or none. */
  datatype Hit = Hit(sym: int, used: nat) | Miss

  /** Inflate's lookup: the root entry, or the entry of the sub-table that it links to. */
  ghost function Lookup(t: seq<Entry>, root: nat, s: bits): Hit {
    var i := LowValue(Ahead(s, 0, root));
    if i >= |t| then Miss else
      match t[i]
      case Leaf(sym, n) => Hit(sym, n)
      case Invalid(_) => Miss
      case Link(n, at) =>
        var x := at + LowValue(Ahead(s, root, n));
        if x < |t| && t[x].Leaf? then Hit(t[x].sym, root + t[x].bits) else Miss
  }

  lemma AheadPrefix(s: bits, from: nat, m: nat, n: nat)
    requires m <= n
    ensures Ahead(s, from, m) <= Ahead(s, from, n)
  {
  }

  lemma AheadParts(s: bits, m: nat, n: nat, both: nat, w: bits)
    requires both == m + n && w == Ahead(s, 0, both)
    ensures w[..m] == Ahead(s, 0, m) && w[m..] == Ahead(s, m, n)
  {
  }

  lemma ShortFound(c: Job, t: seq<Entry>, s: bits, j: nat)
    requires Good(c) && j < |c.u| && !Long(c, j) && Entered(c, t, j) && WordAt(c.u, j) == Ahead(s, 0, LenAt(c.u, j))
    ensures Lookup(t, c.root, s) == Hit(c.work[j], LenAt(c.u, j))
  {
    var a := Ahead(s, 0, c.root);
    LowValueBound(a);
    LowFirstValue(a);
    AheadPrefix(s, 0, LenAt(c.u, j), c.root);
    assert t[LowValue(a)] == Leaf(c.work[j], LenAt(c.u, j));
  }

  lemma LongFound(c: Job, t: seq<Entry>, s: bits, j: nat)
    requires Good(c) && j < |c.u| && Long(c, j) && Entered(c, t, j) && WordAt(c.u, j) == Ahead(s, 0, LenAt(c.u, j))
    ensures Lookup(t, c.root, s) == Hit(c.work[j], LenAt(c.u, j))
  {
    var rest := LenAt(c.u, j) - c.root;
    AheadParts(s, c.root, rest, LenAt(c.u, j), WordAt(c.u, j));
    var e := t[Low(c, j)];
    var a := Ahead(s, c.root, e.bits);
    LowValueBound(a);
    LowFirstValue(a);
    AheadPrefix(s, c.root, rest, e.bits);
    assert t[e.at + LowValue(a)] == Leaf(c.work[j], rest);
  }

  /** What the tables promise: every stream begins with some symbol's code, and the lookup finds it. */
  ghost predicate Decodes(t: seq<Entry>, root: nat, lens: seq<byte>) {
    forall s {:trigger Lookup(t, root, s)} :: Finds(Lookup(t, root, s), lens, s)
  }

  ghost predicate Finds(r: Hit, lens: seq<byte>, s: bits) {
    r.Hit? && 0 <= r.sym < |lens| && lens[r.sym] != 0 && r.used == lens[r.sym]
      && Sent(lens, r.sym) == Ahead(s, 0, r.used)
  }

  lemma CodeFound(c: Job, t: seq<Entry>, s: bits, j: nat)
    requires Good(c) && j < |c.u| && AllEntered(c, t, |c.u|) && WordAt(c.u, j) == Ahead(s, 0, LenAt(c.u, j))
    ensures Lookup(t, c.root, s) == Hit(c.work[j], LenAt(c.u, j))
  {
    assert Key(0);
    assert Entered(c, t, j);
    if Long(c, j) { LongFound(c, t, s, j); } else { ShortFound(c, t, s, j); }
  }

  /** The code that a stream begins with. */
  lemma SomeCode(c: Job, s: bits) returns (j: nat)
    requires Good(c) && Full(c.u, c.max)
    ensures j < |c.u| && WordAt(c.u, j) == Ahead(s, 0, LenAt(c.u, j))
  {
    j := SomeWord(c.u, c.max, Ahead(s, 0, c.max));
    CodeAtFits(c.u, c.max, j);
    AheadPrefix(s, 0, LenAt(c.u, j), c.max);
  }

  lemma AllFound(c: Job, t: seq<Entry>, lens: seq<byte>)
    requires Good(c) && Full(c.u, c.max) && AllEntered(c, t, |c.u|) && c.u == Used(lens) && Placed(c.work, lens, |lens|)
    ensures Decodes(t, c.root, lens)
  {
    forall s {:trigger Lookup(t, c.root, s)} ensures Finds(Lookup(t, c.root, s), lens, s) {
      var j := SomeCode(c, s);
      InOrder(c.work, lens, j);
      CodeFound(c, t, s, j);
      CodeAtFits(c.u, c.max, j);
    }
  }

  /** Without long codes there are no sub-tables: every root index has a code. */
  ghost predicate Flat(t: seq<Entry>, root: nat) {
    Pow2(root) <= |t| && forall i :: 0 <= i < Pow2(root) ==> t[i].Leaf?
  }

  lemma AllFlat(c: Job, t: seq<Entry>)
    requires Good(c) && Full(c.u, c.max) && AllEntered(c, t, |c.u|) && forall j :: 0 <= j < |c.u| ==> !Long(c, j)
    ensures Flat(t, c.root)
  {
    assert Key(0);
    assert Entered(c, t, 0);
    forall i | 0 <= i < Pow2(c.root) ensures t[i].Leaf? {
      var s := LowFirst(i, c.root);
      var j := SomeCode(c, s);
      assert !Long(c, j) && Entered(c, t, j);
      assert WordAt(c.u, j) <= s;
    }
  }

  /** The bits of the root index: those asked for, if they are within the shortest and the longest code. */
  ghost predicate RootIs(u: seq<byte>, bits0: nat, root: nat) {
    exists min, max :: Extremes(u, min, max) && root == if bits0 > max then max else if bits0 < min then min else bits0
  }

  ghost predicate Extremes(u: seq<byte>, min: int, max: int) {
    min in u && max in u && forall i :: 0 <= i < |u| ==> min <= u[i] <= max
  }

  // ---- Which sets of lengths are turned down ----

  /** Complete codes, no codes, and (but for code lengths) one code of one bit. */
  ghost predicate Accepted(lens: seq<byte>, typ: CodeType)
    requires forall i :: 0 <= i < |lens| ==> lens[i] <= MAX_BITS
  {
    Used(lens) == [] || Share(lens, MAX_BITS) == Pow2(MAX_BITS) || (Used(lens) == [1] && typ != Codes)
  }

  /** Lengths of one bit that leave code space over are one length. */
  lemma {:induction false} OneBitCodes(u: seq<byte>)
    requires forall i :: 0 <= i < |u| ==> u[i] == 1
    ensures Kraft(u, MAX_BITS) == |u| * Pow2(MAX_BITS - 1)
  {
    if u != [] { OneBitCodes(u[..|u| - 1]); }
  }

  lemma OneIsLone(u: seq<byte>)
    requires u != [] && forall i :: 0 <= i < |u| ==> u[i] == 1
    ensures Kraft(u, MAX_BITS) < Pow2(MAX_BITS) <==> u == [1]
  {
    OneBitCodes(u);
    assert Pow2(MAX_BITS) == 2 * Pow2(MAX_BITS - 1) && Pow2(MAX_BITS - 1) > 0;
    if |u| >= 2 { MulMono(2, |u|, Pow2(MAX_BITS - 1)); } else { assert u == [1]; }
  }

  // ---- The whole of inflate_table ----

  lemma Rescaled(u: seq<byte>, max: nat)
    requires 1 <= max <= MAX_BITS && max in u && (forall i :: 0 <= i < |u| ==> 1 <= u[i] <= max)
    requires Kraft(u, MAX_BITS) <= Pow2(MAX_BITS)
    ensures Ordered(u, max) && (Full(u, max) <==> Kraft(u, MAX_BITS) == Pow2(MAX_BITS))
  {
    KraftBoundsPartial(u, max, MAX_BITS);
    AllPartial(u, max);
    KraftRescale(u, max, MAX_BITS);
  }

  lemma SortedWork(c: Job, lens: seq<byte>)
    requires c.u == Used(lens) && Placed(c.work, lens, |lens|)
    ensures Sorted(c, lens)
  {
    forall k {:trigger c.work[k]} | 0 <= k < |c.u|
      ensures 0 <= c.work[k] < |lens| && lens[c.work[k]] == LenAt(c.u, k) { InOrder(c.work, lens, k); }
  }

  /** One code of one bit: the symbol for a 0, no code for a 1. */
  ghost predicate DecodesOne(t: seq<Entry>, root: nat, lens: seq<byte>) {
    var holds :=
      && root == 1 && |t| == 2 && t[1] == Invalid(1)
      && t[0].Leaf? && t[0].bits == 1 && 0 <= t[0].sym < |lens| && lens[t[0].sym] == 1;
    holds
  }

  lemma LoneDecodes(c: Job, t: seq<Entry>, lens: seq<byte>)
    requires Made(c, t) && !Full(c.u, c.max) && Sorted(c, lens) && c.u == [1] && c.root == 1
    ensures DecodesOne(t, c.root, lens)
  {
    assert 0 <= c.work[0] < |lens| && lens[c.work[0]] == LenAt(c.u, 0);
  }

  /**
   * The entries that codes of these lengths need: the root table, and for each root index that codes
   * longer than it share a sub-table with as many index bits as the longest of them has beyond it.
   */
  ghost function SizeFor(u: seq<byte>, root: nat): nat { TableSize(Job(u, 0, [], root), |u|) }

  /** Sorts the symbols and enters their codes. */
  method SortAndEnter(typ: CodeType, lens: seq<byte>, count: seq<nat>, min: nat, max: nat, root: nat, work0: seq<int>,
                      ghost u: seq<byte>)
    returns (ret: int, table: seq<Entry>)
    requires u == Used(lens) && |lens| <= |work0| && (forall i :: 0 <= i < |lens| ==> lens[i] <= MAX_BITS)
    requires |count| == 16 && forall b :: 1 <= b < 16 ==> count[b] == Count(u, b)
    requires Ordered(u, max) && (Full(u, max) || (u == [1] && max == 1)) && min == LenAt(u, 0) && 1 <= root <= max
    requires min <= root
    ensures ret == if NoRoom(typ, SizeFor(u, root)) then 1 else 0
    ensures ret == 0 ==>
      |table| == SizeFor(u, root) && if Full(u, max) then Decodes(table, root, lens) else DecodesOne(table, root, lens)
    ensures ret == 0 && Full(u, max) && max <= root ==> Flat(table, root)
  {
    var work := SortSymbols(lens, count, work0);
    ghost var c := Job(u, max, work, root);
    SortedWork(c, lens);
    ret, table := EnterCodes(typ, lens, count, work, min, max, root, c);
    SizeSame(c, Job(u, 0, [], root), |u|);
    if ret == 0 {
      if Full(u, max) {
        AllFound(c, table, lens);
        if max <= root {
          forall j | 0 <= j < |u| ensures !Long(c, j) { CodeAtFits(u, max, j); }
          AllFlat(c, table);
        }
      } else {
        LoneDecodes(c, table, lens);
      }
    }
  }

  lemma UsedCounts(lens: seq<byte>, count: seq<nat>, u: seq<byte>)
    requires u == Used(lens) && |count| == 16 && forall b :: 0 <= b < 16 ==> count[b] == Count(lens, b)
    requires forall i :: 0 <= i < |lens| ==> lens[i] <= MAX_BITS
    ensures (forall b :: 1 <= b < 16 ==> count[b] == Count(u, b)) && forall i :: 0 <= i < |u| ==> 1 <= u[i] <= MAX_BITS
  {
    UsedWithin(lens, MAX_BITS);
    forall b | 1 <= b < 16 ensures count[b] == Count(u, b) { CountUsed(lens, b); }
  }

  lemma Spanned(u: seq<byte>, count: seq<nat>, min: nat, max: nat)
    requires |count| == 16 && forall b :: 1 <= b < 16 ==> count[b] == Count(u, b)
    requires 1 <= min <= max < 16 && count[min] != 0 && max in u && forall i :: 0 <= i < |u| ==> min <= u[i] <= max
    ensures Extremes(u, min, max)
  {
    CountMember(u, min);
  }

  ghost predicate NoneOver(lens: seq<byte>, n: nat) { forall i :: 0 <= i < |lens| ==> lens[i] <= n }

  lemma {:induction false} UsedBelow(lens: seq<byte>, n: nat)
    ensures NoneOver(lens, n) ==> forall v :: v in Used(lens) ==> v <= n
  {
    if lens != [] { UsedBelow(lens[..|lens| - 1], n); }
  }

  lemma NoCodes(u: seq<byte>)
    requires (forall b :: 1 <= b < 16 ==> Count(u, b) == 0) && forall i :: 0 <= i < |u| ==> 1 <= u[i] <= MAX_BITS
    ensures u == []
  {
    if u != [] {
      CountMember(u, u[0]);
      assert false;
    }
  }

  /** The lengths that the checks let pass. */
  lemma Passed(u: seq<byte>, max: nat, left: int)
    requires 1 <= max <= MAX_BITS && max in u && (forall i :: 0 <= i < |u| ==> 1 <= u[i] <= max)
    requires left == Pow2(MAX_BITS) - Kraft(u, MAX_BITS) >= 0
    ensures left == 0 <==> Full(u, max)
    ensures Ordered(u, max) && (u == [1] <==> left > 0 && max == 1)
  {
    Rescaled(u, max);
    if max == 1 { OneIsLone(u); } else { assert u != [1]; }
    if u == [1] { OneIsLone(u); }
  }

  lemma Verdict(lens: seq<byte>, typ: CodeType, u: seq<byte>, max: nat, left: int)
    requires (forall i :: 0 <= i < |lens| ==> lens[i] <= MAX_BITS) && u == Used(lens) != []
    requires left < 0 <==> Share(lens, MAX_BITS) > Pow2(MAX_BITS)
    requires left >= 0 ==> left == Pow2(MAX_BITS) - Share(lens, MAX_BITS) && (u == [1] <==> left > 0 && max == 1)
    ensures Accepted(lens, typ) <==> left >= 0 && !(left > 0 && (typ == Codes || max != 1))
  {
    if u == [1] { OneIsLone(u); }
  }

  /**
   * inflate_table: 0 and a table, -1 for lengths that are no code, or 1 for a table
   * too large. bits0 is the number of root index bits asked for. With enough of them there
   * are no sub-tables.
   */
  method Build(typ: CodeType, lens: seq<byte>, bits0: nat, work0: seq<int>)
    returns (ret: int, table: seq<Entry>, root: nat)
    requires |lens| <= |work0| && forall i :: 0 <= i < |lens| ==> lens[i] <= MAX_BITS
    ensures ret == -1 <==> !Accepted(lens, typ)
    ensures ret == -1 || ret == 0 || ret == 1
    ensures Accepted(lens, typ) ==>
      (ret == 1 <==> Used(lens) != [] && NoRoom(typ, SizeFor(Used(lens), root)))
    ensures ret == 0 && Used(lens) == [] ==> table == [Invalid(1), Invalid(1)] && root == 1
    ensures ret == 0 && Used(lens) != [] ==>
      |table| == SizeFor(Used(lens), root) && if Share(lens, MAX_BITS) == Pow2(MAX_BITS) then Decodes(table, root, lens)
        else DecodesOne(table, root, lens)
    ensures ret == 0 && Used(lens) != [] ==> RootIs(Used(lens), bits0, root)
    ensures ret == 0 && Used(lens) != [] && Share(lens, MAX_BITS) == Pow2(MAX_BITS) && NoneOver(lens, bits0) ==>
      Flat(table, root)
  {
    ghost var u := Used(lens);
    var count := CountEach(lens);
    UsedCounts(lens, count, u);
    root := bits0;
    var max := Longest(count);
    if root > max { root := max; }
    if max == 0 {
      NoCodes(u);
      return 0, [Invalid(1), Invalid(1)], 1;
    }
    var min := Shortest(count, max);
    if root < min { root := min; }
    Bounds(u, count, min, max);
    Spanned(u, count, min, max);
    UsedBelow(lens, bits0);
    var left := Check(count, u);
    if left >= 0 { Passed(u, max, left); }
    Verdict(lens, typ, u, max, left);
    if left < 0 { return -1, [], root; }
    if left > 0 && (typ == Codes || max != 1) { return -1, [], root; }
    ret, table := SortAndEnter(typ, lens, count, min, max, root, work0, u);
  }

  // ---- What the tables are for ----

  lemma OneBegins(x: bits, y: bits, s: bits)
    requires x == Ahead(s, 0, |x|) && y == Ahead(s, 0, |y|)
    ensures x <= y || y <= x
  {
  }

  /** The lookup takes exactly the code that the stream begins with. */
  lemma LookupExact(t: seq<Entry>, root: nat, lens: seq<byte>, s: bits, i: int)
    requires Complete(lens, MAX_BITS) && Decodes(t, root, lens) && 0 <= i < |lens| && lens[i] != 0
    ensures Sent(lens, i) <= s <==> Lookup(t, root, s) == Hit(i, lens[i]) && lens[i] <= |s|
  {
    var r := Lookup(t, root, s);
    assert Finds(r, lens, s);
    if Sent(lens, i) <= s {
      OneBegins(Sent(lens, i), Sent(lens, r.sym), s);
      CodesPrefixFree(lens, MAX_BITS, i, r.sym);
      CodesPrefixFree(lens, MAX_BITS, r.sym, i);
    }
  }

  /** The codes of the symbols, one after the other. */
  ghost function SentAll(lens: seq<byte>, syms: seq<int>): bits
    requires forall i :: 0 <= i < |syms| ==> 0 <= syms[i] < |lens|
  {
    if syms == [] then [] else Sent(lens, syms[0]) + SentAll(lens, syms[1..])
  }

  /** n lookups, each of which drops the bits of its code. */
  ghost function Decoded(t: seq<Entry>, root: nat, s: bits, n: nat): (seq<int>, bits) {
    if n == 0 then ([], s) else
      match Lookup(t, root, s)
      case Miss => ([], s)
      case Hit(sym, used) =>
        if used > |s| then ([], s) else
          var (syms, rest) := Decoded(t, root, s[used..], n - 1);
          ([sym] + syms, rest)
  }

  /** Whatever symbols are sent with deflate's codes, inflate's tables give them back. */
  lemma {:induction false} SymbolsComeBack(t: seq<Entry>, root: nat, lens: seq<byte>, syms: seq<int>, rest: bits)
    requires Complete(lens, MAX_BITS) && Decodes(t, root, lens)
    requires forall i :: 0 <= i < |syms| ==> 0 <= syms[i] < |lens| && lens[syms[i]] != 0
    ensures Decoded(t, root, SentAll(lens, syms) + rest, |syms|) == (syms, rest)
    decreases |syms|
  {
    var s := SentAll(lens, syms) + rest;
    if syms == [] {
      assert s == rest;
    } else {
      var w, more := Sent(lens, syms[0]), SentAll(lens, syms[1..]) + rest;
      assert s == w + more;
      LookupExact(t, root, lens, s, syms[0]);
      assert s[|w|..] == more;
      SymbolsComeBack(t, root, lens, syms[1..], rest);
      assert [syms[0]] + syms[1..] == syms;
    }
  }
}
