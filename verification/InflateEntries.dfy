/**
 * The entries of inflate's decoding tables: a root table indexed by the next bits
 * of the stream and, for longer codes, sub-tables that its entries link to. Here
 * is how entering one code, or starting one sub-table, keeps all codes before it.
 */
module InflateEntries {
  import opened Common
  import opened Counting
  import opened Bits
  import opened KraftSum
  import opened HuffmanCodes
  import opened SortedCodes

  /** An entry: a symbol and the bits it takes, a sub-table with its index bits, or no code. */
  datatype Entry = Leaf(sym: int, bits: nat) | Link(bits: nat, at: nat) | Invalid(bits: nat)

  // ---- Counting a code on, with its bits reversed ----

  lemma BitAt(v: nat, n: nat, p: nat)
    requires p < n
    ensures Pow2(p) >= 1 && LowFirst(v, n)[p] == (v / Pow2(p) % 2 == 1)
    ensures LowFirst(v, n)[..p] == LowFirst(v % Pow2(p), p)
  {
    Pow2Mono(0, p);
    var lo, hi := Divided(v, Pow2(p));
    LowFirstParts(v, lo, hi, p, n - p, n);
    BitBetween(LowFirst(v, n), LowFirst(lo, p), LowFirst(hi, n - p), p);
    FirstBit(hi, n - p);
  }

  lemma BitBetween(whole: bits, lo: bits, hi: bits, p: nat)
    requires whole == lo + hi && p == |lo| && hi != []
    ensures whole[p] == hi[0] && whole[..p] == lo
  {
  }

  lemma FirstBit(v: nat, n: nat)
    requires n >= 1
    ensures LowFirst(v, n)[0] == (v % 2 == 1)
  {
  }

  lemma AddedBit(lo: nat, p: nat, n: nat)
    requires p < n && lo < Pow2(p)
    ensures lo + Pow2(p) < Pow2(n) && LowFirst(lo + Pow2(p), n) == LowFirst(lo, p) + [true] + Zeros(n - p - 1)
  {
    LowFirstParts(lo + Pow2(p), lo, 1, p, n - p, n);
    LowFirstZero(n - p - 1);
    Pow2Mono(p + 1, n);
    assert Pow2(p) * 1 == Pow2(p);
  }

  /** The highest bit of the code that is not set, or 0; the bits above it are all set. */
  method HighestZero(huff: nat, len: nat) returns (incr: nat, ghost p: nat)
    requires 1 <= len
    ensures p <= len && incr == (if p == 0 then 0 else Pow2(p - 1))
    ensures forall i :: p <= i < len ==> LowFirst(huff, len)[i]
    ensures p > 0 ==> incr >= 1 && !LowFirst(huff, len)[p - 1]
  {
    ghost var w := LowFirst(huff, len);
    p := len;
    incr := Pow2(len - 1);
    while true
      invariant 0 <= p <= len && incr == (if p == 0 then 0 else Pow2(p - 1)) && forall i :: p <= i < len ==> w[i]
      decreases p
    {
      if incr == 0 {
        if p > 0 { Pow2Mono(0, p - 1); }
        return;
      }
      BitAt(huff, len, p - 1);
      if huff / incr % 2 != 1 { return; }
      incr := incr / 2;
      p := p - 1;
    }
  }

  lemma Incremented(huff: nat, len: nat, q: nat, lo: nat)
    requires q < len && Pow2(q) >= 1 && lo == huff % Pow2(q) && !LowFirst(huff, len)[q]
    requires forall i :: q < i < len ==> LowFirst(huff, len)[i]
    ensures lo + Pow2(q) < Pow2(len) && Value(LowFirst(lo + Pow2(q), len)) == Value(LowFirst(huff, len)) + 1
  {
    var w := LowFirst(huff, len);
    BitAt(huff, len, q);
    AddedBit(lo, q, len);
    assert w == w[..q] + [false] + Ones(len - q - 1);
    Increment(w[..q], len - q - 1);
  }

  /** What the backwards increment has to do. */
  ghost predicate CountsOn(huff: nat, huff2: nat, len: nat) {
    var w := LowFirst(huff, len);
    huff2 < Pow2(len) && if w == Ones(len) then huff2 == 0 else Value(LowFirst(huff2, len)) == Value(w) + 1
  }

  /** The backwards increment of the source. */
  method BackIncrement(huff: nat, len: nat) returns (h: nat)
    requires 1 <= len && huff < Pow2(len)
    ensures CountsOn(huff, h, len)
  {
    ghost var w := LowFirst(huff, len);
    Pow2Mono(0, len);
    var incr, p := HighestZero(huff, len);
    if incr == 0 {
      assert w == Ones(len);
      return 0;
    }
    assert Ones(len)[p - 1] && w != Ones(len);
    Incremented(huff, len, p - 1, huff % incr);
    h := huff % incr + incr;
  }

  // ---- Filling entries ----

  /** An index of c bits begins with the a bits of h. */
  ghost predicate Begins(h: nat, a: nat, i: nat, c: nat) { LowFirst(h, a) <= LowFirst(i, c) }

  /** The low a bits of an index, and the others. */
  lemma SplitIndex(i: nat, a: nat, c: nat, p: nat) returns (lo: nat, hi: nat)
    requires a <= c && p == Pow2(a)
    ensures p >= 1 && lo < p && lo == i % p && LowFirst(i, c) == LowFirst(lo, a) + LowFirst(hi, c - a)
  {
    Pow2Mono(0, a);
    lo, hi := Divided(i, p);
    LowFirstParts(i, lo, hi, a, c - a, c);
  }

  lemma Divided(i: nat, p: nat) returns (lo: nat, hi: nat)
    requires p >= 1
    ensures lo == i % p && hi == i / p && lo < p && i == lo + p * hi
  {
    lo, hi := i % p, i / p;
  }

  lemma BeginsMod(h: nat, a: nat, i: nat, c: nat, p: nat)
    requires a <= c && p == Pow2(a) && h < p
    ensures p >= 1 && (Begins(h, a, i, c) <==> i % p == h)
  {
    var lo, hi := SplitIndex(i, a, c, p);
    PrefixIs(LowFirst(h, a), LowFirst(lo, a), LowFirst(hi, c - a));
    if LowFirst(h, a) == LowFirst(lo, a) { LowFirstInjective(lo, h, a); }
  }

  lemma PrefixIs(x: bits, y: bits, z: bits)
    requires |x| == |y|
    ensures x <= y + z <==> x == y
  {
  }

  /** The indices from `fill` on that leave h have been filled, and nothing else. */
  ghost predicate Filling(table: seq<Entry>, t: seq<Entry>, next: nat, h: nat, incr: nat, size: nat, fill: nat,
                          here: Entry) {
    var holds :=
      && incr >= 1 && next + size <= |table| == |t|
      && (forall x :: 0 <= x < |table| && !(next <= x < next + size) ==> t[x] == table[x])
      && (forall x :: next <= x < next + size ==> t[x] == if (x - next) % incr == h && x - next >= fill then here
        else table[x]);
    holds
  }

  lemma FillStep(table: seq<Entry>, t: seq<Entry>, next: nat, h: nat, incr: nat, size: nat, fill: nat, left: nat,
                 r: nat, here: Entry)
    requires Filling(table, t, next, h, incr, size, fill, here) && left == incr * r && fill == left + incr <= size
    requires h < incr
    ensures Filling(table, t[next + h + left := here], next, h, incr, size, left, here)
  {
    var t2 := t[next + h + left := here];
    forall x | next <= x < next + size
      ensures t2[x] == if (x - next) % incr == h && x - next >= left then here else table[x] {
      InBlock(incr, r, h, x - next);
    }
  }

  /** t2 is t with the entry at every index of n bits, from next on, that begins with w. */
  ghost predicate Filled(t: seq<Entry>, t2: seq<Entry>, next: nat, w: bits, n: nat, here: Entry) {
    && |t2| == |t| && next + Pow2(n) <= |t|
    && (forall x :: 0 <= x < |t| && !(next <= x < next + Pow2(n)) ==> t2[x] == t[x])
    && forall x :: next <= x < next + Pow2(n) ==> t2[x] == if w <= LowFirst(x - next, n) then here else t[x]
  }

  /** Every index of the table at `next` that begins with h gets the entry. */
  method Fill(table: seq<Entry>, next: nat, h: nat, a: nat, c: nat, here: Entry) returns (t: seq<Entry>)
    requires a <= c && h < Pow2(a) && next + Pow2(c) <= |table|
    ensures Filled(table, t, next, LowFirst(h, a), c, here)
  {
    t := table;
    var incr, fill := Pow2(a), Pow2(c);
    Pow2Mono(0, a);
    ghost var q, size := Pow2(c - a), Pow2(c);
    Pow2Add(a, c - a);
    while fill != 0
      invariant 0 <= q && fill == incr * q && fill <= size && Filling(table, t, next, h, incr, size, fill, here)
      decreases fill
    {
      OneBlock(incr, q, fill);
      FillStep(table, t, next, h, incr, size, fill, fill - incr, q - 1, here);
      fill := fill - incr;
      t := t[next + h + fill := here];
      q := q - 1;
    }
    forall x | next <= x < next + size ensures t[x] == if Begins(h, a, x - next, c) then here else table[x] {
      BeginsMod(h, a, x - next, c, incr);
    }
  }

  lemma OneBlock(incr: nat, q: nat, fill: nat)
    requires incr >= 1 && fill == incr * q && fill != 0
    ensures q >= 1 && fill - incr == incr * (q - 1) >= 0
  {
  }

  /** In the block from incr * r on, only h above its start has remainder h. */
  lemma InBlock(incr: nat, r: nat, h: nat, i: nat)
    requires incr >= 1 && h < incr
    ensures i % incr == h && incr * r <= i < incr * r + incr <==> i == h + incr * r
  {
    if i == h + incr * r {
      assert i == incr * r + h;
      DivisionIs(i, incr, r, h);
    }
    if i % incr == h && incr * r <= i < incr * r + incr {
      DivisionIs(i, incr, r, i - incr * r);
    }
  }

  lemma DivisionIs(x: nat, d: nat, q: nat, r: nat)
    requires d >= 1 && x == d * q + r && r < d
    ensures x / d == q && x % d == r
  {
    assert x == d * (x / d) + x % d;
    if x / d < q { MulMono(x / d + 1, q, d); }
    if x / d > q { MulMono(q + 1, x / d, d); }
  }

  // ---- What the table holds ----

  /** The codes to enter, in order, with their symbols, and the bits of the root index. */
  datatype Job = Job(u: seq<byte>, max: nat, work: seq<int>, root: nat)

  ghost predicate Good(c: Job) {
    Ordered(c.u, c.max) && |c.u| <= |c.work| && 1 <= c.root <= c.max && LenAt(c.u, 0) <= c.root
  }

  ghost predicate Long(c: Job, k: nat)
    requires k < |c.u|
  {
    LenAt(c.u, k) > c.root
  }

  /** The root index bits of a long code, and the others. */
  ghost function Top(c: Job, k: nat): (s: bits)
    requires k < |c.u| && Long(c, k)
    ensures |s| == c.root
  {
    WordAt(c.u, k)[..c.root]
  }

  ghost function Rest(c: Job, k: nat): (s: bits)
    requires k < |c.u| && Long(c, k)
    ensures |s| == LenAt(c.u, k) - c.root
  {
    WordAt(c.u, k)[c.root..]
  }

  /** The root entry of a long code. */
  ghost function Low(c: Job, k: nat): nat
    requires k < |c.u| && Long(c, k)
  {
    LowValue(Top(c, k))
  }

  /** A short code is at every root index that begins with it. */
  ghost predicate InRoot(c: Job, t: seq<Entry>, j: nat)
    requires j < |c.u| <= |c.work| && Pow2(c.root) <= |t|
  {
    forall i {:trigger t[i]} :: 0 <= i < Pow2(c.root) && WordAt(c.u, j) <= LowFirst(i, c.root) ==>
      t[i] == Leaf(c.work[j], LenAt(c.u, j))
  }

  /** The rest of a long code is at every index of its sub-table that begins with it. */
  ghost predicate InSub(c: Job, t: seq<Entry>, j: nat, at: nat, n: nat)
    requires j < |c.u| <= |c.work| && Long(c, j) && at + Pow2(n) <= |t|
  {
    forall x {:trigger t[x]} :: at <= x < at + Pow2(n) && Rest(c, j) <= LowFirst(x - at, n) ==>
      t[x] == Leaf(c.work[j], LenAt(c.u, j) - c.root)
  }

  ghost predicate Linked(c: Job, t: seq<Entry>, j: nat)
    requires j < |c.u| <= |c.work| && Long(c, j) && Pow2(c.root) <= |t|
  {
    && Low(c, j) < Pow2(c.root)
    && var e := t[Low(c, j)];
      e.Link? && Pow2(c.root) <= e.at && e.at + Pow2(e.bits) <= |t| && LenAt(c.u, j) - c.root <= e.bits
        && InSub(c, t, j, e.at, e.bits)
  }

  ghost predicate Entered(c: Job, t: seq<Entry>, j: nat) {
    j < |c.u| <= |c.work| && Pow2(c.root) <= |t| && if Long(c, j) then Linked(c, t, j) else InRoot(c, t, j)
  }

  /** Strings that begin the same string are one a prefix of the other. */
  lemma Comparable(x: bits, y: bits, s: bits)
    ensures x <= s && y <= s ==> x <= y || y <= x
  {
  }

  lemma NotBoth(c: Job, j: nat, k: nat, s: bits)
    requires Good(c) && j < |c.u| && k < |c.u| && j != k
    ensures !(WordAt(c.u, j) <= s && WordAt(c.u, k) <= s)
  {
    WordsApart(c.u, c.max, j, k);
    WordsApart(c.u, c.max, k, j);
    Comparable(WordAt(c.u, j), WordAt(c.u, k), s);
  }

  lemma {:induction false} LenMono(u: seq<byte>, j: nat, k: nat)
    requires j <= k < |u| && forall i :: 0 <= i < |u| ==> 1 <= u[i]
    ensures LenAt(u, j) <= LenAt(u, k)
    decreases k
  {
    if j < k {
      NextCode(u, k - 1, k);
      LenMono(u, j, k - 1);
    }
  }

  /** All codes before the k-th are in the table. */
  ghost predicate AllEntered(c: Job, t: seq<Entry>, k: nat) {
    forall i {:trigger Key(i)} :: Key(i) ==> forall j :: 0 <= j < k ==> Entered(c, t, j)
  }

  lemma ShortKept(c: Job, t: seq<Entry>, t2: seq<Entry>, j: nat, k: nat)
    requires Good(c) && j < k < |c.u| && !Long(c, j) && Entered(c, t, j)
    requires Filled(t, t2, 0, WordAt(c.u, k), c.root, Leaf(c.work[k], LenAt(c.u, k)))
    ensures Entered(c, t2, j)
  {
    forall i {:trigger t2[i]} | 0 <= i < Pow2(c.root) && WordAt(c.u, j) <= LowFirst(i, c.root)
      ensures t2[i] == Leaf(c.work[j], LenAt(c.u, j)) {
      NotBoth(c, j, k, LowFirst(i, c.root));
      assert t2[i] == t[i];
    }
  }

  /** Entering a short code. */
  lemma EnterShort(c: Job, t: seq<Entry>, t2: seq<Entry>, k: nat, next: nat)
    requires Good(c) && next == k + 1 <= |c.u| && !Long(c, k) && AllEntered(c, t, k)
    requires Filled(t, t2, 0, WordAt(c.u, k), c.root, Leaf(c.work[k], LenAt(c.u, k)))
    ensures AllEntered(c, t2, next)
  {
    assert Key(0);
    forall j | 0 <= j < next ensures Entered(c, t2, j) {
      LenMono(c.u, j, k);
      if j < k {
        assert Entered(c, t, j);
        ShortKept(c, t, t2, j, k);
      }
    }
  }

  // ---- Long codes ----

  /** Two long codes with the same root bits differ in the rest. */
  lemma RestsApart(c: Job, j: nat, k: nat, s: bits)
    requires Good(c) && j < |c.u| && k < |c.u| && j != k && Long(c, j) && Long(c, k) && Top(c, j) == Top(c, k)
    ensures !(Rest(c, j) <= s && Rest(c, k) <= s)
  {
    assert WordAt(c.u, j) == Top(c, j) + Rest(c, j) && WordAt(c.u, k) == Top(c, k) + Rest(c, k);
    if Rest(c, j) <= s && Rest(c, k) <= s {
      NotBoth(c, j, k, Top(c, k) + s);
      assert false;
    }
  }

  lemma LowDistinct(c: Job, j: nat, k: nat)
    requires j < |c.u| && k < |c.u| && Long(c, j) && Long(c, k)
    ensures Low(c, j) < Pow2(c.root) && (Low(c, j) == Low(c, k) <==> Top(c, j) == Top(c, k))
    ensures LowFirst(Low(c, k), c.root) == Top(c, k)
  {
    LowValueBound(Top(c, j));
    LowFirstValue(Top(c, j));
    LowFirstValue(Top(c, k));
  }

  /** The sub-table being filled: it is the last one, and those of other root bits lie before it. */
  ghost predicate Current(c: Job, t: seq<Entry>, k: nat, next: nat, curr: nat, n: nat) {
    && k < |c.u| && Long(c, k) && Pow2(c.root) <= next && next + Pow2(curr) == |t| && Low(c, k) < Pow2(c.root)
    && t[Low(c, k)] == Link(curr, next)
    && forall i {:trigger Key(i)} :: Key(i) ==>
      forall j :: 0 <= j < n && j < |c.u| && Long(c, j) && Top(c, j) != Top(c, k) ==> LiesBefore(c, t, j, next)
  }

  ghost predicate LiesBefore(c: Job, t: seq<Entry>, j: nat, next: nat) {
    j < |c.u| && Long(c, j) && Low(c, j) < |t| && t[Low(c, j)].Link?
      && t[Low(c, j)].at + Pow2(t[Low(c, j)].bits) <= next
  }

  /** A code in the same sub-table keeps its entries. */
  lemma SiblingKept(c: Job, t: seq<Entry>, t2: seq<Entry>, j: nat, k: nat, next: nat, curr: nat)
    requires Good(c) && j < k < |c.u| && Long(c, j) && Long(c, k) && Top(c, j) == Top(c, k)
    requires next + Pow2(curr) <= |t| && InSub(c, t, j, next, curr)
    requires Filled(t, t2, next, Rest(c, k), curr, Leaf(c.work[k], LenAt(c.u, k) - c.root))
    ensures InSub(c, t2, j, next, curr)
  {
    forall x {:trigger t2[x]} | next <= x < next + Pow2(curr) && Rest(c, j) <= LowFirst(x - next, curr)
      ensures t2[x] == Leaf(c.work[j], LenAt(c.u, j) - c.root) {
      RestsApart(c, j, k, LowFirst(x - next, curr));
      assert t2[x] == t[x];
    }
  }

  /** Entries outside what is filled stay. */
  lemma OthersKept(c: Job, t: seq<Entry>, t2: seq<Entry>, j: nat, w: bits, next: nat, curr: nat, here: Entry)
    requires j < |c.u| && Entered(c, t, j) && Filled(t, t2, next, w, curr, here) && Pow2(c.root) <= next
    requires Long(c, j) ==> LiesBefore(c, t, j, next)
    ensures Entered(c, t2, j)
  {
    forall x {:trigger t2[x]} | 0 <= x < next ensures t2[x] == t[x] {}
  }

  lemma LongKept(c: Job, t: seq<Entry>, t2: seq<Entry>, j: nat, k: nat, next: nat, curr: nat)
    requires Good(c) && j < k < |c.u| && Entered(c, t, j) && Current(c, t, k, next, curr, k)
    requires Filled(t, t2, next, Rest(c, k), curr, Leaf(c.work[k], LenAt(c.u, k) - c.root))
    ensures Entered(c, t2, j)
  {
    assert Key(0);
    if Long(c, j) && Top(c, j) == Top(c, k) {
      LowDistinct(c, j, k);
      SiblingKept(c, t, t2, j, k, next, curr);
      assert t2[Low(c, j)] == t[Low(c, j)];
    } else {
      OthersKept(c, t, t2, j, Rest(c, k), next, curr, Leaf(c.work[k], LenAt(c.u, k) - c.root));
    }
  }

  /** Entering a long code in its sub-table. */
  lemma EnterLong(c: Job, t: seq<Entry>, t2: seq<Entry>, k: nat, after: nat, next: nat, curr: nat)
    requires Good(c) && after == k + 1 <= |c.u| && AllEntered(c, t, k) && Current(c, t, k, next, curr, k)
    requires LenAt(c.u, k) - c.root <= curr
    requires Filled(t, t2, next, Rest(c, k), curr, Leaf(c.work[k], LenAt(c.u, k) - c.root))
    ensures AllEntered(c, t2, after) && Current(c, t2, k, next, curr, after)
  {
    assert Key(0);
    forall j | 0 <= j < after ensures Entered(c, t2, j) {
      if j < k {
        assert Entered(c, t, j);
        LongKept(c, t, t2, j, k, next, curr);
      }
    }
    forall j | 0 <= j < after && Long(c, j) && Top(c, j) != Top(c, k) ensures LiesBefore(c, t2, j, next) {
      assert LiesBefore(c, t, j, next);
      LowDistinct(c, j, k);
    }
  }

  // ---- A new sub-table ----

  /** t with a new sub-table at its end, to which the root entry `low` links. */
  function Extended(t: seq<Entry>, low: nat, curr: nat): (t2: seq<Entry>)
    requires low < |t|
    ensures |t2| == |t| + Pow2(curr)
  {
    (t + seq(Pow2(curr), _ => Invalid(0)))[low := Link(curr, |t|)]
  }

  lemma ExtendKeeps(c: Job, t: seq<Entry>, j: nat, k: nat, curr: nat)
    requires Good(c) && j < k < |c.u| && Long(c, k) && Entered(c, t, j) && Low(c, k) < |t|
    requires (Long(c, j) ==> Top(c, j) != Top(c, k))
    ensures Entered(c, Extended(t, Low(c, k), curr), j)
    ensures Long(c, j) ==> LiesBefore(c, Extended(t, Low(c, k), curr), j, |t|)
  {
    var low := Low(c, k);
    var t2 := Extended(t, low, curr);
    LowDistinct(c, k, k);
    if Long(c, j) {
      LowDistinct(c, j, k);
      var e := t[Low(c, j)];
      assert t2[Low(c, j)] == e;
      forall x {:trigger t2[x]} | e.at <= x < e.at + Pow2(e.bits) ensures t2[x] == t[x] {}
    } else {
      forall i {:trigger t2[i]} | 0 <= i < Pow2(c.root) && WordAt(c.u, j) <= LowFirst(i, c.root)
        ensures t2[i] == Leaf(c.work[j], LenAt(c.u, j)) {
        if i == low {
          assert WordAt(c.u, k) == Top(c, k) + Rest(c, k);
          NotBoth(c, j, k, WordAt(c.u, k));
        }
        assert t2[i] == t[i];
      }
    }
  }

  /** A new sub-table for root bits that no earlier code has. */
  lemma Extend(c: Job, t: seq<Entry>, k: nat, curr: nat)
    requires Good(c) && k < |c.u| && Long(c, k) && AllEntered(c, t, k) && Pow2(c.root) <= |t|
    requires forall j :: 0 <= j < k && Long(c, j) ==> Top(c, j) != Top(c, k)
    ensures Low(c, k) < |t| && AllEntered(c, Extended(t, Low(c, k), curr), k)
    ensures Current(c, Extended(t, Low(c, k), curr), k, |t|, curr, k)
  {
    assert Key(0);
    LowDistinct(c, k, k);
    forall j | 0 <= j < k
      ensures Entered(c, Extended(t, Low(c, k), curr), j)
        && (Long(c, j) ==> LiesBefore(c, Extended(t, Low(c, k), curr), j, |t|)) {
      assert Entered(c, t, j);
      ExtendKeeps(c, t, j, k, curr);
    }
  }

  // ---- The order of the root bits ----

  /** The root bits of a code are its value without the bits below them. */
  lemma TopBounds(c: Job, k: nat, p: nat)
    requires Good(c) && k < |c.u| && Long(c, k) && p == Pow2(LenAt(c.u, k) - c.root)
    ensures p >= 1 && Value(Top(c, k)) * p <= CodeAt(c.u, k) < (Value(Top(c, k)) + 1) * p
  {
    CodeAtFits(c.u, c.max, k);
    SpellPrefix(CodeAt(c.u, k), LenAt(c.u, k), c.root);
    Pow2Mono(0, LenAt(c.u, k) - c.root);
    Distribute(Value(Top(c, k)), 1, p);
  }

  /** The root bits stay, or grow and then all other bits are zeros. */
  lemma TopArithmetic(t: nat, t2: nat, code: nat, code2: nat, p: nat, e: nat, p2: nat)
    requires e >= 1 && p2 == p * e && t * p <= code < (t + 1) * p && t2 * p2 <= code2 < (t2 + 1) * p2
    requires code2 == (code + 1) * e
    ensures t <= t2 && (t != t2 ==> code2 == t2 * p2)
  {
    if code + 1 == (t + 1) * p {
      assert code2 == (t + 1) * p2 by { MulAssociates(t + 1, p, e, p2); }
      Between(t + 1, t2, p2, 0, code2);
    } else {
      MulMono(code + 1, (t + 1) * p, e);
      MulAssociates(t + 1, p, e, p2);
      MulMono(t * p, code + 1, e);
      MulAssociates(t, p, e, p2);
      Strictly(code + 1, (t + 1) * p, e);
      Between(t, t2, p2, code2 - t * p2, code2);
    }
  }

  lemma Strictly(a: nat, b: nat, e: nat)
    requires a < b && e >= 1
    ensures a * e < b * e
  {
    MulMono(a + 1, b, e);
    Distribute(a, 1, e);
  }

  /** The numbers that TopArithmetic is about. */
  lemma LongFacts(c: Job, k: nat, next: nat) returns (p: nat, e: nat, p2: nat)
    requires Good(c) && next == k + 1 < |c.u| && Long(c, k) && Long(c, next)
    ensures e >= 1 && p2 == p * e && p2 == Pow2(LenAt(c.u, next) - c.root)
    ensures CodeAt(c.u, next) == (CodeAt(c.u, k) + 1) * e
    ensures Value(Top(c, k)) * p <= CodeAt(c.u, k) < (Value(Top(c, k)) + 1) * p
    ensures Value(Top(c, next)) * p2 <= CodeAt(c.u, next) < (Value(Top(c, next)) + 1) * p2
  {
    NextCode(c.u, k, next);
    var a, b, ab := LenAt(c.u, k) - c.root, LenAt(c.u, next) - LenAt(c.u, k), LenAt(c.u, next) - c.root;
    p, e, p2 := Pow2(a), Pow2(b), Pow2(ab);
    TopBounds(c, k, p);
    TopBounds(c, next, p2);
    Pow2Sum(a, b, ab);
    Pow2Mono(0, b);
  }

  lemma LongStep(c: Job, k: nat, next: nat)
    requires Good(c) && next == k + 1 < |c.u| && Long(c, k) && Long(c, next)
    ensures Value(Top(c, k)) <= Value(Top(c, next))
    ensures Top(c, k) != Top(c, next) ==> CodeAt(c.u, next) == Value(Top(c, next)) * Pow2(LenAt(c.u, next) - c.root)
  {
    var x, y := Top(c, k), Top(c, next);
    var p, e, p2 := LongFacts(c, k, next);
    TopArithmetic(Value(x), Value(y), CodeAt(c.u, k), CodeAt(c.u, next), p, e, p2);
    SameValue(x, y);
  }

  lemma SameValue(x: bits, y: bits)
    requires |x| == |y|
    ensures Value(x) == Value(y) <==> x == y
  {
    SpellValue(x);
    SpellValue(y);
  }

  /** The first long code after a short one has zeros below its root bits. */
  lemma FirstLong(c: Job, k: nat, next: nat)
    requires Good(c) && next == k + 1 < |c.u| && !Long(c, k) && Long(c, next)
    ensures CodeAt(c.u, next) == Value(Top(c, next)) * Pow2(LenAt(c.u, next) - c.root)
  {
    var l: int, m: int := LenAt(c.u, k), LenAt(c.u, next);
    NextCode(c.u, k, next);
    var p, e, p2 := Pow2(c.root - l), Pow2(m - l), Pow2(m - c.root);
    Pow2Add(c.root - l, m - c.root);
    TopBounds(c, next, p2);
    FirstArithmetic(CodeAt(c.u, k) + 1, p, p2, e, Value(Top(c, next)), CodeAt(c.u, next));
  }

  lemma FirstArithmetic(x: nat, p: nat, p2: nat, e: nat, t: nat, code: nat)
    requires e == p * p2 && code == x * e && t * p2 <= code < (t + 1) * p2
    ensures code == t * p2
  {
    MulAssociates(x, p, p2, e);
    Between(x * p, t, p2, 0, code);
  }

  lemma {:induction false} TopMono(c: Job, j: nat, k: nat)
    requires Good(c) && j <= k < |c.u| && Long(c, j) && Long(c, k)
    ensures Value(Top(c, j)) <= Value(Top(c, k))
    decreases k
  {
    if j < k {
      var before := k - 1;
      LenMono(c.u, j, before);
      LongStep(c, before, k);
      TopMono(c, j, before);
    }
  }

  /** The k-th code begins new root bits. */
  ghost predicate NewTop(c: Job, k: nat) { 1 <= k < |c.u| && Long(c, k) && (Long(c, k - 1) ==> Top(c, k - 1) != Top(c,
        k)) }

  lemma NewTopCode(c: Job, k: nat, before: nat)
    requires Good(c) && NewTop(c, k) && before == k - 1
    ensures CodeAt(c.u, k) == Value(Top(c, k)) * Pow2(LenAt(c.u, k) - c.root)
    ensures Long(c, before) ==> Value(Top(c, before)) < Value(Top(c, k))
  {
    if Long(c, before) {
      LongStep(c, before, k);
      SameValue(Top(c, before), Top(c, k));
    } else {
      FirstLong(c, before, k);
    }
  }

  lemma EarlierTop(c: Job, j: nat, k: nat, before: nat)
    requires Good(c) && NewTop(c, k) && before == k - 1 && j < k && Long(c, j)
    ensures Top(c, j) != Top(c, k)
  {
    NewTopCode(c, k, before);
    LenMono(c.u, j, before);
    TopMono(c, j, before);
  }

  lemma NewTopIsNew(c: Job, k: nat)
    requires Good(c) && NewTop(c, k)
    ensures CodeAt(c.u, k) == Value(Top(c, k)) * Pow2(LenAt(c.u, k) - c.root)
    ensures forall j :: 0 <= j < k && Long(c, j) ==> Top(c, j) != Top(c, k)
  {
    NewTopCode(c, k, k - 1);
    forall j | 0 <= j < k && Long(c, j) ensures Top(c, j) != Top(c, k) { EarlierTop(c, j, k, k - 1); }
  }

  // ---- The size of a sub-table ----

  /** Index bits enough for every code that begins with the root bits of the k-th. */
  ghost predicate Enough(c: Job, k: nat, curr: nat) {
    && k < |c.u| && Long(c, k)
    && forall i {:trigger Key(i)} :: Key(i) ==>
      forall j :: k <= j < |c.u| && Long(c, j) && Top(c, j) == Top(c, k) ==> LenAt(c.u, j) <= c.root + curr
  }

  /** If the codes of up to m bits fill these root bits, no longer code has them. */
  lemma SizeEnough(c: Job, k: nat, curr: nat, m: nat)
    requires Good(c) && k < |c.u| && Long(c, k) && m == c.root + curr && 1 <= m
    requires m >= c.max || End(c.u, m) >= (Value(Top(c, k)) + 1) * Pow2(curr)
    ensures Enough(c, k, curr)
  {
    forall j | k <= j < |c.u| && Long(c, j) && Top(c, j) == Top(c, k) ensures LenAt(c.u, j) <= m {
      CodeAtFits(c.u, c.max, j);
      if LenAt(c.u, j) > m { LongerHasOtherTop(c, k, j, curr, m); }
    }
  }

  lemma LongerHasOtherTop(c: Job, k: nat, j: nat, curr: nat, m: nat)
    requires Good(c) && k < |c.u| && Long(c, k) && m == c.root + curr && 1 <= m && j < |c.u| && Long(c, j)
    requires LenAt(c.u, j) > m
    requires End(c.u, m) >= (Value(Top(c, k)) + 1) * Pow2(curr)
    ensures Top(c, j) != Top(c, k)
  {
    hide Pow2, Value, End, CodeAt;
    var a, b := LenAt(c.u, j) - m, LenAt(c.u, j) - c.root;
    var p, q, r := Pow2(curr), Pow2(a), Pow2(b);
    CodeFrom(c.u, j, m);
    TopBounds(c, j, r);
    Pow2Sum(curr, a, b);
    PastTop(Value(Top(c, k)), Value(Top(c, j)), p, q, r, End(c.u, m), CodeAt(c.u, j));
  }

  lemma PastTop(t: nat, t2: nat, p: nat, q: nat, r: nat, end: nat, code: nat)
    requires r == p * q && end >= (t + 1) * p && code >= end * q && code < (t2 + 1) * r && r >= 1
    ensures t < t2
  {
    MulMono((t + 1) * p, end, q);
    MulAssociates(t + 1, p, q, r);
    if t2 <= t { MulMono(t2 + 1, t + 1, r); }
  }

  /** count holds what is left of each length once the first k codes are entered, and the next one is of length len. */
  ghost predicate Remaining(count: seq<nat>, u: seq<byte>, k: nat, len: nat) {
    && |count| == 16 && 1 <= len <= 15 && CountBelow(u, len) <= k <= CountBelow(u, len) + Count(u, len)
    && count[len] == CountBelow(u, len) + Count(u, len) - k
    && forall b :: len < b <= 15 ==> count[b] == Count(u, b)
  }

  /** Where the codes from the k-th on of m bits begin. */
  ghost function From(u: seq<byte>, k: nat, len: nat, m: nat): nat
    requires k < |u|
  {
    if m == len then CodeAt(u, k) else First(u, 1, m)
  }

  lemma EndFromCount(count: seq<nat>, u: seq<byte>, k: nat, len: nat, m: nat)
    requires k < |u| && len == LenAt(u, k) && Remaining(count, u, k, len) && len <= m <= 15
    ensures From(u, k, len, m) + count[m] == End(u, m)
  {
    CodeAtIs(u, k);
  }

  lemma LookAhead(u: seq<byte>, k: nat, len: nat, m: nat, next: nat, t: nat, curr: nat, curr2: nat, room: nat)
    requires k < |u| && 1 <= len <= m && next == m + 1 && curr2 == curr + 1 && room == t * Pow2(curr)
    ensures From(u, k, len, next) == 2 * End(u, m) && 2 * room == t * Pow2(curr2)
  {
    FirstStep(u, 1, next, m);
    MulDouble(t, Pow2(curr));
  }

  /** What is left of the code space of the root bits t - 1, once the codes before those of m bits are taken. */
  ghost predicate LeftOver(c: Job, k: nat, len: nat, t: nat, curr: nat, m: nat, left: int) {
    k < |c.u| && len == LenAt(c.u, k) && left == t * Pow2(curr) - From(c.u, k, len, m)
  }

  lemma StartsLeft(c: Job, k: nat, len: nat, t: nat, curr: nat)
    requires k < |c.u| && len == LenAt(c.u, k) && t >= 1 && CodeAt(c.u, k) == (t - 1) * Pow2(curr)
    ensures LeftOver(c, k, len, t, curr, len, Pow2(curr))
  {
    Distribute(t - 1, 1, Pow2(curr));
  }

  lemma LookOn(c: Job, count: seq<nat>, k: nat, len: nat, t: nat, curr: nat, m: nat, left: int, curr2: nat, m2: nat)
    requires LeftOver(c, k, len, t, curr, m, left) && Remaining(count, c.u, k, len) && 1 <= len <= m <= 15
    requires curr2 == curr + 1 && m2 == m + 1
    ensures left - count[m] == t * Pow2(curr) - End(c.u, m)
    ensures LeftOver(c, k, len, t, curr2, m2, 2 * (left - count[m]))
  {
    EndFromCount(count, c.u, k, len, m);
    LookAhead(c.u, k, len, m, m2, t, curr, curr2, t * Pow2(curr));
  }

  /** The codes of so many bits end before the root bits of the k-th do. */
  ghost predicate NotYet(c: Job, k: nat, curr: nat) {
    k < |c.u| && Long(c, k) && End(c.u, c.root + curr) < (Value(Top(c, k)) + 1) * Pow2(curr)
  }

  /** The look-ahead for the size of a new sub-table. */
  method SubTableBits(count: seq<nat>, len: nat, root: nat, max: nat, ghost c: Job, ghost k: nat) returns (curr: nat)
    requires Good(c) && k < |c.u| && Long(c, k) && len == LenAt(c.u, k) && root == c.root && max == c.max
    requires Remaining(count, c.u, k, len) && CodeAt(c.u, k) == Value(Top(c, k)) * Pow2(len - root)
    ensures len - root <= curr && Enough(c, k, curr) && root + curr <= max
    ensures curr > len - root ==> NotYet(c, k, curr - 1)
  {
    StartsLeft(c, k, len, Value(Top(c, k)) + 1, len - root);
    hide LeftOver;
    CodeAtFits(c.u, c.max, k);
    ghost var t, m := Value(Top(c, k)) + 1, len;
    curr := len - root;
    var left: int := Pow2(curr);
    while curr + root < max
      invariant len <= m == curr + root <= max && LeftOver(c, k, len, t, curr, m, left)
      invariant curr > len - root ==> NotYet(c, k, curr - 1)
      decreases max - curr
    {
      LookOn(c, count, k, len, t, curr, m, left, curr + 1, m + 1);
      left := left - count[curr + root];
      if left <= 0 { break; }
      curr, m := curr + 1, m + 1;
      left := left * 2;
    }
    SizeEnough(c, k, curr, m);
  }
}
