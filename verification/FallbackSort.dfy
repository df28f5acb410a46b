/**
 * The fallback block sorter: a radix sort on one byte, then passes that double
 * the number H of bytes by which the rotations are sorted, until no bucket of
 * equal prefixes is left or H covers the block.
 */
module FallbackSort {
  import opened Common
  import opened Rotation
  import opened Counting
  import opened BucketSort

  // ---- One-byte radix sort ----

  /** Where the radix sort puts position i: buckets fill from their end. */
  ghost function Slot(b: seq<byte>, i: int): int
    requires 0 <= i < |b|
  {
    CountBelow(b, b[i] as int + 1) - 1 - Count(b[..i], b[i])
  }

  lemma SlotInBucket(b: seq<byte>, i: int)
    requires 0 <= i < |b|
    ensures 0 <= CountBelow(b, b[i]) <= Slot(b, i) < CountBelow(b, b[i] as int + 1) <= |b|
  {
    var c: int := b[i];
    assert b[..|b|] == b;
    CountPrefix(b, i, |b|, c);
    CountBelowStep(b, c);
    CountBelowMono(b, c + 1, 256);
    CountBelowStep(b, 256);
  }

  lemma SlotInjective(b: seq<byte>, i: int, j: int)
    requires 0 <= i < j < |b|
    ensures Slot(b, i) != Slot(b, j)
  {
    SlotInBucket(b, i);
    SlotInBucket(b, j);
    var c: int, d: int := b[i], b[j];
    if c == d {
      CountPrefix(b, i, j, c);
    } else if c < d {
      CountBelowMono(b, c + 1, d);
    } else {
      CountBelowMono(b, d + 1, c);
    }
  }

  /** Every position lies in the bucket of its byte. */
  ghost predicate RadixSorted(b: seq<byte>, f: seq<int>) {
    && IsPerm(f, |b|)
    && forall k :: 0 <= k < |b| ==> CountBelow(b, b[f[k]]) <= k < CountBelow(b, b[f[k]] as int + 1)
  }

  lemma SlotsFilled(b: seq<byte>, f: seq<int>)
    requires |f| == |b|
    requires forall j :: 0 <= j < |b| ==> 0 <= Slot(b, j) < |b| && f[Slot(b, j)] == j
    ensures RadixSorted(b, f)
  {
    var s := seq(|b|, j requires 0 <= j < |b| => Slot(b, j));
    assert IsPerm(s, |b|) by {
      forall i, j | 0 <= i < j < |b| ensures s[i] != s[j] { SlotInjective(b, i, j); }
    }
    forall k | 0 <= k < |b|
      ensures 0 <= f[k] < |b| && Slot(b, f[k]) == k
    {
      PermOnto(s, |b|, k);
      var j :| 0 <= j < |b| && s[j] == k;
      assert Slot(b, j) == k;
    }
    forall k | 0 <= k < |b| ensures CountBelow(b, b[f[k]]) <= k < CountBelow(b, b[f[k]] as int + 1) {
      SlotInBucket(b, f[k]);
    }
    forall i, j | 0 <= i < j < |b| ensures f[i] != f[j] {
      assert Slot(b, f[i]) != Slot(b, f[j]);
    }
  }

  method CountBytes(block: array<byte>) returns (ftab: array<int>, ftabCopy: array<int>)
    ensures fresh(ftab) && fresh(ftabCopy) && ftab != ftabCopy && ftab.Length == 257 && ftabCopy.Length == 256
    ensures forall c :: 0 <= c < 256 ==> ftabCopy[c] == Count(block[..], c)
    ensures forall c :: 0 <= c < 256 ==> ftab[c] == CountBelow(block[..], c + 1)
  {
    ghost var b := block[..];
    ftab := new int[257](_ => 0);
    var i := 0;
    while i < block.Length
      invariant 0 <= i <= block.Length && ftab[256] == 0
      invariant forall c :: 0 <= c < 256 ==> ftab[c] == Count(b[..i], c)
    {
      forall c | 0 <= c < 256 ensures Count(b[..i + 1], c) == Count(b[..i], c) + if b[i] == c then 1 else 0 {
        CountSnoc(b, i, c);
      }
      ftab[block[i]] := ftab[block[i]] + 1;
      i := i + 1;
    }
    assert b[..i] == b;
    ftabCopy := new int[256](c requires 0 <= c < 256 reads ftab => ftab[c]);
    CountBelowStep(b, 0);
    i := 1;
    while i < 257
      invariant 1 <= i <= 257
      invariant forall c :: 0 <= c < 256 ==> ftabCopy[c] == Count(b, c)
      invariant forall c :: 0 <= c < i && c < 256 ==> ftab[c] == CountBelow(b, c + 1)
      invariant forall c :: i <= c < 256 ==> ftab[c] == Count(b, c)
    {
      CountBelowStep(b, i);
      ftab[i] := ftab[i] + ftab[i - 1];
      i := i + 1;
    }
  }

  method PlaceBytes(block: array<byte>, ftab: array<int>, fmap: array<int>)
    requires fmap.Length == block.Length && ftab.Length == 257 && fmap != ftab
    requires forall c :: 0 <= c < 256 ==> ftab[c] == CountBelow(block[..], c + 1)
    modifies ftab, fmap
    ensures RadixSorted(block[..], fmap[..])
    ensures forall c :: 0 <= c < 256 ==> ftab[c] == CountBelow(block[..], c)
  {
    ghost var b := block[..];
    var i := 0;
    while i < block.Length
      invariant 0 <= i <= block.Length
      invariant forall c :: 0 <= c < 256 ==> ftab[c] == CountBelow(b, c + 1) - Count(b[..i], c)
      invariant forall j :: 0 <= j < i ==> 0 <= Slot(b, j) < |b| && fmap[Slot(b, j)] == j
    {
      forall c | 0 <= c < 256 ensures Count(b[..i + 1], c) == Count(b[..i], c) + if b[i] == c then 1 else 0 {
        CountSnoc(b, i, c);
      }
      forall j | 0 <= j < i ensures Slot(b, j) != Slot(b, i) { SlotInjective(b, j, i); }
      SlotInBucket(b, i);
      var j := block[i];
      var k := ftab[j] - 1;
      assert k == Slot(b, i);
      ftab[j] := k;
      fmap[k] := i;
      i := i + 1;
    }
    assert b[..i] == b;
    SlotsFilled(b, fmap[..]);
    forall c | 0 <= c < 256 ensures CountBelow(b, c + 1) - Count(b, c) == CountBelow(b, c) { CountBelowStep(b, c); }
  }

  // ---- Bucket header bits ----

  /** Bit k marks the first row of each bucket of equal h-byte prefixes; a pattern follows the block. */
  ghost predicate Headers(bh: seq<bool>, b: seq<byte>, h: nat, f: seq<int>)
    requires IsPerm(f, |b|)
  {
    var holds :=
      && |b| + 64 <= |bh|
      && (|b| > 0 ==> bh[0])
      && (forall k :: 0 < k < |b| ==> (bh[k] <==> !EqH(b, h, f[k - 1], f[k])))
      && Sentinels(bh, |b|);
    holds
  }

  ghost predicate Sentinels(bh: seq<bool>, n: nat) {
    var holds :=
      && n + 64 <= |bh| && bh[n] && !bh[n + 1]
      && forall i :: 0 <= i < 32 ==> bh[n + 2 * i] && !bh[n + 2 * i + 1];
    holds
  }

  /** Position k starts the bucket of some byte value. */
  ghost predicate Starts(b: seq<byte>, k: int, limit: int) {
    exists c :: 0 <= c < limit && CountBelow(b, c) == k
  }

  /** A bucket starts exactly where the byte changes from x to y. */
  lemma BoundaryBetween(b: seq<byte>, x: int, y: int, k: int)
    requires 0 <= x < 256 && 0 <= y < 256
    requires CountBelow(b, x) <= k - 1 < CountBelow(b, x + 1)
    requires CountBelow(b, y) <= k < CountBelow(b, y + 1)
    ensures x <= y && (Starts(b, k, 256) <==> x != y)
  {
    if y < x { CountBelowMono(b, y + 1, x); assert false; }
    if x < y {
      CountBelowMono(b, x + 1, y);
    } else {
      forall c | 0 <= c < 256 ensures CountBelow(b, c) != k {
        if c <= x { CountBelowMono(b, c, x); } else { CountBelowMono(b, x + 1, c); }
      }
    }
  }

  lemma RadixHeader(b: seq<byte>, f: seq<int>, k: int)
    requires RadixSorted(b, f) && 0 <= k < |b|
    ensures Starts(b, k, 256) <==> k == 0 || !EqH(b, 1, f[k - 1], f[k])
  {
    if k == 0 {
      CountBelowStep(b, 0);
    } else {
      var x: int, y: int := b[f[k - 1]], b[f[k]];
      BoundaryBetween(b, x, y, k);
    }
  }

  lemma RadixSortedH(b: seq<byte>, f: seq<int>)
    requires RadixSorted(b, f)
    ensures SortedH(b, 1, f)
  {
    forall x, y | 0 <= x < y < |b| ensures LeH(b, 1, f[x], f[y]) {
      var c: int, d: int := b[f[x]], b[f[y]];
      if d < c { CountBelowMono(b, d + 1, c); assert false; }
    }
  }

  /** Clears the table and sets the bit of each bucket start. */
  method MarkStarts(bh: array<bool>, ftab: array<int>, n: nat, ghost b: seq<byte>)
    requires ftab.Length == 257 && n == |b| && 32 * (3 + n / 32) <= bh.Length
    requires forall c :: 0 <= c < 256 ==> ftab[c] == CountBelow(b, c)
    modifies bh
    ensures forall k :: 0 <= k < n ==> (bh[k] <==> Starts(b, k, 256))
  {
    var i := 0;
    while i < 32 * (2 + n / 32)
      invariant 0 <= i <= 32 * (2 + n / 32)
      invariant forall k :: 0 <= k < i ==> !bh[k]
    {
      bh[i] := false;
      i := i + 1;
    }
    i := 0;
    while i < 256
      invariant 0 <= i <= 256
      invariant forall k :: 0 <= k < n ==> (bh[k] <==> Starts(b, k, i))
    {
      CountBelowMono(b, i, 256);
      CountBelowStep(b, 256);
      forall k ensures Starts(b, k, i + 1) <==> Starts(b, k, i) || k == CountBelow(b, i) {
        if k == CountBelow(b, i) { assert Starts(b, k, i + 1); }
        if Starts(b, k, i) {
          var c :| 0 <= c < i && CountBelow(b, c) == k;
          assert Starts(b, k, i + 1);
        }
      }
      bh[ftab[i]] := true;
      i := i + 1;
    }
  }

  /** Writes the alternating pattern that stops the bucket scan at the block's end. */
  method SetSentinels(bh: array<bool>, n: nat)
    requires n + 64 <= bh.Length
    modifies bh
    ensures Sentinels(bh[..], n)
    ensures forall k :: 0 <= k < n ==> bh[k] == old(bh[k])
  {
    var i := 0;
    while i < 32
      invariant 0 <= i <= 32
      invariant forall k :: 0 <= k < n ==> bh[k] == old(bh[k])
      invariant forall j :: 0 <= j < i ==> bh[n + 2 * j] && !bh[n + 2 * j + 1]
    {
      bh[n + 2 * i] := true;
      bh[n + 2 * i + 1] := false;
      i := i + 1;
    }
    assert bh[n + 2 * 0] && !bh[n + 2 * 0 + 1];
  }

  method MarkBuckets(bh: array<bool>, ftab: array<int>, ghost b: seq<byte>, n: nat, ghost f: seq<int>)
    requires ftab.Length == 257 && |b| == n && 32 * (3 + n / 32) <= bh.Length
    requires RadixSorted(b, f)
    requires forall c :: 0 <= c < 256 ==> ftab[c] == CountBelow(b, c)
    modifies bh
    ensures Headers(bh[..], b, 1, f)
  {
    if n > 0 { RadixHeader(b, f, 0); }
    MarkStarts(bh, ftab, n, b);
    SetSentinels(bh, n);
    forall k | 0 <= k < n ensures Starts(b, k, 256) <==> k == 0 || !EqH(b, 1, f[k - 1], f[k]) {
      RadixHeader(b, f, k);
    }
  }

  /** All 32 bits of the word holding k equal v. */
  predicate WordIs(bh: array<bool>, k: int, v: bool)
    requires 0 <= k && k / 32 * 32 + 32 <= bh.Length
    reads bh
  {
    forall x :: k / 32 * 32 <= x < k / 32 * 32 + 32 ==> bh[x] == v
  }

  /** The first position at or after k0 whose bit differs from v, found word by word. */
  method Scan(bh: array<bool>, k0: int, v: bool, ghost limit: int) returns (k: int)
    requires 0 <= k0 <= limit && limit + 32 <= bh.Length && bh[limit] != v
    ensures k0 <= k <= limit && bh[k] != v
    ensures forall x :: k0 <= x < k ==> bh[x] == v
  {
    k := k0;
    while bh[k] == v && k % 32 != 0
      invariant k0 <= k <= limit
      decreases limit - k
      invariant forall x :: k0 <= x < k ==> bh[x] == v
    {
      k := k + 1;
    }
    if bh[k] == v {
      while WordIs(bh, k, v)
        invariant k0 <= k <= limit && k % 32 == 0
        invariant forall x :: k0 <= x < k ==> bh[x] == v
        decreases limit - k
      {
        assert forall x :: k <= x < k + 32 ==> bh[x] == v;
        k := k + 32;
      }
      while bh[k] == v
        invariant k0 <= k <= limit
        decreases limit - k
        invariant forall x :: k0 <= x < k ==> bh[x] == v
      {
        k := k + 1;
      }
    }
  }

  // ---- One doubling pass ----

  /** The first row of the bucket that holds row i. */
  ghost function Start(bh: seq<bool>, i: nat): (s: nat)
    requires i < |bh|
    ensures s <= i
  {
    if i == 0 || bh[i] then i else Start(bh, i - 1)
  }

  lemma {:induction false} StartRun(bh: seq<bool>, b: seq<byte>, h: nat, f: seq<int>, j: int, i: int)
    requires IsPerm(f, |b|) && SortedH(b, h, f) && Headers(bh, b, h, f)
    requires 0 <= j <= i < |b|
    ensures Start(bh, j) <= Start(bh, i)
    ensures Start(bh, j) == Start(bh, i) <==> EqH(b, h, f[j], f[i])
    decreases i
  {
    if j == i {
      EqRefl(b, h, f[i]);
    } else {
      StartRun(bh, b, h, f, j, i - 1);
      LeTotal(b, h, f[i - 1], f[i]);
      if bh[i] {
        if EqH(b, h, f[j], f[i]) {
          LeTotal(b, h, f[j], f[i]);
          LeTotal(b, h, f[j], f[i - 1]);
          LeTrans(b, h, f[i], f[j], f[i - 1]);
          assert false;
        }
      } else {
        EqSym(b, h, f[i - 1], f[i]);
        if EqH(b, h, f[j], f[i - 1]) { EqTrans(b, h, f[j], f[i - 1], f[i]); }
        if EqH(b, h, f[j], f[i]) { EqTrans(b, h, f[j], f[i], f[i - 1]); }
      }
    }
  }

  /** Bucket starts order rows as their h-byte prefixes do. */
  lemma StartOrder(bh: seq<bool>, b: seq<byte>, h: nat, f: seq<int>, i: int, j: int)
    requires IsPerm(f, |b|) && SortedH(b, h, f) && Headers(bh, b, h, f)
    requires 0 <= i < |b| && 0 <= j < |b|
    ensures Start(bh, i) <= Start(bh, j) <==> LeH(b, h, f[i], f[j])
  {
    LeTotal(b, h, f[i], f[j]);
    if i <= j {
      StartRun(bh, b, h, f, i, j);
      if i == j { EqRefl(b, h, f[i]); }
    } else {
      StartRun(bh, b, h, f, j, i);
      LeTotal(b, h, f[j], f[i]);
    }
  }

  function Back(x: int, h: int, n: int): (r: int)
    requires 0 <= x < n && 0 <= h <= n
    ensures 0 <= r < n && (r + h == x || r + h == x + n)
  {
    if x - h < 0 then x - h + n else x - h
  }

  /** `ec` ranks each rotation by the h bytes that follow its first h. */
  ghost predicate Classes(ec: seq<int>, b: seq<byte>, h: nat) {
    var holds :=
      && |ec| == |b| && h <= |b|
      && forall x, y :: 0 <= x < |b| && 0 <= y < |b| ==>
          (ec[x] <= ec[y] <==> LeH(b, h, Wrap(x + h, |b|), Wrap(y + h, |b|)));
    holds
  }

  lemma ClassesFromStarts(ec: seq<int>, bh: seq<bool>, b: seq<byte>, h: nat, f: seq<int>)
    requires IsPerm(f, |b|) && SortedH(b, h, f) && Headers(bh, b, h, f)
    requires |ec| == |b| && h <= |b|
    requires forall i :: 0 <= i < |b| ==> ec[Back(f[i], h, |b|)] == Start(bh, i)
    ensures Classes(ec, b, h)
  {
    forall x, y | 0 <= x < |b| && 0 <= y < |b|
      ensures ec[x] <= ec[y] <==> LeH(b, h, Wrap(x + h, |b|), Wrap(y + h, |b|))
    {
      PermOnto(f, |b|, Wrap(x + h, |b|));
      PermOnto(f, |b|, Wrap(y + h, |b|));
      var i :| 0 <= i < |b| && f[i] == Wrap(x + h, |b|);
      var j :| 0 <= j < |b| && f[j] == Wrap(y + h, |b|);
      assert Back(f[i], h, |b|) == x && Back(f[j], h, |b|) == y;
      StartOrder(bh, b, h, f, i, j);
    }
  }

  /** Gives every rotation the bucket of the rotation H bytes further on. */
  method AssignClasses(fmap: array<int>, eclass: array<int>, bh: array<bool>, h: int, n: int)
    requires fmap != eclass && fmap.Length == eclass.Length == n <= bh.Length && 0 < h <= n
    requires IsPerm(fmap[..], n)
    modifies eclass
    ensures forall i :: 0 <= i < n ==> eclass[Back(fmap[i], h, n)] == Start(bh[..], i)
  {
    var i, j := 0, 0;
    while i < n
      invariant 0 <= i <= n && j == if i == 0 then 0 else Start(bh[..], i - 1)
      invariant forall x :: 0 <= x < i ==> eclass[Back(fmap[x], h, n)] == Start(bh[..], x)
    {
      if bh[i] { j := i; }
      var k := fmap[i] - h;
      if k < 0 { k := k + n; }
      assert forall x :: 0 <= x < i ==> fmap[..][x] != fmap[..][i];
      assert forall x :: 0 <= x < i ==> Back(fmap[x], h, n) != k;
      eclass[k] := j;
      i := i + 1;
    }
  }

  /** Rows 0..r are sorted and marked by 2h bytes; later rows are as the pass found them. */
  ghost predicate Advanced(b: seq<byte>, h: nat, f0: seq<int>, f: seq<int>, bh0: seq<bool>, bh: seq<bool>, r: int)
    requires IsPerm(f0, |b|)
  {
    var holds :=
      && IsPerm(f, |b|) && |bh| == |bh0| && |b| < |bh| && -1 <= r
      && (forall k :: r < k < |b| ==> f[k] == f0[k])
      && (forall k :: r < k < |bh| ==> bh[k] == bh0[k])
      && (forall k :: 0 <= k < |b| ==> EqH(b, h, f[k], f0[k]))
      && (r >= 0 ==> bh[0])
      && forall k :: 0 < k <= r && k < |b| ==> Step2(b, h, f, bh, k);
    holds
  }

  ghost predicate Step2(b: seq<byte>, h: nat, f: seq<int>, bh: seq<bool>, k: int)
    requires IsPerm(f, |b|) && |b| < |bh| && 0 < k < |b|
  {
    LeH(b, 2 * h, f[k - 1], f[k]) && (bh[k] <==> !EqH(b, 2 * h, f[k - 1], f[k]))
  }

  /** Rows in different buckets stay in order, and apart, on any longer prefix. */
  lemma AcrossBuckets(b: seq<byte>, h: nat, x0: int, y0: int, x: int, y: int)
    requires 0 <= x0 < |b| && 0 <= y0 < |b| && 0 <= x < |b| && 0 <= y < |b| && h <= |b|
    requires LeH(b, h, x0, y0) && !EqH(b, h, x0, y0) && EqH(b, h, x, x0) && EqH(b, h, y, y0)
    ensures LeH(b, 2 * h, x, y) && !EqH(b, 2 * h, x, y)
  {
    LeTotal(b, h, x0, y0);
    LeTotal(b, h, x, x0);
    LeTotal(b, h, y, y0);
    if LeH(b, h, y, x) {
      LeTrans(b, h, y0, y, x);
      LeTrans(b, h, y0, x, x0);
      assert false;
    }
    LeTotal(b, h, x, y);
    LeSplit(b, h, h, 2 * h, x, y);
    EqSplit(b, h, h, 2 * h, x, y);
  }

  /** Inside a bucket the classes cx and cy of the following bytes decide. */
  lemma InsideBucket(b: seq<byte>, h: nat, x: int, y: int, cx: int, cy: int)
    requires 0 <= x < |b| && 0 <= y < |b| && h <= |b|
    requires cx <= cy <==> LeH(b, h, Wrap(x + h, |b|), Wrap(y + h, |b|))
    requires cy <= cx <==> LeH(b, h, Wrap(y + h, |b|), Wrap(x + h, |b|))
    requires EqH(b, h, x, y) && cx <= cy
    ensures LeH(b, 2 * h, x, y)
    ensures cx == cy <==> EqH(b, 2 * h, x, y)
  {
    LeSplit(b, h, h, 2 * h, x, y);
    EqSplit(b, h, h, 2 * h, x, y);
    LeTotal(b, h, Wrap(x + h, |b|), Wrap(y + h, |b|));
  }

  lemma {:induction false} AdjacentSorted(b: seq<byte>, h: nat, f: seq<int>, x: int, y: int)
    requires IsPerm(f, |b|) && 0 <= x < y < |b|
    requires forall k :: 0 < k < |b| ==> LeH(b, h, f[k - 1], f[k])
    ensures LeH(b, h, f[x], f[y])
    decreases y
  {
    if x < y - 1 {
      AdjacentSorted(b, h, f, x, y - 1);
      LeTrans(b, h, f[x], f[y - 1], f[y]);
    }
  }

  lemma PassDone(b: seq<byte>, h: nat, f0: seq<int>, f: seq<int>, bh0: seq<bool>, bh: seq<bool>)
    requires IsPerm(f0, |b|) && Advanced(b, h, f0, f, bh0, bh, |b| - 1)
    requires |b| > 0 && Sentinels(bh0, |b|)
    ensures SortedH(b, 2 * h, f) && Headers(bh, b, 2 * h, f)
  {
    forall k | 0 < k < |b| ensures LeH(b, 2 * h, f[k - 1], f[k]) { assert Step2(b, h, f, bh, k); }
    forall x, y | 0 <= x < y < |b| ensures LeH(b, 2 * h, f[x], f[y]) { AdjacentSorted(b, 2 * h, f, x, y); }
    forall k | 0 < k < |b| ensures bh[k] <==> !EqH(b, 2 * h, f[k - 1], f[k]) {
      assert Step2(b, h, f, bh, k);
    }
  }

  /** Rows up to l, each a bucket of its own or the start of the next one, need no work. */
  lemma SkipSingles(b: seq<byte>, h: nat, ec: seq<int>, f0: seq<int>, f: seq<int>, bh0: seq<bool>, bh: seq<bool>,
                    r: int, l: int)
    requires PassInput(b, h, ec, f0, bh0)
    requires Advanced(b, h, f0, f, bh0, bh, r) && -1 <= r <= l < |b|
    requires forall k :: r < k <= l ==> bh0[k]
    ensures Advanced(b, h, f0, f, bh0, bh, l)
  {
    forall k | 0 < k <= l && k < |b| ensures Step2(b, h, f, bh, k) {
      if r < k { AcrossBuckets(b, h, f0[k - 1], f0[k], f[k - 1], f[k]); }
    }
  }

  /** g and bg are f and bh after rows l..r were sorted by class and re-marked. */
  ghost predicate Resorted(f: seq<int>, g: seq<int>, ec: seq<int>, bh: seq<bool>, bg: seq<bool>, l: int, r: int) {
    var holds :=
      && |g| == |f| && |bg| == |bh| && 0 <= l < r < |f| && r < |bh|
      && multiset(f) == multiset(g) && Within(g, ec)
      && (forall k :: 0 <= k < |f| && (k < l || r < k) ==> g[k] == f[k])
      && SortedBy(g, ec, l, r)
      && (forall k :: 0 <= k < |bh| && !(l < k <= r) ==> bg[k] == bh[k])
      && (forall k :: l < k <= r ==> (bg[k] <==> ec[g[k - 1]] != ec[g[k]]));
    holds
  }

  /** Sorts the bucket l..r by class and sets the header bits of its sub-buckets. */
  method SortBucket(fmap: array<int>, eclass: array<int>, bh: array<bool>, l: int, r: int)
    requires fmap != eclass && Within(fmap[..], eclass[..])
    requires 0 <= l < r < fmap.Length < Pow2(31) && r < bh.Length
    requires bh[l] && forall k :: l < k <= r ==> !bh[k]
    modifies fmap, bh
    ensures Resorted(old(fmap[..]), fmap[..], eclass[..], old(bh[..]), bh[..], l, r)
  {
    QSort3(fmap, eclass, l, r);
    ghost var f, was := fmap[..], bh[..];
    MarkKeys(fmap, eclass, bh, l, r);
    assert fmap[..] == f && old(bh[..]) == was;
  }

  /** A new bucket begins wherever the key changes. */
  method MarkKeys(fmap: array<int>, eclass: array<int>, bh: array<bool>, l: int, r: int)
    requires Within(fmap[..], eclass[..]) && 0 <= l < r < fmap.Length && r < bh.Length && bh[l]
    requires forall k :: l < k <= r ==> !bh[k]
    modifies bh
    ensures forall k :: 0 <= k < bh.Length && !(l < k <= r) ==> bh[k] == old(bh[k])
    ensures forall k :: l < k <= r ==> (bh[k] <==> eclass[fmap[k - 1]] != eclass[fmap[k]])
  {
    ghost var f := fmap[..];
    var cc := -1;
    var i := l;
    while i <= r
      invariant l <= i <= r + 1 && (i > l ==> cc == eclass[f[i - 1]])
      invariant forall k :: 0 <= k < bh.Length && !(l < k < i) ==> bh[k] == old(bh[k])
      invariant forall k :: l < k < i ==> (bh[k] <==> eclass[f[k - 1]] != eclass[f[k]])
    {
      var cc1 := eclass[fmap[i]];
      if cc != cc1 { bh[i] := true; cc := cc1; }
      i := i + 1;
    }
  }

  lemma DistinctMultiset(a: seq<int>, b: seq<int>)
    requires multiset(a) == multiset(b) && Distinct(a)
    ensures Distinct(b)
  {
    assert |a| == |multiset(a)| == |multiset(b)| == |b|;
    forall i, j | 0 <= i < j < |b| ensures b[i] != b[j] {
      if b[i] == b[j] {
        var x := b[i];
        assert b == b[..i] + [x] + b[i + 1..j] + [x] + b[j + 1..];
        assert multiset(b)[x] >= 2;
        AtMostOnce(a, x);
        assert false;
      }
    }
  }

  lemma {:induction false} AtMostOnce(a: seq<int>, x: int)
    requires Distinct(a)
    ensures multiset(a)[x] <= 1
  {
    if a != [] {
      var n := |a| - 1;
      assert a == a[..n] + [a[n]];
      AtMostOnce(a[..n], x);
      if a[n] == x { assert x !in a[..n]; }
    }
  }

  /** What one pass starts from. */
  ghost predicate PassInput(b: seq<byte>, h: nat, ec: seq<int>, f0: seq<int>, bh0: seq<bool>) {
    var holds :=
      IsPerm(f0, |b|) && SortedH(b, h, f0) && Headers(bh0, b, h, f0) && Classes(ec, b, h);
    holds
  }

  /** Sorting bucket l..r by class advances the rows up to r. */
  lemma BucketAdvanced(b: seq<byte>, h: nat, ec: seq<int>, f0: seq<int>, f: seq<int>, g: seq<int>,
                       bh0: seq<bool>, bh: seq<bool>, bg: seq<bool>, l: int, r: int)
    requires PassInput(b, h, ec, f0, bh0) && 0 <= l < r < |b|
    requires Advanced(b, h, f0, f, bh0, bh, l) && Resorted(f, g, ec, bh, bg, l, r)
    requires bh0[l] && forall k :: l < k <= r ==> !bh0[k]
    ensures Advanced(b, h, f0, g, bh0, bg, r)
  {
    DistinctMultiset(f, g);
    forall k | 0 <= k < |b| ensures EqH(b, h, g[k], f0[k]) {
      if l <= k <= r { BucketMember(b, h, f0, f, g, bh0, l, r, k); }
    }
    forall k | 0 < k <= r ensures Step2(b, h, g, bg, k) {
      if l < k {
        var x, y := g[k - 1], g[k];
        EqSym(b, h, y, f0[k]);
        EqTrans(b, h, x, f0[k - 1], f0[k]);
        EqTrans(b, h, x, f0[k], y);
        assert ec[g[k - 1]] <= ec[g[k]];
        InsideBucket(b, h, x, y, ec[x], ec[y]);
      } else if k < l {
        assert Step2(b, h, f, bh, k);
      } else {
        BucketMember(b, h, f0, f, g, bh0, l, r, k);
        AcrossBuckets(b, h, f0[k - 1], f0[k], g[k - 1], g[k]);
        AcrossBuckets(b, h, f0[k - 1], f0[k], f[k - 1], f[k]);
        assert Step2(b, h, f, bh, k);
      }
    }
  }

  lemma BucketMember(b: seq<byte>, h: nat, f0: seq<int>, f: seq<int>, g: seq<int>, bh0: seq<bool>, l: int, r: int,
                     k: int)
    requires IsPerm(f0, |b|) && SortedH(b, h, f0) && Headers(bh0, b, h, f0) && IsPerm(f, |b|) && IsPerm(g, |b|)
    requires 0 <= l <= k <= r < |b| && multiset(f) == multiset(g)
    requires forall x :: 0 <= x < |b| && (x < l || r < x) ==> g[x] == f[x]
    requires forall x :: l < x <= r ==> !bh0[x]
    requires forall x :: 0 <= x < |b| ==> EqH(b, h, f[x], f0[x])
    ensures EqH(b, h, g[k], f0[k])
  {
    SliceKeeps(g, f, l, r, k);
    var y :| l <= y <= r && f[y] == g[k];
    SameBucket(b, h, f0, bh0, l, r, y);
    SameBucket(b, h, f0, bh0, l, r, k);
    EqSym(b, h, f0[l], f0[y]);
    EqTrans(b, h, g[k], f0[y], f0[l]);
    EqTrans(b, h, g[k], f0[l], f0[k]);
  }

  lemma {:induction false} SameBucket(b: seq<byte>, h: nat, f0: seq<int>, bh0: seq<bool>, l: int, r: int, k: int)
    requires IsPerm(f0, |b|) && Headers(bh0, b, h, f0) && 0 <= l <= k <= r < |b|
    requires forall x :: l < x <= r ==> !bh0[x]
    ensures EqH(b, h, f0[l], f0[k])
    decreases k
  {
    if k == l {
      EqRefl(b, h, f0[l]);
    } else {
      SameBucket(b, h, f0, bh0, l, r, k - 1);
      EqTrans(b, h, f0[l], f0[k - 1], f0[k]);
    }
  }

  /** Finds the next bucket l..r with more than one row after row r0. */
  method NextBucket(bh: array<bool>, r0: int, n: int) returns (found: bool, l: int, r: int)
    requires -1 <= r0 < n && Sentinels(bh[..], n) && bh[r0 + 1]
    ensures found ==> r0 < l < r < n && bh[r + 1]
    ensures found ==> (forall k :: r0 < k <= l ==> bh[k]) && forall k :: l < k <= r ==> !bh[k]
    ensures !found ==> forall k :: r0 < k < n ==> bh[k]
  {
    var k := Scan(bh, r0 + 1, true, n + 1);
    l := k - 1;
    r := l;
    if l >= n { return false, l, r; }
    k := Scan(bh, k, false, n);
    r := k - 1;
    found := r < n;
  }

  /** Rows r0+1..l are singletons or a bucket start, and l..r is one larger bucket. */
  ghost predicate Found(bh: seq<bool>, r0: int, l: int, r: int) {
    var holds :=
      && -1 <= r0 < l < r && r + 1 < |bh| && bh[r + 1]
      && (forall k :: r0 < k <= l ==> bh[k]) && (forall k :: l < k <= r ==> !bh[k]);
    holds
  }

  /** Finds and splits the next bucket; `size` counts its rows, 0 when none is left. */
  method SplitNext(fmap: array<int>, eclass: array<int>, bh: array<bool>, r0: int, n: int)
    returns (size: nat, ghost l: int, r: int)
    requires fmap != eclass && fmap.Length == n < Pow2(31) && Within(fmap[..], eclass[..])
    requires -1 <= r0 < n && Sentinels(bh[..], n) && bh[r0 + 1]
    modifies fmap, bh
    ensures size == 0 ==> fmap[..] == old(fmap[..]) && bh[..] == old(bh[..]) && r == n - 1
    ensures size == 0 ==> forall k :: r0 < k < n ==> bh[k]
    ensures size > 0 ==> r < n && Found(old(bh[..]), r0, l, r)
    ensures size > 0 ==> Resorted(old(fmap[..]), fmap[..], eclass[..], old(bh[..]), bh[..], l, r)
  {
    var found, l', r' := NextBucket(bh, r0, n);
    l := l';
    if !found { return 0, l, n - 1; }
    SortBucket(fmap, eclass, bh, l', r');
    return r' - l' + 1, l, r';
  }

  /** The bits the scan relies on are untouched past row r. */
  lemma ScanReady(b: seq<byte>, h: nat, ec: seq<int>, f0: seq<int>, f: seq<int>, bh0: seq<bool>, bh: seq<bool>, r: int)
    requires PassInput(b, h, ec, f0, bh0) && -1 <= r < |b| && bh0[r + 1]
    requires Advanced(b, h, f0, f, bh0, bh, r)
    ensures Sentinels(bh, |b|) && bh[r + 1] && Within(f, ec)
  {
    assert forall i :: 0 <= i < 32 ==>
      bh[|b| + 2 * i] == bh0[|b| + 2 * i] && bh[|b| + 2 * i + 1] == bh0[|b| + 2 * i + 1];
  }

  lemma NextAdvanced(b: seq<byte>, h: nat, ec: seq<int>, f0: seq<int>, f: seq<int>, g: seq<int>,
                     bh0: seq<bool>, bh: seq<bool>, bg: seq<bool>, r0: int, l: int, r: int)
    requires PassInput(b, h, ec, f0, bh0) && r < |b|
    requires Advanced(b, h, f0, f, bh0, bh, r0) && Found(bh, r0, l, r) && Resorted(f, g, ec, bh, bg, l, r)
    ensures Advanced(b, h, f0, g, bh0, bg, r) && bh0[r + 1]
  {
    SkipSingles(b, h, ec, f0, f, bh0, bh, r0, l);
    BucketAdvanced(b, h, ec, f0, f, g, bh0, bh, bg, l, r);
  }

  /** One pass: every bucket of equal h-byte prefixes is split by the next h bytes. */
  method DoublingPass(fmap: array<int>, eclass: array<int>, bh: array<bool>, h: int, n: int, ghost b: seq<byte>)
    returns (nNotDone: int)
    requires fmap != eclass && fmap.Length == eclass.Length == n == |b| < Pow2(31)
    requires 0 < h <= n && n + 64 <= bh.Length
    requires IsPerm(fmap[..], n) && SortedH(b, h, fmap[..]) && Headers(bh[..], b, h, fmap[..])
    modifies fmap, eclass, bh
    ensures IsPerm(fmap[..], n) && SortedH(b, 2 * h, fmap[..]) && Headers(bh[..], b, 2 * h, fmap[..])
    ensures nNotDone == 0 ==> forall k :: 0 <= k < n ==> bh[k]
  {
    AssignClasses(fmap, eclass, bh, h, n);
    ghost var f0, bh0 := fmap[..], bh[..];
    ClassesFromStarts(eclass[..], bh0, b, h, f0);
    PassBegins(b, h, f0, bh0);
    nNotDone := SplitBuckets(fmap, eclass, bh, n, b, h, f0, bh0);
    PassDone(b, h, f0, fmap[..], bh0, bh[..]);
  }

  /** The buckets up to row r have been split by class; r ends one. */
  ghost predicate Passing(b: seq<byte>, h: nat, ec: seq<int>, f0: seq<int>, bh0: seq<bool>, f: seq<int>,
                          bh: seq<bool>, r: int) {
    && -1 <= r < |b|
    && forall i {:trigger Gate(i)} :: Gate(i) ==>
      PassInput(b, h, ec, f0, bh0) && |b| < |bh0| && bh0[r + 1] && Advanced(b, h, f0, f, bh0, bh, r)
  }

  lemma PassReady(b: seq<byte>, h: nat, ec: seq<int>, f0: seq<int>, bh0: seq<bool>, f: seq<int>, bh: seq<bool>, r: int)
    requires Passing(b, h, ec, f0, bh0, f, bh, r)
    ensures -1 <= r < |b| && Sentinels(bh, |b|) && bh[r + 1] && Within(f, ec)
  {
    assert Gate(0);
    ScanReady(b, h, ec, f0, f, bh0, bh, r);
  }

  lemma PassNext(b: seq<byte>, h: nat, ec: seq<int>, f0: seq<int>, bh0: seq<bool>, f: seq<int>, bh: seq<bool>, r0: int,
                 g: seq<int>, bg: seq<bool>, l: int, r: int)
    requires Passing(b, h, ec, f0, bh0, f, bh, r0) && r < |b| && Found(bh, r0, l, r) && Resorted(f, g, ec, bh, bg, l, r)
    ensures Passing(b, h, ec, f0, bh0, g, bg, r) && r0 < r
  {
    assert Gate(0);
    NextAdvanced(b, h, ec, f0, f, g, bh0, bh, bg, r0, l, r);
  }

  lemma PassEnds(b: seq<byte>, h: nat, ec: seq<int>, f0: seq<int>, bh0: seq<bool>, f: seq<int>, bh: seq<bool>, r: int,
                 last: int)
    requires Passing(b, h, ec, f0, bh0, f, bh, r) && last == |b| - 1
    requires |b| <= |bh| && forall k :: r < k < |b| ==> bh[k]
    ensures PassInput(b, h, ec, f0, bh0) && Advanced(b, h, f0, f, bh0, bh, last)
  {
    assert Gate(0);
    SkipSingles(b, h, ec, f0, f, bh0, bh, r, last);
  }

  method SplitBuckets(fmap: array<int>, eclass: array<int>, bh: array<bool>, n: int,
                      ghost b: seq<byte>, ghost h: nat, ghost f0: seq<int>, ghost bh0: seq<bool>)
    returns (nNotDone: int)
    requires fmap != eclass && fmap.Length == n == |b| < Pow2(31) && |b| > 0
    requires PassInput(b, h, eclass[..], f0, bh0)
    requires Advanced(b, h, f0, fmap[..], bh0, bh[..], -1)
    modifies fmap, bh
    ensures Advanced(b, h, f0, fmap[..], bh0, bh[..], n - 1)
    ensures nNotDone == 0 ==> forall k :: 0 <= k < n ==> bh[k]
  {
    nNotDone := 0;
    var r := -1;
    while true
      modifies fmap, bh
      invariant 0 <= nNotDone && Passing(b, h, eclass[..], f0, bh0, fmap[..], bh[..], r) && -1 <= r < n
      invariant nNotDone == 0 ==> r == -1
      decreases n - r
    {
      ghost var r0 := r;
      var size;
      size, r := SplitOne(fmap, eclass, bh, r, n, b, h, f0, bh0);
      if size == 0 {
        PassEnds(b, h, eclass[..], f0, bh0, fmap[..], bh[..], r0, n - 1);
        break;
      }
      nNotDone := nNotDone + size;
    }
  }

  /** The next bucket of more than one entry, or none up to the end. */
  method SplitOne(fmap: array<int>, eclass: array<int>, bh: array<bool>, r0: int, n: int,
                  ghost b: seq<byte>, ghost h: nat, ghost f0: seq<int>, ghost bh0: seq<bool>)
    returns (size: nat, r: int)
    requires fmap != eclass && fmap.Length == n == |b| < Pow2(31)
    requires Passing(b, h, eclass[..], f0, bh0, fmap[..], bh[..], r0)
    modifies fmap, bh
    ensures size == 0 ==> Passing(b, h, eclass[..], f0, bh0, fmap[..], bh[..], r0) && r == n - 1
    ensures size == 0 ==> n <= bh.Length && forall k :: r0 < k < n ==> bh[k]
    ensures size > 0 ==> Passing(b, h, eclass[..], f0, bh0, fmap[..], bh[..], r) && r0 < r < n
  {
    ghost var f, bits, ec := fmap[..], bh[..], eclass[..];
    PassReady(b, h, ec, f0, bh0, f, bits, r0);
    ghost var l;
    size, l, r := SplitNext(fmap, eclass, bh, r0, n);
    if size > 0 { PassNext(b, h, ec, f0, bh0, f, bits, r0, fmap[..], bh[..], l, r); }
  }

  lemma PassBegins(b: seq<byte>, h: nat, f0: seq<int>, bh0: seq<bool>)
    requires IsPerm(f0, |b|) && Headers(bh0, b, h, f0)
    ensures Advanced(b, h, f0, f0, bh0, bh0, -1)
  {
    forall k | 0 <= k < |b| ensures EqH(b, h, f0[k], f0[k]) { EqRefl(b, h, f0[k]); }
  }

  // ---- The whole sorter ----

  /** Row i of any sorted listing starts with the byte whose bucket covers i. */
  lemma RowByte(b: seq<byte>, f1: seq<int>, f: seq<int>, i: int, j: int)
    requires RadixSorted(b, f1) && IsPerm(f, |b|) && SortedH(b, 1, f)
    requires 0 <= i < |b| && 0 <= j < 256 && CountBelow(b, j) <= i < CountBelow(b, j + 1)
    ensures b[f[i]] == j
  {
    RadixSortedH(b, f1);
    SortedRowsAgree(b, 1, f, f1, i);
    var c: int := b[f1[i]];
    assert CountBelow(b, c) <= i < CountBelow(b, c + 1);
    if c < j { CountBelowMono(b, c + 1, j); assert false; }
    if j < c { CountBelowMono(b, j + 1, c); assert false; }
  }

  /** Rewrites the block from the byte counts and the sorted rows alone. */
  method Rebuild(fmap: array<int>, ftabCopy: array<int>, block: array<byte>, n: int, ghost b: seq<byte>,
                 ghost f1: seq<int>)
    requires fmap != ftabCopy && fmap.Length == block.Length == n == |b| && ftabCopy.Length == 256
    requires RadixSorted(b, f1) && IsPerm(fmap[..], n) && SortedH(b, 1, fmap[..])
    requires forall c :: 0 <= c < 256 ==> ftabCopy[c] == Count(b, c)
    modifies ftabCopy, block
    ensures block[..] == b
  {
    ghost var f := fmap[..];
    var i, j := 0, 0;
    CountBelowStep(b, 0);
    CountBelowStep(b, 256);
    while i < n
      modifies ftabCopy, block
      invariant 0 <= i <= n && 0 <= j < 256
      invariant CountBelow(b, j) <= i && ftabCopy[j] == CountBelow(b, j + 1) - i >= 0
      invariant forall c :: j < c < 256 ==> ftabCopy[c] == Count(b, c)
      invariant forall x :: 0 <= x < i ==> block[f[x]] == b[f[x]]
    {
      while ftabCopy[j] == 0
        modifies {}
        invariant 0 <= j < 256
        invariant CountBelow(b, j) <= i && ftabCopy[j] == CountBelow(b, j + 1) - i >= 0
        decreases 256 - j
      {
        assert j != 255;
        j := j + 1;
        CountBelowStep(b, j);
      }
      RowByte(b, f1, f, i, j);
      ftabCopy[j] := ftabCopy[j] - 1;
      assert forall x :: 0 <= x < i ==> f[x] != f[i];
      block[fmap[i]] := j;
      i := i + 1;
    }
    forall y | 0 <= y < n ensures block[y] == b[y] {
      PermOnto(f, n, y);
      var x :| 0 <= x < n && f[x] == y;
    }
  }

  /** A prefix sort that is deep enough, or leaves no ties, is a sort by whole rotations. */
  lemma FullySorted(b: seq<byte>, h: nat, f: seq<int>, bh: seq<bool>)
    requires IsPerm(f, |b|) && SortedH(b, h, f) && Headers(bh, b, h, f)
    requires |b| < h || forall k :: 0 <= k < |b| ==> bh[k]
    ensures SortedH(b, |b|, f)
  {
    if |b| < h {
      forall x, y | 0 <= x < y < |b| ensures LeH(b, |b|, f[x], f[y]) { LeShorter(b, |b|, h, f[x], f[y]); }
    } else {
      forall k | 0 < k < |b| ensures LeH(b, |b|, f[k - 1], f[k]) {
        assert bh[k];
        assert LeH(b, h, f[k - 1], f[k]);
        LeTotal(b, h, f[k - 1], f[k]);
        LeSplit(b, h, |b| - h, |b|, f[k - 1], f[k]);
      }
      forall x, y | 0 <= x < y < |b| ensures LeH(b, |b|, f[x], f[y]) { AdjacentSorted(b, |b|, f, x, y); }
    }
  }

  /** Doubles the sorted prefix until whole rotations are sorted. */
  method DoubleUntilSorted(fmap: array<int>, eclass: array<int>, bh: array<bool>, n: int, ghost b: seq<byte>)
    requires fmap != eclass && 0 < fmap.Length == eclass.Length == n == |b| < Pow2(31)
    requires n + 64 <= bh.Length
    requires IsPerm(fmap[..], n) && SortedH(b, 1, fmap[..]) && Headers(bh[..], b, 1, fmap[..])
    modifies fmap, eclass, bh
    ensures IsPerm(fmap[..], n) && SortedH(b, n, fmap[..])
  {
    var h := 1;
    while true
      modifies fmap, eclass, bh
      invariant 1 <= h <= n && IsPerm(fmap[..], n)
      invariant SortedH(b, h, fmap[..]) && Headers(bh[..], b, h, fmap[..])
      decreases n - h
    {
      var nNotDone := DoublingPass(fmap, eclass, bh, h, n, b);
      if 2 * h > n || nNotDone == 0 { FullySorted(b, 2 * h, fmap[..], bh[..]); }
      h := 2 * h;
      if h > n || nNotDone == 0 { break; }
    }
  }

  /**
   * Sorts all rotations of the block. The block's own bytes, which the sorter
   * overwrites with classes in the source, are rebuilt at the end.
   */
  method Sort(fmap: array<int>, eclass: array<int>, bh: array<bool>, block: array<byte>)
    requires fmap != eclass && 0 < block.Length == fmap.Length == eclass.Length < Pow2(31)
    requires 32 * (3 + block.Length / 32) <= bh.Length
    modifies fmap, eclass, bh, block
    ensures IsPerm(fmap[..], block.Length)
    ensures block[..] == old(block[..]) && SortedH(block[..], block.Length, fmap[..])
  {
    ghost var b := block[..];
    var n := block.Length;
    var ftab, ftabCopy := CountBytes(block);
    PlaceBytes(block, ftab, fmap);
    ghost var f1 := fmap[..];
    MarkBuckets(bh, ftab, b, n, f1);
    RadixSortedH(b, f1);
    DoubleUntilSorted(fmap, eclass, bh, n, b);
    ghost var f := fmap[..];
    forall x, y | 0 <= x < y < n ensures LeH(b, 1, f[x], f[y]) { LeShorter(b, 1, n, f[x], f[y]); }
    Rebuild(fmap, ftabCopy, block, n, b, f1);
  }

  /** Finds the row of the unrotated block; assertion 1003 cannot fail. */
  method FindOrigPtr(ptr: array<int>) returns (origPtr: int)
    requires 0 < ptr.Length && IsPerm(ptr[..], ptr.Length)
    ensures 0 <= origPtr < ptr.Length && ptr[origPtr] == 0
  {
    origPtr := -1;
    var i := 0;
    while i < ptr.Length
      invariant 0 <= i <= ptr.Length && origPtr == -1
      invariant forall k :: 0 <= k < i ==> ptr[k] != 0
    {
      if ptr[i] == 0 { return i; }
      i := i + 1;
    }
    PermOnto(ptr[..], ptr.Length, 0);
  }
}
