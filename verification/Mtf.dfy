/**
 * Move-to-front coding of the last column with runs of the front byte written in
 * bijective base 2, and the decoder's symbol-by-symbol inverse.
 */
module Mtf {
  import opened Common
  import opened MtfCache

  const RUNA := 0
  const RUNB := 1
  const RUN_GUARD := 2 * 1024 * 1024
  const LARGEST_BLOCK := 900_000

  // ---- Encoding ----

  /** z in bijective base 2, least digit first. */
  ghost function Runs(z: nat): (s: seq<int>)
    ensures |s| <= z
  {
    if z == 0 then [] else [if z % 2 == 1 then RUNA else RUNB] + Runs((z - 1) / 2)
  }

  /** The first place of v in the list. */
  ghost function Place(yy: seq<byte>, v: byte): (j: nat)
    requires v in yy
    ensures j < |yy| && yy[j] == v && forall k :: 0 <= k < j ==> yy[k] != v
  {
    if yy[0] == v then 0 else Place(yy[1..], v) + 1
  }

  /** The symbols for the column `col`, with list yy and z front bytes pending. */
  ghost function Encode(yy: seq<byte>, z: nat, col: seq<byte>): seq<int>
    requires Codable(yy, col)
    decreases |col|
  {
    if col == [] then Runs(z)
    else if yy[0] == col[0] then Encode(yy, z + 1, col[1..])
    else
      var j := Place(yy, col[0]);
      StillCodable(yy, col, j);
      Runs(z) + [j + 1] + Encode(ToFront(yy, j), 0, col[1..])
  }

  lemma ToFrontKeeps(yy: seq<byte>, j: nat)
    requires j < |yy|
    ensures forall v :: v in yy <==> v in ToFront(yy, j)
  {
    assert yy == yy[..j] + [yy[j]] + yy[j + 1..];
  }

  // ---- Decoding ----

  datatype Run = NoRun | Run(es: int, N: int)

  /** The decoder between two symbols: its list, the bytes put out, and the run being read. */
  datatype Decoder = Decoder(list: seq<byte>, out: seq<byte>, run: Run)

  datatype Outcome = More(d: Decoder) | Done(out: seq<byte>) | DataError

  /** What a block's symbols mean: list entry e stands for unmap[e], eob ends the block. */
  datatype Alphabet = Alphabet(unmap: seq<byte>, eob: int, nblockMAX: nat)

  ghost predicate Sound(a: Alphabet, d: Decoder) {
    |a.unmap| == 256 == |d.list| && 2 <= a.eob <= 257
  }

  ghost function Repeat(b: byte, n: int): (s: seq<byte>)
    ensures |s| == if n < 0 then 0 else n
  {
    seq(if n < 0 then 0 else n, _ => b)
  }

  /** One RUNA or RUNB. */
  ghost function OnRun(d: Decoder, es: int, N: int, sym: int): (r: Outcome)
    ensures r.More? ==> r.d.list == d.list
  {
    if N >= RUN_GUARD then DataError
    else More(d.(run := Run(es + (if sym == RUNA then 1 else 2) * N, N * 2)))
  }

  /** The end of a run: its length, es + 1, of the front byte. */
  ghost function EndRun(a: Alphabet, d: Decoder): (r: Outcome)
    requires Sound(a, d)
    ensures !r.Done? && (r.More? ==> r.d.list == d.list)
  {
    if d.run.NoRun? then More(d)
    else if d.run.es + 1 > 0 && |d.out| + d.run.es + 1 > a.nblockMAX then DataError
    else More(d.(run := NoRun, out := d.out + Repeat(a.unmap[d.list[0]], d.run.es + 1)))
  }

  /** A symbol that is not part of a run, once no run is pending. */
  ghost function OnLiteral(a: Alphabet, d: Decoder, sym: int): (r: Outcome)
    requires Sound(a, d) && 2 <= sym <= a.eob
    ensures r.More? ==> Sound(a, r.d)
  {
    if sym == a.eob then Done(d.out)
    else if |d.out| >= a.nblockMAX then DataError
    else More(d.(list := ToFront(d.list, sym - 1), out := d.out + [a.unmap[d.list[sym - 1]]]))
  }

  ghost function OnSymbol(a: Alphabet, d: Decoder, sym: int): (r: Outcome)
    requires Sound(a, d) && 0 <= sym <= a.eob
    ensures r.More? ==> Sound(a, r.d)
  {
    if sym == RUNA || sym == RUNB then
      if d.run.NoRun? then OnRun(d, -1, 1, sym) else OnRun(d, d.run.es, d.run.N, sym)
    else
      var r := EndRun(a, d);
      if r.DataError? then r else OnLiteral(a, r.d, sym)
  }

  ghost predicate Syms(a: Alphabet, s: seq<int>) { forall i :: 0 <= i < |s| ==> 0 <= s[i] <= a.eob }

  /** All symbols in turn, up to the end of the block or an error. */
  ghost function Feed(a: Alphabet, d: Decoder, syms: seq<int>): (r: Outcome)
    requires Sound(a, d) && Syms(a, syms)
    ensures r.More? ==> Sound(a, r.d)
    decreases |syms|
  {
    if syms == [] then More(d)
    else
      var r := OnSymbol(a, d, syms[0]);
      if r.More? then Feed(a, r.d, syms[1..]) else r
  }

  lemma {:induction false} FeedAppend(a: Alphabet, d: Decoder, s: seq<int>, t: seq<int>)
    requires Sound(a, d) && Syms(a, s) && Syms(a, t)
    ensures var r := Feed(a, d, s);
      Syms(a, s + t) && Feed(a, d, s + t) == if r.More? then Feed(a, r.d, t) else r
    decreases |s|
  {
    if s == [] {
      assert s + t == t;
    } else {
      assert (s + t)[0] == s[0] && (s + t)[1..] == s[1..] + t;
      var r := OnSymbol(a, d, s[0]);
      if r.More? { FeedAppend(a, r.d, s[1..], t); }
    }
  }

  // ---- The round trip ----

  lemma {:induction false} RunsAreRuns(z: nat)
    ensures forall i :: 0 <= i < |Runs(z)| ==> Runs(z)[i] == RUNA || Runs(z)[i] == RUNB
  {
    if z > 0 { RunsAreRuns((z - 1) / 2); }
  }

  /** One more digit of a run. */
  lemma FeedDigit(a: Alphabet, d: Decoder, s: seq<int>, digit: nat, es: int)
    requires Sound(a, d) && d.run.Run? && d.run.N < RUN_GUARD && s != [] && Syms(a, s) && 1 <= digit <= 2
    requires s[0] == (if digit == 1 then RUNA else RUNB) && es == d.run.es + digit * d.run.N
    ensures Syms(a, s[1..]) && Feed(a, d, s) == Feed(a, d.(run := Run(es, d.run.N * 2)), s[1..])
  {
    assert OnSymbol(a, d, s[0]) == More(d.(run := Run(es, d.run.N * 2)));
  }

  /** Within a run: z more, in units of N. The guard on N stays quiet. */
  lemma {:induction false} FeedRunning(a: Alphabet, d: Decoder, z: nat)
    requires Sound(a, d) && d.run.Run? && d.run.N >= 1 && (z + 1) * d.run.N <= LARGEST_BLOCK + 1
    ensures Syms(a, Runs(z)) && Feed(a, d, Runs(z)).More?
    ensures var e := Feed(a, d, Runs(z)).d; e.run.Run? && e == d.(run := Run(d.run.es + z * d.run.N, e.run.N))
    decreases z
  {
    RunsAreRuns(z);
    if z > 0 {
      var y, s, N := (z - 1) / 2, Runs(z), d.run.N;
      var digit := if z % 2 == 1 then 1 else 2;
      assert z == 2 * y + digit;
      Doubled(y, digit, N, z);
      assert s[1..] == Runs(y);
      var es := d.run.es + digit * N;
      FeedDigit(a, d, s, digit, es);
      FeedRunning(a, d.(run := Run(es, N * 2)), y);
    }
  }

  lemma Doubled(y: nat, digit: nat, N: nat, z: nat)
    requires z == 2 * y + digit && 1 <= digit <= 2 && N >= 1 && (z + 1) * N <= LARGEST_BLOCK + 1
    ensures (y + 1) * (N * 2) <= LARGEST_BLOCK + 1 && digit * N + y * (N * 2) == z * N && N < RUN_GUARD
  {
    var twice := 2 * y + 2;
    assert (y + 1) * (N * 2) == twice * N && y * (N * 2) == (twice - 2) * N;
    MulMono(twice, z + 1, N);
    MulMono(1, z + 1, N);
    if digit == 1 { assert z == twice - 1; } else { assert z == twice; }
  }

  lemma FeedOne(a: Alphabet, d: Decoder, sym: int)
    requires Sound(a, d) && 0 <= sym <= a.eob
    ensures Feed(a, d, [sym]) == OnSymbol(a, d, sym)
  {
    assert [sym][1..] == [];
  }

  /** A run read from its first symbol on: es is one less than its length. */
  lemma FeedFirst(a: Alphabet, d: Decoder, z: nat)
    requires Sound(a, d) && d.run.NoRun? && 0 < z <= LARGEST_BLOCK
    ensures Syms(a, Runs(z)) && Feed(a, d, Runs(z)).More?
    ensures var e := Feed(a, d, Runs(z)).d; e.run.Run? && e == d.(run := Run(z - 1, e.run.N))
  {
    var s, started := Runs(z), d.(run := Run(-1, 1));
    RunsAreRuns(z);
    assert OnSymbol(a, d, s[0]) == OnSymbol(a, started, s[0]);
    FeedRunning(a, started, z);
  }

  /** A whole run, ended by another symbol. */
  lemma FeedRun(a: Alphabet, d: Decoder, z: nat, sym: int)
    requires Sound(a, d) && d.run.NoRun? && 2 <= sym <= a.eob && |d.out| + z <= a.nblockMAX <= LARGEST_BLOCK
    ensures Syms(a, Runs(z) + [sym])
    ensures Feed(a, d, Runs(z) + [sym]) == OnLiteral(a, d.(out := d.out + Repeat(a.unmap[d.list[0]], z)), sym)
  {
    RunsAreRuns(z);
    if z == 0 {
      assert Runs(z) + [sym] == [sym] && d.(out := d.out + Repeat(a.unmap[d.list[0]], z)) == d;
      FeedOne(a, d, sym);
    } else {
      FeedSomeRun(a, d, z, sym, Runs(z));
    }
  }

  lemma FeedSomeRun(a: Alphabet, d: Decoder, z: nat, sym: int, run: seq<int>)
    requires Sound(a, d) && d.run.NoRun? && 2 <= sym <= a.eob && |d.out| + z <= a.nblockMAX <= LARGEST_BLOCK
    requires z > 0 && run == Runs(z) && Syms(a, run)
    ensures Feed(a, d, run + [sym]) == OnLiteral(a, d.(out := d.out + Repeat(a.unmap[d.list[0]], z)), sym)
  {
    FeedFirst(a, d, z);
    FeedAppend(a, d, run, [sym]);
    var e := Feed(a, d, run).d;
    assert EndRun(a, e) == More(d.(out := d.out + Repeat(a.unmap[d.list[0]], z)));
    FeedOne(a, e, sym);
  }

  /** The bytes that list entries stand for. */
  ghost function Unmapped(unmap: seq<byte>, col: seq<byte>): (r: seq<byte>)
    requires |unmap| == 256
    ensures |r| == |col|
  {
    seq(|col|, i requires 0 <= i < |col| => unmap[col[i]])
  }

  ghost predicate Codable(yy: seq<byte>, col: seq<byte>) {
    0 < |yy| && forall i :: 0 <= i < |col| ==> col[i] in yy
  }

  lemma UnmappedCons(unmap: seq<byte>, col: seq<byte>)
    requires |unmap| == 256 && col != []
    ensures Unmapped(unmap, col) == [unmap[col[0]]] + Unmapped(unmap, col[1..])
  {
  }

  lemma OneMore(unmap: seq<byte>, out: seq<byte>, front: byte, z: nat, z': nat, col: seq<byte>)
    requires |unmap| == 256 && col != [] && unmap[col[0]] == front && z' == z + 1
    ensures out + Repeat(front, z') + Unmapped(unmap, col[1..]) == out + Repeat(front, z) + Unmapped(unmap, col)
  {
    UnmappedCons(unmap, col);
    assert Repeat(front, z') == Repeat(front, z) + [front];
  }

  /** Decoding what is encoded, with z front bytes still pending on the encoder's side. */
  lemma {:induction false} DecodeEncoded(a: Alphabet, d: Decoder, yy: seq<byte>, z: nat, col: seq<byte>)
    requires Sound(a, d) && d.run.NoRun? && Codable(yy, col) && |yy| == a.eob - 1 && yy == d.list[..|yy|]
    requires |d.out| + z + |col| <= a.nblockMAX <= LARGEST_BLOCK
    ensures Syms(a, Encode(yy, z, col) + [a.eob])
    ensures Feed(a, d, Encode(yy, z, col) + [a.eob]) ==
      Done(d.out + Repeat(a.unmap[d.list[0]], z) + Unmapped(a.unmap, col))
    decreases |col|
  {
    var front := a.unmap[d.list[0]];
    if col == [] {
      FeedRun(a, d, z, a.eob);
      assert d.out + Repeat(front, z) + Unmapped(a.unmap, col) == d.out + Repeat(front, z);
    } else {
      if yy[0] == col[0] {
        assert Encode(yy, z, col) == Encode(yy, z + 1, col[1..]);
        DecodeEncoded(a, d, yy, z + 1, col[1..]);
        OneMore(a.unmap, d.out, front, z, z + 1, col);
      } else {
        DecodeLiteral(a, d, yy, z, col);
      }
    }
  }

  /** A run and the list entry j after it. */
  lemma FeedEntry(a: Alphabet, d: Decoder, z: nat, j: nat)
    requires Sound(a, d) && d.run.NoRun? && 1 <= j < a.eob - 1 && |d.out| + z < a.nblockMAX <= LARGEST_BLOCK
    ensures Syms(a, Runs(z) + [j + 1])
    ensures Feed(a, d, Runs(z) + [j + 1]) == More(Decoder(ToFront(d.list, j),
      d.out + Repeat(a.unmap[d.list[0]], z) + [a.unmap[d.list[j]]], NoRun))
  {
    FeedRun(a, d, z, j + 1);
  }

  lemma StillCodable(yy: seq<byte>, col: seq<byte>, j: nat)
    requires Codable(yy, col) && j < |yy|
    ensures Codable(ToFront(yy, j), col)
  {
    ToFrontKeeps(yy, j);
  }

  lemma EncodeStep(yy: seq<byte>, z: nat, col: seq<byte>, j: nat, yy': seq<byte>)
    requires Codable(yy, col) && col != [] && yy[0] != col[0] && j == Place(yy, col[0]) && yy' == ToFront(yy, j)
    requires Codable(yy', col[1..])
    ensures Encode(yy, z, col) == (Runs(z) + [j + 1]) + Encode(yy', 0, col[1..])
  {
  }

  lemma EncodeLiteral(yy: seq<byte>, z: nat, col: seq<byte>, eob: int, j: nat, yy': seq<byte>)
    requires Codable(yy, col) && col != [] && yy[0] != col[0] && j == Place(yy, col[0]) && yy' == ToFront(yy, j)
    requires Codable(yy', col[1..])
    ensures Encode(yy, z, col) + [eob] == (Runs(z) + [j + 1]) + (Encode(yy', 0, col[1..]) + [eob])
  {
    var ab, a, b := Encode(yy, z, col), Runs(z) + [j + 1], Encode(yy', 0, col[1..]);
    EncodeStep(yy, z, col, j, yy');
    Associates(ab, a, b, [eob]);
  }

  lemma FrontOfPrefix(yy: seq<byte>, list: seq<byte>, j: nat)
    requires |yy| <= |list| && yy == list[..|yy|] && j < |yy|
    ensures ToFront(yy, j) == ToFront(list, j)[..|yy|] && list[j] == yy[j]
  {
  }

  lemma {:induction false} DecodeLiteral(a: Alphabet, d: Decoder, yy: seq<byte>, z: nat, col: seq<byte>)
    requires Sound(a, d) && d.run.NoRun? && Codable(yy, col) && |yy| == a.eob - 1 && yy == d.list[..|yy|]
    requires |d.out| + z + |col| <= a.nblockMAX <= LARGEST_BLOCK && col != [] && yy[0] != col[0]
    ensures Syms(a, Encode(yy, z, col) + [a.eob])
    ensures Feed(a, d, Encode(yy, z, col) + [a.eob]) ==
      Done(d.out + Repeat(a.unmap[d.list[0]], z) + Unmapped(a.unmap, col))
    decreases |col|, 0
  {
    var j, rest := Place(yy, col[0]), col[1..];
    var yy', list' := ToFront(yy, j), ToFront(d.list, j);
    StillCodable(yy, rest, j);
    EncodeLiteral(yy, z, col, a.eob, j, yy');
    FrontOfPrefix(yy, d.list, j);
    FeedEntry(a, d, z, j);
    var out, code := d.out + Repeat(a.unmap[d.list[0]], z), Encode(yy', 0, rest) + [a.eob];
    var next := Decoder(list', out + [a.unmap[col[0]]], NoRun);
    DecodeEncoded(a, next, yy', 0, rest);
    FeedAppend(a, d, Runs(z) + [j + 1], code);
    LiteralOut(a.unmap, out, list'[0], col, rest);
  }

  lemma LiteralOut(unmap: seq<byte>, out: seq<byte>, front: byte, col: seq<byte>, rest: seq<byte>)
    requires |unmap| == 256 && col != [] && rest == col[1..]
    ensures (out + [unmap[col[0]]]) + Repeat(unmap[front], 0) + Unmapped(unmap, rest) == out + Unmapped(unmap, col)
  {
    UnmappedCons(unmap, col);
    assert Repeat(unmap[front], 0) == [];
    Associates(out + [unmap[col[0]]], out, [unmap[col[0]]], Unmapped(unmap, rest));
  }

  // ---- The bytes in use ----

  /** The bytes below n that are in use, in order. */
  function Used(inUse: seq<bool>, n: nat): (u: seq<byte>)
    requires n <= |inUse| == 256
    ensures |u| <= n && forall i :: 0 <= i < |u| ==> u[i] < n
    decreases n, inUse
  {
    if n == 0 then [] else Used(inUse, n - 1) + if inUse[n - 1] then [n - 1] else []
  }

  function Iota(n: nat): (s: seq<byte>)
    requires n <= 256
    ensures |s| == n && forall i :: 0 <= i < n ==> s[i] == i
  {
    seq(n, i requires 0 <= i < n => i)
  }

  /** `seqNo` numbers the bytes in use as they come in `used`. */
  ghost predicate Numbers(seqNo: seq<byte>, used: seq<byte>, inUse: seq<bool>, n: nat) {
    |seqNo| == 256 == |inUse| && n <= 256 && forall b :: 0 <= b < n && inUse[b] ==>
      seqNo[b] < |used| && used[seqNo[b]] == b
  }

  method MakeMapsE(inUse: array<bool>, unseqToSeq: array<byte>) returns (nInUse: nat)
    requires inUse.Length == 256 == unseqToSeq.Length
    modifies unseqToSeq
    ensures nInUse == |Used(inUse[..], 256)| && Numbers(unseqToSeq[..], Used(inUse[..], 256), inUse[..], 256)
  {
    ghost var u := inUse[..];
    nInUse := 0;
    var i := 0;
    while i < 256
      invariant 0 <= i <= 256 && nInUse == |Used(u, i)| <= i && Numbers(unseqToSeq[..], Used(u, i), u, i)
    {
      if inUse[i] {
        unseqToSeq[i] := nInUse;
        nInUse := nInUse + 1;
      }
      i := i + 1;
    }
  }

  method MakeMapsD(inUse: seq<bool>, seqToUnseq: array<byte>) returns (nInUse: nat)
    requires |inUse| == 256 == seqToUnseq.Length
    modifies seqToUnseq
    ensures nInUse == |Used(inUse, 256)| && seqToUnseq[..nInUse] == Used(inUse, 256)
  {
    nInUse := 0;
    var i := 0;
    while i < 256
      invariant 0 <= i <= 256 && nInUse == |Used(inUse, i)| <= i && seqToUnseq[..nInUse] == Used(inUse, i)
    {
      if inUse[i] {
        seqToUnseq[nInUse] := i;
        nInUse := nInUse + 1;
      }
      i := i + 1;
    }
  }

  /** The column as numbers of bytes in use. */
  ghost function Mapped(seqNo: seq<byte>, col: seq<byte>): (r: seq<byte>)
    requires |seqNo| == 256
    ensures |r| == |col|
  {
    seq(|col|, i requires 0 <= i < |col| => seqNo[col[i]])
  }

  /** The symbols of a column over the bytes in use. */
  ghost function Symbols(seqNo: seq<byte>, n: nat, col: seq<byte>): seq<int>
    requires 1 <= n <= 256 == |seqNo| && Codable(Iota(n), Mapped(seqNo, col))
  {
    Encode(Iota(n), 0, Mapped(seqNo, col)) + [n + 1]
  }

  function Start(): Decoder { Decoder(Iota(256), [], NoRun) }

  lemma MappedCodable(seqNo: seq<byte>, inUse: seq<bool>, col: seq<byte>)
    requires |inUse| == 256 && Numbers(seqNo, Used(inUse, 256), inUse, 256)
    requires col != [] && forall i :: 0 <= i < |col| ==> inUse[col[i]]
    ensures 1 <= |Used(inUse, 256)| && Codable(Iota(|Used(inUse, 256)|), Mapped(seqNo, col))
  {
    var n, m := |Used(inUse, 256)|, Mapped(seqNo, col);
    assert inUse[col[0]];
    forall i | 0 <= i < |m| ensures m[i] in Iota(n) {
      assert inUse[col[i]];
      assert Iota(n)[m[i]] == m[i];
    }
  }

  /** Decoding the symbols of any column over the bytes in use gives that column. */
  lemma MtfRoundTrip(inUse: seq<bool>, seqNo: seq<byte>, unmap: seq<byte>, col: seq<byte>, nblockMAX: nat)
    requires |inUse| == 256 == |unmap| && Numbers(seqNo, Used(inUse, 256), inUse, 256)
    requires unmap[..|Used(inUse, 256)|] == Used(inUse, 256)
    requires 0 < |col| <= nblockMAX <= LARGEST_BLOCK && forall i :: 0 <= i < |col| ==> inUse[col[i]]
    ensures var n := |Used(inUse, 256)|; var a := Alphabet(unmap, n + 1, nblockMAX);
      && 1 <= n && Codable(Iota(n), Mapped(seqNo, col))
      && Syms(a, Symbols(seqNo, n, col)) && Feed(a, Start(), Symbols(seqNo, n, col)) == Done(col)
  {
    var used, m := Used(inUse, 256), Mapped(seqNo, col);
    var a := Alphabet(unmap, |used| + 1, nblockMAX);
    MappedCodable(seqNo, inUse, col);
    DecodeEncoded(a, Start(), Iota(|used|), 0, m);
    forall i | 0 <= i < |col| ensures unmap[m[i]] == col[i] {
      assert inUse[col[i]];
      assert unmap[..|used|][m[i]] == col[i];
    }
    assert Unmapped(unmap, m) == col;
    assert [] + Repeat(unmap[0], 0) + Unmapped(unmap, m) == col;
  }
}
