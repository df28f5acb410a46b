/**
 * The compressor's loop that turns sorted rows into symbols. Row pointers and
 * symbols share one buffer, as in the source: pointer i is halves 2i and 2i+1,
 * symbol k is half k.
 */
module MtfEncoder {
  import opened Common
  import opened Bwt
  import opened MtfCache
  import opened Mtf

  /** Pointer i of the shared buffer. */
  ghost function Pointer(arr1: seq<int>, i: nat): int
    requires 2 * i + 1 < |arr1|
  {
    arr1[2 * i] + 0x1_0000 * arr1[2 * i + 1]
  }

  /** The buffer still holds the pointers from i on. */
  ghost predicate PointersFrom(arr1: seq<int>, p: seq<int>, i: nat) {
    2 * |p| <= |arr1| && forall k :: i <= k < |p| ==> Pointer(arr1, k) == p[k]
  }

  /** `s` is `was` with `run` written at place w. */
  ghost function Written(was: seq<int>, w: nat, run: seq<int>): (s: seq<int>)
    requires w + |run| <= |was|
    ensures |s| == |was|
  {
    was[..w] + run + was[w + |run|..]
  }

  lemma WrittenSnoc(was: seq<int>, w: nat, run: seq<int>, x: int, w': nat)
    requires w' == w + |run| < |was|
    ensures Written(was, w, run)[w' := x] == Written(was, w, run + [x])
  {
  }

  lemma Regroup(whole: seq<int>, run: seq<int>, x: int, tail: seq<int>)
    requires whole == run + ([x] + tail)
    ensures whole == (run + [x]) + tail
  {
  }

  /** One digit of a run of zPend + 1, after which y + 1 are left, or none. */
  lemma RunsStep(whole: seq<int>, run: seq<int>, z: nat, digit: int, y: nat)
    requires whole == run + Runs(z) && z > 0 && digit == (if z % 2 == 1 then RUNA else RUNB) && y == (z - 1) / 2
    ensures whole == (run + [digit]) + Runs(y) && |run| < |whole|
    ensures y == 0 ==> whole == run + [digit]
  {
    assert Runs(z) == [digit] + Runs(y);
    Regroup(whole, run, digit, Runs(y));
  }

  method Put(mtfv: array<int>, wr: nat, x: int, ghost was: seq<int>, ghost wr0: nat, ghost run: seq<int>)
    requires wr == wr0 + |run| < mtfv.Length == |was| && mtfv[..] == Written(was, wr0, run)
    modifies mtfv
    ensures mtfv[..] == Written(was, wr0, run + [x])
  {
    WrittenSnoc(was, wr0, run, x, wr);
    mtfv[wr] := x;
  }

  /** The digits `run` of the run have been written, and those of z are still to come. */
  ghost predicate Digits(was: seq<int>, now: seq<int>, wr0: nat, wr: nat, whole: seq<int>, run: seq<int>, z: nat) {
    var holds :=
      && whole == run + Runs(z) && wr == wr0 + |run| && wr0 + |whole| <= |was|
      && now == Written(was, wr0, run);
    holds
  }

  /** Writes the pending run. */
  method WriteRun(mtfv: array<int>, wr0: nat, pending: nat) returns (wr: nat)
    requires 0 < pending && wr0 + pending <= mtfv.Length
    modifies mtfv
    ensures wr == wr0 + |Runs(pending)| && mtfv[..] == Written(old(mtfv[..]), wr0, Runs(pending))
  {
    ghost var was, run, whole, z := mtfv[..], [], Runs(pending), pending;
    wr := wr0;
    var zPend := pending - 1;
    assert mtfv[..] == Written(was, wr0, run) && whole == run + whole;
    while true
      invariant 0 <= zPend && z == zPend + 1 && Digits(was, mtfv[..], wr0, wr, whole, run, z)
      decreases zPend
    {
      wr, run, z := WriteDigit(mtfv, wr0, wr, zPend, was, whole, run, z);
      if zPend < 2 { break; }
      zPend := (zPend - 2) / 2;
    }
  }

  method WriteDigit(mtfv: array<int>, ghost wr0: nat, wr: nat, zPend: nat, ghost was: seq<int>, ghost whole: seq<int>,
                    ghost run: seq<int>, ghost z: nat)
    returns (next: nat, ghost more: seq<int>, ghost y: nat)
    requires z == zPend + 1 && Digits(was, mtfv[..], wr0, wr, whole, run, z)
    modifies mtfv
    ensures y == zPend / 2 && Digits(was, mtfv[..], wr0, next, whole, more, y)
  {
    var digit := if zPend % 2 == 1 then RUNB else RUNA;
    y := zPend / 2;
    RunsStep(whole, run, z, digit, y);
    Put(mtfv, wr, digit, was, wr0, run);
    more := run + [digit];
    next := wr + 1;
  }

  /** The first x entries of the list moved up by one place, after the front. */
  ghost predicate Pushed(was: seq<byte>, now: seq<byte>, j: int) {
    var holds :=
      && |was| == |now| && 1 <= j < |was| && now[0] == was[0]
      && (forall x :: 1 <= x <= j ==> now[x] == was[x - 1])
      && (forall x :: j < x < |was| ==> now[x] == was[x]);
    holds
  }

  /** Finds a byte behind the front of the list and moves it to the front. */
  method MoveToFront(yy: array<byte>, n: nat, v: byte) returns (j: nat)
    requires n <= yy.Length && v in yy[..n] && yy[0] != v
    modifies yy
    ensures j == Place(old(yy[..n]), v) && yy[..n] == ToFront(old(yy[..n]), j)
  {
    ghost var was, place := yy[..n], Place(yy[..n], v);
    var rtmp := yy[1];
    yy[1] := yy[0];
    j := 1;
    while v != rtmp
      invariant Pushed(was, yy[..n], j) && j <= place && rtmp == was[j]
      decreases place - j
    {
      j := j + 1;
      var rtmp2 := rtmp;
      rtmp := yy[j];
      yy[j] := rtmp2;
    }
    yy[0] := rtmp;
    assert yy[..n] == ToFront(was, j);
  }

  /** Writes the pending run, if any, and then the place of v in the list, which moves to its front. */
  method WriteEntry(mtfv: array<int>, yy: array<byte>, n: nat, wr0: nat, zPend: nat, v: byte) returns (wr: nat)
    requires wr0 + zPend < mtfv.Length && n <= yy.Length && v in yy[..n] && yy[0] != v
    modifies mtfv, yy
    ensures var j := Place(old(yy[..n]), v); var code := Runs(zPend) + [j + 1];
      && yy[..n] == ToFront(old(yy[..n]), j)
      && wr == wr0 + |code| <= wr0 + zPend + 1 && mtfv[..] == Written(old(mtfv[..]), wr0, code)
  {
    ghost var was := mtfv[..];
    wr := wr0;
    if zPend > 0 { wr := WriteRun(mtfv, wr0, zPend); }
    assert mtfv[..] == Written(was, wr0, Runs(zPend));
    var j := MoveToFront(yy, n, v);
    Put(mtfv, wr, j + 1, was, wr0, Runs(zPend));
    wr := wr + 1;
  }

  /** Symbols written below half i + 1 leave the pointers from i + 1 on alone. */
  lemma PointersKept(was: seq<int>, p: seq<int>, i: nat, next: nat, wr: nat, code: seq<int>)
    requires PointersFrom(was, p, i) && i < |p| && next == i + 1 && wr + |code| <= next
    ensures PointersFrom(Written(was, wr, code), p, next)
  {
    var now := Written(was, wr, code);
    forall k | next <= k < |p| ensures Pointer(now, k) == p[k] {
      assert Pointer(was, k) == p[k];
    }
  }

  /** What has been written so far, and what the rest of the column still needs, make up the whole. */
  ghost predicate Encoding(whole: seq<int>, mtfv: seq<int>, wr: nat, yy: seq<byte>, z: nat, col: seq<byte>, i: nat) {
    var holds :=
      && i <= |col| && wr + z <= i && wr <= |mtfv| && Codable(yy, col[i..])
      && whole == mtfv[..wr] + Encode(yy, z, col[i..]);
    holds
  }

  lemma EncodingFront(whole: seq<int>, mtfv: seq<int>, wr: nat, yy: seq<byte>, z: nat, col: seq<byte>, i: nat,
                      z': nat, next: nat)
    requires Encoding(whole, mtfv, wr, yy, z, col, i) && i < |col| && yy[0] == col[i] && z' == z + 1 && next == i + 1
    ensures Encoding(whole, mtfv, wr, yy, z', col, next)
  {
    assert col[i..][1..] == col[next..] && col[i..][0] == col[i];
  }

  lemma EncodingEntry(whole: seq<int>, mtfv: seq<int>, wr: nat, yy: seq<byte>, z: nat, col: seq<byte>, i: nat, j: nat,
                      next: nat)
    requires Encoding(whole, mtfv, wr, yy, z, col, i) && i < |col| && yy[0] != col[i]
    requires col[i] in yy && j == Place(yy, col[i]) && next == i + 1 && next <= |mtfv|
    ensures var code := Runs(z) + [j + 1];
      wr + |code| <= next && Encoding(whole, Written(mtfv, wr, code), wr + |code|, ToFront(yy, j), 0, col, next)
  {
    var rest, code, now := col[i..], Runs(z) + [j + 1], Written(mtfv, wr, Runs(z) + [j + 1]);
    assert rest[1..] == col[next..] && rest[0] == col[i];
    StillCodable(yy, rest, j);
    var tail := Encode(ToFront(yy, j), 0, rest[1..]);
    assert Encode(yy, z, rest) == code + tail;
    assert now[..wr + |code|] == mtfv[..wr] + code;
    Associates(mtfv[..wr] + code, mtfv[..wr], code, tail);
  }

  /** The loop's invariant: the pointers still needed, and the symbols already written over the others. */
  ghost predicate Sharing(whole: seq<int>, arr1: seq<int>, wr: nat, yy: seq<byte>, z: nat, p: seq<int>,
                          col: seq<byte>, i: nat) {
    var holds := |p| == |col| && PointersFrom(arr1, p, i) && Encoding(whole, arr1, wr, yy, z, col, i);
    holds
  }

  lemma ReadRow(b: seq<byte>, p: seq<int>, seqNo: seq<byte>, arr1: seq<int>, i: nat)
    requires IsPerm(p, |b|) && |seqNo| == 256 && PointersFrom(arr1, p, i) && i < |p|
    ensures var q := arr1[2 * i] + 0x1_0000 * arr1[2 * i + 1]; var j := if q - 1 < 0 then q - 1 + |b| else q - 1;
      0 <= j < |b| && Mapped(seqNo, LastColumn(b, p))[i] == seqNo[b[j]]
  {
    assert Pointer(arr1, i) == p[i];
  }

  /** One row: its byte joins the pending run, or is written and moved to the front. */
  method EncodeRow(arr1: array<int>, yy: array<byte>, n: nat, wr0: nat, z0: nat, i: nat, v: byte,
                   ghost whole: seq<int>, ghost p: seq<int>, ghost col: seq<byte>) returns (wr: nat, z: nat)
    requires 1 <= n <= yy.Length && i < |col| && v == col[i]
    requires Sharing(whole, arr1[..], wr0, yy[..n], z0, p, col, i)
    modifies arr1, yy
    ensures Sharing(whole, arr1[..], wr, yy[..n], z, p, col, i + 1)
  {
    ghost var a, y, next := arr1[..], yy[..n], i + 1;
    assert y[0] == yy[0];
    wr, z := wr0, z0;
    if yy[0] == v {
      EncodingFront(whole, a, wr, y, z, col, i, z + 1, next);
      z := z + 1;
    } else {
      assert v == col[i..][0] && v in y;
      ghost var j := Place(y, v);
      EncodingEntry(whole, a, wr, y, z, col, i, j, next);
      PointersKept(a, p, i, next, wr, Runs(z) + [j + 1]);
      wr := WriteEntry(arr1, yy, n, wr, z, v);
      z := 0;
    }
  }

  method InitialList(n: nat) returns (yy: array<byte>)
    requires n <= 256
    ensures fresh(yy) && yy.Length == 256 && yy[..n] == Iota(n)
  {
    yy := new byte[256](_ => 0);
    var i := 0;
    while i < n
      invariant 0 <= i <= n && forall k :: 0 <= k < i ==> yy[k] == k
    {
      yy[i] := i;
      i := i + 1;
    }
  }

  /** The number of the byte before row i. */
  method LastByte(arr1: array<int>, block: array<byte>, unseqToSeq: array<byte>, nblock: nat, i: nat,
                  ghost b: seq<byte>, ghost p: seq<int>)
    returns (ll: byte)
    requires i < nblock <= block.Length && b == block[..nblock] && IsPerm(p, nblock) && PointersFrom(arr1[..], p, i)
    requires unseqToSeq.Length == 256
    ensures ll == Mapped(unseqToSeq[..], LastColumn(b, p))[i]
  {
    ReadRow(b, p, unseqToSeq[..], arr1[..], i);
    var j := arr1[2 * i] + 0x1_0000 * arr1[2 * i + 1] - 1;
    if j < 0 { j := j + nblock; }
    ll := unseqToSeq[block[j]];
  }

  /** Every row in turn, from an initial list of the n bytes in use. */
  method EncodeColumn(arr1: array<int>, block: array<byte>, unseqToSeq: array<byte>, nblock: nat, n: nat,
                      ghost b: seq<byte>, ghost p: seq<int>, ghost col: seq<byte>) returns (nMTF: nat)
    requires 0 < nblock <= block.Length && b == block[..nblock] && IsPerm(p, nblock) && PointersFrom(arr1[..], p, 0)
    requires unseqToSeq.Length == 256 && col == Mapped(unseqToSeq[..], LastColumn(b, p))
    requires 1 <= n <= 256 && Codable(Iota(n), col)
    modifies arr1
    ensures nMTF <= arr1.Length && arr1[..nMTF] == Encode(Iota(n), 0, col) + [n + 1]
  {
    var yy := InitialList(n);
    var wr, zPend := 0, 0;
    ghost var whole := Encode(Iota(n), 0, col);
    assert col[0..] == col && whole == arr1[..][..0] + whole;
    var i := 0;
    while i < nblock
      modifies arr1, yy
      invariant 0 <= i <= nblock && Sharing(whole, arr1[..], wr, yy[..n], zPend, p, col, i)
    {
      var ll := LastByte(arr1, block, unseqToSeq, nblock, i, b, p);
      wr, zPend := EncodeRow(arr1, yy, n, wr, zPend, i, ll, whole, p, col);
      i := i + 1;
    }
    nMTF := WriteEnd(arr1, wr, zPend, n + 1, whole, yy[..n], col);
  }

  /**
   * The symbols of the last column, written over the row pointers. No pointer is
   * overwritten before it has been read.
   */
  method GenerateMTFValues(arr1: array<int>, block: array<byte>, inUse: array<bool>, unseqToSeq: array<byte>,
                           nblock: nat, ghost p: seq<int>)
    returns (nInUse: nat, nMTF: nat)
    requires 0 < nblock <= block.Length && IsPerm(p, nblock) && PointersFrom(arr1[..], p, 0)
    requires inUse.Length == 256 == unseqToSeq.Length && forall k :: 0 <= k < nblock ==> inUse[block[k]]
    requires block != unseqToSeq
    modifies arr1, unseqToSeq
    ensures nInUse == |Used(inUse[..], 256)| && Numbers(unseqToSeq[..], Used(inUse[..], 256), inUse[..], 256)
    ensures 1 <= nInUse && Codable(Iota(nInUse), Mapped(unseqToSeq[..], LastColumn(block[..nblock], p)))
    ensures nMTF <= arr1.Length && arr1[..nMTF] == Symbols(unseqToSeq[..], nInUse, LastColumn(block[..nblock], p))
  {
    ghost var a, b, use := arr1[..], block[..nblock], inUse[..];
    ghost var last := LastColumn(b, p);
    nInUse := MakeMapsE(inUse, unseqToSeq);
    ghost var no := unseqToSeq[..];
    assert forall k :: 0 <= k < nblock ==> use[b[k]];
    MappedCodable(no, use, last);
    assert arr1[..] == a && block[..nblock] == b;
    nMTF := EncodeColumn(arr1, block, unseqToSeq, nblock, nInUse, b, p, Mapped(no, last));
    assert unseqToSeq[..] == no && block[..nblock] == b;
  }

  /** The last run and the end-of-block symbol. */
  method WriteEnd(mtfv: array<int>, wr0: nat, zPend: nat, eob: int, ghost whole: seq<int>, ghost yy: seq<byte>,
                  ghost col: seq<byte>)
    returns (wr: nat)
    requires |col| < mtfv.Length && Encoding(whole, mtfv[..], wr0, yy, zPend, col, |col|)
    modifies mtfv
    ensures wr <= mtfv.Length && mtfv[..wr] == whole + [eob]
  {
    ghost var was := mtfv[..];
    wr := wr0;
    if zPend > 0 { wr := WriteRun(mtfv, wr0, zPend); }
    assert mtfv[..] == Written(was, wr0, Runs(zPend));
    assert mtfv[..wr] == was[..wr0] + Runs(zPend) == whole;
    mtfv[wr] := eob;
    wr := wr + 1;
  }
}
