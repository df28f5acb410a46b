/**
 * How many MTF values a block has. There is one more than there are bytes in the column,
 * the end symbol, unless a run of the front byte is long enough for its digits to save one.
 */
module SymbolCount {
  import opened Common
  import opened MtfCache
  import opened Mtf

  /** Some byte stands three times in a row. */
  ghost predicate Thrice(x: seq<byte>) {
    exists i :: 0 <= i && i + 2 < |x| && x[i] == x[i + 1] == x[i + 2]
  }

  function Copies(v: byte, n: nat): (s: seq<byte>)
    ensures |s| == n && forall i :: 0 <= i < n ==> s[i] == v
  {
    seq(n, _ => v)
  }

  /** A run saves a digit exactly when it is longer than one. */
  lemma {:induction false} RunsSave(z: nat)
    ensures |Runs(z)| == z <==> z <= 1
  {
    if z >= 2 {
      var half := (z - 1) / 2;
      assert |Runs(z)| == 1 + |Runs(half)| && 1 + half < z;
    }
  }

  lemma ThriceStarts(v: byte, n: nat, col: seq<byte>)
    requires n >= 3
    ensures Thrice(Copies(v, n) + col)
  {
    var x := Copies(v, n) + col;
    assert x[0] == x[0 + 1] == x[0 + 2];
  }

  /** Behind at most two copies of another byte, the column has its own. */
  lemma ThriceLater(v: byte, n: nat, col: seq<byte>)
    requires 1 <= n <= 2 && (col != [] ==> col[0] != v)
    ensures Thrice(Copies(v, n) + col) <==> Thrice(col)
  {
    var x := Copies(v, n) + col;
    if i :| 0 <= i && i + 2 < |x| && x[i] == x[i + 1] == x[i + 2] {
      assert i >= n by { assert x[n] == col[0]; }
      assert col[i - n] == col[i - n + 1] == col[i - n + 2];
    }
    if i :| 0 <= i && i + 2 < |col| && col[i] == col[i + 1] == col[i + 2] {
      assert x[i + n] == x[i + n + 1] == x[i + n + 2];
    }
  }

  /** With z front bytes pending, the front byte has come z + 1 times before the column. */
  lemma {:induction false} EncodeSaves(yy: seq<byte>, z: nat, col: seq<byte>)
    requires yy != [] && Codable(yy, col)
    ensures |Encode(yy, z, col)| <= z + |col|
    ensures |Encode(yy, z, col)| < z + |col| <==> Thrice(Copies(yy[0], z + 1) + col)
    decreases |col|
  {
    RunsSave(z);
    if z >= 2 { ThriceStarts(yy[0], z + 1, col); }
    if col == [] {
      if z <= 1 { ThriceLater(yy[0], z + 1, col); }
    } else if yy[0] == col[0] {
      EncodeSaves(yy, z + 1, col[1..]);
      assert Copies(yy[0], z + 1) + col == Copies(yy[0], z + 2) + col[1..];
    } else {
      var j := Place(yy, col[0]);
      StillCodable(yy, col, j);
      EncodeSaves(ToFront(yy, j), 0, col[1..]);
      assert Copies(col[0], 1) + col[1..] == col;
      if z <= 1 { ThriceLater(yy[0], z + 1, col); }
    }
  }

  lemma {:induction false} UsedAscends(inUse: seq<bool>, n: nat)
    requires n <= |inUse| == 256
    ensures forall i, j :: 0 <= i < j < |Used(inUse, n)| ==> Used(inUse, n)[i] < Used(inUse, n)[j]
  {
    if n > 0 { UsedAscends(inUse, n - 1); }
  }

  /** Numbering the bytes in use keeps equal ones equal and different ones different. */
  lemma SameThrice(inUse: seq<bool>, seqNo: seq<byte>, col: seq<byte>)
    requires |inUse| == 256 && Numbers(seqNo, Used(inUse, 256), inUse, 256) && Used(inUse, 256) != []
    requires forall i :: 0 <= i < |col| ==> inUse[col[i]]
    ensures Thrice([0] + Mapped(seqNo, col)) <==> Thrice([Used(inUse, 256)[0]] + col)
  {
    var u := Used(inUse, 256);
    var x, y := [u[0]] + col, [0] + Mapped(seqNo, col);
    UsedAscends(inUse, 256);
    forall i | 0 <= i < |x| ensures u[y[i]] == x[i] && y[i] < |u| {
      if i > 0 { assert inUse[col[i - 1]]; }
    }
    if i :| 0 <= i && i + 2 < |y| && y[i] == y[i + 1] == y[i + 2] { assert x[i] == x[i + 1] == x[i + 2]; }
    if i :| 0 <= i && i + 2 < |x| && x[i] == x[i + 1] == x[i + 2] { assert y[i] == y[i + 1] == y[i + 2]; }
  }

  /**
   * A block has no more MTF values than bytes exactly if, in its column with the first byte
   * in use put before it, some byte stands three times in a row.
   */
  lemma NoMoreThanBytes(inUse: seq<bool>, seqNo: seq<byte>, col: seq<byte>)
    requires |inUse| == 256 && Numbers(seqNo, Used(inUse, 256), inUse, 256)
    requires col != [] && forall i :: 0 <= i < |col| ==> inUse[col[i]]
    ensures var u := Used(inUse, 256);
      && 1 <= |u| && Codable(Iota(|u|), Mapped(seqNo, col))
      && (|Symbols(seqNo, |u|, col)| <= |col| <==> Thrice([u[0]] + col))
  {
    var u := Used(inUse, 256);
    MappedCodable(seqNo, inUse, col);
    EncodeSaves(Iota(|u|), 0, Mapped(seqNo, col));
    assert Copies(Iota(|u|)[0], 0 + 1) == [0];
    SameThrice(inUse, seqNo, col);
  }

  /** An input with more: one byte gives a run of one and the end symbol. */
  lemma OneByteTwoValues(inUse: seq<bool>, seqNo: seq<byte>, c: byte)
    requires |inUse| == 256 && forall b: byte :: inUse[b] <==> b == c
    requires Numbers(seqNo, Used(inUse, 256), inUse, 256)
    ensures Used(inUse, 256) == [c] && Codable(Iota(1), Mapped(seqNo, [c]))
    ensures Symbols(seqNo, 1, [c]) == [RUNA, 2] && |Symbols(seqNo, 1, [c])| > |[c]|
  {
    OnlyUsed(inUse, c, 256);
    MappedCodable(seqNo, inUse, [c]);
    assert inUse[c];
    assert Mapped(seqNo, [c]) == [0] && Mapped(seqNo, [c])[1..] == [];
    assert Encode(Iota(1), 0, [0]) == Encode(Iota(1), 1, []) == Runs(1);
    assert Runs(1) == [RUNA];
  }

  lemma {:induction false} OnlyUsed(inUse: seq<bool>, c: byte, n: nat)
    requires |inUse| == 256 && n <= 256 && forall b: byte :: inUse[b] <==> b == c
    ensures Used(inUse, n) == if c < n then [c] else []
  {
    if n > 0 {
      var b: byte := n - 1;
      OnlyUsed(inUse, c, n - 1);
      assert inUse[b] <==> b == c;
    }
  }
}
