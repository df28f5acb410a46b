/**
 * bzip2's checks: a 32-bit CRC, most significant bit first, and the combined CRC
 * of a stream. The specifications below name the bit operations only behind a
 * lock, since nothing but these methods needs to look at them.
 */
module BzCrc {
  import opened Common

  const POLYNOMIAL: bv32 := 0x04c11db7
  const INITIAL: bv32 := 0xffff_ffff

  function Top(x: bv32): bool { x & 0x8000_0000 != 0 }

  function ShiftBit(x: bv32): bv32 { if Top(x) then (x << 1) ^ POLYNOMIAL else x << 1 }

  function ShiftBits(x: bv32, n: nat): bv32
    decreases n, x
  {
    if n == 0 then x else ShiftBits(ShiftBit(x), n - 1)
  }

  /** An entry of the table, by the loop that generates it. */
  function Entry(i: bv32): bv32 { ShiftBits(i << 24, 8) }

  /** BZ_UPDATE_CRC. */
  function RawUpdate(crc: bv32, ch: byte): bv32 { (crc << 8) ^ Entry((crc >> 24) ^ (ch as bv32)) }

  /** The combined CRC, rotated and joined by one more block's. */
  function RawCombine(combined: bv32, crc: bv32): bv32 { ((combined << 1) | (combined >> 31)) ^ !crc }

  // ---- The same behind a lock ----

  ghost predicate IsUpdate(crc: bv32, ch: byte, r: bv32) {
    forall k {:trigger Lock(k)} :: Lock(k) ==> r == RawUpdate(crc, ch)
  }

  ghost predicate IsCombine(combined: bv32, crc: bv32, r: bv32) {
    forall k {:trigger Lock(k)} :: Lock(k) ==> r == RawCombine(combined, crc)
  }

  ghost predicate IsCheck(crc: bv32, n: nat) {
    n < 0x1_0000_0000 && forall k {:trigger Lock(k)} :: Lock(k) ==> n == (!crc) as nat
  }

  ghost predicate IsNumber(crc: bv32, n: nat) {
    n < 0x1_0000_0000 && forall k {:trigger Lock(k)} :: Lock(k) ==> n == crc as nat
  }

  ghost predicate IsFinal(crc: bv32, r: bv32) { forall k {:trigger Lock(k)} :: Lock(k) ==> r == !crc }

  /** The register after one byte. */
  ghost function Update(crc: bv32, ch: byte): (r: bv32)
    ensures IsUpdate(crc, ch, r)
  {
    assert IsUpdate(crc, ch, RawUpdate(crc, ch));
    var r :| IsUpdate(crc, ch, r);
    r
  }

  ghost function Combine(combined: bv32, crc: bv32): (r: bv32)
    ensures IsCombine(combined, crc, r)
  {
    assert IsCombine(combined, crc, RawCombine(combined, crc));
    var r :| IsCombine(combined, crc, r);
    r
  }

  /** A block's CRC as it is stored: the complement of the register. */
  ghost function Check(crc: bv32): (n: nat)
    ensures IsCheck(crc, n)
  {
    assert IsCheck(crc, (!crc) as nat);
    var n :| IsCheck(crc, n);
    n
  }

  ghost function AsNumber(crc: bv32): (n: nat)
    ensures IsNumber(crc, n)
  {
    assert IsNumber(crc, crc as nat);
    var n :| IsNumber(crc, n);
    n
  }

  /** BZ_FINALISE_CRC. */
  ghost function Final(crc: bv32): (r: bv32)
    ensures IsFinal(crc, r)
  {
    assert IsFinal(crc, !crc);
    var r :| IsFinal(crc, r);
    r
  }

  /** A CRC finalised twice is the register again. */
  lemma FinalTwice(crc: bv32)
    ensures AsNumber(Final(crc)) == Check(crc) && Check(Final(crc)) == AsNumber(crc)
  {
    assert Lock(0);
    assert !!crc == crc;
  }

  method UpdateOf(crc: bv32, ch: byte) returns (r: bv32)
    ensures r == Update(crc, ch)
  {
    assert Lock(0);
    r := RawUpdate(crc, ch);
  }

  method CombineOf(combined: bv32, crc: bv32) returns (r: bv32)
    ensures r == Combine(combined, crc)
  {
    assert Lock(0);
    r := RawCombine(combined, crc);
  }

  method CheckOf(crc: bv32) returns (n: nat)
    ensures n == Check(crc)
  {
    assert Lock(0);
    n := (!crc) as nat;
  }

  method FinalOf(crc: bv32) returns (r: bv32)
    ensures r == Final(crc)
  {
    assert Lock(0);
    r := !crc;
  }

  method NumberOf(crc: bv32) returns (n: nat)
    ensures n == AsNumber(crc)
  {
    assert Lock(0);
    n := crc as nat;
  }

  // ---- Over a string of bytes ----

  /** The register after a string of bytes. */
  ghost function Fold(crc: bv32, s: seq<byte>): bv32 {
    if s == [] then crc else Update(Fold(crc, s[..|s| - 1]), s[|s| - 1])
  }

  lemma {:induction false} FoldAppend(crc: bv32, s: seq<byte>, t: seq<byte>)
    ensures Fold(crc, s + t) == Fold(Fold(crc, s), t)
  {
    if t == [] {
      assert s + t == s;
    } else {
      var n := |t| - 1;
      assert (s + t)[..|s + t| - 1] == s + t[..n];
      FoldAppend(crc, s, t[..n]);
    }
  }

  // ---- Check values ----

  lemma TwoShifts(x: bv32, n: nat)
    ensures ShiftBits(x, n + 2) == ShiftBits(ShiftBit(ShiftBit(x)), n)
  {
    assert ShiftBits(x, n + 2) == ShiftBits(ShiftBit(x), n + 1);
  }

  lemma EightShifts(x: bv32)
    ensures ShiftBits(x, 8) == ShiftBit(ShiftBit(ShiftBit(ShiftBit(ShiftBit(ShiftBit(ShiftBit(ShiftBit(x))))))))
  {
    hide ShiftBit;
    var a := ShiftBit(ShiftBit(x));
    var b := ShiftBit(ShiftBit(a));
    var c := ShiftBit(ShiftBit(b));
    TwoShifts(x, 6);
    TwoShifts(a, 4);
    TwoShifts(b, 2);
    TwoShifts(c, 0);
  }

  /** The digits from 1 to 9, one after the other. */
  lemma NineUpdates()
    ensures RawUpdate(0xffff_ffff, 0x31) == 0x9efb_cf93
    ensures RawUpdate(0x9efb_cf93, 0x32) == 0x3fec_5e6a
    ensures RawUpdate(0x3fec_5e6a, 0x33) == 0xd952_f164
    ensures RawUpdate(0xd952_f164, 0x34) == 0xa695_c4aa
    ensures RawUpdate(0xa695_c4aa, 0x35) == 0xbd9a_b747
    ensures RawUpdate(0xbd9a_b747, 0x36) == 0xd8f0_6c8f
    ensures RawUpdate(0xd8f0_6c8f, 0x37) == 0x0d8a_14c4
    ensures RawUpdate(0x0d8a_14c4, 0x38) == 0x49e3_c2fb
    ensures RawUpdate(0x49e3_c2fb, 0x39) == 0x0376_e6e7
  {
    EightShifts(0xce00_0000);
    EightShifts(0xac00_0000);
    EightShifts(0x0c00_0000);
    EightShifts(0xed00_0000);
    EightShifts(0x9300_0000);
    EightShifts(0x8b00_0000);
    EightShifts(0xef00_0000);
    EightShifts(0x3500_0000);
    EightShifts(0x7000_0000);
  }

  lemma FoldsTo(s: seq<byte>, ch: byte, whole: seq<byte>, r: bv32, next: bv32)
    requires Fold(INITIAL, s) == r && RawUpdate(r, ch) == next && whole == s + [ch]
    ensures Fold(INITIAL, whole) == next
  {
    assert Lock(0);
    assert whole[..|s|] == s;
  }

  /** The check value of this CRC is that of CRC-32/BZIP2, and two blocks of that CRC are combined so. */
  lemma CheckValue()
    ensures var r := Fold(INITIAL, [0x31, 0x32, 0x33, 0x34, 0x35, 0x36, 0x37, 0x38, 0x39]);
      Check(r) == 0xfc89_1918 && AsNumber(Combine(Combine(0, r), r)) == 0x059b_2b29
  {
    hide Fold, RawUpdate;
    NineUpdates();
    var s: seq<byte> := [0x31, 0x32, 0x33, 0x34, 0x35, 0x36, 0x37, 0x38, 0x39];
    NothingFolded();
    assert s[..0] == [] && s[..9] == s;
    FoldsTo(s[..0], 0x31, s[..1], 0xffff_ffff, 0x9efb_cf93);
    FoldsTo(s[..1], 0x32, s[..2], 0x9efb_cf93, 0x3fec_5e6a);
    FoldsTo(s[..2], 0x33, s[..3], 0x3fec_5e6a, 0xd952_f164);
    FoldsTo(s[..3], 0x34, s[..4], 0xd952_f164, 0xa695_c4aa);
    FoldsTo(s[..4], 0x35, s[..5], 0xa695_c4aa, 0xbd9a_b747);
    FoldsTo(s[..5], 0x36, s[..6], 0xbd9a_b747, 0xd8f0_6c8f);
    FoldsTo(s[..6], 0x37, s[..7], 0xd8f0_6c8f, 0x0d8a_14c4);
    FoldsTo(s[..7], 0x38, s[..8], 0x0d8a_14c4, 0x49e3_c2fb);
    FoldsTo(s[..8], 0x39, s[..9], 0x49e3_c2fb, 0x0376_e6e7);
    assert Lock(0);
    assert RawCombine(0, 0x0376_e6e7) == 0xfc89_1918 && RawCombine(0xfc89_1918, 0x0376_e6e7) == 0x059b_2b29;
  }

  lemma NothingFolded()
    ensures Fold(INITIAL, []) == 0xffff_ffff
  {
  }
}
