/** The bits of a compressed block, as the compressor writes them. */
module BlockFormat {
  import opened Common
  import opened Bits
  import opened BitIO
  import opened HuffmanCodes
  import opened MtfCache
  import opened Parser

  // ---- Used bytes: 16 flags for groups, then 16 for each group in use ----

  ghost predicate GroupUsed(inUse: seq<bool>, i: nat)
    requires |inUse| == 256 && i < 16
  {
    exists k :: 16 * i <= k < 16 * i + 16 && inUse[k]
  }

  ghost function Use16(inUse: seq<bool>): (u: bits)
    requires |inUse| == 256
    ensures |u| == 16
  {
    seq(16, i requires 0 <= i < 16 => GroupUsed(inUse, i))
  }

  ghost function GroupsFrom(inUse: seq<bool>, i: nat): bits
    requires |inUse| == 256 && i <= 16
    decreases 16 - i
  {
    if i == 16 then []
    else (if GroupUsed(inUse, i) then inUse[16 * i..16 * i + 16] else []) + GroupsFrom(inUse, i + 1)
  }

  ghost function MapBits(inUse: seq<bool>): bits
    requires |inUse| == 256
  {
    Use16(inUse) + GroupsFrom(inUse, 0)
  }

  // ---- Selectors: move-to-front values in unary ----

  ghost function Where(pos: seq<nat>, v: nat): (j: nat)
    requires v in pos
    ensures j < |pos| && pos[j] == v && forall k :: 0 <= k < j ==> pos[k] != v
  {
    if pos[0] == v then 0 else Where(pos[1..], v) + 1
  }

  ghost predicate AllIn(sels: seq<nat>, pos: seq<nat>) { forall i :: 0 <= i < |sels| ==> sels[i] in pos }

  ghost function DoMtf(pos: seq<nat>, sels: seq<nat>): (r: seq<nat>)
    requires AllIn(sels, pos)
    ensures |r| == |sels| && forall i :: 0 <= i < |r| ==> r[i] < |pos|
    decreases |sels|
  {
    if sels == [] then []
    else
      FrontHas(pos, Where(pos, sels[0]), sels);
      [Where(pos, sels[0])] + DoMtf(ToFront(pos, Where(pos, sels[0])), sels[1..])
  }

  lemma FrontHas(pos: seq<nat>, j: nat, sels: seq<nat>)
    requires j < |pos| && AllIn(sels, pos)
    ensures AllIn(sels, ToFront(pos, j))
  {
    assert pos == pos[..j] + [pos[j]] + pos[j + 1..];
  }

  ghost function Unary(j: nat): (s: bits)
    ensures |s| == j + 1
  {
    seq(j, _ => true) + [false]
  }

  ghost function UnaryAll(mtf: seq<nat>): bits {
    if mtf == [] then [] else Unary(mtf[0]) + UnaryAll(mtf[1..])
  }

  ghost function SelectorBits(nGroups: nat, sels: seq<nat>): bits
    requires AllIn(sels, Tables0(nGroups))
  {
    Spell(nGroups, 3) + Spell(|sels|, 15) + UnaryAll(DoMtf(Tables0(nGroups), sels))
  }

  // ---- Code lengths: the first in 5 bits, then steps up (10) or down (11), each length ended by 0 ----

  ghost function Steps(curr: int, to: int): bits
    decreases if curr < to then to - curr else curr - to
  {
    if curr < to then [true, false] + Steps(curr + 1, to)
    else if curr > to then [true, true] + Steps(curr - 1, to)
    else [false]
  }

  ghost function LengthsFrom(curr: int, len: seq<byte>): bits
    decreases |len|
  {
    if len == [] then [] else Steps(curr, len[0]) + LengthsFrom(len[0], len[1..])
  }

  ghost function TableBits(len: seq<byte>): bits
    requires len != []
  {
    Spell(len[0], 5) + LengthsFrom(len[0], len)
  }

  ghost function TablesBits(lens: seq<seq<byte>>): bits
    requires forall t :: 0 <= t < |lens| ==> lens[t] != []
  {
    if lens == [] then [] else TableBits(lens[0]) + TablesBits(lens[1..])
  }

  // ---- Symbols: groups of 50, each with the table its selector names ----

  /** The symbols from the i-th on. */
  ghost function SymbolBits(lens: seq<seq<byte>>, sels: seq<nat>, syms: seq<int>, i: nat): bits
    requires Coded(lens, sels, syms) && i <= |syms|
    decreases |syms| - i
  {
    if i == |syms| then []
    else
      var len := lens[sels[i / GROUP_SIZE]];
      Word(len, Shortest(len), syms[i]) + SymbolBits(lens, sels, syms, i + 1)
  }

  /** Every symbol has a code in the table of its group. */
  ghost predicate Coded(lens: seq<seq<byte>>, sels: seq<nat>, syms: seq<int>) {
    && |syms| <= GROUP_SIZE * |sels|
    && (forall i :: 0 <= i < |sels| ==> sels[i] < |lens| && lens[sels[i]] != [])
    && forall i :: 0 <= i < |syms| ==> forall t :: 0 <= t < |lens| ==> 0 <= syms[i] < |lens[t]|
  }

  // ---- The whole block ----

  ghost function BlockMagic(): bits {
    Spell(0x31, 8) + Spell(0x41, 8) + Spell(0x59, 8) + Spell(0x26, 8) + Spell(0x53, 8) + Spell(0x59, 8)
  }

  lemma SelectorsNamed(nGroups: nat, sels: seq<nat>)
    requires forall i :: 0 <= i < |sels| ==> sels[i] < nGroups
    ensures AllIn(sels, Tables0(nGroups))
  {
    forall i | 0 <= i < |sels| ensures sels[i] in Tables0(nGroups) { assert Tables0(nGroups)[sels[i]] == sels[i]; }
  }

  ghost function BodyBits(k: Codes, syms: seq<int>): bits
    requires GoodCodes(k) && Coded(k.lens, k.c.sels, syms)
  {
    SelectorsNamed(k.c.nGroups, k.c.sels);
    MapBits(k.c.inUse) +
      (SelectorBits(k.c.nGroups, k.c.sels) + (TablesBits(k.lens) + SymbolBits(k.lens, k.c.sels, syms, 0)))
  }

  ghost function BlockBits(k: Codes, syms: seq<int>): bits
    requires GoodCodes(k) && Coded(k.lens, k.c.sels, syms)
  {
    BlockMagic() + (WordBits(k.c.h.crc) + ([false] + (Spell(k.c.h.orig, 24) + BodyBits(k, syms))))
  }
}
