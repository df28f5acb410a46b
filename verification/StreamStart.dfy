/** What tells from the bytes that have come whether they can be the start of a bzip2 stream. */
module StreamStart {
  import opened Common
  import opened Bits
  import opened BitIO
  import opened Mtf
  import opened Parser

  /** A stream starts with 'B', 'Z', 'h' and a digit from 1 to 9. */
  predicate MayStart(i: nat, b: byte) {
    if i == 0 then b == 0x42 else if i == 1 then b == 0x5A else if i == 2 then b == 0x68
      else i == 3 ==> 0x31 <= b <= 0x39
  }

  /** The bytes that have come already differ from the start of any stream. */
  ghost predicate NoStream(given: seq<byte>) {
    exists i :: 0 <= i < |given| && !MayStart(i, given[i])
  }

  /** How far the bytes that have come have led: nothing but what may start a stream lies behind. */
  ghost predicate Placed(given: seq<byte>, c: Ctl, unread: bits) {
    if c.Magic? then
      1 <= c.k <= 4 && c.k - 1 <= |given| && unread == BytesBits(given[c.k - 1..]) && !NoStream(given[..c.k - 1])
    else if c.BadMagic? then NoStream(given)
    else !NoStream(given) && 4 <= |given|
  }

  lemma FirstByte(s: seq<byte>, k: nat)
    requires k < |s|
    ensures Value(BytesBits(s[k..])[..8]) == s[k] && BytesBits(s[k..])[8..] == BytesBits(s[k + 1..])
  {
    assert s[k..] == [s[k]] + s[k + 1..];
    BytesBitsAppend([s[k]], s[k + 1..]);
    assert [s[k]][..0] == [];
    SmallPowers();
    ValueSpell(s[k], 8);
    assert BytesBits([s[k]]) == Spell(s[k], 8);
  }

  /** One byte of the start. */
  lemma MagicRead(given: seq<byte>, k: nat, unread: bits, b: byte)
    requires 1 <= k <= 4 && Placed(given, Magic(k), unread) && k <= |given| && b == given[k - 1]
    ensures Placed(given, OnMagic(k, b), BytesBits(given[k..]))
  {
    assert MayStart(k - 1, b) <==> !OnMagic(k, b).BadMagic?;
    if MayStart(k - 1, b) {
      forall i | 0 <= i < |given| && i < k ensures MayStart(i, given[i]) {
        if i < k - 1 { assert given[..k - 1][i] == given[i]; }
      }
      assert !NoStream(given[..k]);
      forall i | k <= i < |given| && k == 4 ensures MayStart(i, given[i]) { }
    } else {
      assert !MayStart(k - 1, given[k - 1]);
    }
  }

  lemma HeaderBehind(c: Ctl, v: nat)
    requires Good(c) && InHeader(c) && !c.Magic?
    ensures !DeliverHeader(c, v).Magic? && !DeliverHeader(c, v).BadMagic?
  {
    hide Skip, Used;
  }

  lemma CodingBehind(c: Ctl, v: nat)
    requires Good(c) && Waiting(c) && !InHeader(c) && !InSymbols(c)
    ensures !DeliverCoding(c, v).Magic? && !DeliverCoding(c, v).BadMagic?
  {
    hide UndoMtf, Used;
  }

  lemma SymbolBehind(c: Ctl, v: nat)
    requires Good(c) && InSymbols(c)
    ensures !DeliverSymbol(c, v).Magic? && !DeliverSymbol(c, v).BadMagic?
  {
    hide OnSymbol, Used, TableOf;
  }

  lemma LeftBehind(c: Ctl, v: nat)
    requires Good(c) && Waiting(c) && !c.Magic?
    ensures !Deliver(c, v).Magic? && !Deliver(c, v).BadMagic?
  {
    hide DeliverHeader, DeliverCoding, DeliverSymbol, Good;
    if InSymbols(c) { SymbolBehind(c, v); } else if InHeader(c) { HeaderBehind(c, v); } else { CodingBehind(c, v); }
  }

  /** Reading on keeps it so. */
  lemma {:induction false} PlacedOn(given: seq<byte>, c: Ctl, s: bits)
    requires Good(c) && Placed(given, c, s)
    ensures Placed(given, Parse(c, s).c, Parse(c, s).rest)
    decreases |s|
  {
    if Waiting(c) && Need(c) <= |s| {
      var n, v := Need(c), Value(s[..Need(c)]);
      var next := Deliver(c, v);
      ParseOn(c, s, n, v, next, s[n..]);
      if c.Magic? {
        FirstByte(given, c.k - 1);
        MagicRead(given, c.k, s, given[c.k - 1]);
      } else {
        LeftBehind(c, v);
      }
      PlacedOn(given, next, s[n..]);
    }
  }

  lemma PlacedAlike(given: seq<byte>, c: Ctl, c': Ctl, unread: bits)
    requires Placed(given, c, unread) && Alike(c, c')
    ensures Placed(given, c', unread)
  {
  }

  /** Two views of a place. */
  ghost predicate Alike(c: Ctl, c': Ctl) { c == c' || (!c.Magic? && !c.BadMagic? && !c'.Magic? && !c'.BadMagic?) }

  /** From place c, seen as c0, to place next, seen as at. */
  lemma PlacedNext(given: seq<byte>, c: Ctl, c0: Ctl, s: bits, at: Ctl, next: Ctl, rest: bits)
    requires Good(c0) && Placed(given, c, s) && Alike(c, c0) && Stop(at, rest) == Parse(c0, s) && Alike(at, next)
    ensures Placed(given, next, rest)
  {
    PlacedOn(given, c0, s);
  }

  lemma PlacedMore(given: seq<byte>, c: Ctl, unread: bits, more: seq<byte>)
    requires Placed(given, c, unread)
    ensures Placed(given + more, c, unread + BytesBits(more))
  {
    var all := given + more;
    if c.Magic? {
      assert all[..c.k - 1] == given[..c.k - 1] && all[c.k - 1..] == given[c.k - 1..] + more;
      BytesBitsAppend(given[c.k - 1..], more);
    } else if c.BadMagic? {
      var i :| 0 <= i < |given| && !MayStart(i, given[i]);
      assert all[i] == given[i];
    }
  }

  /** When no more can be read, a wrong start has been noticed. */
  lemma NoticedHere(given: seq<byte>, c: Ctl, s: bits)
    requires Good(c) && Placed(given, c, s) && (c.Magic? ==> Parse(c, s) == Stop(c, s))
    ensures c.BadMagic? <==> NoStream(given)
  {
    if c.Magic? {
      if |s| >= 8 {
        var v := Value(s[..8]);
        ParseOn(c, s, 8, v, Deliver(c, v), s[8..]);
        ParseConsumes(Deliver(c, v), s[8..]);
        assert false;
      }
      assert given[..c.k - 1] == given;
    }
  }
}
