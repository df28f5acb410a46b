/**
 * From a block's last column to its text: the counts of bytes become the places of
 * the rows, those the inverse transform, in the fast or in the low-memory form, and
 * the output side starts on it.
 */
module BlockOutput {
  import opened Common
  import opened Counting
  import opened Bwt
  import opened SmallInverse
  import opened Mtf
  import opened MtfDecoder
  import opened Rle
  import opened BzCrc
  import opened RleDecoder

  /** The counts that the decoder has kept pass its checks and give the places. */
  method PlacesOf(unzftab: seq<int>, ghost l: seq<byte>, nblock: nat) returns (cftab: array<int>)
    requires Tallied(unzftab, l) && nblock == |l|
    ensures fresh(cftab) && cftab.Length == 257 && Cumulative(cftab[..], l)
  {
    assert unzftab == Counts(l) && unzftab[..256] == unzftab;
    CountsSum(l, 256);
    CountBelowStep(l, 256);
    var ok, cf := BuildCftab(unzftab, nblock);
    assert ok;
    cftab := new int[257](i requires 0 <= i < 257 => cf[i]);
    forall c | 0 <= c <= 256 ensures cftab[c] == CountBelow(l, c) { CountsSum(l, c); }
  }

  /** The output side at its start: nothing has been put out, and all is still to come. */
  ghost predicate Fresh(o: Output, l: seq<byte>, orig: nat)
    reads o, o.tt, o.table, o.table.ll16, o.table.ll4, o.cftab
  {
    && o.Valid() && orig < |l| && o.save_nblock == |l| && o.t == Fetched(l, orig)
    && o.Left() == Remaining(o.t, |l|, 0) && (o.Sane() <==> Complete(o.t, |l|, 0)) && o.calculatedBlockCRC == INITIAL
  }

  method StartFast(tt: array<int>, unzftab: array<int>, nblock: nat, orig: nat, limit: nat, ghost l: seq<byte>)
    returns (o: Output)
    requires Bytes(tt[..], nblock) && Prefix(tt[..], nblock) == l && Tallied(unzftab[..], l) && orig < nblock <= limit
    modifies tt
    ensures fresh(o) && Fresh(o, l, orig) && !o.small
  {
    var cftab := PlacesOf(unzftab[..], l, nblock);
    assert tt[..nblock] == l;
    ComputeTt(tt, cftab, nblock, l);
    o := new Output.Fast(tt, orig, limit, nblock, l);
    AtStart(o);
  }

  method StartSmall(ll16: array<int>, unzftab: array<int>, nblock: nat, orig: nat, limit: nat, ghost l: seq<byte>)
    returns (o: Output)
    requires Bytes(ll16[..], nblock) && Prefix(ll16[..], nblock) == l && Tallied(unzftab[..], l)
    requires orig < nblock <= limit
    requires nblock <= LARGEST_BLOCK
    modifies ll16
    ensures fresh(o) && Fresh(o, l, orig) && o.small
  {
    var cftab := PlacesOf(unzftab[..], l, nblock);
    var table, on := InvertInPlace(ll16, cftab, nblock, orig, l);
    o := new Output.Small(table, cftab, orig, limit, nblock, on, l);
    AtStart(o);
  }

  method StartEither(small: bool, tt: array<int>, unzftab: array<int>, nblock: nat, orig: nat, limit: nat,
                     ghost l: seq<byte>)
    returns (o: Output)
    requires Bytes(tt[..], nblock) && Prefix(tt[..], nblock) == l && Tallied(unzftab[..], l) && orig < nblock <= limit
    requires nblock <= LARGEST_BLOCK
    modifies tt
    ensures fresh(o) && Fresh(o, l, orig) && o.small == small
  {
    if small { o := StartSmall(tt, unzftab, nblock, orig, limit, l); }
      else { o := StartFast(tt, unzftab, nblock, orig, limit, l); }
  }

  /** T over the column, and then its cycle through orig reversed. */
  method InvertInPlace(ll16: array<int>, cftab: array<int>, nblock: nat, orig: nat, ghost l: seq<byte>)
    returns (table: Table, ghost on: set<int>)
    requires Bytes(ll16[..], nblock) && ll16[..nblock] == l && orig < nblock == |l| <= LARGEST_BLOCK
    requires cftab.Length == 257 && Cumulative(cftab[..], l)
    requires cftab != ll16
    modifies ll16
    ensures fresh(table) && table.Valid() && Inverts(table.Entries(), on, l) && orig in on
    ensures cftab[..] == old(cftab[..])
  {
    ghost var cf := cftab[..];
    var copy := new int[257](i requires 0 <= i < 257 reads cftab => cftab[i]);
    assert copy[..] == cf;
    table := new Table.Over(ll16, nblock);
    assert ll16[..nblock] == l;
    ComputeT(table, copy, nblock, l);
    on := ReverseCycle(table, orig, nblock, l);
    assert cftab[..] == cf;
  }

  lemma AtStart(o: Output)
    requires o.Valid() && o.nblock_used == 1 && o.state_out_len == 0
    ensures o.save_nblock == |o.l| && 0 <= o.orig < |o.l| && o.t == Fetched(o.l, o.orig)
    ensures o.Left() == Remaining(o.t, o.save_nblock, 0) && (o.Sane() <==> Complete(o.t, o.save_nblock, 0))
  {
    assert Key(0);
    assert Repeat(o.state_out_ch, 0) == [];
  }
}
