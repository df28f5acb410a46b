/** A whole deflate tree, from frequencies to codes: build_tree, gen_bitlen and gen_codes together. */
module DeflateTree {
  import opened Common
  import opened Counting
  import opened DeflateLengths
  import opened DeflateCodes
  import opened BuildTree
  import opened HuffmanCost
  import HuffmanDepth
  import opened Merges
  import opened MergeTree
  import opened MergeCost

  /** The leaves are distinct symbols, so there are no more of them than symbols. */
  lemma LeafCountBound(t: Tree)
    requires Shaped(t)
    ensures LeafCount(t, |t.order|) <= t.maxCode + 1
  {
    LeafSet(t, |t.order|);
    SubsetSize(LeavesBefore(t, |t.order|), Range(t.maxCode + 1));
  }

  ghost function LeavesBefore(t: Tree, i: int): (s: set<int>)
    requires i <= |t.order|
  {
    if i <= 0 then {} else LeavesBefore(t, i - 1) + if InnerNode(t, t.order[i - 1]) then {} else {t.order[i - 1]}
  }

  lemma {:induction false} LeafSet(t: Tree, i: int)
    requires Shaped(t) && 0 <= i <= |t.order|
    ensures |LeavesBefore(t, i)| == LeafCount(t, i) && LeavesBefore(t, i) <= Range(t.maxCode + 1)
    ensures forall v :: v in LeavesBefore(t, i) ==> 0 <= v < |t.at| && 0 <= t.at[v] < i
    decreases i
  {
    if i > 0 {
      var j, v := i - 1, t.order[i - 1];
      LeafSet(t, j);
      NodeHas(t, j);
      assert v !in LeavesBefore(t, j);
      assert LeavesBefore(t, i) == if InnerNode(t, v) then LeavesBefore(t, j) else LeavesBefore(t, j) + {v};
    }
  }

  /** The leaves of length b in the tree are the symbols of length b. */
  lemma SameHaving(t: Tree, len: seq<int>, ls: seq<byte>, b: int)
    requires |len| == |t.dad| == |t.at| && |ls| <= |len| && t.maxCode < |ls| && 1 <= b
    requires (forall v :: 0 <= v < |ls| ==> ls[v] == len[v])
    requires forall v :: 0 <= v < |ls| && !Before(t, v, |t.order|) ==> len[v] == 0
    requires forall v :: 0 <= v < |ls| && Before(t, v, |t.order|) ==> v <= t.maxCode
    ensures DeflateLengths.Having(t, len, b, 0, |t.order|) == DeflateCodes.Having(ls, b)
  {
  }

  /** What gen_bitlen leaves is a complete code for the symbols of the tree. */
  lemma TreeComplete(t: Tree, len: seq<int>, bl: seq<int>, limit: nat, ls: seq<byte>)
    requires 1 <= limit <= MAX_BITS && |ls| <= |len| == |t.dad| == |t.at| && t.maxCode < |ls| && limit < |bl|
    requires bl[0] == 0
    requires Given(t, len, limit, 0) && Tallied(t, len, bl, limit, 0, |t.order|) && KraftOf(bl, limit) == Pow2(limit)
    requires (forall v :: 0 <= v < |ls| ==> ls[v] == len[v])
    requires forall v :: 0 <= v < |ls| && !Before(t, v, |t.order|) ==> len[v] == 0
    requires forall v :: 0 <= v < |ls| && Before(t, v, |t.order|) ==> v <= t.maxCode
    ensures Complete(ls, limit) && CountsOf(bl, ls, limit)
    ensures forall v :: 0 <= v < |ls| && Before(t, v, |t.order|) ==> ls[v] != 0
  {
    assert Gate(0) && Key(0);
    forall b | 1 <= b <= limit ensures bl[b] == Count(ls, b) {
      SameHaving(t, len, ls, b);
      CountIsSize(ls, b);
    }
    forall v | 0 <= v < |ls| ensures ls[v] <= limit && (Before(t, v, |t.order|) ==> ls[v] != 0) {}
    KraftOfCounts(bl, ls, limit);
  }

  lemma InByteRange(t: Tree, len: seq<int>, limit: nat, elems: nat)
    requires |len| == |t.dad| == |t.at| && elems <= |len| && limit <= MAX_BITS && Given(t, len, limit, 0)
    requires forall v :: 0 <= v < elems && !Before(t, v, |t.order|) ==> len[v] == 0
    requires forall v :: 0 <= v < elems && Before(t, v, |t.order|) ==> v <= t.maxCode
    ensures forall v :: 0 <= v < elems ==> 0 <= len[v] < 256
  {
    assert Key(0);
  }

  /** The symbols that occur. */
  ghost function Symbols(freq: seq<nat>): set<int> { set v | 0 <= v < |freq| && freq[v] != 0 }

  /**
   * The tree for the given frequencies. Every symbol that occurs gets a length within
   * the limit, and no other does if two or more occur. The lengths are a complete code,
   * and the stored codes are those of section 3.2.2 of RFC 1951 with their bits reversed.
   * The depths in the merged tree cost least of all codes, and if none exceeds the limit
   * they are the lengths.
   */
  method BuildCodes(freq0: seq<nat>, limit: nat)
    returns (lens: seq<byte>, codes: seq<nat>, ghost depths: seq<nat>)
    requires 3 <= |freq0| <= Pow2(limit) && 1 <= limit <= MAX_BITS
    ensures |lens| == |freq0| && Complete(lens, limit)
    ensures forall v :: 0 <= v < |freq0| && freq0[v] != 0 ==> lens[v] != 0
    ensures |Symbols(freq0)| >= 2 ==> forall v :: 0 <= v < |freq0| && lens[v] != 0 ==> freq0[v] != 0
    ensures |codes| == |lens| && Stored(codes, lens) && |depths| == |freq0|
    ensures |Symbols(freq0)| >= 2 ==> Best(Symbols(freq0), freq0, depths)
    ensures |Symbols(freq0)| >= 2 && (forall v :: v in Symbols(freq0) ==> depths[v] <= limit) ==>
      Best(Symbols(freq0), freq0, lens)
    ensures Ordered(Symbols(freq0), freq0, lens)
  {
    hide Best;
    var heap := new int[|freq0| + 1](_ => 0);
    var n, maxCode, leaves := ScanSymbols(freq0, heap);
    assert leaves == Symbols(freq0);
    var freq;
    n, maxCode, freq, leaves := ForceTwo(freq0, heap, n, maxCode, leaves);
    assert |Symbols(freq0)| >= 2 ==> leaves == Symbols(freq0);
    lens, codes, depths := CodesFor(heap, n, freq, maxCode, limit, leaves);
    if |Symbols(freq0)| < 2 { OneOrdered(freq0, lens); }
  }

  /** No symbol has a longer code than a less frequent one. */
  ghost predicate Ordered(s: set<int>, freq: seq<nat>, lens: seq<byte>) {
    |lens| == |freq| && forall u, v :: u in s && v in s && 0 <= u < |freq| && 0 <= v < |freq| && freq[v] < freq[u] ==>
      lens[u] <= lens[v]
  }

  lemma OneOrdered(freq0: seq<nat>, lens: seq<byte>)
    requires |Symbols(freq0)| < 2 && |lens| == |freq0|
    ensures Ordered(Symbols(freq0), freq0, lens)
  {
    var s := Symbols(freq0);
    forall u, v | u in s && v in s ensures u == v { if u != v { SubsetSize({u, v}, s); } }
  }

  /** The codes for symbols of which two or more occur. */
  method CodesFor(heap: array<int>, n: nat, freq: seq<nat>, maxCode: int, limit: nat, ghost leaves: set<int>)
    returns (lens: seq<byte>, codes: seq<nat>, ghost depths: seq<nat>)
    requires 2 <= n && |freq| <= Pow2(limit) && 1 <= limit <= MAX_BITS
    requires HoldsLeaves(heap[..], n, leaves) && Occurring(leaves, freq, |freq|, n, maxCode)
    modifies heap
    ensures |lens| == |freq| && Complete(lens, limit) && |codes| == |lens| && Stored(codes, lens)
    ensures forall v :: 0 <= v < |freq| ==> (lens[v] != 0 <==> v in leaves)
    ensures |depths| == |freq| && Best(leaves, freq, depths)
    ensures (forall v :: v in leaves ==> 0 <= v < |freq| && depths[v] <= limit) ==> Best(leaves, freq, lens)
    ensures Ordered(leaves, freq, lens)
  {
    hide Best, SiblingOrder, FromDepths, Complete, Stored, HoldsLeaves, Ordered, FromRising;
    var order, dad, t, w := MergeAll(heap, n, freq, maxCode, leaves);
    LeavesBest(t, w, freq, leaves);
    depths := Depths(t)[..|freq|];
    LeafCountBound(t);
    var bl := new int[MAX_BITS + 1](_ => 0);
    lens := TreeLengths(order, dad, maxCode, limit, |freq|, bl, t);
    codes := GenCodes(lens, bl[..], limit);
    LengthsBest(t, freq, leaves, depths, lens, limit);
    if Shallow(t, limit, |order|) {
      ShallowBest(t, freq, leaves, depths, limit);
      BestOrdered(leaves, freq, lens, limit);
    } else {
      RisingOrdered(t, w, freq, leaves, lens, limit);
    }
  }

  lemma ShallowBest(t: Tree, freq: seq<nat>, leaves: set<int>, depths: seq<nat>, limit: nat)
    requires Shaped(t) && Shallow(t, limit, |t.order|) && |freq| <= |t.dad| == |t.at| && depths == Depths(t)[..|freq|]
    requires forall v :: v in leaves ==> 0 <= v < |freq| && Before(t, v, |t.order|)
    ensures forall v :: v in leaves ==> depths[v] <= limit
  {
    forall v | v in leaves ensures depths[v] <= limit { DepthAt(t, t.at[v]); }
  }

  lemma UsedSnoc(lens: seq<byte>, n: nat, limit: nat)
    requires |lens| == n + 1 && forall v :: 0 <= v < |lens| ==> lens[v] <= limit
    ensures DeflateCodes.Share(lens, limit) ==
      DeflateCodes.Share(lens[..n], limit) + if lens[n] != 0 then Pow2(limit - lens[n]) else 0
  {
    var u, x := DeflateCodes.Used(lens[..n]), lens[n];
    UsedWithin(lens[..n], limit);
    UsedWithin(lens, limit);
    if x != 0 {
      assert DeflateCodes.Used(lens) == u + [x];
      assert (u + [x])[..|u|] == u;
    } else {
      assert DeflateCodes.Used(lens) == u;
    }
  }

  lemma UnitsSnoc(s: set<int>, lens: seq<nat>, n: nat, limit: nat)
    requires |lens| == n + 1
    ensures Sum(Units(s, lens, limit)) ==
      Sum(Units(s, lens[..n], limit)) + if n in s then Unit(limit, lens[n]) else 0
  {
    assert Units(s, lens, limit)[..n] == Units(s, lens[..n], limit);
  }

  /** What the lengths take of the code space, symbol by symbol. */
  lemma {:induction false} ShareIsUnits(s: set<int>, lens: seq<byte>, limit: nat)
    requires forall v :: 0 <= v < |lens| ==> lens[v] <= limit && (v in s <==> lens[v] != 0)
    ensures DeflateCodes.Share(lens, limit) == Sum(Units(s, lens, limit))
  {
    hide Pow2, DeflateCodes.Share, Units;
    if lens != [] {
      var n := |lens| - 1;
      ShareIsUnits(s, lens[..n], limit);
      UsedSnoc(lens, n, limit);
      UnitsSnoc(s, lens, n, limit);
    } else {
      NothingUsed(s, limit);
    }
  }

  lemma NothingUsed(s: set<int>, limit: nat)
    ensures DeflateCodes.Share([], limit) == 0 == Sum(Units(s, [], limit))
  {
    assert Units(s, [], limit) == [];
  }

  lemma BestOrdered(s: set<int>, freq: seq<nat>, lens: seq<byte>, limit: nat)
    requires Best(s, freq, lens) && Complete(lens, limit) && |lens| == |freq|
    requires forall v :: v in s <==> 0 <= v < |lens| && lens[v] != 0
    ensures Ordered(s, freq, lens)
  {
    hide Best;
    ShareIsUnits(s, lens, limit);
    assert HuffmanCost.Code(s, lens, limit);
    forall u, v | u in s && v in s && freq[v] < freq[u] ensures lens[u] <= lens[v] {
      if lens[v] < lens[u] { HuffmanDepth.NoGain(s, freq, lens, limit, v, u); }
    }
  }

  /** When the tree did not fit the limit, the lengths rise along the order of the nodes. */
  ghost predicate FromRising(t: Tree, lens: seq<byte>, limit: nat) {
    && Shaped(t) && |lens| <= |t.dad| == |t.at|
    && (!Shallow(t, limit, |t.order|) ==> forall u, v ::
        0 <= u < |lens| && 0 <= v < |lens| && Before(t, u, |t.order|) && Before(t, v, |t.order|) && t.at[u] < t.at[v]
        ==> lens[u] <= lens[v])
  }

  lemma AreRising(t: Tree, len: seq<int>, lens: seq<byte>, limit: nat)
    requires Shaped(t) && |lens| <= |t.dad| == |t.at| == |len| && forall v :: 0 <= v < |lens| ==> lens[v] == len[v]
    requires !Shallow(t, limit, |t.order|) ==> Rising(t, len)
    requires forall v :: 0 <= v < |lens| && Before(t, v, |t.order|) ==> v <= t.maxCode
    ensures FromRising(t, lens, limit)
  {
  }

  lemma RisingOrdered(t: Tree, w: seq<nat>, freq: seq<nat>, leaves: set<int>, lens: seq<byte>, limit: nat)
    requires FromRising(t, lens, limit) && !Shallow(t, limit, |t.order|) && |lens| == |freq|
    requires SiblingOrder(t, w, freq) && forall v :: v in leaves ==> 0 <= v < |freq| && Before(t, v, |t.order|)
    ensures Ordered(leaves, freq, lens)
  {
    forall u, v | u in leaves && v in leaves && freq[v] < freq[u] ensures lens[u] <= lens[v] {
      LaterIsLighter(t, w, freq, v, u);
    }
  }

  lemma LaterIsLighter(t: Tree, w: seq<nat>, freq: seq<nat>, u: int, v: int)
    requires SiblingOrder(t, w, freq) && 0 <= u < |freq| && 0 <= v < |freq|
    requires Before(t, u, |t.order|) && Before(t, v, |t.order|)
    ensures t.at[u] <= t.at[v] ==> freq[v] <= freq[u]
  {
    if t.at[u] < t.at[v] { assert Lighter(w, t.order[t.at[v]], t.order[t.at[u]]); }
  }

  lemma LeavesBest(t: Tree, w: seq<nat>, freq: seq<nat>, leaves: set<int>)
    requires Shaped(t) && Best(leaves, w, Depths(t)) && SiblingOrder(t, w, freq)
    requires forall v :: v in leaves ==> 0 <= v < |freq|
    ensures Best(leaves, freq, Depths(t)[..|freq|])
  {
    BestPrefix(leaves, w, Depths(t), |freq|);
    assert w[..|freq|] == freq;
  }

  /** The lengths given by a tree that fits in the limit are its depths. */
  ghost predicate FromDepths(t: Tree, lens: seq<byte>, limit: nat) {
    && Shaped(t) && |lens| <= |t.dad| == |t.at|
    && (Shallow(t, limit, |t.order|) ==>
        forall v :: 0 <= v < |lens| && Before(t, v, |t.order|) ==> lens[v] == DepthOf(t, t.at[v]))
  }

  lemma LengthsBest(t: Tree, freq: seq<nat>, leaves: set<int>, depths: seq<nat>, lens: seq<byte>, limit: nat)
    requires FromDepths(t, lens, limit) && |lens| == |freq| && depths == Depths(t)[..|freq|]
    requires (forall v :: v in leaves ==> 0 <= v < |freq|) && Best(leaves, freq, depths)
    requires forall v :: 0 <= v < |freq| ==> (Before(t, v, |t.order|) <==> v in leaves)
    requires t.maxCode < |freq|
    ensures (forall v :: v in leaves ==> depths[v] <= limit) ==> Best(leaves, freq, lens)
  {
    hide Best;
    if forall v :: v in leaves ==> depths[v] <= limit {
      forall j | 0 <= j < |t.order| && !InnerNode(t, t.order[j]) ensures DepthOf(t, j) <= limit {
        DepthAt(t, j);
        NodeHas(t, j);
        assert t.order[j] in leaves;
      }
      ShallowLeaves(t, limit);
      BestSame(leaves, freq, depths, freq, lens);
    }
  }

  method TreeLengths(order: seq<int>, dad: seq<int>, maxCode: int, limit: nat, elems: nat, bl: array<int>,
                     ghost t: Tree)
    returns (lens: seq<byte>)
    requires Shaped(t) && order == t.order && dad == t.dad && maxCode == t.maxCode < elems <= |dad|
    requires elems <= Pow2(limit)
    requires 1 <= limit <= MAX_BITS && bl.Length == MAX_BITS + 1 && LeafCount(t, |order|) <= maxCode + 1
    requires forall v :: 0 <= v < elems && Before(t, v, |t.order|) ==> v <= maxCode
    modifies bl
    ensures |lens| == elems && Complete(lens, limit) && CountsOf(bl[..], lens, limit)
    ensures forall b :: limit < b <= MAX_BITS ==> bl[b] == 0
    ensures forall v :: 0 <= v < elems ==> (Before(t, v, |t.order|) <==> lens[v] != 0)
    ensures FromDepths(t, lens, limit) && FromRising(t, lens, limit)
  {
    var len := new int[|dad|](_ => 0);
    GenBitLen(order, dad, maxCode, len, bl, limit, t);
    assert NoneLonger(bl[..], limit) && forall b :: limit < b <= MAX_BITS ==> bl[b] == bl[..][b];
    InByteRange(t, len[..], limit, elems);
    lens := AsBytes(len[..elems]);
    TreeComplete(t, len[..], bl[..], limit, lens);
    AreDepths(t, len[..], lens, limit);
    AreRising(t, len[..], lens, limit);
  }

  lemma AreDepths(t: Tree, len: seq<int>, lens: seq<byte>, limit: nat)
    requires Shaped(t) && |lens| <= |t.dad| == |t.at| == |len| && forall v :: 0 <= v < |lens| ==> lens[v] == len[v]
    requires Shallow(t, limit, |t.order|) ==> Deep(t, len, limit, |t.order|, 0)
    ensures FromDepths(t, lens, limit)
  {
    if Shallow(t, limit, |t.order|) {
      forall v | 0 <= v < |lens| && Before(t, v, |t.order|) ensures lens[v] == DepthOf(t, t.at[v]) {
        assert LengthIs(t, len, t.at[v], DepthOf(t, t.at[v]));
      }
    }
  }
}
