/** What the run symbols of a block stand for. */
module RunDigits {
  import opened Common
  import opened Mtf

  /** Symbol 0 is the digit 1 and symbol 1 the digit 2, the least digit first, in base 2. */
  ghost function RunValue(s: seq<int>): int
    decreases |s|
  {
    if s == [] then 0 else s[0] + 1 + 2 * RunValue(s[1..])
  }

  lemma RunValueCons(digit: int, s: seq<int>)
    ensures RunValue([digit] + s) == digit + 1 + 2 * RunValue(s)
  {
    assert ([digit] + s)[1..] == s;
  }

  /** The compressor spells the length of the run. */
  lemma {:induction false} RunsSpell(z: nat)
    ensures RunValue(Runs(z)) == z
  {
    if z > 0 {
      var y := (z - 1) / 2;
      RunsSpell(y);
      RunValueCons(if z % 2 == 1 then 0 else 1, Runs(y));
      hide RunValue;
    }
  }

  lemma GuardAt(k: nat)
    ensures Pow2(k) >= 2 * 1024 * 1024 <==> k >= 21
  {
    assert Pow2(10) == 1024;
    Pow2Add(10, 10);
    Pow2Add(20, 1);
    if k >= 21 { Pow2Mono(21, k); } else { Pow2Mono(k, 20); }
  }

  lemma NotFed(a: Alphabet, d: Decoder, s: seq<int>)
    requires Sound(a, d) && Syms(a, s) && s != [] && OnSymbol(a, d, s[0]).DataError?
    ensures Feed(a, d, s) == DataError
  {
  }

  /** Further digits of a run of which k have been read. */
  lemma {:induction false} DigitsRead(a: Alphabet, d: Decoder, s: seq<int>, k: nat, p: nat)
    requires Sound(a, d) && d.run.Run? && d.run.N == p == Pow2(k)
    requires forall i :: 0 <= i < |s| ==> s[i] == 0 || s[i] == 1
    ensures Syms(a, s) && Feed(a, d, s) == if k + |s| <= 21 || s == []
      then More(d.(run := Run(d.run.es + RunValue(s) * p, Pow2(k + |s|)))) else DataError
    decreases |s|
  {
    if s != [] {
      GuardAt(k);
      if k < 21 {
        var es, q, rest := d.run.es + (s[0] + 1) * p, p * 2, s[1..];
        FeedDigit(a, d, s, s[0] + 1, es);
        DigitsRead(a, d.(run := Run(es, q)), rest, k + 1, q);
        hide Feed, Pow2;
        DigitTimes(s[0], RunValue(rest), p, q);
      } else {
        NotFed(a, d, s);
      }
    }
  }

  lemma DigitTimes(digit: int, more: int, p: int, q: int)
    requires q == 2 * p
    ensures (digit + 1) * p + more * q == (digit + 1 + 2 * more) * p
  {
  }

  /** The decoder takes 21 run symbols and no more, and they stand for a run of that length. */
  lemma RunsRead(a: Alphabet, d: Decoder, s: seq<int>)
    requires Sound(a, d) && d.run.NoRun? && s != [] && forall i :: 0 <= i < |s| ==> s[i] == 0 || s[i] == 1
    ensures Syms(a, s) && Feed(a, d, s) == if |s| <= 21
      then More(d.(run := Run(RunValue(s) - 1, Pow2(|s|)))) else DataError
  {
    var started := d.(run := Run(-1, 1));
    assert OnSymbol(a, d, s[0]) == OnSymbol(a, started, s[0]);
    DigitsRead(a, started, s, 0, 1);
  }
}
