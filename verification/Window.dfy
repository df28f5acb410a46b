/**
 * inflate's sliding window. Across calls it keeps the last bytes of output in a
 * circular buffer; a match is copied from it, from the output of the current
 * call, or from one and then the other. Copying is specified byte by byte on the
 * whole history of output.
 */
module Window {
  import opened Common

  // ---- Copying on the whole history ----

  /** n bytes, each repeating the one `dist` bytes back. */
  ghost function Copied(h: seq<byte>, dist: nat, n: nat): (r: seq<byte>)
    requires 1 <= dist <= |h|
    ensures |r| == |h| + n && h <= r
    decreases n
  {
    if n == 0 then h else Copied(h + [h[|h| - dist]], dist, n - 1)
  }

  lemma {:induction false} CopiedThen(h: seq<byte>, dist: nat, m: nat, n: nat)
    requires 1 <= dist <= |h|
    ensures Copied(Copied(h, dist, m), dist, n) == Copied(h, dist, m + n)
    decreases m
  {
    if m > 0 { CopiedThen(h + [h[|h| - dist]], dist, m - 1, n); }
  }

  /** r is h with n bytes copied. */
  ghost predicate IsCopy(h: seq<byte>, r: seq<byte>, dist: nat, n: nat) {
    1 <= dist <= |h| && r == Copied(h, dist, n)
  }

  lemma IsCopyThen(h: seq<byte>, mid: seq<byte>, r: seq<byte>, dist: nat, m: nat, n: nat)
    requires IsCopy(h, mid, dist, m) && IsCopy(mid, r, dist, n)
    ensures IsCopy(h, r, dist, m + n)
  {
    CopiedThen(h, dist, m, n);
  }

  /** Every byte added repeats the one `dist` back, also where source and copy overlap. */
  lemma {:induction false} CopiedBytes(h: seq<byte>, dist: nat, n: nat, i: nat)
    requires 1 <= dist <= |h| && |h| <= i < |h| + n
    ensures Copied(h, dist, n)[i] == Copied(h, dist, n)[i - dist]
    decreases n
  {
    var h' := h + [h[|h| - dist]];
    assert Copied(h, dist, n) == Copied(h', dist, n - 1);
    if i > |h| {
      CopiedBytes(h', dist, n - 1, i);
    } else {
      assert h' <= Copied(h', dist, n - 1);
    }
  }

  // ---- The window ----

  /** Where the byte d back from the end of the window is. */
  function Index(wsize: nat, wnext: nat, d: nat): int { if d <= wnext then wnext - d else wsize + wnext - d }

  /** The window holds the last whave bytes of the history. */
  ghost predicate Holds(win: seq<byte>, wsize: nat, wnext: nat, whave: nat, hist: seq<byte>) {
    && |win| == wsize && wnext < wsize && whave == (if |hist| < wsize then |hist| else wsize)
    && (whave < wsize ==> wnext == whave)
    && forall d :: 1 <= d <= whave ==>
      0 <= Index(wsize, wnext, d) < wsize && win[Index(wsize, wnext, d)] == hist[|hist| - d]
  }

  /** win with the bytes s at place i. */
  ghost function Stored(win: seq<byte>, i: nat, s: seq<byte>): (r: seq<byte>)
    requires i + |s| <= |win|
    ensures |r| == |win|
  {
    win[..i] + s + win[i + |s|..]
  }

  lemma FullWindow(chunk: seq<byte>, wsize: nat, hist: seq<byte>)
    requires 0 < wsize <= |chunk|
    ensures Holds(chunk[|chunk| - wsize..], wsize, 0, wsize, hist + chunk)
  {
    var win, h := chunk[|chunk| - wsize..], hist + chunk;
    forall d | 1 <= d <= wsize ensures win[Index(wsize, 0, d)] == h[|h| - d] {
      assert win[wsize - d] == chunk[|chunk| - d];
    }
  }

  /** The bytes go in after the last ones and reach at most the end. */
  lemma NoWrap(win: seq<byte>, wsize: nat, wnext: nat, whave: nat, hist: seq<byte>, chunk: seq<byte>, next: nat,
               have: nat)
    requires Holds(win, wsize, wnext, whave, hist) && wnext + |chunk| <= wsize
    requires next == (if wnext + |chunk| == wsize then 0 else wnext + |chunk|)
    requires have == (if whave < wsize then whave + |chunk| else whave)
    ensures Holds(Stored(win, wnext, chunk), wsize, next, have, hist + chunk)
  {
    var w, h := Stored(win, wnext, chunk), hist + chunk;
    forall d | 1 <= d <= have ensures 0 <= Index(wsize, next, d) < wsize && w[Index(wsize, next, d)] == h[|h| - d] {
      if d <= |chunk| {
        assert Index(wsize, next, d) == wnext + |chunk| - d;
      } else {
        var e := d - |chunk|;
        assert Index(wsize, next, d) == Index(wsize, wnext, e);
        assert win[Index(wsize, wnext, e)] == hist[|hist| - e];
      }
    }
  }

  /** The bytes go past the end and continue at the start. */
  lemma Wraps(win: seq<byte>, wsize: nat, wnext: nat, whave: nat, hist: seq<byte>, chunk: seq<byte>, dist: nat,
              rest: nat)
    requires Holds(win, wsize, wnext, whave, hist) && dist == wsize - wnext && rest == |chunk| - dist && 0 < rest
    requires |chunk| < wsize
    ensures Holds(Stored(Stored(win, wnext, chunk[..dist]), 0, chunk[dist..]), wsize, rest, wsize, hist + chunk)
  {
    var w, h := Stored(Stored(win, wnext, chunk[..dist]), 0, chunk[dist..]), hist + chunk;
    forall d | 1 <= d <= wsize
      ensures 0 <= Index(wsize, rest, d) < wsize && d <= |h| && w[Index(wsize, rest, d)] == h[|h| - d] {
      if d <= rest {
        assert Index(wsize, rest, d) == rest - d;
      } else if d <= |chunk| {
        assert Index(wsize, rest, d) == wsize + rest - d;
      } else {
        var e := d - |chunk|;
        assert Index(wsize, wnext, e) == Index(wsize, rest, d);
        assert win[Index(wsize, wnext, e)] == hist[|hist| - e];
      }
    }
  }

  class State {
    const wbits: nat
    const window: array<byte>
    var wsize: nat
    var wnext: nat
    var whave: nat
    ghost var hist: seq<byte>

    ghost predicate Valid()
      reads this, window
    {
      && 0 < window.Length
      && if wsize == 0 then hist == [] && whave == 0 && wnext == 0
         else wsize == window.Length && Holds(window[..], wsize, wnext, whave, hist)
    }

    constructor (wbits: nat)
      ensures Valid() && hist == [] && fresh(window)
    {
      this.wbits := wbits;
      Pow2Mono(0, wbits);
      window := new byte[Pow2(wbits)](_ => 0);
      wsize, wnext, whave, hist := 0, 0, 0, [];
    }

    method Copy(at: nat, s: seq<byte>)
      requires at + |s| <= window.Length
      modifies window
      ensures window[..] == Stored(old(window[..]), at, s)
    {
      ghost var was := window[..];
      var i := 0;
      while i < |s|
        invariant 0 <= i <= |s| && window[..] == Stored(was, at, s[..i])
      {
        window[at + i] := s[i];
        assert s[..i + 1] == s[..i] + [s[i]];
        i := i + 1;
      }
      assert s[..i] == s;
    }

    /** updatewindow: the output of a call joins the window. */
    method Update(chunk: seq<byte>)
      requires Valid()
      modifies this, window
      ensures Valid() && hist == old(hist) + chunk && wsize == window.Length
    {
      if wsize == 0 {
        wsize := window.Length;
        wnext := 0;
        whave := 0;
      }
      if |chunk| >= wsize { Refill(chunk); } else { Append(chunk); }
      hist := hist + chunk;
    }

    /** The output fills the whole window. */
    method Refill(chunk: seq<byte>)
      requires 0 < wsize == window.Length <= |chunk|
      modifies this`wnext, this`whave, window
      ensures Holds(window[..], wsize, wnext, whave, hist + chunk)
    {
      FullWindow(chunk, wsize, hist);
      Copy(0, chunk[|chunk| - wsize..]);
      assert window[..] == chunk[|chunk| - wsize..];
      wnext := 0;
      whave := wsize;
    }

    /** The output goes after what is there, up to the end and then from the start. */
    method Append(chunk: seq<byte>)
      requires |chunk| < wsize == window.Length && Holds(window[..], wsize, wnext, whave, hist)
      modifies this`wnext, this`whave, window
      ensures Holds(window[..], wsize, wnext, whave, hist + chunk)
    {
      ghost var win := window[..];
      var copy := |chunk|;
      var dist := wsize - wnext;
      if dist > copy { dist := copy; }
      var rest := copy - dist;
      if rest > 0 {
        Wraps(win, wsize, wnext, whave, hist, chunk, dist, rest);
        Copy(wnext, chunk[..dist]);
        Copy(0, chunk[dist..]);
        wnext := rest;
        whave := wsize;
      } else {
        assert chunk[..dist] == chunk;
        NoWrap(win, wsize, wnext, whave, hist, chunk, if wnext + dist == wsize then 0
          else wnext + dist, if whave < wsize then whave + dist else whave);
        Copy(wnext, chunk[..dist]);
        wnext := wnext + dist;
        if wnext == wsize { wnext := 0; }
        if whave < wsize { whave := whave + dist; }
      }
    }

    // ---- Matches ----

    /** All output: that of earlier calls and that of this one. */
    ghost function All(cur: seq<byte>): seq<byte>
      reads this`hist
    {
      hist + cur
    }

    /** A distance is accepted if the byte it names is in this call's output or in the window. */
    predicate Reaches(cur: seq<byte>, dist: nat)
      reads this`whave
    {
      dist <= |cur| + whave
    }

    /** Copies n bytes of this call's output, one after the other. */
    method FromOutput(cur: seq<byte>, dist: nat, n: nat) returns (now: seq<byte>)
      requires 1 <= dist <= |cur|
      ensures All(now) == Copied(All(cur), dist, n) && |now| == |cur| + n
    {
      now := cur;
      var from, k := |cur| - dist, 0;
      while k < n
        invariant 0 <= k <= n && |now| == |cur| + k && from == |now| - dist && All(now) == Copied(All(cur), dist, k)
      {
        OutputByte(hist, now, dist);
        CopiedThen(All(cur), dist, k, 1);
        now := now + [now[from]];
        from := from + 1;
        k := k + 1;
      }
    }

    /** Copies n bytes of the window from `from` on, which is `back` bytes before its end. */
    method FromWindow(cur: seq<byte>, dist: nat, from: nat, back: nat, n: nat) returns (now: seq<byte>)
      requires Valid() && dist == |cur| + back && 1 <= back <= whave && n <= back
      requires from == Index(wsize, wnext, back) && from + n <= wsize && (back > wnext ==> n <= back - wnext)
      ensures dist <= |All(cur)| && All(now) == Copied(All(cur), dist, n) && |now| == |cur| + n
    {
      now := cur;
      var k := 0;
      while k < n
        invariant 0 <= k <= n && |now| == |cur| + k && dist <= |All(cur)| && All(now) == Copied(All(cur), dist, k)
      {
        WindowByte(window[..], wsize, wnext, whave, hist, now, dist, back - k);
        CopiedThen(All(cur), dist, k, 1);
        now := now + [window[from + k]];
        k := k + 1;
      }
    }

    /** One turn of the MATCH state: as much as one piece of the source and the room allow. */
    method MatchStep(cur: seq<byte>, left: nat, offset: nat, length: nat) returns (bad: bool, now: seq<byte>, copy: nat)
      requires Valid() && 1 <= offset && 1 <= length && 1 <= left
      ensures bad <==> !Reaches(cur, offset)
      ensures !bad ==>
        && 1 <= copy <= left && copy <= length && offset <= |All(cur)|
        && All(now) == Copied(All(cur), offset, copy) && |now| == |cur| + copy
    {
      bad, now, copy := false, cur, |cur|;
      if offset > copy {
        copy := offset - copy;
        if copy > whave { return true, cur, 0; }
        var back, from := copy, 0;
        if copy > wnext {
          copy := copy - wnext;
          from := wsize - copy;
        } else {
          from := wnext - copy;
        }
        if copy > length { copy := length; }
        if copy > left { copy := left; }
        now := FromWindow(cur, offset, from, back, copy);
      } else {
        copy := length;
        if copy > left { copy := left; }
        now := FromOutput(cur, offset, copy);
      }
    }

    /** The MATCH state until the match is complete or the output is full. */
    method Match(cur: seq<byte>, left: nat, offset: nat, length: nat) returns (bad: bool, now: seq<byte>, rest: nat)
      requires Valid() && 1 <= offset && 1 <= length && 1 <= left
      ensures bad <==> !Reaches(cur, offset)
      ensures !bad ==>
        rest == (if length <= left then 0 else length - left) && IsCopy(All(cur), All(now), offset, length - rest)
    {
      var copy;
      bad, now, copy := MatchStep(cur, left, offset, length);
      if bad { return true, cur, length; }
      rest := length - copy;
      var room := left - copy;
      while rest > 0 && room > 0
        invariant !bad && Reaches(cur, offset) && 0 <= room && rest <= length && room + length == left + rest
        invariant |now| >= |cur|
        invariant IsCopy(All(cur), All(now), offset, length - rest)
        decreases rest
      {
        ghost var done := length - rest;
        ghost var mid := All(now);
        bad, now, copy := MatchStep(now, room, offset, rest);
        IsCopyThen(All(cur), mid, All(now), offset, done, copy);
        rest, room := rest - copy, room - copy;
      }
    }

    /** The match copy of inflate_fast, which always has room: three ways to begin in the window. */
    method FastMatch(cur: seq<byte>, dist: nat, length: nat) returns (bad: bool, now: seq<byte>)
      requires Valid() && 1 <= dist && 3 <= length
      ensures bad <==> !Reaches(cur, dist)
      ensures !bad ==> dist <= |All(cur)| && All(now) == Copied(All(cur), dist, length)
    {
      bad, now := false, cur;
      if dist <= |cur| {
        now := FromOutput(cur, dist, length);
        return;
      }
      var op := dist - |cur|;
      if op > whave { return true, cur; }
      if wnext == 0 {
        now := WindowThenOutput(cur, dist, length, wsize - op, op);
      } else if wnext < op {
        now := WrapAround(cur, dist, length, op);
      } else {
        now := WindowThenOutput(cur, dist, length, wnext - op, op);
      }
    }

    /** One piece of the window, to its end, and the rest from the output. */
    method WindowThenOutput(cur: seq<byte>, dist: nat, length: nat, from: nat, op: nat) returns (now: seq<byte>)
      requires Valid() && 1 <= op <= whave && dist == |cur| + op && from == Index(wsize, wnext, op)
      requires (op > wnext ==> wnext == 0)
      ensures dist <= |All(cur)| && All(now) == Copied(All(cur), dist, length)
    {
      if op < length {
        now := FromWindow(cur, dist, from, op, op);
        ghost var mid := now;
        now := FromOutput(now, dist, length - op);
        CopiedThen(All(cur), dist, op, length - op);
      } else {
        now := FromWindow(cur, dist, from, op, length);
      }
    }

    /** The end of the window, then its start, and then the output. */
    method WrapAround(cur: seq<byte>, dist: nat, length: nat, op: nat) returns (now: seq<byte>)
      requires Valid() && wnext < op <= whave && 1 <= wnext && dist == |cur| + op
      ensures dist <= |All(cur)| && All(now) == Copied(All(cur), dist, length)
    {
      var from, part := wsize + wnext - op, op - wnext;
      if part < length {
        now := FromWindow(cur, dist, from, op, part);
        var len := length - part;
        ghost var mid := now;
        now := WindowThenOutput(now, dist, len, 0, wnext);
        CopiedThen(All(cur), dist, part, len);
      } else {
        now := FromWindow(cur, dist, from, op, length);
      }
    }
  }

  lemma OutputByte(hist: seq<byte>, now: seq<byte>, dist: nat)
    requires 1 <= dist <= |now|
    ensures hist + (now + [now[|now| - dist]]) == Copied(hist + now, dist, 1)
  {
    assert Copied(hist + now, dist, 1) == Copied((hist + now) + [(hist + now)[|hist + now| - dist]], dist, 0);
  }

  lemma WindowByte(win: seq<byte>, wsize: nat, wnext: nat, whave: nat, hist: seq<byte>, now: seq<byte>, dist: nat,
                   d: nat)
    requires Holds(win, wsize, wnext, whave, hist) && 1 <= d <= whave && dist == |now| + d
    ensures 0 <= Index(wsize, wnext, d) < wsize
    ensures hist + (now + [win[Index(wsize, wnext, d)]]) == Copied(hist + now, dist, 1)
  {
    assert (hist + now)[|hist + now| - dist] == hist[|hist| - d];
    assert Copied(hist + now, dist, 1) == Copied((hist + now) + [(hist + now)[|hist + now| - dist]], dist, 0);
  }
}
