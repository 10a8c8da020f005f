/** Splitting a search: what a bounded window, a match limit or a resume position leaves to find. */
module FindWindow {
  import opened Basics
  import opened Utf8
  import opened FindText

  /** The match that starts at `i`, if there is one. */
  function Here(fold: Folding, t: Text, i: nat, pattern: seq<int>): seq<Match>
    requires ValidFrom(t, i) && i <= |t|
  {
    if MatchesAt(fold, t, i, pattern) then [Match(i, Skip(t, i, |pattern|))] else []
  }

  /** Matches that start before `stop`. */
  function Before(fold: Folding, t: Text, i: nat, stop: nat, pattern: seq<int>): seq<Match>
    requires ValidFrom(t, i) && i <= |t| && stop <= |t|
    decreases |t| - i
  {
    if i >= stop then []
    else Here(fold, t, i, pattern) + Before(fold, t, Next(t, i), stop, pattern)
  }

  function Shift(ms: seq<Match>, d: nat): seq<Match> {
    seq(|ms|, k requires 0 <= k < |ms| => Match(ms[k].offset + d, ms[k].end + d))
  }

  lemma {:induction false} SplitAt(fold: Folding, t: Text, i: nat, stop: nat, pattern: seq<int>)
    requires ValidFrom(t, i) && i <= stop <= |t| && Boundary(t, stop)
    ensures ValidFrom(t, stop)
    ensures AllMatches(fold, t, i, pattern) == Before(fold, t, i, stop, pattern) + AllMatches(fold, t, stop, pattern)
    decreases |t| - i
  {
    BoundaryReached(t, i, stop);
    if i < stop {
      SplitAt(fold, t, Next(t, i), stop, pattern);
      Associate(Here(fold, t, i, pattern), Before(fold, t, Next(t, i), stop, pattern),
                AllMatches(fold, t, stop, pattern));
    }
  }

  lemma {:induction false} BeforeBounds(fold: Folding, t: Text, i: nat, stop: nat, pattern: seq<int>)
    requires ValidFrom(t, i) && i <= |t| && stop <= |t|
    ensures forall m :: m in Before(fold, t, i, stop, pattern) ==> i <= m.offset < stop
    decreases |t| - i
  {
    if i < stop {
      BeforeBounds(fold, t, Next(t, i), stop, pattern);
    }
  }

  lemma {:induction false} AllBounds(fold: Folding, t: Text, i: nat, pattern: seq<int>)
    requires ValidFrom(t, i) && i <= |t|
    ensures forall m :: m in AllMatches(fold, t, i, pattern) ==>
              i <= m.offset < |t| && RuneAt(t, m.offset) && m.offset <= m.end <= |t|
    decreases |t| - i
  {
    if i < |t| {
      AllBounds(fold, t, Next(t, i), pattern);
    }
  }

  /** After the first `n` matches, the rest start behind the first rune of the last of them. */
  lemma {:induction false} ResumeAfter(fold: Folding, t: Text, i: nat, pattern: seq<int>, n: nat)
    requires ValidFrom(t, i) && i <= |t| && 0 < n <= |AllMatches(fold, t, i, pattern)|
    ensures var all := AllMatches(fold, t, i, pattern); var last := all[n - 1].offset;
            && i <= last < |t| && RuneAt(t, last) && ValidFrom(t, Next(t, last))
            && all == all[..n] + AllMatches(fold, t, Next(t, last), pattern)
    decreases |t| - i
  {
    var all := AllMatches(fold, t, i, pattern);
    var rest := AllMatches(fold, t, Next(t, i), pattern);
    if MatchesAt(fold, t, i, pattern) {
      assert all == [all[0]] + rest;
      if n > 1 {
        ResumeAfter(fold, t, Next(t, i), pattern, n - 1);
        assert all[..n] == [all[0]] + rest[..n - 1];
        Associate([all[0]], rest[..n - 1], AllMatches(fold, t, Next(t, rest[n - 2].offset), pattern));
      }
    } else {
      assert all == rest;
      ResumeAfter(fold, t, Next(t, i), pattern, n);
    }
  }

  // ----- a window of a longer text -----

  /** Enough of `t` after `i` lies inside the window up to `e` for a pattern of `m` runes. */
  ghost predicate Covered(t: Text, i: nat, e: nat, m: nat) {
    e == |t| || i + 4 * m <= e
  }

  lemma RuneInWindow(t: Text, b: nat, e: nat, i: nat)
    requires b <= i <= e <= |t|
    ensures RuneAt(t[b..e], i - b) ==>
              RuneAt(t, i) && Next(t, i) == Next(t[b..e], i - b) + b && Value(t, i) == Value(t[b..e], i - b)
    ensures RuneAt(t, i) && Next(t, i) <= e ==> RuneAt(t[b..e], i - b)
  {
  }

  lemma {:induction false} MatchInWindow(fold: Folding, t: Text, b: nat, e: nat, i: nat, pattern: seq<int>)
    requires b <= i <= e <= |t| && Covered(t, i, e, |pattern|)
    ensures MatchesAt(fold, t[b..e], i - b, pattern) <==> MatchesAt(fold, t, i, pattern)
    decreases |pattern|
  {
    if pattern != [] {
      RuneInWindow(t, b, e, i);
      if RuneAt(t, i) {
        assert Next(t, i) <= e;
        MatchInWindow(fold, t, b, e, Next(t, i), pattern[1..]);
      }
    }
  }

  lemma NextInWindow(t: Text, b: nat, e: nat, i: nat)
    requires b <= i < e <= |t| && ValidFrom(t, i) && ValidFrom(t[b..e], i - b)
    ensures b < Next(t, i) <= e && Next(t[b..e], i - b) == Next(t, i) - b
    ensures ValidFrom(t, Next(t, i)) && ValidFrom(t[b..e], Next(t, i) - b)
  {
    RuneInWindow(t, b, e, i);
    assert RuneAt(t[b..e], i - b);
  }

  lemma {:induction false} SkipInWindow(t: Text, b: nat, e: nat, i: nat, n: nat)
    requires b <= i <= e <= |t| && Covered(t, i, e, n) && ValidFrom(t, i) && ValidFrom(t[b..e], i - b)
    ensures Skip(t, i, n) == Skip(t[b..e], i - b, n) + b
    decreases n
  {
    if n > 0 && i < e {
      NextInWindow(t, b, e, i);
      SkipInWindow(t, b, e, Next(t, i), n - 1);
    }
  }

  /** A window finds exactly the matches of the whole text that start early enough to end inside it. */
  lemma {:induction false} BeforeInWindow(fold: Folding, t: Text, b: nat, e: nat, i: nat, stop: nat, pattern: seq<int>)
    requires b <= i && stop <= e <= |t| && i <= e
    requires ValidFrom(t, i) && ValidFrom(t[b..e], i - b)
    requires b <= stop && |pattern| > 0 && (e == |t| || stop + 4 * |pattern| <= e)
    ensures Shift(Before(fold, t[b..e], i - b, stop - b, pattern), b) == Before(fold, t, i, stop, pattern)
    decreases |t| - i
  {
    if i < stop {
      NextInWindow(t, b, e, i);
      BeforeInWindow(fold, t, b, e, Next(t, i), stop, pattern);
      HereInWindow(fold, t, b, e, i, pattern);
      BeforeStep(fold, t, t[b..e], b, i, stop, pattern);
    }
  }

  lemma BeforeStep(fold: Folding, t: Text, w: Text, b: nat, i: nat, stop: nat, pattern: seq<int>)
    requires b <= i < stop && stop <= |t| && i - b < |w| && stop - b <= |w| && ValidFrom(t, i) && ValidFrom(w, i - b)
    requires Next(w, i - b) == Next(t, i) - b
    requires Shift(Here(fold, w, i - b, pattern), b) == Here(fold, t, i, pattern)
    requires Shift(Before(fold, w, Next(t, i) - b, stop - b, pattern), b) == Before(fold, t, Next(t, i), stop, pattern)
    ensures Shift(Before(fold, w, i - b, stop - b, pattern), b) == Before(fold, t, i, stop, pattern)
  {
    ShiftJoin(Here(fold, w, i - b, pattern), Before(fold, w, Next(t, i) - b, stop - b, pattern),
              Here(fold, t, i, pattern), Before(fold, t, Next(t, i), stop, pattern), b);
  }

  lemma ShiftJoin(here: seq<Match>, rest: seq<Match>, shiftedHere: seq<Match>, shiftedRest: seq<Match>, d: nat)
    requires Shift(here, d) == shiftedHere && Shift(rest, d) == shiftedRest
    ensures Shift(here + rest, d) == shiftedHere + shiftedRest
  {
    ShiftConcat(here, rest, d);
  }

  lemma HereInWindow(fold: Folding, t: Text, b: nat, e: nat, i: nat, pattern: seq<int>)
    requires b <= i < e <= |t| && ValidFrom(t, i) && ValidFrom(t[b..e], i - b) && Covered(t, i, e, |pattern|)
    ensures Shift(Here(fold, t[b..e], i - b, pattern), b) == Here(fold, t, i, pattern)
  {
    MatchInWindow(fold, t, b, e, i, pattern);
    SkipInWindow(t, b, e, i, |pattern|);
  }

  lemma ShiftConcat(a: seq<Match>, c: seq<Match>, d: nat)
    ensures Shift(a + c, d) == Shift(a, d) + Shift(c, d)
  {
  }
}
