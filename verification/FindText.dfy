/** Case-folded text search: the linear-time scan of the source, refined from the naive search
    that tries the pattern at every rune. */
module FindText {
  import opened Basics
  import opened Obligations
  import opened Utf8

  const MAX_QUERY_RUNES := 256
  const PAGE_MATCHES := 20

  /** A match covers the bytes from `offset` up to `end`. */
  datatype Match = Match(offset: nat, end: nat)

  datatype Result<+T> = Ok(value: T) | Invalid

  /** Folding maps a rune to the representative of its case orbit; the search works for any such map. */
  type Folding = int -> int

  // ----- the naive search -----

  /** The folded runes of `t` from `i` on begin with `pattern`. */
  predicate MatchesAt(fold: Folding, t: Text, i: nat, pattern: seq<int>)
    decreases |pattern|
  {
    || pattern == []
    || (RuneAt(t, i) && fold(Value(t, i)) == pattern[0] && MatchesAt(fold, t, Next(t, i), pattern[1..]))
  }

  /** Where `n` runes from `i` end. */
  function Skip(t: Text, i: nat, n: nat): (e: nat)
    requires ValidFrom(t, i) && i <= |t|
    ensures i <= e <= |t| && e <= i + 4 * n && ValidFrom(t, e)
    decreases n
  {
    if n == 0 || i == |t| then i else Skip(t, Next(t, i), n - 1)
  }

  /** Every match that starts at or after the rune at `i`, in order; matches may overlap. */
  function AllMatches(fold: Folding, t: Text, i: nat, pattern: seq<int>): seq<Match>
    requires ValidFrom(t, i) && i <= |t|
    decreases |t| - i
  {
    if i == |t| then []
    else (if MatchesAt(fold, t, i, pattern) then [Match(i, Skip(t, i, |pattern|))] else [])
         + AllMatches(fold, t, Next(t, i), pattern)
  }

  /** A match that starts at a rune at or after `i`. */
  ghost predicate Reports(fold: Folding, t: Text, i: nat, pattern: seq<int>, m: Match) {
    && i <= m.offset < |t| && Boundary(t, m.offset) && ValidFrom(t, m.offset) && MatchesAt(fold, t, m.offset, pattern)
    && m.end == Skip(t, m.offset, |pattern|)
  }

  lemma ReportsStep(fold: Folding, t: Text, i: nat, pattern: seq<int>, m: Match)
    requires ValidFrom(t, i) && i < |t|
    ensures Reports(fold, t, i, pattern, m) <==>
              (MatchesAt(fold, t, i, pattern) && m == Match(i, Skip(t, i, |pattern|)))
                || Reports(fold, t, Next(t, i), pattern, m)
  {
  }

  lemma MemberConcat<T>(a: seq<T>, b: seq<T>, x: T)
    ensures x in a + b <==> x in a || x in b
  {
  }

  /** The naive search reports a position exactly when it is a rune start that matches. */
  lemma {:induction false} AllMatchesExact(fold: Folding, t: Text, i: nat, pattern: seq<int>, m: Match)
    requires ValidFrom(t, i) && i <= |t|
    ensures m in AllMatches(fold, t, i, pattern) <==> Reports(fold, t, i, pattern, m)
    decreases |t| - i
  {
    if i < |t| {
      ReportsStep(fold, t, i, pattern, m);
      AllMatchesExact(fold, t, Next(t, i), pattern, m);
      MemberConcat(if MatchesAt(fold, t, i, pattern) then [Match(i, Skip(t, i, |pattern|))]
                   else [], AllMatches(fold, t, Next(t, i), pattern), m);
    }
  }

  ghost predicate OffsetsIncrease(ms: seq<Match>, least: nat) {
    (forall a :: 0 <= a < |ms| ==> least <= ms[a].offset) && forall a, b :: 0 <= a < b < |ms| ==>
      ms[a].offset < ms[b].offset
  }

  lemma {:induction false} AllMatchesIncrease(fold: Folding, t: Text, i: nat, pattern: seq<int>)
    requires ValidFrom(t, i) && i <= |t|
    ensures OffsetsIncrease(AllMatches(fold, t, i, pattern), i)
    decreases |t| - i
  {
    if i < |t| {
      AllMatchesIncrease(fold, t, Next(t, i), pattern);
      var rest := AllMatches(fold, t, Next(t, i), pattern);
      if MatchesAt(fold, t, i, pattern) {
        assert AllMatches(fold, t, i, pattern) == [Match(i, Skip(t, i, |pattern|))] + rest;
      } else {
        EmptyLeft(rest);
      }
    }
  }

  function Take<T>(s: seq<T>, n: nat): seq<T> {
    if |s| <= n then s else s[..n]
  }

  lemma TakePrefix<T>(s: seq<T>, t: seq<T>)
    requires s <= t
    ensures Take(t, |s|) == s
  {
  }

  function Runes(t: Text, i: nat): seq<int>
    requires ValidFrom(t, i) && i <= |t|
    decreases |t| - i
  {
    if i == |t| then [] else [Value(t, i)] + Runes(t, Next(t, i))
  }

  function Folded(fold: Folding, runes: seq<int>): seq<int> {
    seq(|runes|, i requires 0 <= i < |runes| => fold(runes[i]))
  }

  function Pattern(fold: Folding, query: Text): (p: seq<int>)
    requires Valid(query)
  {
    Folded(fold, Runes(query, 0))
  }

  predicate ValidQuery(query: Text) {
    Valid(query) && 1 <= |Runes(query, 0)| <= MAX_QUERY_RUNES
  }

  // ----- borders -----

  /** The first `k` pattern runes are the last `k` runes of `s`. */
  ghost predicate Border(s: seq<int>, pattern: seq<int>, k: nat) {
    k <= |s| && k <= |pattern| && pattern[..k] == s[|s| - k..]
  }

  /** `k` is the longest border of `s` shorter than `bound`. */
  ghost predicate Longest(s: seq<int>, pattern: seq<int>, k: nat, bound: nat) {
    k < bound && Border(s, pattern, k) && forall j: nat :: j < bound && Border(s, pattern, j) ==> j <= k
  }

  ghost predicate Failures(pattern: seq<int>, failure: seq<nat>) {
    |failure| <= |pattern| && forall i :: 0 <= i < |failure| ==> Longest(pattern[..i + 1], pattern, failure[i], i + 1)
  }

  lemma BorderExtend(s: seq<int>, c: int, pattern: seq<int>, k: nat)
    ensures Border(s + [c], pattern, k + 1) <==> Border(s, pattern, k) && k < |pattern| && pattern[k] == c
  {
    var t := s + [c];
    if k < |pattern| && k <= |s| {
      assert pattern[..k + 1] == pattern[..k] + [pattern[k]];
      assert t[|t| - (k + 1)..] == s[|s| - k..] + [c];
      if Border(t, pattern, k + 1) {
        assert pattern[..k] == pattern[..k + 1][..k] == s[|s| - k..];
        assert pattern[k] == pattern[..k + 1][k] == t[|t| - (k + 1)..][k] == c;
      }
    }
  }

  /** A shorter border of `s` is a border of the longer border. */
  lemma BorderNest(s: seq<int>, pattern: seq<int>, long: nat, short: nat)
    requires Border(s, pattern, long) && short <= long
    ensures Border(s, pattern, short) <==> Border(pattern[..long], pattern, short)
  {
    assert s[|s| - short..] == s[|s| - long..][long - short..];
    assert pattern[..long][long - short..] == s[|s| - short..];
  }

  /** Borders to try next after `k` was the longest candidate and the rune `c` does not continue it. */
  ghost predicate Candidates(s: seq<int>, c: int, pattern: seq<int>, k: nat, bound: nat) {
    Border(s, pattern, k) && forall j: nat :: j < bound && Border(s, pattern, j) && j < |pattern| && pattern[j] == c ==>
      j <= k
  }

  lemma FallBack(s: seq<int>, c: int, pattern: seq<int>, failure: seq<nat>, k: nat, bound: nat)
    requires Failures(pattern, failure) && 0 < k <= |failure| && k < |pattern| && pattern[k] != c
    requires Candidates(s, c, pattern, k, bound)
    ensures failure[k - 1] < k && Candidates(s, c, pattern, failure[k - 1], bound)
  {
    var f := failure[k - 1];
    assert Longest(pattern[..k], pattern, f, k);
    BorderNest(s, pattern, k, f);
    forall j: nat | j < bound && Border(s, pattern, j) && j < |pattern| && pattern[j] == c
      ensures j <= f
    {
      BorderNest(s, pattern, k, j);
    }
  }

  /** The border after one more rune. */
  method Advance(
      pattern: seq<int>, failure: seq<nat>, matched: nat, c: int, ghost s: seq<int>, ghost bound: nat)
    returns (next: nat)
    requires Longest(s, pattern, matched, bound) && bound <= |pattern|
    requires Failures(pattern, failure) && matched <= |failure|
    ensures next <= matched + 1 && Longest(s + [c], pattern, next, bound + 1)
  {
    next := matched;
    while next > 0 && c != pattern[next]
      invariant next <= matched && Candidates(s, c, pattern, next, bound)
    {
      FallBack(s, c, pattern, failure, next, bound);
      next := failure[next - 1];
    }
    AdvanceEnds(s, c, pattern, next, bound);
    if c == pattern[next] {
      next := next + 1;
    }
  }

  lemma AdvanceEnds(s: seq<int>, c: int, pattern: seq<int>, k: nat, bound: nat)
    requires Candidates(s, c, pattern, k, bound) && k < bound <= |pattern| && (k == 0 || pattern[k] == c)
    ensures Longest(s + [c], pattern, if pattern[k] == c then k + 1 else 0, bound + 1)
  {
    BorderExtend(s, c, pattern, k);
    forall j: nat | 0 < j < bound + 1 && Border(s + [c], pattern, j)
      ensures pattern[k] == c && j <= k + 1
    {
      BorderExtend(s, c, pattern, j - 1);
    }
    assert Border(s + [c], pattern, 0);
  }

  method BuildFailures(pattern: seq<int>) returns (failure: seq<nat>)
    requires |pattern| > 0
    ensures |failure| == |pattern| && Failures(pattern, failure)
  {
    failure := [0];
    var index, matched := 1, 0;
    assert Border(pattern[..1], pattern, 0);
    while index < |pattern|
      invariant 1 <= index <= |pattern| && |failure| == index && Failures(pattern, failure)
      invariant Longest(pattern[..index], pattern, matched, index)
    {
      assert pattern[..index] + [pattern[index]] == pattern[..index + 1];
      matched := Advance(pattern, failure, matched, pattern[index], pattern[..index], index);
      failure := failure + [matched];
      index := index + 1;
    }
  }

  // ----- the scan -----

  /** Offsets of the runes from `i` on, and of the end of the text. */
  ghost function Starts(t: Text, i: nat): (s: seq<nat>)
    requires ValidFrom(t, i) && i <= |t|
    ensures |s| == |Runes(t, i)| + 1 && s[0] == i && s[|s| - 1] == |t|
    decreases |t| - i
  {
    if i == |t| then [i] else [i] + Starts(t, Next(t, i))
  }

  /** `starts` and `runes` are the rune offsets and folded runes of `t` from some rune on. */
  ghost predicate Decoded(fold: Folding, t: Text, starts: seq<nat>, runes: seq<int>) {
    && |starts| == |runes| + 1 && starts[|runes|] == |t|
    && (forall k {:trigger runes[k]} :: 0 <= k < |runes| ==>
          RuneAt(t, starts[k]) && starts[k + 1] == Next(t, starts[k]) && runes[k] == fold(Value(t, starts[k])))
    && (forall k {:trigger ValidFrom(t, starts[k])} :: 0 <= k < |starts| ==>
          starts[k] <= |t| && ValidFrom(t, starts[k]))
  }

  lemma {:induction false} DecodedText(fold: Folding, t: Text, i: nat)
    requires ValidFrom(t, i) && i <= |t|
    ensures Decoded(fold, t, Starts(t, i), Folded(fold, Runes(t, i)))
    decreases |t| - i
  {
    if i < |t| {
      var rest, runes := Starts(t, Next(t, i)), Folded(fold, Runes(t, Next(t, i)));
      DecodedText(fold, t, Next(t, i));
      assert Starts(t, i) == [i] + rest;
      assert Folded(fold, Runes(t, i)) == [fold(Value(t, i))] + runes;
      DecodedCons(fold, t, i, rest, runes);
    }
  }

  lemma {:induction false} DecodedStep(fold: Folding, t: Text, starts: seq<nat>, runes: seq<int>, k: nat)
    requires Decoded(fold, t, starts, runes) && k < |runes|
    ensures RuneAt(t, starts[k]) && starts[k + 1] == Next(t, starts[k]) && runes[k] == fold(Value(t, starts[k]))
    ensures ValidFrom(t, starts[k]) && ValidFrom(t, starts[k + 1])
  {
    var _ := runes[k];
  }

  lemma {:induction false} DecodedCons(fold: Folding, t: Text, i: nat, starts: seq<nat>, runes: seq<int>)
    requires Decoded(fold, t, starts, runes) && ValidFrom(t, i) && RuneAt(t, i) && starts[0] == Next(t, i)
    ensures Decoded(fold, t, [i] + starts, [fold(Value(t, i))] + runes)
  {
    var starts', runes' := [i] + starts, [fold(Value(t, i))] + runes;
    forall k | 0 <= k < |runes'|
      ensures RuneAt(t, starts'[k]) && starts'[k + 1] == Next(t, starts'[k]) && runes'[k] == fold(Value(t, starts'[k]))
    {
      if k > 0 {
        assert runes'[k] == runes[k - 1];
      }
    }
    forall k | 0 <= k < |starts'|
      ensures ValidFrom(t, starts'[k])
    {
      if k > 0 {
        assert ValidFrom(t, starts[k - 1]);
      }
    }
  }

  /** The match that starts at rune `k`, if there is one. */
  ghost function Here(starts: seq<nat>, runes: seq<int>, pattern: seq<int>, k: nat): seq<Match>
    requires k <= |runes| < |starts|
  {
    if k + |pattern| <= |runes| && runes[k..k + |pattern|] == pattern
    then [Match(starts[k], starts[k + |pattern|])]
    else []
  }

  /** Matches that start at one of the first `n` runes. */
  ghost function Found(starts: seq<nat>, runes: seq<int>, pattern: seq<int>, n: nat): seq<Match>
    requires n <= |runes| < |starts|
  {
    if n == 0 then [] else Found(starts, runes, pattern, n - 1) + Here(starts, runes, pattern, n - 1)
  }

  lemma {:induction false} FoundPrefix(starts: seq<nat>, runes: seq<int>, pattern: seq<int>, a: nat, b: nat)
    requires a <= b <= |runes| < |starts|
    ensures Found(starts, runes, pattern, a) <= Found(starts, runes, pattern, b)
    ensures a + |pattern| > |runes| ==> Found(starts, runes, pattern, a) == Found(starts, runes, pattern, b)
    decreases b
  {
    if a < b {
      FoundPrefix(starts, runes, pattern, a, b - 1);
      FoundStep(starts, runes, pattern, b - 1);
      PrefixOfLonger(Found(starts, runes, pattern, a), Found(starts, runes, pattern, b - 1),
                     Here(starts, runes, pattern, b - 1));
    }
  }

  /** The naive test at a rune compares the pattern with the folded runes from there. */
  lemma {:induction false} MatchesAtRune(
      fold: Folding, t: Text, starts: seq<nat>, runes: seq<int>, k: nat, pattern: seq<int>)
    requires Decoded(fold, t, starts, runes) && k <= |runes|
    ensures MatchesAt(fold, t, starts[k], pattern) <==> k + |pattern| <= |runes| && runes[k..k + |pattern|] == pattern
    decreases |pattern|
  {
    if pattern != [] && k < |runes| {
      DecodedStep(fold, t, starts, runes, k);
      MatchesAtRune(fold, t, starts, runes, k + 1, pattern[1..]);
      if k + |pattern| <= |runes| {
        assert runes[k..k + |pattern|] == [runes[k]] + runes[k + 1..k + |pattern|];
        assert pattern == [pattern[0]] + pattern[1..];
      }
    }
  }

  lemma {:induction false} SkipRunes(fold: Folding, t: Text, starts: seq<nat>, runes: seq<int>, k: nat, n: nat)
    requires Decoded(fold, t, starts, runes) && k + n <= |runes| && ValidFrom(t, starts[k])
    ensures Skip(t, starts[k], n) == starts[k + n]
    decreases n
  {
    if n > 0 {
      DecodedStep(fold, t, starts, runes, k);
      SkipRunes(fold, t, starts, runes, k + 1, n - 1);
    }
  }

  lemma {:induction false} FoundRest(
      fold: Folding, t: Text, starts: seq<nat>, runes: seq<int>, pattern: seq<int>, k: nat)
    requires Decoded(fold, t, starts, runes) && k <= |runes| && ValidFrom(t, starts[k])
    ensures Found(starts, runes, pattern, |runes|)
            == Found(starts, runes, pattern, k) + AllMatches(fold, t, starts[k], pattern)
    decreases |runes| - k
  {
    if k == |runes| {
      NothingAtEnd(fold, t, starts, runes, pattern);
    } else {
      NextStart(fold, t, starts, runes, k);
      FoundRest(fold, t, starts, runes, pattern, k + 1);
      RestStep(fold, t, starts, runes, pattern, k, AllMatches(fold, t, starts[k + 1], pattern));
    }
  }

  lemma NothingAtEnd(fold: Folding, t: Text, starts: seq<nat>, runes: seq<int>, pattern: seq<int>)
    requires Decoded(fold, t, starts, runes)
    ensures ValidFrom(t, starts[|runes|]) && AllMatches(fold, t, starts[|runes|], pattern) == []
  {
  }

  lemma NextStart(fold: Folding, t: Text, starts: seq<nat>, runes: seq<int>, k: nat)
    requires Decoded(fold, t, starts, runes) && k < |runes|
    ensures starts[k + 1] <= |t| && ValidFrom(t, starts[k + 1])
  {
  }

  lemma RestStep(fold: Folding, t: Text, starts: seq<nat>, runes: seq<int>, pattern: seq<int>, k: nat, rest: seq<Match>)
    requires Decoded(fold, t, starts, runes) && k < |runes| && ValidFrom(t, starts[k])
    requires starts[k + 1] <= |t| && ValidFrom(t, starts[k + 1]) && rest == AllMatches(fold, t, starts[k + 1], pattern)
    requires Found(starts, runes, pattern, |runes|) == Found(starts, runes, pattern, k + 1) + rest
    ensures Found(starts, runes, pattern, |runes|)
            == Found(starts, runes, pattern, k) + AllMatches(fold, t, starts[k], pattern)
  {
    HereThenRest(fold, t, starts, runes, pattern, k);
    FoundStep(starts, runes, pattern, k);
    Rejoin(Found(starts, runes, pattern, |runes|), Found(starts, runes, pattern, k), Here(starts, runes, pattern, k),
           rest, AllMatches(fold, t, starts[k], pattern));
  }

  lemma FoundStep(starts: seq<nat>, runes: seq<int>, pattern: seq<int>, k: nat)
    requires k < |runes| < |starts|
    ensures Found(starts, runes, pattern, k + 1) == Found(starts, runes, pattern, k) + Here(starts, runes, pattern, k)
  {
  }

  lemma Rejoin<T>(all: seq<T>, before: seq<T>, here: seq<T>, rest: seq<T>, from: seq<T>)
    requires all == (before + here) + rest && from == here + rest
    ensures all == before + from
  {
    Associate(before, here, rest);
  }

  lemma {:induction false} HereThenRest(
      fold: Folding, t: Text, starts: seq<nat>, runes: seq<int>, pattern: seq<int>, k: nat)
    requires Decoded(fold, t, starts, runes) && k < |runes| && ValidFrom(t, starts[k]) && ValidFrom(t, starts[k + 1])
    ensures AllMatches(fold, t, starts[k], pattern)
            == Here(starts, runes, pattern, k) + AllMatches(fold, t, starts[k + 1], pattern)
  {
    DecodedStep(fold, t, starts, runes, k);
    MatchesAtRune(fold, t, starts, runes, k, pattern);
    if k + |pattern| <= |runes| {
      SkipRunes(fold, t, starts, runes, k, |pattern|);
    }
  }

  // ----- the ring of recent rune offsets -----

  ghost predicate Ring(positions: seq<nat>, starts: seq<nat>, n: nat) {
    |positions| > 0 && n <= |starts| && forall k {:trigger starts[k]} :: 0 <= k && n - |positions| <= k < n ==>
      positions[k % |positions|] == starts[k]
  }

  lemma Residue(q: int, r: nat, m: nat)
    requires r < m
    ensures (q * m + r) % m == r
  {
    var x := q * m + r;
    var d := x / m - q;
    assert m * d == r - x % m;
    assert d == 0;
  }

  lemma DistinctSlots(m: nat, a: nat, b: nat)
    requires a < b < a + m
    ensures a % m != b % m
  {
    var q, r, d := a / m, a % m, b - a;
    assert a == q * m + r;
    if r + d < m {
      assert b == q * m + (r + d);
      Residue(q, r + d, m);
    } else {
      assert b == (q + 1) * m + (r + d - m);
      Residue(q + 1, r + d - m, m);
    }
  }

  lemma RingPut(positions: seq<nat>, starts: seq<nat>, n: nat)
    requires Ring(positions, starts, n) && n < |starts|
    ensures Ring(positions[n % |positions| := starts[n]], starts, n + 1)
  {
    var m := |positions|;
    forall k | 0 <= k && n + 1 - m <= k < n + 1
      ensures positions[n % m := starts[n]][k % m] == starts[k]
    {
      if k < n {
        DistinctSlots(m, k, n);
      }
    }
  }

  /** The first matches at or after `start`, up to `limit` of them. */
  method FindDocText(fold: Folding, text: Text, query: Text, start: int, limit: int) returns (r: Result<seq<Match>>)
    ensures r.Ok? <==>
              ValidQuery(query) && 0 <= start && Boundary(text, start) && Valid(text) && 1 <= limit <= PAGE_MATCHES
    ensures r.Ok? ==>
              ValidFrom(text, start) && start <= |text|
                && r.value == Take(AllMatches(fold, text, start, Pattern(fold, query)), limit)
  {
    if !ValidQuery(query) || start < 0 || !Boundary(text, start) || !Valid(text) || limit < 1 || limit > PAGE_MATCHES {
      return Invalid;
    }
    BoundaryReached(text, 0, start);
    var pattern := Pattern(fold, query);
    var failure := BuildFailures(pattern);
    var matches := Scan(fold, text, pattern, failure, start, limit);
    r := Ok(matches);
  }

  method Scan(
      fold: Folding, text: Text, pattern: seq<int>, failure: seq<nat>, start: nat, limit: nat)
    returns (matches: seq<Match>)
    requires ValidFrom(text, start) && start <= |text| && limit > 0
    requires |pattern| > 0 && |failure| == |pattern| && Failures(pattern, failure)
    ensures matches == Take(AllMatches(fold, text, start, pattern), limit)
  {
    ghost var starts, runes := Decoding(fold, text, start, pattern);
    var positions: seq<nat> := seq(|pattern|, _ => 0);
    matches := [];
    var matched: nat, ordinal: nat, offset: nat := 0, 0, start;
    ScannedNothing(starts, runes, pattern, positions);
    while offset < |text|
      invariant Scanned(starts, runes, pattern, ordinal, offset, matched, positions, matches) && |matches| < limit
      decreases |text| - offset
    {
      DecodedHere(fold, text, starts, runes, ordinal);
      var current, after := fold(Value(text, offset)), Next(text, offset);
      matched, positions,
      matches := ScanNext(pattern, failure, matched, positions, matches, current, ordinal, offset, after, starts,
                          runes);
      offset, ordinal := after, ordinal + 1;
      if |matches| == limit {
        FoundTake(starts, runes, pattern, Tried(ordinal, |pattern|), limit);
        return;
      }
    }
    DecodedEnd(fold, text, starts, runes, ordinal);
    FoundTake(starts, runes, pattern, Tried(ordinal, |pattern|), limit);
  }

  ghost predicate Decodes(fold: Folding, t: Text, starts: seq<nat>, runes: seq<int>) {
    Whole(Decoded(fold, t, starts, runes))
  }

  /** The runes of a text and where they start; all matches among them are all matches of the text. */
  lemma Decoding(fold: Folding, t: Text, start: nat, pattern: seq<int>) returns (starts: seq<nat>, runes: seq<int>)
    requires ValidFrom(t, start) && start <= |t|
    ensures Decodes(fold, t, starts, runes) && |starts| == |runes| + 1 && starts[0] == start
    ensures Found(starts, runes, pattern, |runes|) == AllMatches(fold, t, start, pattern)
  {
    starts, runes := Starts(t, start), Folded(fold, Runes(t, start));
    DecodedText(fold, t, start);
    FoundRest(fold, t, starts, runes, pattern, 0);
    EmptyLeft(AllMatches(fold, t, start, pattern));
  }

  lemma ScannedNothing(starts: seq<nat>, runes: seq<int>, pattern: seq<int>, positions: seq<nat>)
    requires |runes| < |starts| && |pattern| > 0 && |positions| == |pattern|
    ensures Scanned(starts, runes, pattern, 0, starts[0], 0, positions, [])
  {
    assert Border(runes[..0], pattern, 0);
  }

  lemma DecodedHere(fold: Folding, t: Text, starts: seq<nat>, runes: seq<int>, k: nat)
    requires Decodes(fold, t, starts, runes) && k < |starts| && starts[k] < |t|
    ensures k < |runes| && RuneAt(t, starts[k]) && starts[k + 1] == Next(t, starts[k])
            && runes[k] == fold(Value(t, starts[k]))
  {
    if k < |runes| {
      DecodedStep(fold, t, starts, runes, k);
    }
  }

  lemma DecodedEnd(fold: Folding, t: Text, starts: seq<nat>, runes: seq<int>, k: nat)
    requires Decodes(fold, t, starts, runes) && k < |starts| && starts[k] >= |t|
    ensures k == |runes|
  {
    if k < |runes| {
      DecodedStep(fold, t, starts, runes, k);
    }
  }

  /** Where a search stands after `ordinal` runes: the border reached, the offsets of the last runes, and every match
      that ended so far. */
  ghost predicate Scanned(
      starts: seq<nat>, runes: seq<int>, pattern: seq<int>, ordinal: nat, offset: nat, matched: nat,
      positions: seq<nat>, matches: seq<Match>) {
    Whole(&& ordinal <= |runes| < |starts| && offset == starts[ordinal]
          && Longest(runes[..ordinal], pattern, matched, |pattern|)
          && Ring(positions, starts, ordinal) && |positions| == |pattern|
          && matches == Found(starts, runes, pattern, Tried(ordinal, |pattern|)))
  }

  /** One rune: its offset enters the ring, and a completed match is reported with the offset the ring kept of its
      start. */
  method ScanNext(
      pattern: seq<int>, failure: seq<nat>, matched: nat, positions: seq<nat>, matches: seq<Match>, c: int,
      ordinal: nat, offset: nat, after: nat,
      ghost starts: seq<nat>, ghost runes: seq<int>)
    returns (next: nat, ring: seq<nat>, found: seq<Match>)
    requires |pattern| > 0 && |failure| == |pattern| && Failures(pattern, failure)
    requires Scanned(starts, runes, pattern, ordinal, offset, matched, positions, matches)
    requires ordinal < |runes| && c == runes[ordinal] && after == starts[ordinal + 1]
    ensures Scanned(starts, runes, pattern, ordinal + 1, after, next, ring, found) && |found| <= |matches| + 1
  {
    RingPut(positions, starts, ordinal);
    ring := positions[ordinal % |pattern| := offset];
    var hit;
    next, hit := ScanRune(pattern, failure, matched, c, starts, runes, ordinal);
    found := matches;
    if hit {
      var begin := ring[(ordinal - |pattern| + 1) % |pattern|];
      assert begin == starts[ordinal + 1 - |pattern|];
      found := found + [Match(begin, after)];
    }
  }

  /** How many starting runes `n` scanned runes decide, for a pattern of `m` runes. */
  ghost function Tried(n: nat, m: nat): nat {
    if n + 1 <= m then 0 else n + 1 - m
  }

  /** Moves the border over one rune, and past a completed match to the border that remains. */
  method ScanRune(
      pattern: seq<int>, failure: seq<nat>, matched: nat, c: int, ghost starts: seq<nat>, ghost runes: seq<int>,
      ghost n: nat)
    returns (next: nat, hit: bool)
    requires n < |runes| < |starts|
    requires |pattern| > 0 && |failure| == |pattern| && Failures(pattern, failure)
    requires Longest(runes[..n], pattern, matched, |pattern|) && c == runes[n]
    ensures Longest(runes[..n + 1], pattern, next, |pattern|)
    ensures hit ==> |pattern| <= n + 1
    ensures Found(starts, runes, pattern, Tried(n + 1, |pattern|)) ==
            Found(starts, runes, pattern, Tried(n, |pattern|))
            + if hit then [Match(starts[n + 1 - |pattern|], starts[n + 1])] else []
  {
    assert runes[..n] + [c] == runes[..n + 1];
    next := Advance(pattern, failure, matched, c, runes[..n], |pattern|);
    ScanStep(starts, runes, pattern, n, next);
    hit := next == |pattern|;
    if hit {
      Rematch(runes[..n + 1], pattern, failure);
      next := failure[next - 1];
    }
  }

  /** A whole pattern ends at the last rune scanned exactly when one starts as many runes before. */
  lemma WholeBorder(runes: seq<int>, pattern: seq<int>, n: nat)
    requires n < |runes| && 0 < |pattern| <= n + 1
    ensures Border(runes[..n + 1], pattern, |pattern|) <==> runes[n + 1 - |pattern|..n + 1] == pattern
  {
    assert runes[..n + 1][n + 1 - |pattern|..] == runes[n + 1 - |pattern|..n + 1];
    assert pattern[..|pattern|] == pattern;
  }

  lemma {:induction false} ScanStep(starts: seq<nat>, runes: seq<int>, pattern: seq<int>, n: nat, matched: nat)
    requires n < |runes| < |starts|
    requires |pattern| > 0 && Longest(runes[..n + 1], pattern, matched, |pattern| + 1)
    ensures matched < |pattern| ==> Longest(runes[..n + 1], pattern, matched, |pattern|)
    ensures matched == |pattern| ==> |pattern| <= n + 1
    ensures Found(starts, runes, pattern, Tried(n + 1, |pattern|)) ==
            Found(starts, runes, pattern, Tried(n, |pattern|))
            + if matched == |pattern| then [Match(starts[n + 1 - |pattern|], starts[n + 1])] else []
  {
    if |pattern| <= n + 1 {
      WholeBorder(runes, pattern, n);
      assert Found(starts, runes, pattern, n + 2 - |pattern|)
          == Found(starts, runes, pattern, n + 1 - |pattern|) + Here(starts, runes, pattern, n + 1 - |pattern|);
    }
  }

  /** Enough matches, or all the starting runes there are, make the limited answer. */
  lemma FoundTake(starts: seq<nat>, runes: seq<int>, pattern: seq<int>, n: nat, limit: nat)
    requires n <= |runes| < |starts|
    requires var found := |Found(starts, runes, pattern, n)|;
             found == limit || (found < limit && n + |pattern| > |runes|)
    ensures Found(starts, runes, pattern, n) == Take(Found(starts, runes, pattern, |runes|), limit)
  {
    FoundPrefix(starts, runes, pattern, n, |runes|);
    TakePrefix(Found(starts, runes, pattern, n), Found(starts, runes, pattern, |runes|));
  }

  lemma {:induction false} Rematch(s: seq<int>, pattern: seq<int>, failure: seq<nat>)
    requires |failure| == |pattern| > 0 && Failures(pattern, failure) && Border(s, pattern, |pattern|)
    ensures Longest(s, pattern, failure[|pattern| - 1], |pattern|)
  {
    var f := failure[|pattern| - 1];
    assert Longest(pattern[..|pattern|], pattern, f, |pattern|);
    BorderNest(s, pattern, |pattern|, f);
    forall j: nat | j < |pattern| && Border(s, pattern, j)
      ensures j <= f
    {
      BorderNest(s, pattern, |pattern|, j);
    }
  }
}
