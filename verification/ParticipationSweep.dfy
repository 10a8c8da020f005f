/** The sweep that verifies every recorded movement of a pull request's branch against every publication on either
    end of the movement: at most a hundred movements and a hundred pairs per call. */
module ParticipationSweep {
  import opened Basics
  import opened Obligations

  const CALL_LIMIT := 100

  /** Ids are numbers in their order, 0 standing for the empty string. */
  datatype Observation = Observation(id: nat, before: nat, after: nat)

  datatype Publication = Publication(id: nat, gitAfter: nat)

  datatype Pair = Pair(observation: nat, publication: nat)

  /** `evidence` is the last observation done; `matched` the last pair tried of the one after it. */
  datatype Cursor = Cursor(evidence: nat, matched: Option<Pair>)

  ghost predicate Increasing(ids: seq<nat>) {
    forall i, j :: 0 <= i < j < |ids| ==> ids[i] < ids[j]
  }

  ghost predicate SortedObservations(all: seq<Observation>) {
    (forall i, j :: 0 <= i < j < |all| ==> all[i].id < all[j].id) && forall o :: o in all ==> o.id > 0
  }

  ghost predicate DistinctPublications(history: seq<Publication>) {
    (forall i, j :: 0 <= i < j < |history| ==> history[i].id != history[j].id) && forall p :: p in history ==> p.id > 0
  }

  // ----- the candidates of one observation -----

  function Insert(ids: seq<nat>, id: nat): seq<nat> {
    if ids == [] || id < ids[0] then [id] + ids else [ids[0]] + Insert(ids[1..], id)
  }

  function Sort(ids: seq<nat>): seq<nat> {
    if ids == [] then [] else Insert(Sort(ids[1..]), ids[0])
  }

  function PublishedOn(history: seq<Publication>, commit: nat): seq<nat> {
    if history == [] then []
    else (if history[0].gitAfter == commit then [history[0].id] else []) + PublishedOn(history[1..], commit)
  }

  /** Publications on the commit a movement left, and on the one it reached when that is another, in order. */
  function Candidates(history: seq<Publication>, o: Observation): seq<nat> {
    Sort(PublishedOn(history, o.before) + if o.before != o.after then PublishedOn(history, o.after) else [])
  }

  lemma {:induction false} InsertSorted(ids: seq<nat>, id: nat)
    requires Increasing(ids) && id !in ids
    ensures Increasing(Insert(ids, id)) && forall x :: x in Insert(ids, id) <==> x in ids || x == id
    decreases |ids|
  {
    if ids != [] && id > ids[0] {
      assert ids == [ids[0]] + ids[1..];
      InsertSorted(ids[1..], id);
      var rest := Insert(ids[1..], id);
      forall k | 0 <= k < |rest|
        ensures ids[0] < rest[k]
      {
        assert rest[k] in rest;
      }
    }
  }

  ghost predicate Distinct(ids: seq<nat>) {
    forall i, j :: 0 <= i < j < |ids| ==> ids[i] != ids[j]
  }

  lemma {:induction false} SortSorted(ids: seq<nat>)
    requires Distinct(ids)
    ensures Increasing(Sort(ids)) && forall x :: x in Sort(ids) <==> x in ids
    decreases |ids|
  {
    if ids != [] {
      SortSorted(ids[1..]);
      assert ids == [ids[0]] + ids[1..];
      InsertSorted(Sort(ids[1..]), ids[0]);
    }
  }

  lemma {:induction false} PublishedOnMember(history: seq<Publication>, commit: nat)
    requires DistinctPublications(history)
    ensures Distinct(PublishedOn(history, commit))
    ensures forall x :: x in PublishedOn(history, commit) <==>
              exists p :: p in history && p.gitAfter == commit && p.id == x
    decreases |history|
  {
    if history != [] {
      PublishedOnMember(history[1..], commit);
      assert history == [history[0]] + history[1..];
      var rest := PublishedOn(history[1..], commit);
      forall k | 0 <= k < |rest|
        ensures rest[k] != history[0].id
      {
        assert rest[k] in rest;
        var p :| p in history[1..] && p.gitAfter == commit && p.id == rest[k];
        var i :| 0 <= i < |history[1..]| && history[1..][i] == p;
        assert history[i + 1] == p;
      }
    }
  }

  lemma SameId(history: seq<Publication>, p: Publication, q: Publication)
    requires DistinctPublications(history) && p in history && q in history && p.id == q.id
    ensures p == q
  {
    var i :| 0 <= i < |history| && history[i] == p;
    var j :| 0 <= j < |history| && history[j] == q;
  }

  /** The candidates are the publications on either commit, each once, in increasing order. */
  lemma CandidatesExact(history: seq<Publication>, o: Observation)
    requires DistinctPublications(history)
    ensures Increasing(Candidates(history, o)) && forall x :: x in Candidates(history, o) ==> x > 0
    ensures forall x :: x in Candidates(history, o) <==>
              exists p :: p in history && p.id == x && (p.gitAfter == o.before || p.gitAfter == o.after)
  {
    PublishedOnMember(history, o.before);
    PublishedOnMember(history, o.after);
    var a, b := PublishedOn(history, o.before), PublishedOn(history, o.after);
    if o.before != o.after {
      forall i, j | 0 <= i < |a| && 0 <= j < |b|
        ensures a[i] != b[j]
      {
        assert a[i] in a && b[j] in b;
        var p :| p in history && p.gitAfter == o.before && p.id == a[i];
        var q :| q in history && q.gitAfter == o.after && q.id == b[j];
        if p.id == q.id {
          SameId(history, p, q);
        }
      }
      SortSorted(a + b);
    } else {
      assert a + [] == a;
      SortSorted(a);
    }
  }

  // ----- the pairs of a sweep -----

  function Beyond(o: nat, ids: seq<nat>, after: nat): seq<Pair> {
    if ids == [] then [] else (if ids[0] > after then [Pair(o, ids[0])] else []) + Beyond(o, ids[1..], after)
  }

  function Pairs(all: seq<Observation>, history: seq<Publication>, after: nat): seq<Pair> {
    if all == [] then [] else Beyond(all[0].id, Candidates(history, all[0]), after) + Pairs(all[1..], history, 0)
  }

  /** Where in the first observation's candidates the cursor stands. */
  function Within(all: seq<Observation>, c: Cursor): nat {
    if all != [] && c.matched.Some? && c.matched.value.observation == all[0].id then c.matched.value.publication else 0
  }

  lemma {:induction false} BeyondMember(o: nat, ids: seq<nat>, after: nat, q: Pair)
    ensures q in Beyond(o, ids, after) <==> q.observation == o && q.publication in ids && q.publication > after
    decreases |ids|
  {
    if ids != [] {
      BeyondMember(o, ids[1..], after, q);
      assert ids == [ids[0]] + ids[1..];
    }
  }

  ghost predicate Covers(all: seq<Observation>, history: seq<Publication>, q: Pair) {
    exists o :: o in all && o.id == q.observation && q.publication in Candidates(history, o)
  }

  lemma CoversStep(all: seq<Observation>, history: seq<Publication>, q: Pair)
    requires all != []
    ensures Covers(all, history, q) <==>
              (all[0].id == q.observation && q.publication in Candidates(history, all[0]))
                || Covers(all[1..], history, q)
  {
    assert all == [all[0]] + all[1..];
  }

  /** What a sweep covers: every observation with every publication on one of its two commits. */
  lemma {:induction false} PairsMember(all: seq<Observation>, history: seq<Publication>, q: Pair)
    requires DistinctPublications(history)
    ensures q in Pairs(all, history, 0) <==> Covers(all, history, q)
    decreases |all|
  {
    if all != [] {
      CoversStep(all, history, q);
      BeyondMember(all[0].id, Candidates(history, all[0]), 0, q);
      PositiveCandidate(history, all[0], q.publication);
      PairsMember(all[1..], history, q);
      var row, rest := Beyond(all[0].id, Candidates(history, all[0]), 0), Pairs(all[1..], history, 0);
      assert Pairs(all, history, 0) == row + rest;
      assert q in row + rest <==> q in row || q in rest;
    }
  }

  lemma PositiveCandidate(history: seq<Publication>, o: Observation, x: nat)
    requires DistinctPublications(history)
    ensures x in Candidates(history, o) ==> x > 0
  {
    CandidatesExact(history, o);
  }

  ghost predicate DistinctPairs(pairs: seq<Pair>) {
    forall i, j :: 0 <= i < j < |pairs| ==> pairs[i] != pairs[j]
  }

  lemma {:induction false} BeyondDistinct(o: nat, ids: seq<nat>, after: nat)
    requires Increasing(ids)
    ensures DistinctPairs(Beyond(o, ids, after))
    decreases |ids|
  {
    if ids != [] {
      BeyondDistinct(o, ids[1..], after);
      var rest := Beyond(o, ids[1..], after);
      forall k | 0 <= k < |rest|
        ensures rest[k] != Pair(o, ids[0])
      {
        BeyondMember(o, ids[1..], after, rest[k]);
      }
    }
  }

  /** No pair is listed twice. */
  lemma {:induction false} PairsDistinct(all: seq<Observation>, history: seq<Publication>)
    requires SortedObservations(all) && DistinctPublications(history)
    ensures DistinctPairs(Pairs(all, history, 0))
    decreases |all|
  {
    if all != [] {
      var row, rest := Beyond(all[0].id, Candidates(history, all[0]), 0), Pairs(all[1..], history, 0);
      CandidatesExact(history, all[0]);
      BeyondDistinct(all[0].id, Candidates(history, all[0]), 0);
      PairsDistinct(all[1..], history);
      forall i, j | 0 <= i < |row| && 0 <= j < |rest|
        ensures row[i] != rest[j]
      {
        BeyondMember(all[0].id, Candidates(history, all[0]), 0, row[i]);
        PairsMember(all[1..], history, rest[j]);
      }
    }
  }

  lemma {:induction false} BeyondSkip(o: nat, ids: seq<nat>, after: nat, k: nat)
    requires k <= |ids| && forall i :: 0 <= i < k ==> ids[i] <= after
    ensures Beyond(o, ids, after) == Beyond(o, ids[k..], after)
    decreases k
  {
    if k > 0 {
      BeyondSkip(o, ids[1..], after, k - 1);
      assert ids[1..][k - 1..] == ids[k..];
    } else {
      assert ids[0..] == ids;
    }
  }

  lemma {:induction false} BeyondSame(o: nat, ids: seq<nat>, a: nat, b: nat)
    requires forall i :: 0 <= i < |ids| ==> ids[i] > a && ids[i] > b
    ensures Beyond(o, ids, a) == Beyond(o, ids, b)
    decreases |ids|
  {
    if ids != [] {
      BeyondSame(o, ids[1..], a, b);
    }
  }

  /** Trying the candidate at `k` takes one pair off what is left. */
  lemma PairsStep(all: seq<Observation>, history: seq<Publication>, after: nat, k: nat)
    requires all != [] && DistinctPublications(history)
    requires var ids := Candidates(history, all[0]);
             k < |ids| && ids[k] > after && Beyond(all[0].id, ids, after) == Beyond(all[0].id, ids[k..], after)
    ensures var ids := Candidates(history, all[0]);
            && Pairs(all, history, after) == [Pair(all[0].id, ids[k])] + Pairs(all, history, ids[k])
            && Beyond(all[0].id, ids, ids[k]) == Beyond(all[0].id, ids[k + 1..], ids[k])
  {
    var o, ids := all[0].id, Candidates(history, all[0]);
    CandidatesExact(history, all[0]);
    BeyondSkip(o, ids, ids[k], k + 1);
    BeyondSame(o, ids[k + 1..], after, ids[k]);
    assert ids[k..][1..] == ids[k + 1..];
    Associate([Pair(o, ids[k])], Beyond(o, ids, ids[k]), Pairs(all[1..], history, 0));
  }

  // ----- one call -----

  /** `i` observations are done; what was to do is what was tried and what is left. */
  ghost predicate Reached(
      all: seq<Observation>, history: seq<Publication>, start: Cursor, i: nat, c: Cursor, tried: seq<Pair>) {
    Whole(&& i <= |all| && |tried| <= CALL_LIMIT
          && c.evidence == (if i == 0 then start.evidence else all[i - 1].id)
          && Pairs(all, history, Within(all, start)) == tried + Pairs(all[i..], history, Within(all[i..], c))
          && (i == 0 ==> Within(all, start) <= Within(all, c) && (tried != [] ==> Within(all, start) < Within(all, c))))
  }

  lemma ReachedStep(
      all: seq<Observation>, history: seq<Publication>, start: Cursor, i: nat, c: Cursor, tried: seq<Pair>, k: nat)
    requires Reached(all, history, start, i, c, tried) && i < |all| && |tried| < CALL_LIMIT
             && DistinctPublications(history)
    requires var ids := Candidates(history, all[i]);
             k < |ids| && ids[k] > Within(all[i..], c)
               && Beyond(all[i].id, ids, Within(all[i..], c)) == Beyond(all[i].id, ids[k..], Within(all[i..], c))
    ensures var q := Pair(all[i].id, Candidates(history, all[i])[k]);
            Reached(all, history, start, i, Cursor(c.evidence, Some(q)), tried + [q])
    ensures var ids := Candidates(history, all[i]);
            Beyond(all[i].id, ids, ids[k]) == Beyond(all[i].id, ids[k + 1..], ids[k])
  {
    assert all[i..][0] == all[i];
    var q := Pair(all[i].id, Candidates(history, all[i])[k]);
    PairsStep(all[i..], history, Within(all[i..], c), k);
    assert Within(all[i..], Cursor(c.evidence, Some(q))) == q.publication;
    assert i == 0 ==> all[i..] == all;
    Associate(tried, [q], Pairs(all[i..], history, q.publication));
  }

  lemma ReachedNext(
      all: seq<Observation>, history: seq<Publication>, start: Cursor, i: nat, c: Cursor, tried: seq<Pair>)
    requires Reached(all, history, start, i, c, tried) && i < |all|
    requires Beyond(all[i].id, Candidates(history, all[i]), Within(all[i..], c)) == []
    ensures Reached(all, history, start, i + 1, Cursor(all[i].id, None), tried)
  {
    assert all[i..][1..] == all[i + 1..] && all[i..][0] == all[i];
    var rest := Pairs(all[i + 1..], history, 0);
    assert [] + rest == rest;
  }

  ghost predicate NoneFails(fails: Pair -> bool, pairs: seq<Pair>) {
    forall k :: 0 <= k < |pairs| ==> !fails(pairs[k])
  }

  /** One of the pairs that a call may try fails, the first of them that does. */
  ghost predicate FailsSoon(fails: Pair -> bool, pairs: seq<Pair>) {
    exists k :: 0 <= k < |pairs| && k < CALL_LIMIT && fails(pairs[k]) && NoneFails(fails, pairs[..k])
  }

  lemma FailsLater(fails: Pair -> bool, pairs: seq<Pair>, tried: seq<Pair>, rest: seq<Pair>)
    requires pairs == tried + rest && FailsSoon(fails, rest)
    ensures !NoneFails(fails, pairs)
  {
    var k :| 0 <= k < |rest| && fails(rest[k]);
    assert pairs[|tried| + k] == rest[k];
  }

  lemma FailsBy(fails: Pair -> bool, pairs: seq<Pair>, tried: seq<Pair>, q: Pair, rest: seq<Pair>)
    requires pairs == tried + [q] + rest && |tried| < CALL_LIMIT && NoneFails(fails, tried) && fails(q)
    ensures FailsSoon(fails, pairs)
  {
    assert pairs[|tried|] == q && pairs[..|tried|] == tried;
  }

  /** The candidates of one observation. It stops when a candidate is left but the budget is spent. */
  method TryCandidates(
      all: seq<Observation>, history: seq<Publication>, fails: Pair -> bool, ghost start: Cursor, i: nat,
      from: Cursor, done: seq<Pair>)
    returns (ok: bool, stop: bool, c: Cursor, tried: seq<Pair>)
    requires i < |all| && DistinctPublications(history) && Reached(all, history, start, i, from, done)
             && NoneFails(fails, done)
    ensures ok ==> Reached(all, history, start, i, c, tried) && NoneFails(fails, tried)
    ensures !ok ==> FailsSoon(fails, Pairs(all, history, Within(all, start)))
    ensures ok && stop ==> |tried| == CALL_LIMIT
    ensures ok && !stop ==> Beyond(all[i].id, Candidates(history, all[i]), Within(all[i..], c)) == []
  {
    var ids := Candidates(history, all[i]);
    CandidatesExact(history, all[i]);
    c, tried := from, done;
    var after := Within(all[i..], c);
    assert ids[0..] == ids && all[i..][0] == all[i];
    for k := 0 to |ids|
      invariant Reached(all, history, start, i, c, tried) && NoneFails(fails, tried)
      invariant var w := Within(all[i..], c); after <= w && (w == after || (k > 0 && w == ids[k - 1]))
      invariant Beyond(all[i].id, ids, Within(all[i..], c)) == Beyond(all[i].id, ids[k..], Within(all[i..], c))
    {
      assert ids[k..][0] == ids[k] && ids[k..][1..] == ids[k + 1..];
      if ids[k] > after {
        if |tried| >= CALL_LIMIT {
          return true, true, c, tried;
        }
        ReachedStep(all, history, start, i, c, tried, k);
        ghost var before := tried;
        c, tried := Cursor(c.evidence, Some(Pair(all[i].id, ids[k]))), tried + [Pair(all[i].id, ids[k])];
        if fails(Pair(all[i].id, ids[k])) {
          FailsBy(fails, Pairs(all, history, Within(all, start)), before, Pair(all[i].id, ids[k]),
                  Pairs(all[i..], history, Within(all[i..], c)));
          return false, true, c, tried;
        }
      }
    }
    assert ids[|ids|..] == [];
    ok, stop := true, false;
  }

  /** One call over the observations above the cursor. It reports whether the sweep is finished, which also resets
      the cursor. */
  method PrepareParticipations(all: seq<Observation>, history: seq<Publication>, fails: Pair -> bool, start: Cursor)
    returns (ok: bool, finished: bool, c: Cursor, tried: seq<Pair>, ghost at: nat)
    requires DistinctPublications(history)
    ensures !ok ==> FailsSoon(fails, Pairs(all, history, Within(all, start)))
    ensures ok ==> |tried| <= CALL_LIMIT && NoneFails(fails, tried) && at <= |all| && at <= CALL_LIMIT
    ensures ok && finished ==>
              c == Cursor(0, if all == [] then start.matched else None)
                && tried == Pairs(all, history, Within(all, start))
    ensures ok && !finished ==>
              Reached(all, history, start, at, c, tried) && (at == 0 ==> tried != []) && at < |all|
  {
    c, tried, ok, finished, at := start, [], true, false, 0;
    assert all[0..] == all && [] + Pairs(all, history, Within(all, start)) == Pairs(all, history, Within(all, start));
    var i: nat, n := 0, if |all| < CALL_LIMIT then |all| else CALL_LIMIT;
    while i < n
      invariant ok && !finished && i <= n && Reached(all, history, start, i, c, tried) && NoneFails(fails, tried)
      invariant i == 0 ==> c == start
      invariant i > 0 ==> c.matched.None?
    {
      var stop;
      ok, stop, c, tried := TryCandidates(all, history, fails, start, i, c, tried);
      if !ok || stop {
        at := i;
        return;
      }
      ReachedNext(all, history, start, i, c, tried);
      c, i := Cursor(all[i].id, None), i + 1;
    }
    at := i;
    if |all| <= CALL_LIMIT {
      finished, c := true, c.(evidence := 0);
      assert all[i..] == [] && tried + [] == tried;
    }
  }

  // ----- a whole sweep -----

  function Later(all: seq<Observation>, evidence: nat): seq<Observation> {
    if all == [] then [] else if all[0].id > evidence then all else Later(all[1..], evidence)
  }

  lemma {:induction false} LaterSuffix(all: seq<Observation>, evidence: nat) returns (n: nat)
    requires SortedObservations(all)
    ensures n <= |all| && Later(all, evidence) == all[n..]
    ensures forall i :: 0 <= i < |all| ==> (all[i].id > evidence <==> i >= n)
    decreases |all|
  {
    if all == [] || all[0].id > evidence {
      n := 0;
    } else {
      assert all == [all[0]] + all[1..];
      var m := LaterSuffix(all[1..], evidence);
      n := m + 1;
      assert all[1..][m..] == all[n..];
    }
  }

  /** Moving the cursor to the `at`-th observation leaves those behind it. */
  lemma LaterFrom(all: seq<Observation>, evidence: nat, at: nat)
    requires SortedObservations(all) && 0 < at <= |Later(all, evidence)|
    ensures Later(all, Later(all, evidence)[at - 1].id) == Later(all, evidence)[at..]
    ensures Later(all, evidence)[at - 1].id > evidence
  {
    var n := LaterSuffix(all, evidence);
    var m := LaterSuffix(all, Later(all, evidence)[at - 1].id);
    assert Later(all, evidence)[at - 1] == all[n + at - 1];
    assert all[n..][at..] == all[n + at..];
    assert all[n + at - 1].id <= all[n + at - 1].id && (n + at < |all| ==> all[n + at].id > all[n + at - 1].id);
  }

  /** What a sweep still has to verify from a cursor. */
  function Remaining(all: seq<Observation>, history: seq<Publication>, c: Cursor): seq<Pair> {
    Pairs(Later(all, c.evidence), history, Within(Later(all, c.evidence), c))
  }

  /** Repeated calls verify every pair exactly once, in order, and the cursor resets only after the last of them.
      They get there exactly when no pair fails; a pair that fails leaves the sweep where the last saved call left it,
      with that pair still to come. */
  method Sweep(
      all: seq<Observation>, history: seq<Publication>, fails: Pair -> bool)
    returns (finished: bool, tried: seq<Pair>, c: Cursor)
    requires SortedObservations(all) && DistinctPublications(history)
    ensures finished ==> tried == Pairs(all, history, 0) && c == Cursor(0, None)
    ensures !finished ==>
              Pairs(all, history, 0) == tried + Remaining(all, history, c)
                && FailsSoon(fails, Remaining(all, history, c))
    ensures finished <==> NoneFails(fails, Pairs(all, history, 0))
  {
    c, tried, finished := Cursor(0, None), [], false;
    var none := LaterSuffix(all, 0);
    assert Later(all, 0) == all by {
      assert all != [] ==> all[0] in all;
    }
    while !finished
      invariant !finished ==> Pairs(all, history, 0) == tried + Remaining(all, history, c)
      invariant finished ==> tried == Pairs(all, history, 0) && c == Cursor(0, None)
      invariant NoneFails(fails, tried)
      invariant !finished && c.matched.Some? ==> Later(all, c.evidence) != []
      decreases !finished, |Later(all, c.evidence)|, |Remaining(all, history, c)|
    {
      var later := Later(all, c.evidence);
      var ok, done, next, more;
      ghost var at;
      ok, done, next, more, at := PrepareParticipations(later, history, fails, c);
      if !ok {
        FailsLater(fails, Pairs(all, history, 0), tried, Remaining(all, history, c));
        return;
      }
      if done {
        assert later == [] ==> c.matched.None?;
        c, tried, finished := next, tried + more, true;
      } else {
        CallRemaining(all, history, c, at, next, more);
        Associate(tried, more, Remaining(all, history, next));
        c, tried := next, tried + more;
      }
    }
  }

  lemma CallRemaining(
      all: seq<Observation>, history: seq<Publication>, start: Cursor, at: nat, c: Cursor, tried: seq<Pair>)
    requires SortedObservations(all) && Reached(Later(all, start.evidence), history, start, at, c, tried)
             && at < |Later(all, start.evidence)|
    requires at == 0 ==> tried != []
    ensures Remaining(all, history, start) == tried + Remaining(all, history, c)
    ensures Later(all, c.evidence) != []
    ensures at == 0 ==>
              Later(all, c.evidence) == Later(all, start.evidence)
                && |Remaining(all, history, c)| < |Remaining(all, history, start)|
    ensures at > 0 ==> |Later(all, c.evidence)| < |Later(all, start.evidence)|
  {
    var later := Later(all, start.evidence);
    if at > 0 {
      LaterFrom(all, start.evidence, at);
    } else {
      assert later[0..] == later;
    }
  }
}
