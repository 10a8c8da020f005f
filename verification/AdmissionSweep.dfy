/** The sweep that offers every publication to every other branch, at most eight pairs per batch, resuming where the
    last batch stopped. */
module AdmissionSweep {
  import opened Basics
  import opened Obligations

  const BATCH_LIMIT := 8

  /** A publication and the branch it was made on. Ids and names are numbers in their order; 0 is the empty string. */
  datatype Publication = Publication(id: nat, source: nat)

  datatype Pair = Pair(publication: nat, destination: nat)

  /** Zero in `through` means that no sweep is under way. */
  datatype Cursor = Cursor(through: nat, afterPublication: nat, afterDestination: nat)

  /** What became of one pair; only a failure spoils the batch. */
  datatype Attempt = Admitted | Deferred | LimitReached | Failed

  ghost predicate SortedIds(pubs: seq<Publication>) {
    forall i, j :: 0 <= i < j < |pubs| ==> pubs[i].id < pubs[j].id
  }

  ghost predicate SortedNames(names: seq<nat>) {
    (forall i, j :: 0 <= i < j < |names| ==> names[i] < names[j]) && forall i :: 0 <= i < |names| ==> names[i] > 0
  }

  // ----- the pairs of a sweep -----

  predicate Wanted(p: Publication, sources: set<nat>, after: nat, name: nat) {
    p.source in sources && name != p.source && name > after
  }

  function Row(p: Publication, names: seq<nat>, sources: set<nat>, after: nat): seq<Pair> {
    if names == [] then []
    else
      (if Wanted(p, sources, after, names[0]) then [Pair(p.id, names[0])] else [])
      + Row(p, names[1..], sources, after)
  }

  /** Every publication with a source head, paired with every other branch, in order; the first row starts after
      a name. */
  function Pairs(pubs: seq<Publication>, names: seq<nat>, sources: set<nat>, after: nat): seq<Pair> {
    if pubs == [] then [] else Row(pubs[0], names, sources, after) + Pairs(pubs[1..], names, sources, 0)
  }

  lemma {:induction false} RowMember(p: Publication, names: seq<nat>, sources: set<nat>, after: nat, q: Pair)
    ensures q in Row(p, names, sources, after) <==>
              q.publication == p.id && q.destination in names && Wanted(p, sources, after, q.destination)
    decreases |names|
  {
    if names != [] {
      RowMember(p, names[1..], sources, after, q);
      assert names == [names[0]] + names[1..];
    }
  }

  ghost predicate Covers(pubs: seq<Publication>, names: seq<nat>, sources: set<nat>, q: Pair) {
    exists p :: p in pubs && p.id == q.publication && p.source in sources && q.destination in names
      && q.destination != p.source
  }

  lemma CoversStep(pubs: seq<Publication>, names: seq<nat>, sources: set<nat>, q: Pair)
    requires pubs != []
    ensures Covers(pubs, names, sources, q) <==>
              || (pubs[0].id == q.publication && pubs[0].source in sources && q.destination in names
                  && q.destination != pubs[0].source)
              || Covers(pubs[1..], names, sources, q)
  {
    assert pubs == [pubs[0]] + pubs[1..];
  }

  /** What the list means: exactly the pairs of a publication with a known source head and another branch. */
  lemma {:induction false} PairsMember(pubs: seq<Publication>, names: seq<nat>, sources: set<nat>, q: Pair)
    requires SortedNames(names)
    ensures q in Pairs(pubs, names, sources, 0) <==> Covers(pubs, names, sources, q)
    decreases |pubs|
  {
    if pubs != [] {
      CoversStep(pubs, names, sources, q);
      RowMember(pubs[0], names, sources, 0, q);
      PairsMember(pubs[1..], names, sources, q);
      var row, rest := Row(pubs[0], names, sources, 0), Pairs(pubs[1..], names, sources, 0);
      assert q in row + rest <==> q in row || q in rest;
    }
  }

  lemma {:induction false} RowDistinct(p: Publication, names: seq<nat>, sources: set<nat>, after: nat)
    requires SortedNames(names)
    ensures forall i, j :: 0 <= i < j < |Row(p, names, sources, after)| ==>
              Row(p, names, sources, after)[i] != Row(p, names, sources, after)[j]
    decreases |names|
  {
    if names != [] {
      RowDistinct(p, names[1..], sources, after);
      var rest := Row(p, names[1..], sources, after);
      forall i | 0 <= i < |rest|
        ensures rest[i] != Pair(p.id, names[0])
      {
        RowMember(p, names[1..], sources, after, rest[i]);
      }
    }
  }

  /** No pair is listed twice. */
  lemma {:induction false} PairsDistinct(pubs: seq<Publication>, names: seq<nat>, sources: set<nat>)
    requires SortedIds(pubs) && SortedNames(names)
    ensures forall i, j :: 0 <= i < j < |Pairs(pubs, names, sources, 0)| ==>
              Pairs(pubs, names, sources, 0)[i] != Pairs(pubs, names, sources, 0)[j]
    decreases |pubs|
  {
    if pubs != [] {
      var row, rest := Row(pubs[0], names, sources, 0), Pairs(pubs[1..], names, sources, 0);
      RowDistinct(pubs[0], names, sources, 0);
      PairsDistinct(pubs[1..], names, sources);
      forall i, j | 0 <= i < |row| && 0 <= j < |rest|
        ensures row[i] != rest[j]
      {
        RowMember(pubs[0], names, sources, 0, row[i]);
        PairsMember(pubs[1..], names, sources, rest[j]);
      }
    }
  }

  // ----- resuming a row -----

  lemma {:induction false} RowSame(p: Publication, names: seq<nat>, sources: set<nat>, a: nat, b: nat)
    requires forall i :: 0 <= i < |names| ==> names[i] > a && names[i] > b
    ensures Row(p, names, sources, a) == Row(p, names, sources, b)
    decreases |names|
  {
    if names != [] {
      RowSame(p, names[1..], sources, a, b);
    }
  }

  lemma {:induction false} RowSkip(p: Publication, names: seq<nat>, sources: set<nat>, after: nat, k: nat)
    requires k <= |names| && forall i :: 0 <= i < k ==> names[i] <= after
    ensures Row(p, names, sources, after) == Row(p, names[k..], sources, after)
    decreases k
  {
    if k > 0 {
      RowSkip(p, names[1..], sources, after, k - 1);
      assert names[1..][k - 1..] == names[k..];
    } else {
      assert names[0..] == names;
    }
  }

  /** After the name at `k` has been visited, what is left of the row is what a fresh look from that name finds. */
  lemma RowResume(p: Publication, names: seq<nat>, sources: set<nat>, after: nat, k: nat)
    requires SortedNames(names) && k < |names| && names[k] > after
    ensures Row(p, names[k + 1..], sources, after) == Row(p, names, sources, names[k])
  {
    RowSkip(p, names, sources, names[k], k + 1);
    RowSame(p, names[k + 1..], sources, after, names[k]);
  }

  // ----- one batch -----

  /** A batch: at most eight publications above the cursor, and whether more are left up to the bound. */
  datatype Batch = Batch(pubs: seq<Publication>, more: bool)

  function Above(pubs: seq<Publication>, after: nat, through: nat): seq<Publication> {
    if pubs == [] then []
    else (if after < pubs[0].id <= through then [pubs[0]] else []) + Above(pubs[1..], after, through)
  }

  method TakeWithin(listed: seq<Publication>, through: nat) returns (bounded: seq<Publication>)
    ensures bounded <= listed && (forall k :: 0 <= k < |bounded| ==> listed[k].id <= through)
    ensures |bounded| < |listed| ==> listed[|bounded|].id > through
  {
    bounded := [];
    while |bounded| < |listed| && listed[|bounded|].id <= through
      invariant bounded <= listed && forall k :: 0 <= k < |bounded| ==> listed[k].id <= through
    {
      bounded := bounded + [listed[|bounded|]];
    }
  }

  /** Nine publications are listed; those beyond the bound are dropped, and a ninth says that more are left. */
  method FreezeBatch(listed: seq<Publication>, ghost all: seq<Publication>, after: nat, through: nat) returns (b: Batch)
    requires SortedIds(listed) && listed <= all && (|listed| <= BATCH_LIMIT ==> listed == all)
             && |listed| <= BATCH_LIMIT + 1
    requires SortedIds(all) && forall p :: p in all ==> p.id > after
    ensures |b.pubs| <= BATCH_LIMIT && b.pubs <= Above(all, after, through)
    ensures b.more <==> |Above(all, after, through)| > BATCH_LIMIT
    ensures !b.more ==> b.pubs == Above(all, after, through)
    ensures b.more ==> |b.pubs| == BATCH_LIMIT
  {
    var bounded := TakeWithin(listed, through);
    assert bounded == all[..|bounded|];
    assert forall k :: 0 <= k < |listed| ==> listed[k] == all[k];
    AbovePrefix(all, after, through, |bounded|);
    if |bounded| > BATCH_LIMIT {
      b := Batch(bounded[..BATCH_LIMIT], true);
    } else {
      b := Batch(bounded, false);
    }
  }

  /** When the first `i` lie within the bound, and the next does not or there is none, they are what lies within it. */
  lemma AbovePrefix(all: seq<Publication>, after: nat, through: nat, i: nat)
    requires SortedIds(all) && i <= |all| && forall p :: p in all ==> p.id > after
    requires forall k :: 0 <= k < i ==> all[k].id <= through
    ensures all[..i] <= Above(all, after, through)
    ensures i == |all| || all[i].id > through ==> Above(all, after, through) == all[..i]
  {
    AboveSplit(all, after, through, i);
    AboveAll(all[..i], after, through);
    if i == |all| || all[i].id > through {
      AboveNone(all[i..], after, through);
    }
  }

  lemma {:induction false} AboveSplit(all: seq<Publication>, after: nat, through: nat, i: nat)
    requires i <= |all|
    ensures Above(all, after, through) == Above(all[..i], after, through) + Above(all[i..], after, through)
    decreases i
  {
    if i == 0 {
      assert all[0..] == all;
    } else {
      AboveSplit(all[1..], after, through, i - 1);
      assert all[..i][1..] == all[1..][..i - 1] && all[1..][i - 1..] == all[i..] && all[..i][0] == all[0];
      var first := if after < all[0].id <= through then [all[0]] else [];
      Associate(first, Above(all[1..][..i - 1], after, through), Above(all[i..], after, through));
    }
  }

  lemma {:induction false} AboveAll(pubs: seq<Publication>, after: nat, through: nat)
    requires forall k :: 0 <= k < |pubs| ==> after < pubs[k].id <= through
    ensures Above(pubs, after, through) == pubs
    decreases |pubs|
  {
    if pubs != [] {
      AboveAll(pubs[1..], after, through);
    }
  }

  lemma {:induction false} AboveNone(pubs: seq<Publication>, after: nat, through: nat)
    requires forall k :: 0 <= k < |pubs| ==> pubs[k].id > through
    ensures Above(pubs, after, through) == []
    decreases |pubs|
  {
    if pubs != [] {
      AboveNone(pubs[1..], after, through);
    }
  }

  /** Where a batch has come to: `i` publications done, `visited` pairs tried, and what is left from the cursor. */
  ghost predicate Reached(
      pubs: seq<Publication>, names: seq<nat>, sources: set<nat>, start: Cursor, i: nat, c: Cursor,
      visited: seq<Pair>) {
    Whole(&& i <= |pubs| && |visited| <= BATCH_LIMIT && c.through == start.through
          && c.afterPublication == (if i == 0 then start.afterPublication else pubs[i - 1].id)
          && Pairs(pubs, names, sources, start.afterDestination)
             == visited + Pairs(pubs[i..], names, sources, c.afterDestination)
          && (i == 0 ==>
                start.afterDestination <= c.afterDestination
                  && (visited != [] ==> start.afterDestination < c.afterDestination))
          && (c.afterDestination == 0 || c.afterDestination == start.afterDestination || c.afterDestination in names))
  }

  /** Visiting the name at `k` takes one pair off what is left. */
  lemma PairsStep(pubs: seq<Publication>, names: seq<nat>, sources: set<nat>, after: nat, k: nat)
    requires pubs != [] && SortedNames(names) && k < |names| && Wanted(pubs[0], sources, after, names[k])
    requires Row(pubs[0], names, sources, after) == Row(pubs[0], names[k..], sources, after)
    ensures Pairs(pubs, names, sources, after) == [Pair(pubs[0].id, names[k])] + Pairs(pubs, names, sources, names[k])
    ensures Row(pubs[0], names, sources, names[k]) == Row(pubs[0], names[k + 1..], sources, names[k])
  {
    RowResume(pubs[0], names, sources, after, k);
    RowSkip(pubs[0], names, sources, names[k], k + 1);
    assert names[k..][1..] == names[k + 1..];
    Associate([Pair(pubs[0].id, names[k])], Row(pubs[0], names, sources, names[k]),
              Pairs(pubs[1..], names, sources, 0));
  }

  lemma ReachedStep(
      pubs: seq<Publication>, names: seq<nat>, sources: set<nat>, start: Cursor, i: nat, c: Cursor, visited: seq<Pair>,
      k: nat)
    requires Reached(pubs, names, sources, start, i, c, visited) && i < |pubs| && SortedNames(names) && k < |names|
    requires |visited| < BATCH_LIMIT && Wanted(pubs[i], sources, c.afterDestination, names[k])
    requires Row(pubs[i], names, sources, c.afterDestination) == Row(pubs[i], names[k..], sources, c.afterDestination)
    ensures Reached(pubs, names, sources, start, i, c.(afterDestination := names[k]),
                    visited + [Pair(pubs[i].id, names[k])])
    ensures Row(pubs[i], names, sources, names[k]) == Row(pubs[i], names[k + 1..], sources, names[k])
  {
    assert pubs[i..][0] == pubs[i];
    PairsStep(pubs[i..], names, sources, c.afterDestination, k);
    Associate(visited, [Pair(pubs[i].id, names[k])], Pairs(pubs[i..], names, sources, names[k]));
  }

  lemma ReachedNext(
      pubs: seq<Publication>, names: seq<nat>, sources: set<nat>, start: Cursor, i: nat, c: Cursor, visited: seq<Pair>)
    requires Reached(pubs, names, sources, start, i, c, visited) && i < |pubs|
             && Row(pubs[i], names, sources, c.afterDestination) == []
    ensures Reached(pubs, names, sources, start, i + 1, c.(afterPublication := pubs[i].id, afterDestination := 0),
                    visited)
  {
    assert pubs[i..][1..] == pubs[i + 1..];
    var rest := Pairs(pubs[i + 1..], names, sources, 0);
    assert [] + rest == rest;
  }

  /** None of the pairs failed, and none reached the limit. */
  ghost predicate Clean(outcome: Pair -> Attempt, visited: seq<Pair>) {
    forall j :: 0 <= j < |visited| ==> outcome(visited[j]) != Failed && outcome(visited[j]) != LimitReached
  }

  /** The pairs after which a batch stops: as many as it may try, or the last one reached the limit. */
  ghost predicate StopsAfter(outcome: Pair -> Attempt, visited: seq<Pair>) {
    && visited != [] && Clean(outcome, visited[..|visited| - 1]) && outcome(visited[|visited| - 1]) != Failed
    && (|visited| == BATCH_LIMIT || outcome(visited[|visited| - 1]) == LimitReached)
  }

  /** Among the first eight pairs one fails, before any reaches the limit. */
  ghost predicate Discards(outcome: Pair -> Attempt, pairs: seq<Pair>) {
    exists k :: 0 <= k < |pairs| && k < BATCH_LIMIT && outcome(pairs[k]) == Failed && Clean(outcome, pairs[..k])
  }

  lemma DiscardsBy(outcome: Pair -> Attempt, pairs: seq<Pair>, visited: seq<Pair>, q: Pair, rest: seq<Pair>)
    requires pairs == visited + [q] + rest && Clean(outcome, visited) && |visited| < BATCH_LIMIT && outcome(q) == Failed
    ensures Discards(outcome, pairs)
  {
    assert pairs[|visited|] == q && pairs[..|visited|] == visited;
  }

  /** A batch that stopped, or tried all its pairs, is not discarded. */
  lemma NotDiscarded(outcome: Pair -> Attempt, pairs: seq<Pair>, visited: seq<Pair>, rest: seq<Pair>)
    requires pairs == visited + rest && (StopsAfter(outcome, visited) || (rest == [] && Clean(outcome, visited)))
    ensures !Discards(outcome, pairs)
  {
    NoneFailed(outcome, visited);
    forall k | 0 <= k < |visited|
      ensures outcome(pairs[k]) != Failed
    {
      assert pairs[k] == visited[k];
    }
    forall k | |visited| <= k < |pairs| && k < BATCH_LIMIT
      ensures !Clean(outcome, pairs[..k])
    {
      assert pairs[..k][|visited| - 1] == visited[|visited| - 1];
    }
  }

  lemma NoneFailed(outcome: Pair -> Attempt, visited: seq<Pair>)
    requires Clean(outcome, visited) || StopsAfter(outcome, visited)
    ensures forall q :: q in visited ==> outcome(q) != Failed
  {
    forall k | 0 <= k < |visited|
      ensures outcome(visited[k]) != Failed
    {
      if k < |visited| - 1 && !Clean(outcome, visited) {
        assert visited[..|visited| - 1][k] == visited[k];
      }
    }
  }

  /** What trying one more pair makes of those tried. */
  lemma TriedOne(
      pubs: seq<Publication>, names: seq<nat>, sources: set<nat>, outcome: Pair -> Attempt, start: Cursor, i: nat,
      c: Cursor, visited: seq<Pair>, q: Pair)
    requires Reached(pubs, names, sources, start, i, c, visited + [q]) && Clean(outcome, visited)
             && |visited| < BATCH_LIMIT
    ensures outcome(q) == Failed ==> Discards(outcome, Pairs(pubs, names, sources, start.afterDestination))
    ensures outcome(q) != Failed && (|visited + [q]| == BATCH_LIMIT || outcome(q) == LimitReached) ==>
              StopsAfter(outcome, visited + [q])
    ensures outcome(q) != Failed && outcome(q) != LimitReached ==> Clean(outcome, visited + [q])
  {
    assert (visited + [q])[..|visited|] == visited;
    if outcome(q) == Failed {
      DiscardsBy(outcome, Pairs(pubs, names, sources, start.afterDestination), visited, q,
                 Pairs(pubs[i..], names, sources, c.afterDestination));
    }
  }

  /** Tries the destinations of one publication. */
  method PlanRow(
      pubs: seq<Publication>, names: seq<nat>, sources: set<nat>, outcome: Pair -> Attempt, ghost start: Cursor, i: nat,
      from: Cursor, done: seq<Pair>)
    returns (ok: bool, stop: bool, c: Cursor, visited: seq<Pair>)
    requires i < |pubs| && SortedNames(names) && Reached(pubs, names, sources, start, i, from, done)
             && |done| < BATCH_LIMIT
    requires Clean(outcome, done)
    ensures ok ==> Reached(pubs, names, sources, start, i, c, visited)
    ensures !ok ==> Discards(outcome, Pairs(pubs, names, sources, start.afterDestination))
    ensures ok && stop ==> StopsAfter(outcome, visited)
    ensures ok && !stop ==>
              Clean(outcome, visited) && |visited| < BATCH_LIMIT
                && Row(pubs[i], names, sources, c.afterDestination) == []
  {
    c, visited, ok, stop := from, done, true, false;
    assert names[0..] == names;
    for k := 0 to |names|
      invariant Reached(pubs, names, sources, start, i, c, visited) && |visited| < BATCH_LIMIT
                && Clean(outcome, visited)
      invariant Row(pubs[i], names, sources, c.afterDestination)
                == Row(pubs[i], names[k..], sources, c.afterDestination)
    {
      assert names[k..][0] == names[k] && names[k..][1..] == names[k + 1..];
      if Wanted(pubs[i], sources, c.afterDestination, names[k]) {
        var q := Pair(pubs[i].id, names[k]);
        var tried := outcome(q);
        ReachedStep(pubs, names, sources, start, i, c, visited, k);
        TriedOne(pubs, names, sources, outcome, start, i, c.(afterDestination := names[k]), visited, q);
        c, visited := c.(afterDestination := names[k]), visited + [q];
        if tried == Failed {
          return false, true, c, visited;
        }
        if |visited| == BATCH_LIMIT || tried == LimitReached {
          return true, true, c, visited;
        }
      }
    }
    assert names[|names|..] == [];
  }

  /** One batch: tries pairs from the cursor on, and moves the cursor past exactly those it tried. A failure that is
      not just put off discards the batch. */
  method PlanBatch(b: Batch, names: seq<nat>, sources: set<nat>, outcome: Pair -> Attempt, start: Cursor)
    returns (r: Option<(Cursor, seq<Pair>)>, ghost at: nat)
    requires SortedNames(names) && start.through != 0 && (b.more ==> b.pubs != [])
    ensures r.None? <==> Discards(outcome, Pairs(b.pubs, names, sources, start.afterDestination))
    ensures r.Some? ==> at <= |b.pubs| && |r.value.1| <= BATCH_LIMIT && forall q :: q in r.value.1 ==>
              outcome(q) != Failed
    ensures r.Some? && at == |b.pubs| && !b.more ==>
              r.value.0 == Cursor(0, 0, 0) && r.value.1 == Pairs(b.pubs, names, sources, start.afterDestination)
    ensures r.Some? && (at < |b.pubs| || b.more) ==>
              Reached(b.pubs, names, sources, start, at, r.value.0, r.value.1)
              && (at == 0 ==> start.afterDestination < r.value.0.afterDestination)
              && (at == |b.pubs| ==> r.value.0.afterDestination == 0)
  {
    var c, visited, i: nat := start, [], 0;
    at := 0;
    assert b.pubs[0..] == b.pubs;
    assert Pairs(b.pubs, names, sources, start.afterDestination)
           == [] + Pairs(b.pubs, names, sources, start.afterDestination);
    while i < |b.pubs|
      invariant Reached(b.pubs, names, sources, start, i, c, visited) && |visited| < BATCH_LIMIT
                && Clean(outcome, visited)
      invariant i == 0 ==> c == start && visited == []
      invariant i > 0 ==> c.afterDestination == 0
    {
      var ok, stop, c', visited' := PlanRow(b.pubs, names, sources, outcome, start, i, c, visited);
      if !ok {
        return None, i;
      }
      if stop {
        NotDiscarded(outcome, Pairs(b.pubs, names, sources, start.afterDestination), visited',
                     Pairs(b.pubs[i..], names, sources, c'.afterDestination));
        NoneFailed(outcome, visited');
        return Some((c', visited')), i;
      }
      ReachedNext(b.pubs, names, sources, start, i, c', visited');
      c, visited, i := c'.(afterPublication := b.pubs[i].id, afterDestination := 0), visited', i + 1;
    }
    at := i;
    NotDiscarded(outcome, Pairs(b.pubs, names, sources, start.afterDestination), visited,
                 Pairs(b.pubs[i..], names, sources, c.afterDestination));
    NoneFailed(outcome, visited);
    if !b.more {
      assert b.pubs[i..] == [] && visited + [] == visited;
      c := Cursor(0, 0, 0);
    }
    r := Some((c, visited));
  }

  // ----- a whole sweep -----

  function Later(pubs: seq<Publication>, after: nat): seq<Publication> {
    if pubs == [] then [] else (if pubs[0].id > after then [pubs[0]] else []) + Later(pubs[1..], after)
  }

  lemma {:induction false} LaterMember(pubs: seq<Publication>, after: nat)
    requires SortedIds(pubs)
    ensures SortedIds(Later(pubs, after)) && forall p :: p in Later(pubs, after) <==> p in pubs && p.id > after
    decreases |pubs|
  {
    if pubs != [] {
      LaterMember(pubs[1..], after);
      assert pubs == [pubs[0]] + pubs[1..];
      var rest := Later(pubs[1..], after);
      forall k | 0 <= k < |rest|
        ensures pubs[0].id < rest[k].id
      {
        assert rest[k] in pubs[1..];
      }
    }
  }

  lemma LaterAbove(pubs: seq<Publication>, after: nat, through: nat)
    requires SortedIds(pubs)
    ensures SortedIds(Later(pubs, after)) && (forall p :: p in Later(pubs, after) <==> p in pubs && p.id > after)
    ensures Above(Later(pubs, after), after, through) == Above(pubs, after, through)
  {
    LaterMember(pubs, after);
    AboveMember(pubs, after, through);
    AboveMember(Later(pubs, after), after, through);
    SortedUnique(Above(Later(pubs, after), after, through), Above(pubs, after, through));
  }

  lemma {:induction false} AboveMember(pubs: seq<Publication>, after: nat, through: nat)
    requires SortedIds(pubs)
    ensures SortedIds(Above(pubs, after, through)) && forall p :: p in Above(pubs, after, through) <==>
              p in pubs && after < p.id <= through
    decreases |pubs|
  {
    if pubs != [] {
      AboveMember(pubs[1..], after, through);
      assert pubs == [pubs[0]] + pubs[1..];
      var rest := Above(pubs[1..], after, through);
      forall k | 0 <= k < |rest|
        ensures pubs[0].id < rest[k].id
      {
        assert rest[k] in pubs[1..];
      }
    }
  }

  lemma {:induction false} SortedUnique(a: seq<Publication>, b: seq<Publication>)
    requires SortedIds(a) && SortedIds(b) && forall p :: p in a <==> p in b
    ensures a == b
    decreases |a|
  {
    assert (a != [] ==> a[0] in a) && (b != [] ==> b[0] in b);
    if a != [] && b != [] {
      assert a[0] == b[0] by {
        assert a[0] in b && b[0] in a;
      }
      forall p
        ensures p in a[1..] <==> p in b[1..]
      {
        assert p in a[1..] <==> p in a && p != a[0];
        assert p in b[1..] <==> p in b && p != b[0];
      }
      SortedUnique(a[1..], b[1..]);
      assert a == [a[0]] + a[1..] && b == [b[0]] + b[1..];
    }
  }

  lemma TailMember(a: seq<Publication>, at: nat, p: Publication)
    requires SortedIds(a) && 0 < at <= |a|
    ensures p in a[at..] <==> p in a && p.id > a[at - 1].id
  {
    if p in a && p.id > a[at - 1].id {
      var k :| 0 <= k < |a| && a[k] == p;
      assert p == a[at..][k - at];
    }
    if p in a[at..] {
      var k :| 0 <= k < |a[at..]| && a[at..][k] == p;
      assert a[at + k] == p;
    }
  }

  /** Moving the cursor to the `at`-th publication leaves those behind it. */
  lemma AboveFrom(all: seq<Publication>, after: nat, through: nat, at: nat)
    requires SortedIds(all) && 0 < at <= |Above(all, after, through)|
    ensures Above(all, Above(all, after, through)[at - 1].id, through) == Above(all, after, through)[at..]
  {
    var a := Above(all, after, through);
    var id := a[at - 1].id;
    AboveMember(all, after, through);
    AboveMember(all, id, through);
    assert a[at - 1] in a && id > after;
    forall p
      ensures p in a[at..] <==> p in Above(all, id, through)
    {
      TailMember(a, at, p);
    }
    SortedUnique(a[at..], Above(all, id, through));
  }

  lemma {:induction false} PairsConcat(
      a: seq<Publication>, b: seq<Publication>, names: seq<nat>, sources: set<nat>, after: nat)
    ensures a != [] || after == 0 ==>
              Pairs(a + b, names, sources, after) == Pairs(a, names, sources, after) + Pairs(b, names, sources, 0)
    decreases |a|
  {
    if a == [] {
      assert a + b == b;
    } else {
      PairsConcat(a[1..], b, names, sources, 0);
      assert (a + b)[1..] == a[1..] + b;
      Associate(Row(a[0], names, sources, after), Pairs(a[1..], names, sources, 0), Pairs(b, names, sources, 0));
    }
  }

  /** What a sweep still has to visit from a cursor. */
  function Remaining(all: seq<Publication>, names: seq<nat>, sources: set<nat>, c: Cursor): seq<Pair> {
    Pairs(Above(all, c.afterPublication, c.through), names, sources, c.afterDestination)
  }

  lemma BatchRemaining(
      all: seq<Publication>, names: seq<nat>, sources: set<nat>, pubs: seq<Publication>, start: Cursor, at: nat,
      c: Cursor, visited: seq<Pair>)
    requires SortedIds(all) && pubs <= Above(all, start.afterPublication, start.through) && pubs != []
    requires Reached(pubs, names, sources, start, at, c, visited) && (at == |pubs| ==> c.afterDestination == 0)
    ensures Remaining(all, names, sources, start) == visited + Remaining(all, names, sources, c)
  {
    var a := Above(all, start.afterPublication, start.through);
    var rest := Pairs(a[|pubs|..], names, sources, 0);
    SplitPairs(pubs, a, 0, names, sources, start.afterDestination);
    assert a[0..] == a && pubs[0..] == pubs;
    SplitPairs(pubs, a, at, names, sources, c.afterDestination);
    AboveAt(all, pubs, start, at, c);
    Associate(visited, Pairs(pubs[at..], names, sources, c.afterDestination), rest);
  }

  lemma SplitPairs(pubs: seq<Publication>, a: seq<Publication>, at: nat, names: seq<nat>, sources: set<nat>, after: nat)
    requires pubs <= a && at <= |pubs| && (at == |pubs| ==> after == 0)
    ensures Pairs(a[at..], names, sources, after)
            == Pairs(pubs[at..], names, sources, after) + Pairs(a[|pubs|..], names, sources, 0)
  {
    assert a[at..] == pubs[at..] + a[|pubs|..];
    PairsConcat(pubs[at..], a[|pubs|..], names, sources, after);
  }

  lemma AboveAt(all: seq<Publication>, pubs: seq<Publication>, start: Cursor, at: nat, c: Cursor)
    requires SortedIds(all) && pubs <= Above(all, start.afterPublication, start.through) && at <= |pubs|
    requires c.through == start.through
             && c.afterPublication == (if at == 0 then start.afterPublication else pubs[at - 1].id)
    ensures Above(all, c.afterPublication, c.through) == Above(all, start.afterPublication, start.through)[at..]
  {
    if at > 0 {
      AboveFrom(all, start.afterPublication, start.through, at);
    }
  }

  /** One saved batch. The cursor is untouched, or reset with nothing left, or moved forward past exactly the pairs
      visited. */
  method RunBatch(all: seq<Publication>, names: seq<nat>, sources: set<nat>, outcome: Pair -> Attempt, start: Cursor)
    returns (r: Option<(Cursor, seq<Pair>)>)
    requires SortedIds(all) && SortedNames(names) && start.through != 0
    ensures r.None? ==> Discards(outcome, Remaining(all, names, sources, start))
    ensures r.Some? ==> |r.value.1| <= BATCH_LIMIT && forall q :: q in r.value.1 ==> outcome(q) != Failed
    ensures r.Some? && r.value.0.through == 0 ==>
              r.value.0 == Cursor(0, 0, 0) && r.value.1 == Remaining(all, names, sources, start)
    ensures r.Some? && r.value.0.through != 0 ==>
              && r.value.0.through == start.through
              && Remaining(all, names, sources, start) == r.value.1 + Remaining(all, names, sources, r.value.0)
              && Advances(all, names, start, r.value.0)
  {
    LaterAbove(all, start.afterPublication, start.through);
    var later := Later(all, start.afterPublication);
    var listed := if |later| > BATCH_LIMIT + 1 then later[..BATCH_LIMIT + 1] else later;
    var b := FreezeBatch(listed, later, start.afterPublication, start.through);
    ghost var at;
    r, at := PlanBatch(b, names, sources, outcome, start);
    if r.None? {
      BatchDiscards(all, names, sources, outcome, b.pubs, start);
    }
    if r.Some? && (at < |b.pubs| || b.more) {
      BatchRemaining(all, names, sources, b.pubs, start, at, r.value.0, r.value.1);
      BatchAdvances(all, names, sources, b.pubs, start, at, r.value.0, r.value.1);
    }
  }

  /** What discards a batch is among what the sweep has still to visit. */
  lemma BatchDiscards(
      all: seq<Publication>, names: seq<nat>, sources: set<nat>, outcome: Pair -> Attempt, pubs: seq<Publication>,
      start: Cursor)
    requires pubs <= Above(all, start.afterPublication, start.through)
    requires Discards(outcome, Pairs(pubs, names, sources, start.afterDestination))
    ensures Discards(outcome, Remaining(all, names, sources, start))
  {
    var a := Above(all, start.afterPublication, start.through);
    var tail := a[|pubs|..];
    assert a == pubs + tail;
    PairsConcat(pubs, tail, names, sources, start.afterDestination);
    var pairs := Pairs(pubs, names, sources, start.afterDestination);
    var k :| 0 <= k < |pairs| && k < BATCH_LIMIT && outcome(pairs[k]) == Failed && Clean(outcome, pairs[..k]);
    var remaining := Remaining(all, names, sources, start);
    assert remaining == pairs + Pairs(tail, names, sources, 0);
    assert remaining[k] == pairs[k] && remaining[..k] == pairs[..k];
  }

  lemma BatchAdvances(
      all: seq<Publication>, names: seq<nat>, sources: set<nat>, pubs: seq<Publication>, start: Cursor, at: nat,
      c: Cursor, visited: seq<Pair>)
    requires SortedIds(all) && pubs <= Above(all, start.afterPublication, start.through) && at <= |pubs|
    requires Reached(pubs, names, sources, start, at, c, visited)
             && (at == 0 ==> start.afterDestination < c.afterDestination)
    ensures c.through == start.through && Advances(all, names, start, c)
  {
    if at > 0 {
      AboveMember(all, start.afterPublication, start.through);
      AboveFrom(all, start.afterPublication, start.through, at);
      assert pubs[at - 1] == Above(all, start.afterPublication, start.through)[at - 1];
      assert pubs[at - 1] in Above(all, start.afterPublication, start.through);
    }
  }

  /** The cursor grows: a later publication, or the same one and a later destination. */
  ghost predicate Advances(all: seq<Publication>, names: seq<nat>, c: Cursor, c': Cursor) {
    || (c.afterPublication < c'.afterPublication
        && |Above(all, c'.afterPublication, c.through)| < |Above(all, c.afterPublication, c.through)|)
    || (c.afterPublication == c'.afterPublication && c.afterDestination < c'.afterDestination
        && c'.afterDestination in names)
  }

  /** Batches repeated from the start of a sweep visit every pair exactly once, in order, before the cursor resets.
      They get there exactly when none of the pairs fails; otherwise they come to stand before a failing one. */
  method Sweep(all: seq<Publication>, names: seq<nat>, sources: set<nat>, outcome: Pair -> Attempt, through: nat)
    returns (visited: seq<Pair>, c: Cursor)
    requires SortedIds(all) && SortedNames(names) && through != 0
    ensures c.through == 0 ==> visited == Pairs(Above(all, 0, through), names, sources, 0)
    ensures c.through != 0 ==>
              Pairs(Above(all, 0, through), names, sources, 0) == visited + Remaining(all, names, sources, c)
    ensures c.through != 0 ==> Discards(outcome, Remaining(all, names, sources, c))
    ensures c.through == 0 <==> forall q :: q in Pairs(Above(all, 0, through), names, sources, 0) ==>
              outcome(q) != Failed
  {
    c, visited := Cursor(through, 0, 0), [];
    while c.through != 0
      invariant c.through == 0 || c.through == through
      invariant c.through == 0 ==> visited == Pairs(Above(all, 0, through), names, sources, 0)
      invariant c.through != 0 ==>
                  Pairs(Above(all, 0, through), names, sources, 0) == visited + Remaining(all, names, sources, c)
      invariant forall q :: q in visited ==> outcome(q) != Failed
      decreases c.through, |Above(all, c.afterPublication, through)|, set n | n in names && n > c.afterDestination
    {
      var r := RunBatch(all, names, sources, outcome, c);
      if r.None? {
        ghost var k :| 0 <= k < |Remaining(all, names, sources, c)|
          && outcome(Remaining(all, names, sources, c)[k]) == Failed;
        assert Remaining(all, names, sources, c)[k] in Remaining(all, names, sources, c);
        return;
      }
      Associate(visited, r.value.1, Remaining(all, names, sources, r.value.0));
      ghost var before := set n | n in names && n > c.afterDestination;
      ghost var last := c;
      visited, c := visited + r.value.1, r.value.0;
      if c.through != 0 && c.afterPublication == last.afterPublication {
        assert c.afterDestination in before;
      }
    }
  }
}
