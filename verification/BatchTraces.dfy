/** What a batch that was accepted looks like: whole blocks from run to outcome, properly nested. */
module BatchTraces {
  import opened BatchResults

  /** Feeds a whole trace and verifies. */
  method CheckTrace(batch: Batch, events: seq<Event>) returns (ok: bool)
    ensures ok <==> AllAllowed(batch, events) && Complete(batch, events)
  {
    var results := new Results(batch);
    for i := 0 to |events|
      invariant results.Valid() && results.batch == batch && results.trace == events[..i] && fresh(results)
      invariant AllAllowed(batch, events[..i])
    {
      var taken := results.Feed(events[i]);
      assert events[..i + 1] == events[..i] + [events[i]];
      if !taken {
        assert !Allowed(batch, events[..i], events[i]);
        return false;
      }
      AllowedMore(batch, events, i);
    }
    assert events[..|events|] == events;
    ok := results.Verify();
  }

  lemma AllowedMore(batch: Batch, events: seq<Event>, i: nat)
    requires i < |events| && AllAllowed(batch, events[..i]) && Allowed(batch, events[..i], events[i])
    ensures AllAllowed(batch, events[..i + 1])
  {
    var grown := events[..i + 1];
    forall k | 0 <= k < |grown|
      ensures Allowed(batch, grown[..k], grown[k])
    {
      assert grown[..k] == events[..k] && grown[k] == events[k];
      if k < i {
        assert events[..i][..k] == events[..k] && Allowed(batch, events[..i][..k], events[..i][k]);
      }
    }
  }

  // ----- blocks -----

  /** A block of a test: its run, its outcome, and neither of the two in between. */
  ghost predicate Block(trace: seq<Event>, n: Name, i: int, j: int) {
    && 0 <= i < j < |trace| && IsRun(trace[i], n) && IsEnd(trace[j], n)
    && forall k :: i < k < j ==> !IsRun(trace[k], n) && !IsEnd(trace[k], n)
  }

  /** The status of a test just before the event at `k`. */
  ghost function At(trace: seq<Event>, n: Name, k: nat): Status
    requires k <= |trace|
  {
    StatusOf(trace[..k], n)
  }

  lemma AtStep(trace: seq<Event>, n: Name, k: nat)
    requires k < |trace|
    ensures At(trace, n, k + 1) == After(At(trace, n, k), trace[k], n)
  {
    assert trace[..k + 1][..k] == trace[..k];
  }

  /** A test runs only when idle and ends only when running. */
  ghost predicate LawfulAt(trace: seq<Event>, n: Name, k: nat)
    requires k < |trace|
  {
    && (IsRun(trace[k], n) ==> At(trace, n, k) == Idle) && (IsEnd(trace[k], n) ==> At(trace, n, k) == Running)
    && (trace[k].name == n && (trace[k].action == Pause || trace[k].action == Cont) ==> At(trace, n, k) != Idle)
  }

  ghost predicate Lawful(trace: seq<Event>, n: Name) {
    forall k: nat :: k < |trace| ==> LawfulAt(trace, n, k)
  }

  lemma AllowedLawful(b: Batch, trace: seq<Event>, n: Name)
    requires AllAllowed(b, trace) && n != []
    ensures Lawful(trace, n)
  {
    forall k: nat | k < |trace|
      ensures LawfulAt(trace, n, k)
    {
      assert Allowed(b, trace[..k], trace[k]);
    }
  }

  /** From inside a block, its end is found; the test stays open until then. */
  lemma {:induction false} FindEnd(trace: seq<Event>, n: Name, i: nat) returns (j: nat)
    requires Lawful(trace, n) && i <= |trace| && At(trace, n, i) != Idle && At(trace, n, |trace|) == Idle
    ensures i <= j < |trace| && IsEnd(trace[j], n)
    ensures forall k :: i <= k < j ==> !IsRun(trace[k], n) && !IsEnd(trace[k], n)
    ensures forall k :: i <= k <= j ==> At(trace, n, k) != Idle
    decreases |trace| - i
  {
    AtStep(trace, n, i);
    assert LawfulAt(trace, n, i);
    if IsEnd(trace[i], n) {
      j := i;
    } else {
      j := FindEnd(trace, n, i + 1);
    }
  }

  /** From inside a block, its run is found. */
  lemma {:induction false} FindRun(trace: seq<Event>, n: Name, j: nat) returns (i: nat)
    requires Lawful(trace, n) && j <= |trace| && At(trace, n, j) != Idle
    ensures i < j && IsRun(trace[i], n)
    ensures forall k :: i < k < j ==> !IsRun(trace[k], n) && !IsEnd(trace[k], n)
    decreases j
  {
    assert trace[..0] == [];
    AtStep(trace, n, j - 1);
    assert LawfulAt(trace, n, j - 1);
    if IsRun(trace[j - 1], n) {
      i := j - 1;
    } else {
      i := FindRun(trace, n, j - 1);
    }
  }

  /** In an accepted trace every run opens exactly one block and every outcome closes exactly one. */
  lemma RunsAreBlocks(b: Batch, trace: seq<Event>, n: Name, i: nat) returns (j: nat)
    requires AllAllowed(b, trace) && Complete(b, trace) && n != [] && i < |trace| && IsRun(trace[i], n)
    ensures Block(trace, n, i, j) && forall other :: Block(trace, n, i, other) ==> other == j
  {
    AllowedLawful(b, trace, n);
    AtStep(trace, n, i);
    assert trace[..|trace|] == trace;
    j := FindEnd(trace, n, i + 1);
  }

  lemma EndsAreBlocks(b: Batch, trace: seq<Event>, n: Name, j: nat) returns (i: nat)
    requires AllAllowed(b, trace) && n != [] && j < |trace| && IsEnd(trace[j], n)
    ensures Block(trace, n, i, j) && forall other :: Block(trace, n, other, j) ==> other == i
  {
    AllowedLawful(b, trace, n);
    assert LawfulAt(trace, n, j);
    i := FindRun(trace, n, j);
  }

  /** A subtest runs only while its top-level test is open, and that one ends only when the subtest is idle. */
  ghost predicate NestedAt(trace: seq<Event>, n: Name, top: Name, k: nat)
    requires k < |trace|
  {
    (IsRun(trace[k], n) ==> At(trace, top, k) != Idle) && (IsEnd(trace[k], top) ==> At(trace, n, k) == Idle)
  }

  ghost predicate Nested(trace: seq<Event>, n: Name, top: Name) {
    forall k: nat :: k < |trace| ==> NestedAt(trace, n, top, k)
  }

  lemma AllowedNested(b: Batch, trace: seq<Event>, n: Name)
    requires AllAllowed(b, trace) && |n| > 1
    ensures Nested(trace, n, [n[0]])
  {
    forall k: nat | k < |trace|
      ensures NestedAt(trace, n, [n[0]], k)
    {
      assert Allowed(b, trace[..k], trace[k]) && Inside(n, [n[0]]);
    }
  }

  /** Every block of a subtest lies inside one block of its top-level test. */
  lemma SubtestsNest(b: Batch, trace: seq<Event>, n: Name, i: nat, j: nat) returns (p: nat, q: nat)
    requires AllAllowed(b, trace) && Complete(b, trace) && |n| > 1 && Block(trace, n, i, j)
    ensures Block(trace, [n[0]], p, q) && p < i < j < q
  {
    AllowedLawful(b, trace, n);
    AllowedLawful(b, trace, [n[0]]);
    AllowedNested(b, trace, n);
    assert trace[..|trace|] == trace;
    p, q := NestedBlocks(trace, n, [n[0]], i, j);
  }

  lemma NestedBlocks(trace: seq<Event>, n: Name, top: Name, i: nat, j: nat) returns (p: nat, q: nat)
    requires Lawful(trace, n) && Lawful(trace, top) && Nested(trace, n, top) && n != top && Block(trace, n, i, j)
    requires At(trace, n, |trace|) == Idle && At(trace, top, |trace|) == Idle
    ensures Block(trace, top, p, q) && p < i < j < q
  {
    assert NestedAt(trace, n, top, i);
    p, q := Enclosing(trace, top, i);
    AtStep(trace, n, i);
    var end := FindEnd(trace, n, i + 1);
    NoLater(trace, n, i, j, end);
    assert NestedAt(trace, n, top, q);
  }

  lemma NoLater(trace: seq<Event>, n: Name, i: nat, j: nat, end: nat)
    requires Block(trace, n, i, j) && i < end < |trace| && IsEnd(trace[end], n) && forall k :: i < k < end ==>
               !IsEnd(trace[k], n)
    ensures end == j
  {
  }

  /** The block around an event that falls while a test is open. */
  lemma Enclosing(trace: seq<Event>, n: Name, i: nat) returns (p: nat, q: nat)
    requires Lawful(trace, n) && i < |trace| && At(trace, n, i) != Idle && At(trace, n, |trace|) == Idle
             && trace[i].name != n
    ensures Block(trace, n, p, q) && p < i < q
  {
    p := FindRun(trace, n, i);
    q := FindEnd(trace, n, i);
  }

  /** Blocks are counted by their outcomes, and by their runs. */
  lemma {:induction false} RunsMatchEnds(b: Batch, trace: seq<Event>, n: Name, k: nat)
    requires AllAllowed(b, trace) && n != [] && k <= |trace|
    ensures Runs(trace[..k], n) == Ends(trace[..k], n) + if StatusOf(trace[..k], n) == Idle then 0 else 1
    decreases k
  {
    if k > 0 {
      RunsMatchEnds(b, trace, n, k - 1);
      assert trace[..k][..k - 1] == trace[..k - 1] && Allowed(b, trace[..k - 1], trace[k - 1]);
    }
  }

  lemma {:induction false} EndsCounted(trace: seq<Event>, n: Name) returns (at: seq<nat>)
    ensures |at| == Ends(trace, n) && (forall x, y :: 0 <= x < y < |at| ==> at[x] < at[y])
    ensures forall k: nat :: k in at <==> k < |trace| && IsEnd(trace[k], n)
    decreases |trace|
  {
    if trace == [] {
      at := [];
    } else {
      var front := trace[..|trace| - 1];
      at := EndsCounted(front, n);
      assert forall k: nat :: k in at ==> k < |front| && front[k] == trace[k];
      assert forall x :: 0 <= x < |at| ==> at[x] in at;
      if IsEnd(trace[|trace| - 1], n) {
        at := at + [|trace| - 1];
      }
    }
  }

  /** The package's start and pass bracket an accepted trace. */
  lemma Bracketed(b: Batch, trace: seq<Event>)
    requires AllAllowed(b, trace) && Complete(b, trace)
    ensures |trace| >= 2 && trace[0].action == Start && trace[0].name == []
    ensures forall k :: 0 < k < |trace| ==> trace[k].action != Start
    ensures trace[|trace| - 1].action == Pass && trace[|trace| - 1].name == []
    ensures forall k :: 0 <= k < |trace| - 1 ==> !IsEnd(trace[k], [])
  {
    assert Allowed(b, trace[..0], trace[0]);
    forall k | 0 < k < |trace|
      ensures trace[k].action != Start
    {
      assert Allowed(b, trace[..k], trace[k]) && trace[..k][0].action == Start;
    }
    var last :| 0 <= last < |trace| && trace[last].name == [] && trace[last].action == Pass;
    if last < |trace| - 1 {
      assert Allowed(b, trace[..|trace| - 1], trace[|trace| - 1]) && IsEnd(trace[..|trace| - 1][last], []);
    }
    forall k | 0 <= k < |trace| - 1
      ensures !IsEnd(trace[k], [])
    {
      assert Allowed(b, trace[..|trace| - 1], trace[|trace| - 1]) && trace[..|trace| - 1][k] == trace[k];
    }
  }

  /** Together: an accepted trace runs every selected test exactly `count` times from run to outcome, never lets a
      test or subtest fail, and skips only the top-level tests it may. */
  lemma AcceptedTrace(b: Batch, trace: seq<Event>, t: nat) returns (ends: seq<nat>)
    requires AllAllowed(b, trace) && Complete(b, trace) && t in b.names
    ensures |ends| == b.count == Runs(trace, [t])
    ensures forall k: nat :: k in ends <==> exists i :: Block(trace, [t], i, k)
    ensures forall x, y :: 0 <= x < y < |ends| ==> ends[x] < ends[y]
    ensures forall k :: k in ends ==>
              k < |trace| && (trace[k].action == Pass || (trace[k].action == Skip && t in b.allowSkip))
    ensures forall k :: 0 <= k < |trace| && trace[k].name != [] ==> trace[k].action != Fail
  {
    ends := EndsCounted(trace, [t]);
    assert trace[..|trace|] == trace;
    RunsMatchEnds(b, trace, [t], |trace|);
    forall k: nat | k in ends
      ensures exists i :: Block(trace, [t], i, k)
    {
      var i := EndsAreBlocks(b, trace, [t], k);
    }
  }
}
