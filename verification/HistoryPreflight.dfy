/** Recording an event after verifying its documents outside the write transaction, while other writers go on. */
module HistoryPreflight {
  import opened Basics
  import opened HistoryEvents
  import opened HistoryStore
  import opened HistoryRecorder

  datatype Observation = Observation(replay: bool, roots: seq<Hash>) | Rejected(error: Error)

  // ----- the first transaction: what is accepted already -----

  /** The roots the observation collects: every accepted event with the parent's id contributes. */
  ghost function ObservedRoots(log: seq<Event>, e: Event): seq<Hash> {
    if log == [] then Roots(e, None)
    else
      var prior := log[|log| - 1];
      ObservedRoots(log[..|log| - 1], e)
      + if prior.id == e.selectionParent && prior.memoryHash != NoHash
        then [prior.source, prior.target, prior.sharedTarget, prior.memorySource] else []
  }

  method Observe(log: seq<Event>, e: Event) returns (r: Observation)
    ensures !WellFormed(e) ==> r == Rejected(Validation)
    ensures r.Observation? ==> r.roots == ObservedRoots(log, e) && (r.replay <==> e in log)
    ensures WellFormed(e) ==> (r.Observation? <==> forall prior :: prior in log && prior.id == e.id ==> prior == e)
    ensures WellFormed(e) && r.Rejected? ==> r.error == RefConflict
  {
    if !WellFormed(e) {
      return Rejected(Validation);
    }
    var replay, roots := false, Roots(e, None);
    for i := 0 to |log|
      invariant roots == ObservedRoots(log[..i], e) && (replay <==> e in log[..i])
      invariant forall prior :: prior in log[..i] && prior.id == e.id ==> prior == e
    {
      var prior := log[i];
      assert log[..i + 1] == log[..i] + [prior] && log[..i + 1][..i] == log[..i];
      assert prior in log;
      if prior.id == e.id {
        if prior != e {
          return Rejected(RefConflict);
        }
        replay := true;
      }
      if prior.id == e.selectionParent && prior.memoryHash != NoHash {
        roots := roots + [prior.source, prior.target, prior.sharedTarget, prior.memorySource];
      }
    }
    assert log[..|log|] == log;
    r := Observation(replay, roots);
  }

  /** What the newest event adds to the predecessor's roots. */
  lemma RootsStep(front: seq<Event>, last: Event, e: Event)
    requires UniqueIds(front + [last]) && last.id != 0
    ensures Roots(e, Predecessor(front + [last], e)) ==
            Roots(e, Predecessor(front, e))
            + if last.id == e.selectionParent && last.memoryHash != NoHash
              then [last.source, last.target, last.sharedTarget, last.memorySource] else []
  {
    FindGrown(front, [last], e.selectionParent);
    assert Find([last], e.selectionParent) == if last.id == e.selectionParent then Some(last) else None;
    if Find(front, e.selectionParent).Some? {
      IdInFront(front, last, Find(front, e.selectionParent).value);
    }
    assert Roots(e, None) + [] == Roots(e, None);
  }

  lemma IdInFront(front: seq<Event>, last: Event, prior: Event)
    requires UniqueIds(front + [last]) && prior in front
    ensures prior.id != last.id
  {
    var log := front + [last];
    var i :| 0 <= i < |front| && front[i] == prior;
    assert log[i].id != log[|front|].id;
  }

  /** In a log with unique ids the observed roots are the ones the write will compute. */
  lemma {:induction false} ObservedRootsExact(log: seq<Event>, e: Event)
    requires UniqueIds(log) && forall k :: 0 <= k < |log| ==> log[k].id != 0
    ensures ObservedRoots(log, e) == Roots(e, Predecessor(log, e))
    decreases |log|
  {
    if log != [] {
      var front, last := log[..|log| - 1], log[|log| - 1];
      assert log == front + [last];
      ObservedRootsExact(front, e);
      RootsStep(front, last, e);
    }
  }

  /** And they stay exact while the log grows, once the parent is in it. */
  lemma ObservedRootsLast(log: seq<Event>, more: seq<Event>, e: Event)
    requires Causal(log) && (e.selectionParent == 0 || Find(log, e.selectionParent).Some?)
    ensures ObservedRoots(log, e) == Roots(e, Predecessor(log + more, e))
  {
    forall k | 0 <= k < |log|
      ensures log[k].id != 0
    {
      assert WellFormed(log[k]);
    }
    ObservedRootsExact(log, e);
    FindGrown(log, more, e.selectionParent);
  }

  // ----- the second transaction: the documents -----

  /** Versions of all rows behind the snapshots, as the reading transaction saw them. */
  ghost predicate Captures(base: Rows, snapshots: seq<Snapshot>, versions: map<RowKey, nat>) {
    && (forall s :: s in snapshots ==>
          HasSnapshot(base, s.id) && SnapshotAt(base, s.id) == s && Intact(base, s)
            && Closure(base, s) <= versions.Keys)
    && (forall k :: k in versions ==> k in base && base[k].version == versions[k])
  }

  /** What a preparation promises about the rows it was made on. */
  ghost predicate PreparedOn(base: Rows, roots: seq<Hash>, p: Prepared) {
    && p.wanted == RootSet(roots)
    && (p.failure.None? ==>
          && Captures(base, p.snapshots, p.versions)
          && forall id :: id in p.wanted ==> HasSnapshot(base, id) && SnapshotAt(base, id) in p.snapshots)
  }

  lemma ClosureStored(rows: Rows, snapshot: Snapshot)
    requires HasSnapshot(rows, snapshot.id) && SnapshotAt(rows, snapshot.id) == snapshot && Intact(rows, snapshot)
    ensures forall k :: k in Closure(rows, snapshot) ==> k in rows
  {
    forall c | c in rows[BlobKey(snapshot.document)].row.chunks
      ensures ChunkIntact(rows, c)
    {
    }
  }

  method PrepareDocuments(rows: Rows, roots: seq<Hash>, captureFails: bool) returns (p: Prepared)
    ensures PreparedOn(rows, roots, p)
    ensures p.failure.None? <==> DocumentsHold(rows, roots, {}) && !captureFails
  {
    var wanted, all := RootSet(roots), RootSet(roots);
    var snapshots: seq<Snapshot>, versions: map<RowKey, nat> := [], map[];
    for i := 0 to |roots|
      invariant wanted == all - RootSet(roots[..i])
      invariant Captures(rows, snapshots, versions)
      invariant forall id :: id in RootSet(roots[..i]) ==> HasSnapshot(rows, id) && SnapshotAt(rows, id) in snapshots
    {
      var id := roots[i];
      assert roots[..i + 1] == roots[..i] + [id] && id in roots;
      if id != NoHash && id in wanted {
        wanted := wanted - {id};
        if !HasSnapshot(rows, id) {
          return Prepared(Some(Missing), all, [], map[]);
        }
        var snapshot := SnapshotAt(rows, id);
        if !Intact(rows, snapshot) {
          return Prepared(Some(Integrity), all, [], map[]);
        }
        ClosureStored(rows, snapshot);
        snapshots := snapshots + [snapshot];
        versions := versions + map k | k in Closure(rows, snapshot) :: rows[k].version;
      }
    }
    assert roots[..|roots|] == roots;
    p := Prepared(if captureFails then Some(Failure) else None, all, snapshots, versions);
  }

  // ----- the third transaction, after other writers -----

  /** A row that kept its version kept its content. */
  ghost predicate Stable(base: Rows, rows: Rows) {
    forall k :: k in base && k in rows && base[k].version == rows[k].version ==> base[k].row == rows[k].row
  }

  lemma PinnedIntact(base: Rows, rows: Rows, p: Prepared, s: Snapshot)
    requires Captures(base, p.snapshots, p.versions) && Stable(base, rows) && Pinned(rows, p.versions)
             && s in p.snapshots
    ensures HasSnapshot(rows, s.id) && SnapshotAt(rows, s.id) == s && Intact(rows, s)
  {
    forall k | k in Closure(base, s)
      ensures k in rows && rows[k].row == base[k].row
    {
      assert k in p.versions;
    }
    ClosureDecides(base, rows, s);
  }

  /** Documents trusted because of the preparation verify in the writing transaction too. */
  lemma TrustedHold(base: Rows, rows: Rows, p: Prepared, roots: seq<Hash>)
    requires Captures(base, p.snapshots, p.versions) && Stable(base, rows) && Pinned(rows, p.versions)
    ensures DocumentsHold(rows, roots, Trusted(WithDocuments(p))) <==> DocumentsHold(rows, roots, {})
  {
    forall id | id in roots && id != NoHash && HasSnapshot(rows, id)
      && SnapshotAt(rows, id) in Trusted(WithDocuments(p))
      ensures Intact(rows, SnapshotAt(rows, id))
    {
      PinnedIntact(base, rows, p, SnapshotAt(rows, id));
    }
  }

  /** What the prepared write does, the direct write would have done at the same moment; what it refuses it leaves
      alone. */
  lemma PreflightRefinesDirect(
      base: Rows, roots: seq<Hash>, p: Prepared, s: State, e: Event, c: Conditions, s': State, r: Outcome)
    requires PreparedOn(base, roots, p) && Stable(base, s.rows)
    requires Recorded(s, e, false, WithDocuments(p), c, s', r)
    ensures r.Done? ==> Recorded(s, e, false, Unprepared({}), c, s', r)
    ensures r.Refused? ==> s' == s
  {
    if r.Done? && Find(s.log, e.id).None? {
      TrustedHold(base, s.rows, p, Roots(e, Predecessor(s.log, e)));
      assert Admits(s, e, false, {});
    }
  }

  /** And it is as generous: if the direct write would succeed, and the preparation read verified documents whose
      rows nobody has written since, for the roots the write computes, the prepared write succeeds too. */
  lemma PreflightMatchesDirect(
      base: Rows, roots: seq<Hash>, p: Prepared, s: State, e: Event, c: Conditions, s': State, r: Outcome)
    requires PreparedOn(base, roots, p) && Stable(base, s.rows) && p.failure.None?
    requires Pinned(s.rows, p.versions) && !c.busy && RootSet(roots) == RootSet(Roots(e, Predecessor(s.log, e)))
    requires Recorded(s, e, false, WithDocuments(p), c, s', r)
    ensures Recorded(s, e, false, Unprepared({}), c, s', r)
  {
    TrustedHold(base, s.rows, p, Roots(e, Predecessor(s.log, e)));
    assert Admits(s, e, false, {}) <==> Admits(s, e, false, Trusted(WithDocuments(p)));
  }

  /** An event accepted meanwhile in identical form is acknowledged, whatever became of the preparation. */
  lemma ConcurrentAcceptanceWins(
      p: Preparation, s: State, e: Event, receipt: bool, c: Conditions, s': State, r: Outcome)
    requires Causal(s.log) && e in s.log && !c.wakeFails
    requires Recorded(s, e, receipt, p, c, s', r)
    ensures r.Done? && s' == Woken(s, e)
  {
    FindUnique(s.log, e);
    var k :| 0 <= k < |s.log| && s.log[k] == e;
    assert WellFormed(s.log[k]);
  }

  // ----- every interleaving -----

  /** One preflight in flight. `base` is what its reading transaction saw. */
  datatype Attempt = Observed(
    event: Event, replay: bool, roots: seq<Hash>) | Read(event: Event, roots: seq<Hash>, prepared: Prepared, base: Rows)

  datatype System = System(state: State, attempts: map<nat, Attempt>)

  datatype Action =
    | DirectWrite(event: Event, receipt: bool, conditions: Conditions, outcome: Outcome)
    | ObserveLog(worker: nat, event: Event)
    | ReadDocuments(worker: nat)
    | PreflightWrite(worker: nat, conditions: Conditions, outcome: Outcome)
    | OtherWriter

  /** Other writers may change anything but the log, and give every row they write a version never used before. */
  ghost predicate Rewritten(s: State, s': State) {
    && s'.log == s.log && s.clock <= s'.clock
    && forall k :: k in s'.rows ==> (k in s.rows && s'.rows[k] == s.rows[k]) || s.clock <= s'.rows[k].version < s'.clock
  }

  ghost predicate Next(a: System, action: Action, b: System) {
    match action
    case DirectWrite(e, receipt, c, r) =>
      b.attempts == a.attempts && Recorded(a.state, e, receipt, Unprepared({}), c, b.state, r)
    case ObserveLog(w, e) =>
      && b.state == a.state && WellFormed(e)
      && (forall prior :: prior in a.state.log && prior.id == e.id ==> prior == e)
      && b.attempts == a.attempts[w := Observed(e, e in a.state.log, ObservedRoots(a.state.log, e))]
    case ReadDocuments(w) =>
      && w in a.attempts && a.attempts[w].Observed? && !a.attempts[w].replay && b.state == a.state
      && w in b.attempts && b.attempts[w].Read? && b.attempts == a.attempts[w := b.attempts[w]]
      && b.attempts[w].event == a.attempts[w].event && b.attempts[w].roots == a.attempts[w].roots
      && b.attempts[w].base == a.state.rows
      && PreparedOn(a.state.rows, a.attempts[w].roots, b.attempts[w].prepared)
    case PreflightWrite(w, c, r) =>
      && w in a.attempts && b.attempts == a.attempts - {w}
      && (a.attempts[w].Observed? ==> a.attempts[w].replay)
      && Recorded(a.state, a.attempts[w].event, false,
                  if a.attempts[w].Observed? then Unprepared({})
                    else WithDocuments(a.attempts[w].prepared), c, b.state, r)
    case OtherWriter =>
      b.attempts == a.attempts && Rewritten(a.state, b.state)
  }

  ghost predicate VersionsBelow(rows: Rows, clock: nat) {
    forall k :: k in rows ==> rows[k].version < clock
  }

  ghost predicate AttemptHolds(s: State, t: Attempt) {
    t.Read? ==> PreparedOn(t.base, t.roots, t.prepared) && Stable(t.base, s.rows) && VersionsBelow(t.base, s.clock)
  }

  ghost predicate Invariant(y: System) {
    && Causal(y.state.log) && VersionsBelow(y.state.rows, y.state.clock)
    && forall w :: w in y.attempts ==> AttemptHolds(y.state, y.attempts[w])
  }

  /** An empty log over any rows, before any preflight. */
  lemma InitialInvariant(state: State)
    requires state.log == [] && VersionsBelow(state.rows, state.clock)
    ensures Invariant(System(state, map[]))
  {
  }

  /** By either route the log keeps its evidence and grows by at most the event itself, and no row is written. */
  lemma RecordedCausal(s: State, e: Event, receipt: bool, p: Preparation, c: Conditions, s': State, r: Outcome)
    requires Causal(s.log) && Recorded(s, e, receipt, p, c, s', r)
    ensures Causal(s'.log) && s'.rows == s.rows && s'.clock == s.clock
    ensures s'.log == s.log || (s'.log == s.log + [e] && Find(s.log, e.id).None?)
  {
    if r.Done? && Find(s.log, e.id).None? {
      CausalAppend(s.log, e);
    }
  }

  lemma RewrittenStable(s: State, s': State, t: Attempt)
    requires Rewritten(s, s') && AttemptHolds(s, t)
    ensures AttemptHolds(s', t)
  {
  }

  lemma InvariantStep(a: System, action: Action, b: System)
    requires Invariant(a) && Next(a, action, b)
    ensures Invariant(b) && a.state.log <= b.state.log
  {
    match action
    case DirectWrite(e, receipt, c, r) =>
      RecordedCausal(a.state, e, receipt, Unprepared({}), c, b.state, r);
    case ObserveLog(w, e) =>
    case ReadDocuments(w) =>
    case PreflightWrite(w, c, r) =>
      RecordedCausal(a.state, a.attempts[w].event, false,
                     if a.attempts[w].Observed? then Unprepared({})
                       else WithDocuments(a.attempts[w].prepared), c, b.state, r);
    case OtherWriter =>
      forall w | w in b.attempts
        ensures AttemptHolds(b.state, b.attempts[w])
      {
        RewrittenStable(a.state, b.state, a.attempts[w]);
      }
  }

  /** A run: each system follows from the one before by the action between them. */
  ghost predicate Run(systems: seq<System>, actions: seq<Action>) {
    |systems| == |actions| + 1 && forall i :: 0 <= i < |actions| ==> StepAt(systems, actions, i)
  }

  ghost predicate StepAt(systems: seq<System>, actions: seq<Action>, i: int) {
    0 <= i < |actions| && i + 1 < |systems| && Next(systems[i], actions[i], systems[i + 1])
  }

  lemma {:induction false} InvariantRun(systems: seq<System>, actions: seq<Action>, i: nat, j: nat)
    requires Run(systems, actions) && Invariant(systems[0]) && i <= j < |systems|
    ensures Invariant(systems[j]) && systems[i].state.log <= systems[j].state.log
    decreases j
  {
    if j > 0 {
      InvariantRun(systems, actions, if i < j then i else i - 1, j - 1);
      assert StepAt(systems, actions, j - 1);
      InvariantStep(systems[j - 1], actions[j - 1], systems[j]);
    }
  }

  /** In every run, each successful preflight write is a direct write at the moment it happens, and each refused one
      changes nothing. */
  lemma PreflightRunRefines(systems: seq<System>, actions: seq<Action>, i: nat)
    requires Run(systems, actions) && Invariant(systems[0]) && i < |actions| && actions[i].PreflightWrite?
    ensures actions[i].worker in systems[i].attempts
    ensures var e, c, r := systems[i].attempts[actions[i].worker].event, actions[i].conditions, actions[i].outcome;
            if r.Done? then Recorded(systems[i].state, e, false, Unprepared({}), c, systems[i + 1].state, r)
            else systems[i + 1].state == systems[i].state
  {
    InvariantRun(systems, actions, i, i);
    assert StepAt(systems, actions, i);
    var t := systems[i].attempts[actions[i].worker];
    assert AttemptHolds(systems[i].state, t);
    if t.Read? {
      PreflightRefinesDirect(t.base, t.roots, t.prepared, systems[i].state, t.event, actions[i].conditions,
                             systems[i + 1].state, actions[i].outcome);
    }
  }

  /** The event an action tries to record. */
  ghost function Attempted(y: System, action: Action): Option<Event> {
    match action
    case DirectWrite(e, _, _, _) => Some(e)
    case PreflightWrite(w, _, _) => if w in y.attempts then Some(y.attempts[w].event) else None
    case _ => None
  }

  /** Once accepted, an event is never applied again: any later attempt with its id leaves the log and every branch
      where they are, succeeding only if it is the same event. */
  lemma ReplayNeverReapplies(systems: seq<System>, actions: seq<Action>, i: nat, j: nat, e: Event)
    requires Run(systems, actions) && Invariant(systems[0]) && i <= j < |actions| && e in systems[i].state.log
    requires Attempted(systems[j], actions[j]).Some? && Attempted(systems[j], actions[j]).value.id == e.id
    ensures systems[j + 1].state.log == systems[j].state.log
            && systems[j + 1].state.branches == systems[j].state.branches
    ensures Attempted(systems[j], actions[j]) != Some(e) ==>
              actions[j].outcome.Refused? && systems[j + 1].state == systems[j].state
  {
    InvariantRun(systems, actions, i, j);
    assert StepAt(systems, actions, j);
    assert e in systems[j].state.log;
    FindUnique(systems[j].state.log, e);
  }
}
