/** Recording one event inside a repository write transaction. */
module HistoryRecorder {
  import opened Basics
  import opened HistoryEvents
  import opened MemoryChain
  import opened HistoryStore

  datatype Error = Validation | RefConflict | Conflict | Forbidden | Missing | Integrity | Failure

  datatype Outcome = Done | Refused(error: Error)

  /** What a document preparation left behind: its failure if it failed, the roots it was made for, the snapshots
      it verified and the versions of every row it looked at. */
  datatype Prepared = Prepared(
    failure: Option<Error>, wanted: set<Hash>, snapshots: seq<Snapshot>, versions: map<RowKey, nat>)

  datatype Preparation = Unprepared(verified: set<Snapshot>) | WithDocuments(prepared: Prepared)

  /** What else decides a write: the store's projection checks, a row lock held by another writer, and whether
      waking the followups fails. */
  datatype Conditions = Conditions(projected: bool, busy: bool, wakeFails: bool)

  // ----- checks that only read -----

  method CheckEvidence(
      log: seq<Event>, e: Event, receipt: bool)
    returns (error: Option<Error>, predecessor: Option<Event>)
    ensures error.None? <==> Evidenced(log, e, receipt)
    ensures predecessor == Predecessor(log, e)
    ensures !Continues(log, e) || !OriginKnown(log, e) ==> error == Some(Conflict)
  {
    predecessor := None;
    if e.selectionParent != 0 {
      predecessor := FindAccepted(log, e.selectionParent);
      if predecessor.None? || !IsInitialMemorySelection(predecessor.value, e) {
        return Some(Conflict), predecessor;
      }
    }
    var known := ValidateCreationOrigin(log, e);
    if !known {
      return Some(Conflict), predecessor;
    }
    if e.kind == PrMerge && !receipt {
      return Some(Forbidden), predecessor;
    }
    if e.kind == Publish {
      var proven := HasProof(log, e);
      if !proven {
        return Some(Conflict), predecessor;
      }
    }
    error := None;
  }

  function RootSet(roots: seq<Hash>): set<Hash> {
    set id | id in roots && id != NoHash
  }

  /** The preparation is still good: it succeeded, for these roots, and no row it saw was written since. */
  ghost predicate Ready(rows: Rows, p: Preparation, roots: seq<Hash>, busy: bool) {
    p.WithDocuments? ==>
      && p.prepared.failure.None? && RootSet(roots) == p.prepared.wanted
      && !busy && Pinned(rows, p.prepared.versions)
  }

  predicate Pinned(rows: Rows, versions: map<RowKey, nat>) {
    forall k :: k in versions ==> k in rows && rows[k].version == versions[k]
  }

  function Trusted(p: Preparation): set<Snapshot> {
    match p
    case Unprepared(verified) => verified
    case WithDocuments(prepared) => set s | s in prepared.snapshots
  }

  method Prepare(
      rows: Rows, p: Preparation, roots: seq<Hash>, busy: bool)
    returns (error: Option<Error>, verified: set<Snapshot>)
    ensures error.None? <==> Ready(rows, p, roots, busy)
    ensures error.None? ==> verified == Trusted(p)
  {
    verified := {};
    match p
    case Unprepared(given) =>
      return None, given;
    case WithDocuments(prepared) =>
      if prepared.failure.Some? {
        return prepared.failure, verified;
      }
      if RootSet(roots) != prepared.wanted || busy || !Pinned(rows, prepared.versions) {
        return Some(Conflict), verified;
      }
      for i := 0 to |prepared.snapshots|
        invariant verified == set s | s in prepared.snapshots[..i]
      {
        verified := verified + {prepared.snapshots[i]};
      }
      assert prepared.snapshots[..|prepared.snapshots|] == prepared.snapshots;
      error := None;
  }

  /** Verifies each root once, adding what it verified to the set. */
  method VerifyRoots(
      rows: Rows, roots: seq<Hash>, verified: set<Snapshot>)
    returns (error: Option<Error>, all: set<Snapshot>)
    ensures error.None? <==> DocumentsHold(rows, roots, verified)
    ensures verified <= all && forall s :: s in all ==> s in verified || Intact(rows, s)
  {
    all := verified;
    for i := 0 to |roots|
      invariant DocumentsHold(rows, roots[..i], verified)
      invariant verified <= all && forall s :: s in all ==> s in verified || Intact(rows, s)
    {
      var id := roots[i];
      assert id in roots && roots[..i + 1] == roots[..i] + [id];
      if id != NoHash {
        if !HasSnapshot(rows, id) {
          return Some(Missing), all;
        }
        var snapshot := SnapshotAt(rows, id);
        if snapshot !in all {
          if !Intact(rows, snapshot) {
            return Some(Integrity), all;
          }
          all := all + {snapshot};
        }
      }
    }
    assert roots[..|roots|] == roots;
    error := None;
  }

  method CheckMemory(memories: Memories, e: Event, predecessor: Option<Event>) returns (error: Option<Error>)
    requires e.selectionParent != 0 ==> predecessor.Some?
    ensures error.None? <==> MemoryHolds(memories, e, predecessor)
  {
    if e.memoryHash == NoHash {
      return None;
    }
    if e.memoryHash !in memories {
      return Some(Missing);
    }
    var memory := memories[e.memoryHash];
    if memory.snapshot != e.source && memory.snapshot != e.target && memory.snapshot != e.memorySource {
      return Some(Integrity);
    }
    if e.selectionParent != 0 {
      if memory.digest != e.memoryHash || memory.snapshot != e.target || memory.previous != NoHash {
        return Some(Integrity);
      }
      var walk := Walk(memories, predecessor.value.memorySource, predecessor.value.memoryHash);
      if walk != Verified {
        return if walk == NotFound then Some(Missing) else Some(Integrity);
      }
    }
    error := None;
  }

  // ----- the transaction -----

  /** What recording an event does to the repository, by either route. */
  ghost predicate Recorded(s: State, e: Event, receipt: bool, p: Preparation, c: Conditions, s': State, r: Outcome) {
    && (r.Done? <==> && WellFormed(e) && !c.wakeFails
                     && (Find(s.log, e.id) == Some(e)
                         || (Ready(s.rows, p, Roots(e, Predecessor(s.log, e)), c.busy)
                             && Accepts(s, e, receipt, Trusted(p), c.projected))))
    && (r.Done? && Find(s.log, e.id).Some? ==> s' == Woken(s, e))
    && (r.Done? && Find(s.log, e.id).None? ==> s' == Applied(s, e))
    && (r.Refused? ==> s' == s)
    && (WellFormed(e) && Find(s.log, e.id).Some? && Find(s.log, e.id) != Some(e) ==> r == Refused(RefConflict))
  }

  class Repository {
    var accepted: seq<Event>
    var branches: map<nat, Hash>
    var rows: Rows
    var clock: nat
    var memories: Memories
    var policy: Option<Policy>
    var scans: nat
    var wakes: nat

    function View(): State
      reads this
    {
      State(accepted, branches, rows, clock, memories, policy, scans, wakes)
    }

    /** Every check before the store is touched. */
    method Check(e: Event, receipt: bool, p: Preparation, busy: bool) returns (error: Option<Error>)
      ensures error.None? <==>
                Ready(rows, p, Roots(e, Predecessor(accepted, e)), busy) && Admits(View(), e, receipt, Trusted(p))
    {
      var predecessor;
      error, predecessor := CheckEvidence(accepted, e, receipt);
      if error.Some? {
        return;
      }
      if policy.None? {
        return Some(Missing);
      }
      var verified, all;
      error, verified := Prepare(rows, p, Roots(e, predecessor), busy);
      if error.Some? {
        return;
      }
      error, all := VerifyRoots(rows, Roots(e, predecessor), verified);
      if error.Some? {
        return;
      }
      error := CheckMemory(memories, e, predecessor);
      if error.Some? {
        return;
      }
      if !Unprotected(policy.value, e) {
        return Some(Forbidden);
      }
    }

    method ApplyHistoryEvent(e: Event, projected: bool) returns (r: Outcome)
      requires Find(accepted, e.id).None?
      modifies `accepted, `branches
      ensures r.Done? <==> projected && old(Movable(branches, e))
      ensures r.Refused? ==> accepted == old(accepted) && branches == old(branches)
      ensures r.Done? ==> accepted == old(accepted) + [e]
      ensures r.Done? ==> branches == if e.kind == Advance then old(branches)[e.branch := e.target] else old(branches)
    {
      if !projected || !Movable(branches, e) {
        return Refused(RefConflict);
      }
      if e.kind == Advance {
        branches := branches[e.branch := e.target];
      }
      accepted := accepted + [e];
      r := Done;
    }

    method Wake(e: Event, wakeFails: bool) returns (r: Outcome)
      modifies `scans, `wakes
      ensures r.Done? <==> !wakeFails
      ensures r.Done? ==> View() == old(Woken(View(), e))
    {
      if wakeFails {
        return Refused(Failure);
      }
      scans := scans + 1;
      if e.kind == Publish {
        wakes := wakes + 1;
      }
      r := Done;
    }

    /** The body of the write transaction. An error may leave writes behind for the transaction to undo. */
    method RecordPrepared(e: Event, receipt: bool, p: Preparation, c: Conditions) returns (r: Outcome)
      modifies `accepted, `branches, `scans, `wakes
      ensures Recorded(old(View()), e, receipt, p, c, if r.Done? then View() else old(View()), r)
    {
      if !WellFormed(e) {
        return Refused(Validation);
      }
      var prior := FindAccepted(accepted, e.id);
      if prior.Some? {
        if prior.value != e {
          return Refused(RefConflict);
        }
        r := Wake(e, c.wakeFails);
        return;
      }
      var error := Check(e, receipt, p, c.busy);
      if error.Some? {
        return Refused(error.value);
      }
      r := ApplyHistoryEvent(e, c.projected);
      if r.Refused? {
        return;
      }
      r := Wake(e, c.wakeFails);
    }

    /** One write transaction: what is refused leaves no trace. */
    method Record(e: Event, receipt: bool, p: Preparation, c: Conditions) returns (r: Outcome)
      modifies `accepted, `branches, `scans, `wakes
      ensures Recorded(old(View()), e, receipt, p, c, View(), r)
    {
      var accepted0, branches0, scans0, wakes0 := accepted, branches, scans, wakes;
      r := RecordPrepared(e, receipt, p, c);
      if r.Refused? {
        accepted, branches, scans, wakes := accepted0, branches0, scans0, wakes0;
      }
    }
  }
}
