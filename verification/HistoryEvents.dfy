/** The events of a repository's context history and what each needs from the events accepted before it. */
module HistoryEvents {
  import opened Basics
  import opened CommitGraph

  /** A content hash: absent, well formed, or present but malformed. */
  datatype Hash = NoHash | Hash(value: nat) | Malformed(value: nat)

  datatype Kind = Birth | Orphan | Attach | Position | Advance | Rename | Archive | Publish | PrMerge

  datatype BranchId = NoBranchId | BranchId(value: nat) | LegacyBranchId(repo: nat, name: nat)

  datatype Creation = Creation(originBranchId: BranchId, originBranch: nat)

  /** Names and ids are numbers with 0 for the empty string. `wellFormed` says whether the event passes the
      format rules of its kind; `rest` stands for the remaining content, which only equality looks at. */
  datatype Event = Event(
    id: nat, repo: nat, kind: Kind, branchId: BranchId, branch: nat, previousBranch: nat, localBranch: nat,
    worktree: nat,
    gitAfter: Commit, source: Hash, target: Hash, sharedTarget: Hash, memoryPinned: bool, memoryHash: Hash,
    memorySource: Hash,
    selectionParent: nat, creation: Option<Creation>, wellFormed: bool, rest: nat)

  predicate WellFormed(e: Event) {
    e.wellFormed && e.id != 0
  }

  // ----- lookups in the log -----

  /** The first accepted event with this id. */
  function Find(log: seq<Event>, id: nat): (r: Option<Event>)
    ensures r.Some? <==> exists prior :: prior in log && prior.id == id
    ensures r.Some? ==> r.value in log && r.value.id == id
  {
    if log == [] then None
    else
      assert log == [log[0]] + log[1..];
      if log[0].id == id then Some(log[0]) else Find(log[1..], id)
  }

  ghost predicate UniqueIds(log: seq<Event>) {
    forall i, j :: 0 <= i < j < |log| ==> log[i].id != log[j].id
  }

  lemma FindUnique(log: seq<Event>, e: Event)
    requires UniqueIds(log) && e in log
    ensures Find(log, e.id) == Some(e)
  {
    var i :| 0 <= i < |log| && log[i] == e;
    var found := Find(log, e.id).value;
    var j :| 0 <= j < |log| && log[j] == found;
  }

  /** What is found stays found as the log grows. */
  lemma {:induction false} FindGrown(log: seq<Event>, more: seq<Event>, id: nat)
    ensures Find(log, id).Some? ==> Find(log + more, id) == Find(log, id)
    ensures Find(log, id).None? ==> Find(log + more, id) == Find(more, id)
    decreases |log|
  {
    if log == [] {
      assert log + more == more;
    } else {
      assert (log + more)[1..] == log[1..] + more;
      FindGrown(log[1..], more, id);
    }
  }

  method FindAccepted(log: seq<Event>, id: nat) returns (r: Option<Event>)
    ensures r == Find(log, id)
  {
    r := None;
    for i := 0 to |log|
      invariant Find(log, id) == Find(log[i..], id)
    {
      assert log[i..][0] == log[i] && log[i..][1..] == log[i + 1..];
      if log[i].id == id {
        return Some(log[i]);
      }
    }
  }

  // ----- evidence an event needs -----

  /** `after` selects the first memory of its own right after the empty or inherited pin `before`. */
  predicate IsInitialMemorySelection(before: Event, after: Event) {
    && before.kind == Position && after.kind == Position
    && after.selectionParent == before.id != 0 && before.id != after.id
    && before.repo == after.repo && before.branchId == after.branchId
    && before.branch == after.branch && before.localBranch == after.localBranch
    && before.worktree != 0 && before.worktree == after.worktree
    && ValidOID(before.gitAfter) && before.gitAfter == after.gitAfter
    && before.target != NoHash && after.source == before.target && after.target == before.target
    && before.memoryPinned && after.memoryPinned && after.memoryHash != NoHash
    && (after.memorySource == NoHash || after.memorySource == after.target)
    && if before.memoryHash == NoHash then before.source == before.target && before.memorySource == NoHash
       else before.memorySource != NoHash && before.memorySource != before.target
  }

  /** `observation` is the ordinary event the publication `p` finalizes. */
  predicate IsPublicationProof(p: Event, observation: Event) {
    && p.kind == Publish && observation.kind != Publish && observation.kind != PrMerge
    && observation.repo == p.repo && observation.branchId == p.branchId && observation.branch == p.branch
    && observation.localBranch == p.localBranch && observation.worktree == p.worktree
    && observation.gitAfter == p.gitAfter && observation.target == p.target
  }

  predicate NamesOrigin(e: Event, c: Creation, prior: Event) {
    && prior.repo == e.repo && prior.branchId == c.originBranchId
    && (prior.branch == c.originBranch || (prior.kind == Rename && prior.previousBranch == c.originBranch))
  }

  /** The branch an event was created from is another branch with evidence in the log, or a legacy identity. */
  ghost predicate OriginKnown(log: seq<Event>, e: Event) {
    e.creation.Some? && e.creation.value.originBranchId != NoBranchId ==>
      var c := e.creation.value;
      && (e.kind == Attach || c.originBranchId != e.branchId)
      && (c.originBranchId == LegacyBranchId(e.repo, c.originBranch)
          || exists prior :: prior in log && NamesOrigin(e, c, prior))
  }

  ghost predicate Proven(log: seq<Event>, e: Event) {
    e.kind == Publish ==> exists prior :: prior in log && IsPublicationProof(e, prior)
  }

  /** A selection continues an event that was accepted before it. */
  ghost predicate Continues(log: seq<Event>, e: Event) {
    e.selectionParent != 0 ==>
      Find(log, e.selectionParent).Some? && IsInitialMemorySelection(Find(log, e.selectionParent).value, e)
  }

  method HasProof(log: seq<Event>, e: Event) returns (proven: bool)
    ensures proven <==> exists prior :: prior in log && IsPublicationProof(e, prior)
  {
    for i := 0 to |log|
      invariant forall k :: 0 <= k < i ==> !IsPublicationProof(e, log[k])
    {
      if IsPublicationProof(e, log[i]) {
        assert log[i] in log;
        return true;
      }
    }
    proven := false;
  }

  method ValidateCreationOrigin(log: seq<Event>, e: Event) returns (ok: bool)
    ensures ok <==> OriginKnown(log, e)
  {
    if e.creation.None? || e.creation.value.originBranchId == NoBranchId {
      return true;
    }
    var c := e.creation.value;
    if e.kind != Attach && c.originBranchId == e.branchId {
      return false;
    }
    if c.originBranchId == LegacyBranchId(e.repo, c.originBranch) {
      return true;
    }
    for i := 0 to |log|
      invariant forall k :: 0 <= k < i ==> !NamesOrigin(e, c, log[k])
    {
      if NamesOrigin(e, c, log[i]) {
        assert log[i] in log;
        return true;
      }
    }
    ok := false;
  }

  // ----- a causal log -----

  /** Each event found its evidence among the events before it. */
  ghost predicate CausalAt(log: seq<Event>, k: nat)
    requires k < |log|
  {
    Proven(log[..k], log[k]) && Continues(log[..k], log[k]) && OriginKnown(log[..k], log[k])
  }

  ghost predicate Causal(log: seq<Event>) {
    UniqueIds(log) && forall k: nat :: k < |log| ==> WellFormed(log[k]) && CausalAt(log, k)
  }

  lemma CausalAppend(log: seq<Event>, e: Event)
    requires Causal(log) && Find(log, e.id).None? && WellFormed(e)
    requires Proven(log, e) && Continues(log, e) && OriginKnown(log, e)
    ensures Causal(log + [e])
  {
    var grown := log + [e];
    forall k: nat | k < |grown|
      ensures WellFormed(grown[k]) && CausalAt(grown, k)
    {
      if k < |log| {
        assert grown[..k] == log[..k] && CausalAt(log, k);
      } else {
        assert grown[..k] == log;
      }
    }
  }

  /** The promise to a reader of the log: a publication has its observation, and a selection its predecessor,
      strictly earlier in the log; and the predecessor is the only event the selection's parent id can mean. */
  lemma CausalEvidence(log: seq<Event>, k: nat)
    requires Causal(log) && k < |log|
    ensures log[k].kind == Publish ==> exists j :: 0 <= j < k && IsPublicationProof(log[k], log[j])
    ensures log[k].selectionParent != 0 ==>
              exists j :: 0 <= j < k && IsInitialMemorySelection(log[j], log[k])
                          && forall i :: 0 <= i < |log| && log[i].id == log[k].selectionParent ==> i == j
  {
    assert CausalAt(log, k);
    var before, e := log[..k], log[k];
    if e.kind == Publish {
      var prior :| prior in before && IsPublicationProof(e, prior);
      var j :| 0 <= j < |before| && before[j] == prior;
      assert IsPublicationProof(log[k], log[j]);
    }
    if e.selectionParent != 0 {
      var prior := Find(before, e.selectionParent).value;
      var j :| 0 <= j < |before| && before[j] == prior;
      assert IsInitialMemorySelection(log[j], log[k]);
    }
  }
}
