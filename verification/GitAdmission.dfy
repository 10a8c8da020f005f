/** Admitting a publication towards a destination branch: freezing a view of the repository, proving outside any
    transaction that the destination lacks the source commit, and storing the admission under a read watermark. */
module GitAdmission {
  import opened CommitGraph
  import opened GitIntroduction
  import opened Obligations

  datatype Provider = Provider(installation: nat, repository: nat)

  /** One read of all branch heads of the remote, numbered by the version its scan claimed. */
  datatype Receipt = Receipt(version: nat, provider: Provider, heads: map<nat, Commit>)

  datatype Publication = Publication(
    id: nat, branchId: nat, branch: nat, localBranch: nat, target: nat, gitAfter: Commit, memoryPinned: bool,
    memoryHash: nat, memorySource: nat)

  datatype Ref = Ref(name: nat, branchId: nat, target: nat)

  /** What the workers read from the repository's history and refs. `carried` lists the commits each publication
      was seen on, and `owners` the branches a commit was recorded on. */
  datatype View = View(
    publications: map<nat, Publication>, carried: map<nat, set<Commit>>, refs: map<nat, Ref>, owners: map<Commit,
    set<nat>>)

  /** The view together with the counters that fence it. */
  datatype Metadata = Metadata(generation: nat, origin: nat, graph: nat, evidence: nat, view: View)

  datatype Input = Input(
    origin: nat, sourceBranchId: nat, sourceBranch: nat, destinationBranchId: nat, destinationBranch: nat,
    publicationId: nat,
    capture: nat, originalHead: Commit, sourceHead: Commit, graph: nat, evidence: nat)

  datatype Admission = Admission(
    input: Input, provider: Provider, readVersion: nat, destinationHead: Commit, afterReadVersion: nat)

  datatype Key = Key(
    origin: nat, provider: Provider, sourceBranchId: nat, destinationBranchId: nat, publicationId: nat, capture: nat,
    originalHead: Commit, sourceHead: Commit)

  function KeyOf(a: Admission): Key {
    Key(a.input.origin, a.provider, a.input.sourceBranchId, a.input.destinationBranchId, a.input.publicationId,
        a.input.capture,
        a.input.originalHead, a.input.sourceHead)
  }

  datatype Fault = Conflict | Lacking | Broken | Forbidden | FromSearch(error: Error) | AlreadyThere

  datatype Checked<+T> = Pass(value: T) | Fail(fault: Fault)

  // ----- freezing -----

  predicate SoleOwner(view: View, commit: Commit, branchId: nat) {
    commit in view.owners ==> view.owners[commit] <= {branchId}
  }

  predicate Bound(view: View, name: nat, branchId: nat) {
    name in view.refs && view.refs[name].name == name
      && (view.refs[name].branchId == 0 || view.refs[name].branchId == branchId)
  }

  function SourceName(p: Publication): nat {
    if p.localBranch == 0 then p.branch else p.localBranch
  }

  /** The part of an admission the repository itself decides. */
  function Freeze(
      m: Metadata, publicationId: nat, sourceHead: Commit, destinationName: nat, destinationId: nat):
    (r: Checked<Input>)
    ensures r.Pass? ==>
              && r.value.origin == m.origin && r.value.graph == m.graph && r.value.evidence == m.evidence
              && r.value.publicationId == publicationId && r.value.sourceHead == sourceHead
              && r.value.destinationBranch == destinationName
              && r.value.destinationBranchId == destinationId != r.value.sourceBranchId
  {
    if publicationId !in m.view.publications || publicationId !in m.view.carried then Fail(Lacking)
    else
      var p := m.view.publications[publicationId];
      if sourceHead !in m.view.carried[publicationId] then Fail(Lacking)
      else if !SoleOwner(m.view, sourceHead, p.branchId)
        || !Bound(m.view, SourceName(p), p.branchId) then Fail(Conflict)
      else if m.view.refs[SourceName(p)].target != p.target || p.branchId == destinationId then Fail(Conflict)
      else if !Bound(m.view, destinationName, destinationId) then Fail(Conflict)
      else Pass(Input(m.origin, p.branchId, SourceName(p), destinationId, destinationName, publicationId, p.target,
                      p.gitAfter, sourceHead, m.graph, m.evidence))
  }

  /** What a frozen input says of the view it was frozen from: the publication carried the source head, which no other
      branch owns; the source branch still points at the publication's capture; the destination is another branch. */
  ghost predicate FrozenFrom(m: Metadata, i: Input) {
    && i.origin == m.origin && i.graph == m.graph && i.evidence == m.evidence
    && Carries(m.view, i) && SoleOwner(m.view, i.sourceHead, i.sourceBranchId)
    && Bound(m.view, i.sourceBranch, i.sourceBranchId) && m.view.refs[i.sourceBranch].target == i.capture
    && Bound(m.view, i.destinationBranch, i.destinationBranchId) && i.destinationBranchId != i.sourceBranchId
  }

  /** The input's publication is in the view as the input describes it, and was seen on the source head. */
  ghost predicate Carries(view: View, i: Input) {
    && i.publicationId in view.publications && i.publicationId in view.carried
    && i.sourceHead in view.carried[i.publicationId]
    && var p := view.publications[i.publicationId];
       p.branchId == i.sourceBranchId && SourceName(p) == i.sourceBranch && p.target == i.capture
         && p.gitAfter == i.originalHead
  }

  /** Freezing yields an input exactly when there is one for the request that holds of the view, and then that one. */
  lemma FreezeExact(m: Metadata, i: Input)
    ensures Freeze(m, i.publicationId, i.sourceHead, i.destinationBranch, i.destinationBranchId) == Pass(i) <==>
              FrozenFrom(m, i)
  {
  }

  /** A frozen view and whether its generation was read in the same transaction. */
  datatype Snapshot = Snapshot(metadata: Metadata, fenced: bool)

  /** The view to use later: the frozen one while every fence still stands, or a fresh one when it was never fenced. */
  function Reuse(now: Metadata, frozen: Snapshot): (r: Checked<Metadata>)
    ensures frozen.fenced && r.Pass? ==> r.value == frozen.metadata
  {
    if !frozen.fenced then Pass(now)
    else if frozen.metadata.generation == now.generation && frozen.metadata.origin == now.origin
            && frozen.metadata.graph == now.graph && frozen.metadata.evidence == now.evidence then Pass(frozen.metadata)
    else Fail(Conflict)
  }

  /** The generation moves with every change of the view. */
  ghost predicate Fenced(now: Metadata, frozen: Snapshot) {
    frozen.metadata.generation <= now.generation
      && (frozen.metadata.generation == now.generation ==> frozen.metadata.view == now.view)
  }

  /** A view that may be reused is the current one. */
  lemma ReuseIsFresh(now: Metadata, frozen: Snapshot)
    requires Fenced(now, frozen)
    ensures Reuse(now, frozen).Pass? ==> Reuse(now, frozen).value == now
  {
    if frozen.fenced && Reuse(now, frozen).Pass? {
      assert frozen.metadata == now;
    }
  }

  // ----- preparing -----

  /** The admission's baseline is this receipt: both branches had these heads when it was read. */
  predicate MatchesBaseline(a: Admission, receipt: Receipt) {
    && receipt.version == a.readVersion <= a.afterReadVersion && receipt.provider == a.provider
    && a.input.destinationBranch in receipt.heads && receipt.heads[a.input.destinationBranch] == a.destinationHead
    && a.input.sourceBranch in receipt.heads && receipt.heads[a.input.sourceBranch] == a.input.sourceHead
    && a.input.sourceHead != a.destinationHead && a.input.sourceBranch != a.input.destinationBranch
    && a.input.sourceBranchId != a.input.destinationBranchId
  }

  /** The publication's own commit is in the source head, and the source head is not in the destination. */
  ghost predicate Outside(store: Store, a: Admission) {
    Whole((exists r :: DefiniteIntroduction(store, a.input.originalHead, a.input.sourceHead, r))
          && AbsentIn(store, a.input.sourceHead, a.destinationHead))
  }

  lemma OutsideExtends(smaller: Store, larger: Store, a: Admission)
    requires Extends(smaller, larger) && Outside(smaller, a)
    ensures Outside(larger, a)
  {
    var r :| DefiniteIntroduction(smaller, a.input.originalHead, a.input.sourceHead, r);
    DefiniteExtends(smaller, larger, a.input.originalHead, a.input.sourceHead, r);
    AbsentExtends(smaller, larger, a.input.sourceHead, a.destinationHead);
  }

  /** Why an input cannot be completed: a branch without the expected head, a source already present, a search without
      a definite answer, or an admission that contradicts itself. */
  ghost predicate Unprepared(
      input: Input, receipt: Receipt, store: Store, limited: bool, complete: bool, fault: Fault) {
    var heads := receipt.heads;
    match fault
    case Lacking => input.sourceBranch !in heads || heads[input.sourceBranch] != input.sourceHead
      || input.destinationBranch !in heads
    case AlreadyThere => input.destinationBranch in heads
      && Ancestor(store, heads[input.destinationBranch], input.sourceHead)
    case FromSearch(e) =>
      || Located(store, input.originalHead, input.sourceHead, limited, complete, Err(e))
      || (input.destinationBranch in heads && e != NotFound
          && Located(store, input.sourceHead, heads[input.destinationBranch], limited, complete, Err(e)))
    case Broken =>
      input.destinationBranch in heads
      && !MatchesBaseline(Admission(input, receipt.provider, receipt.version, heads[input.destinationBranch],
                                    receipt.version), receipt)
    case _ => false
  }

  /** Completes a frozen input with one receipt. Absence must be proved from complete evidence: a destination whose
      history is not fully known is refused, never assumed not to contain the source. */
  method PrepareAdmission(input: Input, receipt: Receipt, evidence: GitEvidence) returns (r: Checked<Admission>)
    requires evidence.Valid()
    modifies evidence
    ensures evidence.Valid()
    ensures r.Pass? ==> r.value.input == input && r.value.afterReadVersion == receipt.version
                        && MatchesBaseline(r.value, receipt) && Outside(evidence.trees, r.value)
    ensures r.Fail? ==> Unprepared(input, receipt, evidence.trees, evidence.limited, evidence.requireComplete, r.fault)
  {
    if input.sourceBranch !in receipt.heads || receipt.heads[input.sourceBranch] != input.sourceHead
      || input.destinationBranch !in receipt.heads {
      return Fail(Lacking);
    }
    var head := receipt.heads[input.destinationBranch];
    var carried := LocateIntroduction(evidence, input.originalHead, input.sourceHead);
    if carried.Err? {
      return Fail(FromSearch(carried.error));
    }
    var present := LocateIntroduction(evidence, input.sourceHead, head);
    if present.Ok? {
      IntroductionReaches(evidence.trees, input.sourceHead, head, present.value);
      return Fail(AlreadyThere);
    }
    if present.error != NotFound {
      return Fail(FromSearch(present.error));
    }
    var a := Admission(input, receipt.provider, receipt.version, head, receipt.version);
    if !MatchesBaseline(a, receipt) {
      return Fail(Broken);
    }
    r := Pass(a);
  }
}
