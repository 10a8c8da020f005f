/** From an admission to a proof of contribution: a later read of the destination branch contains the source commit
    that the admission's baseline read did not. */
module GitContribution {
  import opened Basics
  import opened CommitGraph
  import opened GitIntroduction
  import opened GitRange
  import opened GitAdmission
  import opened Obligations

  /** A destination head bound to the context branch it belongs to, as one read saw it. */
  datatype Head = Head(provider: Provider, origin: nat, branchId: nat, branch: nat, readVersion: nat, commit: Commit)

  datatype Contribution = Contribution(
    origin: nat, repository: nat, destinationBranchId: nat, sourceBranchId: nat, capture: nat, originalHead: Commit,
    integration: Commit)

  datatype Memory = Memory(contribution: Contribution, publicationId: nat, memoryHash: nat, memorySource: nat)

  /** A stored record is named by its whole content, so a proof holds the records its ids name. */
  datatype Proof = Proof(admission: Admission, head: Head, contribution: Contribution)

  type Receipts = map<(nat, nat), Receipt>

  // ----- the pure conditions -----

  predicate HeadMatches(head: Head, receipt: Receipt) {
    && head.readVersion == receipt.version && head.provider == receipt.provider
    && head.branch in receipt.heads && receipt.heads[head.branch] == head.commit
  }

  /** The head was read strictly after the admission was stored, in the same scope. */
  predicate MatchesLater(a: Admission, head: Head, receipt: Receipt) {
    && HeadMatches(head, receipt) && head.readVersion > a.afterReadVersion
    && head.origin == a.input.origin && head.provider == a.provider && head.branchId == a.input.destinationBranchId
  }

  predicate RecordMatches(c: Contribution, a: Admission) {
    && c.origin == a.input.origin && c.repository == a.provider.repository
    && c.destinationBranchId == a.input.destinationBranchId
    && c.sourceBranchId == a.input.sourceBranchId && c.capture == a.input.capture
    && c.originalHead == a.input.originalHead
  }

  /** The publication an admission rests on, still as it was admitted. */
  function AdmittedPublication(m: Metadata, a: Admission, head: Head): (r: Checked<Publication>)
    ensures r.Pass? ==>
              r.value.branchId == a.input.sourceBranchId && r.value.target == a.input.capture
                && r.value.gitAfter == a.input.originalHead
  {
    if m.origin != a.input.origin || m.origin != head.origin then Fail(Broken)
    else if a.input.publicationId !in m.view.publications || a.input.publicationId !in m.view.carried then Fail(Lacking)
    else
      var p := m.view.publications[a.input.publicationId];
      if p.branchId != a.input.sourceBranchId || p.target != a.input.capture || p.gitAfter != a.input.originalHead
        || SourceName(p) != a.input.sourceBranch
      then Fail(Broken)
      else if a.input.sourceHead !in m.view.carried[a.input.publicationId] then Fail(Lacking)
      else if head.branchId != a.input.destinationBranchId
        || !SoleOwner(m.view, a.input.sourceHead, a.input.sourceBranchId) then Fail(Conflict)
      else Pass(p)
  }

  /** Looking an admission up again is freezing it again but for the refs: the publication is found exactly when the
      view still carries the admitted input under the same remote, with the head on the destination; and a view from
      which the input would be frozen afresh, under whatever revisions, is one in which it is found. */
  lemma AdmittedExact(m: Metadata, a: Admission, head: Head)
    ensures AdmittedPublication(m, a, head).Pass? <==>
              && m.origin == a.input.origin == head.origin && head.branchId == a.input.destinationBranchId
              && Carries(m.view, a.input) && SoleOwner(m.view, a.input.sourceHead, a.input.sourceBranchId)
    ensures AdmittedPublication(m, a, head).Pass? ==>
              AdmittedPublication(m, a, head).value == m.view.publications[a.input.publicationId]
    ensures FrozenFrom(m, a.input.(graph := m.graph, evidence := m.evidence)) && head.origin == m.origin
            && head.branchId == a.input.destinationBranchId ==>
              AdmittedPublication(m, a, head).Pass?
  {
  }

  function MemoryOf(p: Publication, c: Contribution): Option<Memory> {
    if p.memoryPinned then Some(Memory(c, p.id, p.memoryHash, p.memorySource)) else None
  }

  /** What the commit graph says about a contribution: the source is absent at the baseline, reachable from the later
      head, and the recorded commit is the one on the branch between them that brought it in. */
  ghost predicate Integrates(store: Store, a: Admission, head: Head, c: Contribution) {
    Whole(&& AbsentIn(store, a.input.sourceHead, a.destinationHead)
          && DefiniteIntroduction(store, a.input.sourceHead, head.commit, c.integration)
          && Between(store, head.commit, a.destinationHead, c.integration))
  }

  lemma IntegratesExtends(smaller: Store, larger: Store, a: Admission, head: Head, c: Contribution)
    requires Extends(smaller, larger) && Integrates(smaller, a, head, c)
    ensures Integrates(larger, a, head, c)
  {
    AbsentExtends(smaller, larger, a.input.sourceHead, a.destinationHead);
    DefiniteExtends(smaller, larger, a.input.sourceHead, head.commit, c.integration);
    var p, i :| ChainFrom(smaller, p, head.commit, a.destinationHead) && 0 <= i < |p| - 1 && p[i] == c.integration;
    ExtendsChain(smaller, larger, p);
    assert ChainFrom(larger, p, head.commit, a.destinationHead);
  }

  /** A proof's meaning in terms of the graph alone: between its two reads the source became reachable. */
  lemma IntegratesMeans(store: Store, a: Admission, head: Head, c: Contribution)
    requires Integrates(store, a, head, c)
    ensures !Ancestor(store, a.destinationHead, a.input.sourceHead) && Ancestor(store, head.commit, a.input.sourceHead)
    ensures head.commit != a.destinationHead
    ensures forall other :: DefiniteIntroduction(store, a.input.sourceHead, head.commit, other) && Acyclic(store) ==>
              other == c.integration
  {
    IntroductionReaches(store, a.input.sourceHead, head.commit, c.integration);
    forall other | DefiniteIntroduction(store, a.input.sourceHead, head.commit, other) && Acyclic(store)
      ensures other == c.integration
    {
      IntroductionUnique(store, a.input.sourceHead, head.commit, other, c.integration);
    }
  }

  // ----- preparing a contribution -----

  datatype PreparedContribution = PreparedContribution(
    proof: Proof, receipt: Receipt, publication: Publication, memory: Option<Memory>, snapshot: Snapshot)

  /** What a preparation establishes, on the commits it read. */
  ghost predicate PreparedWell(store: Store, receipts: Receipts, p: PreparedContribution) {
    var a, head := p.proof.admission, p.proof.head;
    && (head.origin, head.readVersion) in receipts && receipts[(head.origin, head.readVersion)] == p.receipt
    && MatchesLater(a, head, p.receipt) && RecordMatches(p.proof.contribution, a)
    && Integrates(store, a, head, p.proof.contribution)
    && AdmittedPublication(p.snapshot.metadata, a, head) == Pass(p.publication)
    && p.memory == MemoryOf(p.publication, p.proof.contribution)
  }

  /** Admission and head are stored, their receipts match them, and the publication still stands. */
  ghost predicate Joinable(
      now: Metadata, admissions: seq<Admission>, heads: set<Head>, receipts: Receipts, a: Admission, head: Head) {
    && a in admissions && head in heads
    && (head.origin, head.readVersion) in receipts && MatchesLater(a, head, receipts[(head.origin, head.readVersion)])
    && (a.input.origin, a.readVersion) in receipts && MatchesBaseline(a, receipts[(a.input.origin, a.readVersion)])
    && AdmittedPublication(now, a, head).Pass?
  }

  /** One of the two searches ended with this error. */
  ghost predicate Undecided(store: Store, limited: bool, complete: bool, a: Admission, head: Head, e: Error) {
    || Located(store, a.input.originalHead, a.input.sourceHead, limited, complete, Err(e))
    || RangeLocated(store, a.input.sourceHead, a.destinationHead, head.commit, limited, complete, Err(e))
  }

  method PrepareContribution(
      now: Metadata, fenced: bool, admissions: seq<Admission>, heads: set<Head>, receipts: Receipts,
      evidence: GitEvidence, a: Admission, head: Head)
    returns (r: Checked<PreparedContribution>)
    requires evidence.Valid()
    modifies evidence
    ensures evidence.Valid()
    ensures r.Pass? ==> a in admissions && head in heads && PreparedWell(evidence.trees, receipts, r.value)
    ensures r.Pass? ==>
              r.value.proof.admission == a && r.value.proof.head == head && r.value.snapshot == Snapshot(now, fenced)
    ensures r.Fail? ==>
              || !Joinable(now, admissions, heads, receipts, a, head)
              || (r.fault.FromSearch?
                  && Undecided(evidence.trees, evidence.limited, evidence.requireComplete, a, head, r.fault.error))
  {
    if a !in admissions || head !in heads || (head.origin, head.readVersion) !in receipts {
      return Fail(Lacking);
    }
    var receipt := receipts[(head.origin, head.readVersion)];
    if !MatchesLater(a, head, receipt) {
      return Fail(Conflict);
    }
    if (a.input.origin, a.readVersion) !in receipts || !MatchesBaseline(a, receipts[(a.input.origin, a.readVersion)]) {
      return Fail(Broken);
    }
    var publication := AdmittedPublication(now, a, head);
    if publication.Fail? {
      return Fail(publication.fault);
    }
    var carried := LocateIntroduction(evidence, a.input.originalHead, a.input.sourceHead);
    if carried.Err? {
      return Fail(FromSearch(carried.error));
    }
    var integration := LocateInRange(evidence, a.input.sourceHead, a.destinationHead, head.commit);
    if integration.Err? {
      return Fail(FromSearch(integration.error));
    }
    var record := Contribution(
      a.input.origin, a.provider.repository, a.input.destinationBranchId, a.input.sourceBranchId, a.input.capture,
      a.input.originalHead, integration.value);
    r := Pass(PreparedContribution(
                Proof(a, head, record), receipt, publication.value, MemoryOf(publication.value, record),
                Snapshot(now, fenced)));
  }
}
