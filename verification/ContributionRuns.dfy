/** Every interleaving of the contribution protocol: workers that freeze, prepare and commit, remote reads that claim
    versions and bind heads, and other writers that change the repository. */
module ContributionRuns {
  import opened Basics
  import opened CommitGraph
  import opened GitAdmission
  import opened GitContribution
  import opened ContributionLedger
  import opened Obligations

  /** A worker between two of its transactions. */
  datatype Attempt =
    | Frozen(input: Input, snapshot: Snapshot)
    | ReadyAdmission(input: Input, snapshot: Snapshot, admission: Admission)
    | ReadyContribution(prepared: PreparedContribution)

  datatype System = System(state: State, attempts: map<nat, Attempt>)

  datatype Action =
    | FreezeView(worker: nat, publicationId: nat, sourceHead: Commit, destinationName: nat, destinationId: nat,
                 fenced: bool)
    | Prepare(worker: nat, version: nat, admission: Admission)
    | Persist(worker: nat, admitted: Checked<Admission>)
    | PrepareProof(worker: nat, prepared: PreparedContribution)
    | Apply(worker: nat, proven: Checked<Proof>)
    | ClaimRead(origin: nat)
    | StoreReceipt(origin: nat, receipt: Receipt)
    | BindHead(head: Head)
    | ChangeMetadata
    | LearnCommits

  /** Other writers move the generation whenever they change the view, and count their own evidence revisions. */
  ghost predicate Changed(s: State, s': State) {
    && s' == s.(metadata := s'.metadata, foreign := s'.foreign)
    && s.metadata.generation <= s'.metadata.generation
    && (s.metadata.generation == s'.metadata.generation ==> s.metadata.view == s'.metadata.view)
    && s.foreign <= s'.foreign && s'.metadata.evidence == s.metadata.evidence + (s'.foreign - s.foreign)
  }

  ghost predicate Next(y: System, action: Action, z: System) {
    match action
    case FreezeView(w, publication, source, name, id, fenced) =>
      && z.state == y.state && Freeze(y.state.metadata, publication, source, name, id).Pass?
      && z.attempts
         == y.attempts[w := Frozen(Freeze(y.state.metadata, publication, source, name, id).value,
                                   Snapshot(y.state.metadata, fenced))]
    case Prepare(w, version, a) =>
      && w in y.attempts && y.attempts[w].Frozen? && z.state == y.state
      && a.input == y.attempts[w].input && (a.input.origin, version) in y.state.receipts
      && MatchesBaseline(a, y.state.receipts[(a.input.origin, version)]) && Outside(y.state.commits, a)
      && z.attempts == y.attempts[w := ReadyAdmission(y.attempts[w].input, y.attempts[w].snapshot, a)]
    case Persist(w, r) =>
      && w in y.attempts && y.attempts[w].ReadyAdmission? && z.attempts == y.attempts - {w}
      && Persisted(y.state, y.attempts[w].input, y.attempts[w].snapshot, y.attempts[w].admission, z.state, r)
    case PrepareProof(w, p) =>
      && z.state == y.state && p.proof.admission in y.state.admissions && p.proof.head in y.state.heads
      && PreparedWell(y.state.commits, y.state.receipts, p) && p.snapshot.metadata == y.state.metadata
      && z.attempts == y.attempts[w := ReadyContribution(p)]
    case Apply(w, r) =>
      && w in y.attempts && y.attempts[w].ReadyContribution? && z.attempts == y.attempts - {w}
      && Applied(y.state, y.attempts[w].prepared, z.state, r)
    case ClaimRead(origin) =>
      && z.attempts == y.attempts
      && z.state
         == y.state.(watermarks := y.state.watermarks[origin := if origin in y.state.watermarks
                                                      then y.state.watermarks[origin] + 1 else 1])
    case StoreReceipt(origin, receipt) =>
      && z.attempts == y.attempts && (origin, receipt.version) !in y.state.receipts
      && origin in y.state.watermarks && receipt.version <= y.state.watermarks[origin]
      && z.state == y.state.(receipts := y.state.receipts[(origin, receipt.version) := receipt])
    case BindHead(head) =>
      && z.attempts == y.attempts && (head.origin, head.readVersion) in y.state.receipts
      && HeadMatches(head, y.state.receipts[(head.origin, head.readVersion)])
      && z.state == y.state.(heads := y.state.heads + {head})
    case ChangeMetadata =>
      z.attempts == y.attempts && Changed(y.state, z.state)
    case LearnCommits =>
      z.attempts == y.attempts && z.state == y.state.(commits := z.state.commits)
        && Extends(y.state.commits, z.state.commits)
  }

  // ----- the invariant -----

  /** A stored admission: its baseline was read no later than it was stored, and does not contain the source. */
  ghost predicate AdmissionHolds(s: State, a: Admission) {
    Whole(&& (a.input.origin, a.readVersion) in s.receipts
          && MatchesBaseline(a, s.receipts[(a.input.origin, a.readVersion)])
          && a.input.origin in s.watermarks && a.afterReadVersion <= s.watermarks[a.input.origin]
          && Outside(s.commits, a))
  }

  /** A stored proof: its head was read strictly after the admission, which stands, and contains the source. */
  ghost predicate ProofHolds(s: State, p: Proof) {
    Whole(&& p.admission in s.admissions && p.head in s.heads
          && (p.head.origin, p.head.readVersion) in s.receipts
          && MatchesLater(p.admission, p.head, s.receipts[(p.head.origin, p.head.readVersion)])
          && RecordMatches(p.contribution, p.admission) && Integrates(s.commits, p.admission, p.head, p.contribution)
          && p.contribution in s.contributions)
  }

  ghost predicate OneAdmissionPerKey(admissions: seq<Admission>) {
    forall i, j :: 0 <= i < j < |admissions| ==> KeyOf(admissions[i]) != KeyOf(admissions[j])
  }

  ghost predicate OneProofPerAdmission(proofs: seq<Proof>) {
    forall i, j :: 0 <= i < j < |proofs| ==> proofs[i].admission != proofs[j].admission
  }

  ghost predicate ReadsHold(s: State) {
    && (forall k :: k in s.receipts ==> k.0 in s.watermarks && s.receipts[k].version == k.1 <= s.watermarks[k.0])
    && (forall h :: h in s.heads ==>
          (h.origin, h.readVersion) in s.receipts && HeadMatches(h, s.receipts[(h.origin, h.readVersion)]))
  }

  /** Nothing enters the ledger but with a proof, and each proof made exactly one evidence revision. */
  ghost predicate Balanced(s: State) {
    && s.metadata.evidence == s.foreign + |s.proofs|
    && (forall c :: c in s.contributions ==> exists p :: p in s.proofs && p.contribution == c)
    && (forall m :: m in s.memories ==> exists p :: p in s.proofs && p.contribution == m.contribution)
  }

  ghost predicate StateHolds(s: State) {
    && ReadsHold(s) && OneAdmissionPerKey(s.admissions) && OneProofPerAdmission(s.proofs) && Balanced(s)
    && (forall a :: a in s.admissions ==> AdmissionHolds(s, a))
    && (forall p :: p in s.proofs ==> ProofHolds(s, p))
  }

  ghost predicate AttemptHolds(s: State, t: Attempt) {
    Whole(match t
          case Frozen(input, snapshot) => Fenced(s.metadata, snapshot)
          case ReadyAdmission(input, snapshot, a) => Fenced(s.metadata, snapshot) && Outside(s.commits, a)
          case ReadyContribution(p) =>
            Fenced(s.metadata, p.snapshot) && PreparedWell(s.commits, s.receipts, p)
              && p.proof.admission in s.admissions && p.proof.head in s.heads)
  }

  ghost predicate Invariant(y: System) {
    StateHolds(y.state) && forall w :: w in y.attempts ==> AttemptHolds(y.state, y.attempts[w])
  }

  /** A ledger without reads, admissions and proofs, over any view and any commits, before any worker. */
  lemma InitialInvariant(metadata: Metadata, commits: Store, watermarks: map<nat, nat>)
    ensures Invariant(System(State(metadata, commits, watermarks, map[], {}, [], [], {}, {}, metadata.evidence), map[]))
  {
  }

  /** What every action keeps or enlarges: nothing stored is ever changed or removed. */
  ghost predicate Grows(s: State, s': State) {
    && Extends(s.commits, s'.commits)
    && (forall k :: k in s.watermarks ==> k in s'.watermarks && s.watermarks[k] <= s'.watermarks[k])
    && (forall k :: k in s.receipts ==> k in s'.receipts && s'.receipts[k] == s.receipts[k])
    && s.heads <= s'.heads && s.admissions <= s'.admissions && s.proofs <= s'.proofs
    && s.contributions <= s'.contributions && s.memories <= s'.memories
    && s.metadata.generation <= s'.metadata.generation
    && (s.metadata.generation == s'.metadata.generation ==> s.metadata.view == s'.metadata.view)
  }

  lemma PersistGrows(s: State, input: Input, snapshot: Snapshot, a: Admission, s': State, r: Checked<Admission>)
    requires Persisted(s, input, snapshot, a, s', r)
    ensures Grows(s, s')
  {
  }

  lemma ApplyGrows(s: State, p: PreparedContribution, s': State, r: Checked<Proof>)
    requires Applied(s, p, s', r)
    ensures Grows(s, s')
  {
  }

  lemma StepGrows(y: System, action: Action, z: System)
    requires Next(y, action, z)
    ensures Grows(y.state, z.state)
  {
    match action
    case Persist(w, r) =>
      PersistGrows(y.state, y.attempts[w].input, y.attempts[w].snapshot, y.attempts[w].admission, z.state, r);
    case Apply(w, r) =>
      ApplyGrows(y.state, y.attempts[w].prepared, z.state, r);
    case _ =>
  }

  lemma AdmissionGrows(s: State, s': State, a: Admission)
    requires Grows(s, s') && AdmissionHolds(s, a)
    ensures AdmissionHolds(s', a)
  {
    OutsideExtends(s.commits, s'.commits, a);
  }

  lemma ProofGrows(s: State, s': State, p: Proof)
    requires Grows(s, s') && ProofHolds(s, p)
    ensures ProofHolds(s', p)
  {
    IntegratesExtends(s.commits, s'.commits, p.admission, p.head, p.contribution);
  }

  lemma AttemptGrows(s: State, s': State, t: Attempt)
    requires Grows(s, s') && AttemptHolds(s, t)
    ensures AttemptHolds(s', t)
  {
    match t
    case Frozen(input, snapshot) =>
    case ReadyAdmission(input, snapshot, a) =>
      OutsideExtends(s.commits, s'.commits, a);
    case ReadyContribution(p) =>
      IntegratesExtends(s.commits, s'.commits, p.proof.admission, p.proof.head, p.proof.contribution);
  }

  // ----- every action keeps the invariant -----

  lemma KeptByGrowth(s: State, s': State)
    requires StateHolds(s) && Grows(s, s')
    ensures forall a :: a in s.admissions ==> AdmissionHolds(s', a)
    ensures forall p :: p in s.proofs ==> ProofHolds(s', p)
  {
    forall a | a in s.admissions
      ensures AdmissionHolds(s', a)
    {
      AdmissionGrows(s, s', a);
    }
    forall p | p in s.proofs
      ensures ProofHolds(s', p)
    {
      ProofGrows(s, s', p);
    }
  }

  lemma PersistHolds(s: State, input: Input, snapshot: Snapshot, prepared: Admission, s': State, r: Checked<Admission>)
    requires StateHolds(s) && Outside(s.commits, prepared) && Persisted(s, input, snapshot, prepared, s', r)
    ensures StateHolds(s')
  {
    PersistGrows(s, input, snapshot, prepared, s', r);
    KeptByGrowth(s, s');
    if r.Pass? && FindAdmission(s.admissions, KeyOf(prepared)).None? {
      StampHolds(s, input, snapshot, prepared, r.value);
      KeyIsNew(s.admissions, r.value);
    }
  }

  lemma StampHolds(s: State, input: Input, snapshot: Snapshot, prepared: Admission, stored: Admission)
    requires StateHolds(s) && Outside(s.commits, prepared) && Stamps(s, input, snapshot, prepared, stored)
    ensures AdmissionHolds(s.(admissions := s.admissions + [stored]), stored) && KeyOf(stored) == KeyOf(prepared)
  {
  }

  lemma KeyIsNew(admissions: seq<Admission>, a: Admission)
    requires OneAdmissionPerKey(admissions) && FindAdmission(admissions, KeyOf(a)).None?
    ensures OneAdmissionPerKey(admissions + [a])
  {
    forall i | 0 <= i < |admissions|
      ensures KeyOf(admissions[i]) != KeyOf(a)
    {
      assert admissions[i] in admissions;
    }
  }

  lemma ProofIsNew(proofs: seq<Proof>, p: Proof)
    requires OneProofPerAdmission(proofs) && FindProof(proofs, p.admission).None?
    ensures OneProofPerAdmission(proofs + [p])
  {
    forall i | 0 <= i < |proofs|
      ensures proofs[i].admission != p.admission
    {
      assert proofs[i] in proofs;
    }
  }

  lemma BalancedApply(s: State, p: PreparedContribution)
    requires Balanced(s) && (p.memory.Some? ==> p.memory.value.contribution == p.proof.contribution)
    ensures Balanced(WithProof(s, p))
  {
    var s' := WithProof(s, p);
    assert p.proof in s'.proofs;
    forall c | c in s'.contributions
      ensures exists q :: q in s'.proofs && q.contribution == c
    {
      if c in s.contributions {
        var q :| q in s.proofs && q.contribution == c;
        assert q in s'.proofs;
      }
    }
    forall m | m in s'.memories
      ensures exists q :: q in s'.proofs && q.contribution == m.contribution
    {
      if m in s.memories {
        var q :| q in s.proofs && q.contribution == m.contribution;
        assert q in s'.proofs;
      }
    }
  }

  lemma ApplyHolds(s: State, p: PreparedContribution, s': State, r: Checked<Proof>)
    requires StateHolds(s) && AttemptHolds(s, ReadyContribution(p)) && Applied(s, p, s', r)
    ensures StateHolds(s')
  {
    if r.Pass? && FindProof(s.proofs, p.proof.admission).None? {
      WithProofHolds(s, p);
    }
  }

  lemma WithProofHolds(s: State, p: PreparedContribution)
    requires StateHolds(s) && AttemptHolds(s, ReadyContribution(p)) && Applies(s, p)
    ensures StateHolds(WithProof(s, p))
  {
    WithProofGrows(s, p);
    KeptByGrowth(s, WithProof(s, p));
    NewProofHolds(s, p);
    ProofIsNew(s.proofs, p.proof);
    BalancedApply(s, p);
    AllProofsHold(WithProof(s, p), s.proofs, p.proof);
  }

  lemma WithProofGrows(s: State, p: PreparedContribution)
    ensures Grows(s, WithProof(s, p)) && (ReadsHold(s) ==> ReadsHold(WithProof(s, p)))
  {
  }

  lemma AllProofsHold(s: State, proofs: seq<Proof>, p: Proof)
    requires ProofHolds(s, p) && forall q :: q in proofs ==> ProofHolds(s, q)
    ensures forall q :: q in proofs + [p] ==> ProofHolds(s, q)
  {
  }

  lemma NewProofHolds(s: State, p: PreparedContribution)
    requires AttemptHolds(s, ReadyContribution(p)) && Applies(s, p)
    ensures ProofHolds(WithProof(s, p), p.proof)
    ensures p.memory.Some? ==> p.memory.value.contribution == p.proof.contribution
  {
  }

  lemma StateStep(y: System, action: Action, z: System)
    requires Invariant(y) && Next(y, action, z)
    ensures StateHolds(z.state)
  {
    StepGrows(y, action, z);
    match action
    case Persist(w, r) =>
      assert AttemptHolds(y.state, y.attempts[w]);
      PersistHolds(y.state, y.attempts[w].input, y.attempts[w].snapshot, y.attempts[w].admission, z.state, r);
    case Apply(w, r) =>
      assert AttemptHolds(y.state, y.attempts[w]);
      ApplyHolds(y.state, y.attempts[w].prepared, z.state, r);
    case _ =>
      KeptByGrowth(y.state, z.state);
  }

  lemma AttemptStep(y: System, action: Action, z: System, w: nat)
    requires Invariant(y) && Next(y, action, z) && w in z.attempts
    ensures AttemptHolds(z.state, z.attempts[w])
  {
    StepGrows(y, action, z);
    if w in y.attempts && z.attempts[w] == y.attempts[w] {
      AttemptGrows(y.state, z.state, y.attempts[w]);
    } else if action.Prepare? {
      assert AttemptHolds(y.state, y.attempts[w]);
    }
  }

  lemma InvariantStep(y: System, action: Action, z: System)
    requires Invariant(y) && Next(y, action, z)
    ensures Invariant(z)
  {
    StateStep(y, action, z);
    forall w | w in z.attempts
      ensures AttemptHolds(z.state, z.attempts[w])
    {
      AttemptStep(y, action, z, w);
    }
  }

  // ----- whole runs -----

  ghost predicate Run(systems: seq<System>, actions: seq<Action>) {
    |systems| == |actions| + 1 && forall i :: 0 <= i < |actions| ==> StepAt(systems, actions, i)
  }

  ghost predicate StepAt(systems: seq<System>, actions: seq<Action>, i: int) {
    0 <= i < |actions| && i + 1 < |systems| && Next(systems[i], actions[i], systems[i + 1])
  }

  lemma GrowsTrans(s: State, t: State, u: State)
    requires Grows(s, t) && Grows(t, u)
    ensures Grows(s, u)
  {
  }

  lemma {:induction false} InvariantRun(systems: seq<System>, actions: seq<Action>, i: nat, j: nat)
    requires Run(systems, actions) && Invariant(systems[0]) && i <= j < |systems|
    ensures Invariant(systems[j]) && Grows(systems[i].state, systems[j].state)
    decreases j
  {
    if j > 0 {
      InvariantRun(systems, actions, if i < j then i else i - 1, j - 1);
      assert StepAt(systems, actions, j - 1);
      InvariantStep(systems[j - 1], actions[j - 1], systems[j]);
      StepGrows(systems[j - 1], actions[j - 1], systems[j]);
      if i < j {
        GrowsTrans(systems[i].state, systems[j - 1].state, systems[j].state);
      }
    }
  }

  /** In every state of every run, each proof stands on reads in the right order and on the right side of the source:
      baseline read, then the admission's stamp, then strictly later the proving read; the source absent from the
      first head and present in the second; one admission for its key, one proof for its admission. */
  lemma ProofsHold(systems: seq<System>, actions: seq<Action>, j: nat, p: Proof)
    requires Run(systems, actions) && Invariant(systems[0]) && j < |systems| && p in systems[j].state.proofs
    ensures p.admission in systems[j].state.admissions && p.head in systems[j].state.heads
            && p.contribution in systems[j].state.contributions
    ensures p.admission.readVersion <= p.admission.afterReadVersion < p.head.readVersion
    ensures AbsentIn(systems[j].state.commits, p.admission.input.sourceHead, p.admission.destinationHead)
    ensures Ancestor(systems[j].state.commits, p.head.commit, p.admission.input.sourceHead)
    ensures forall a :: a in systems[j].state.admissions && KeyOf(a) == KeyOf(p.admission) ==> a == p.admission
    ensures forall q :: q in systems[j].state.proofs && q.admission == p.admission ==> q == p
  {
    InvariantRun(systems, actions, j, j);
    var s := systems[j].state;
    assert ProofHolds(s, p) && AdmissionHolds(s, p.admission);
    IntegratesMeans(s.commits, p.admission, p.head, p.contribution);
    forall a | a in s.admissions && KeyOf(a) == KeyOf(p.admission)
      ensures a == p.admission
    {
      SameKey(s.admissions, a, p.admission);
    }
    forall q | q in s.proofs && q.admission == p.admission
      ensures q == p
    {
      SameProof(s.proofs, p, q);
    }
  }

  lemma SameKey(admissions: seq<Admission>, a: Admission, b: Admission)
    requires OneAdmissionPerKey(admissions) && a in admissions && b in admissions && KeyOf(a) == KeyOf(b)
    ensures a == b
  {
    var i :| 0 <= i < |admissions| && admissions[i] == a;
    var j :| 0 <= j < |admissions| && admissions[j] == b;
  }

  lemma SameProof(proofs: seq<Proof>, p: Proof, q: Proof)
    requires OneProofPerAdmission(proofs) && p in proofs && q in proofs && p.admission == q.admission
    ensures p == q
  {
    var i :| 0 <= i < |proofs| && proofs[i] == p;
    var j :| 0 <= j < |proofs| && proofs[j] == q;
  }

  /** The step that stores an admission stamps it with the watermark of that moment, and the repository it was
      frozen from, possibly long before, is the repository as it is at that moment. */
  lemma AdmissionIsStamped(y: System, action: Action, z: System, a: Admission)
    requires Invariant(y) && Next(y, action, z) && a !in y.state.admissions && a in z.state.admissions
    ensures a.input.origin in y.state.watermarks && a.afterReadVersion == y.state.watermarks[a.input.origin]
    ensures Freeze(y.state.metadata, a.input.publicationId, a.input.sourceHead, a.input.destinationBranch,
                   a.input.destinationBranchId) == Pass(a.input)
    ensures FrozenFrom(y.state.metadata, a.input)
    ensures forall k :: k in y.state.receipts && k.0 == a.input.origin ==> k.1 <= a.afterReadVersion
  {
    match action
    case Persist(w, r) =>
      var t := y.attempts[w];
      assert AttemptHolds(y.state, t);
      ReuseIsFresh(y.state.metadata, t.snapshot);
      FreezeExact(y.state.metadata, a.input);
    case _ =>
  }

  /** The read that proves an admission cannot have been made, or even begun, when the admission was stored. */
  lemma ProvingReadIsLater(systems: seq<System>, actions: seq<Action>, i: nat, j: nat, p: Proof)
    requires Run(systems, actions) && Invariant(systems[0]) && i < j < |systems| && p in systems[j].state.proofs
    requires p.admission !in systems[i].state.admissions && p.admission in systems[i + 1].state.admissions
    ensures (p.head.origin, p.head.readVersion) !in systems[i].state.receipts
    ensures p.head.origin in systems[i].state.watermarks
            && systems[i].state.watermarks[p.head.origin] < p.head.readVersion
  {
    InvariantRun(systems, actions, i, i);
    InvariantRun(systems, actions, j, j);
    assert StepAt(systems, actions, i) && ProofHolds(systems[j].state, p);
    AdmissionIsStamped(systems[i], actions[i], systems[i + 1], p.admission);
  }

  /** Proofs enter one at a time, each together with its contribution, its memory exactly when the publication pins
      one now, and one evidence revision. */
  lemma ProofIsAtomic(y: System, action: Action, z: System)
    requires Invariant(y) && Next(y, action, z) && z.state.proofs != y.state.proofs
    ensures |z.state.proofs| == |y.state.proofs| + 1 && z.state.metadata.evidence == y.state.metadata.evidence + 1
    ensures var p := z.state.proofs[|y.state.proofs|];
            && z.state.contributions == y.state.contributions + {p.contribution}
            && var now := AdmittedPublication(y.state.metadata, p.admission, p.head);
               now.Pass?
                 && z.state.memories == y.state.memories + if now.value.memoryPinned
                    then {MemoryOf(now.value, p.contribution).value} else {}
  {
    match action
    case Apply(w, r) =>
      var p := y.attempts[w].prepared;
      assert AttemptHolds(y.state, y.attempts[w]) && Applies(y.state, p);
      ReuseIsFresh(y.state.metadata, p.snapshot);
    case Persist(w, r) =>
    case _ =>
  }

  /** At the moment a proof is stored the repository still carries what was admitted: the publication with its branch,
      capture and commit, seen on the source head, which no other branch owns. */
  lemma ProofIsStillAdmitted(y: System, action: Action, z: System)
    requires Invariant(y) && Next(y, action, z) && z.state.proofs != y.state.proofs
    ensures |z.state.proofs| == |y.state.proofs| + 1
    ensures var p := z.state.proofs[|y.state.proofs|]; var i := p.admission.input;
            && y.state.metadata.origin == i.origin == p.head.origin && p.head.branchId == i.destinationBranchId
            && Carries(y.state.metadata.view, i) && SoleOwner(y.state.metadata.view, i.sourceHead, i.sourceBranchId)
  {
    ProofIsAtomic(y, action, z);
    var p := z.state.proofs[|y.state.proofs|];
    AdmittedExact(y.state.metadata, p.admission, p.head);
  }
}
