/** The transactions that store admissions and proofs, and what they keep over every interleaving of workers,
    remote reads and other writers of the repository. */
module ContributionLedger {
  import opened Basics
  import opened CommitGraph
  import opened GitAdmission
  import opened GitContribution
  import opened Obligations

  /** `watermarks` holds, for each remote, the newest version a read has claimed. `foreign` counts the evidence
      revisions other writers made. */
  datatype State = State(
    metadata: Metadata, commits: Store, watermarks: map<nat, nat>, receipts: Receipts, heads: set<Head>,
    admissions: seq<Admission>, proofs: seq<Proof>, contributions: set<Contribution>, memories: set<Memory>,
    foreign: nat)

  function FindAdmission(admissions: seq<Admission>, key: Key): (r: Option<Admission>)
    ensures r.Some? <==> exists a :: a in admissions && KeyOf(a) == key
    ensures r.Some? ==> r.value in admissions && KeyOf(r.value) == key
  {
    if admissions == [] then None
    else
      assert admissions == [admissions[0]] + admissions[1..];
      if KeyOf(admissions[0]) == key then Some(admissions[0]) else FindAdmission(admissions[1..], key)
  }

  function FindProof(proofs: seq<Proof>, a: Admission): (r: Option<Proof>)
    ensures r.Some? <==> exists p :: p in proofs && p.admission == a
    ensures r.Some? ==> r.value in proofs && r.value.admission == a
  {
    if proofs == [] then None
    else
      assert proofs == [proofs[0]] + proofs[1..];
      if proofs[0].admission == a then Some(proofs[0]) else FindProof(proofs[1..], a)
  }

  // ----- storing an admission -----

  /** The admission is new and everything it was frozen from still stands; `stored` carries the watermark. */
  ghost predicate Stamps(s: State, input: Input, snapshot: Snapshot, prepared: Admission, stored: Admission) {
    Whole(&& prepared.input == input && FindAdmission(s.admissions, KeyOf(prepared)).None?
          && Reuse(s.metadata, snapshot).Pass?
          && Freeze(Reuse(s.metadata, snapshot).value, input.publicationId, input.sourceHead, input.destinationBranch,
                    input.destinationBranchId) == Pass(input)
          && input.origin in s.watermarks && prepared.readVersion <= s.watermarks[input.origin]
          && stored == prepared.(afterReadVersion := s.watermarks[input.origin])
          && (input.origin, prepared.readVersion) in s.receipts
          && MatchesBaseline(stored, s.receipts[(input.origin, prepared.readVersion)]))
  }

  /** What one attempt to store an admission does. */
  ghost predicate Persisted(
      s: State, input: Input, snapshot: Snapshot, prepared: Admission, s': State, r: Checked<Admission>) {
    && (r.Fail? ==> s' == s)
    && (r.Pass? && FindAdmission(s.admissions, KeyOf(prepared)).Some? ==>
          s' == s && Some(r.value) == FindAdmission(s.admissions, KeyOf(prepared)))
    && (r.Pass? && FindAdmission(s.admissions, KeyOf(prepared)).None? ==>
          Stamps(s, input, snapshot, prepared, r.value) && s' == s.(admissions := s.admissions + [r.value]))
  }

  // ----- storing a proof -----

  /** The proof is new and the view it was prepared on still stands. */
  ghost predicate Applies(s: State, p: PreparedContribution) {
    Whole(&& FindProof(s.proofs, p.proof.admission).None? && Reuse(s.metadata, p.snapshot).Pass?
          && s.metadata.graph == p.snapshot.metadata.graph && s.metadata.evidence == p.snapshot.metadata.evidence
          && AdmittedPublication(Reuse(s.metadata, p.snapshot).value, p.proof.admission, p.proof.head)
             == Pass(p.publication)
          && p.memory == MemoryOf(p.publication, p.proof.contribution)
          && p.proof.admission in s.admissions && p.proof.head in s.heads
          && MatchesLater(p.proof.admission, p.proof.head, p.receipt)
          && RecordMatches(p.proof.contribution, p.proof.admission))
  }

  /** Contribution, memory, proof and one evidence revision, together. */
  function WithProof(s: State, p: PreparedContribution): State {
    s.(contributions := s.contributions + {p.proof.contribution},
       memories := if p.memory.Some? then s.memories + {p.memory.value} else s.memories,
       proofs := s.proofs + [p.proof],
       metadata := s.metadata.(evidence := s.metadata.evidence + 1))
  }

  ghost predicate Applied(s: State, p: PreparedContribution, s': State, r: Checked<Proof>) {
    && (r.Fail? ==> s' == s)
    && (r.Pass? ==> r.value.admission == p.proof.admission && r.value.contribution == p.proof.contribution)
    && (r.Pass? && FindProof(s.proofs, p.proof.admission).Some? ==>
          s' == s && Some(r.value) == FindProof(s.proofs, p.proof.admission))
    && (r.Pass? && FindProof(s.proofs, p.proof.admission).None? ==>
          Applies(s, p) && s' == WithProof(s, p) && r.value == p.proof)
  }

  /** What the provider and the document store decide. */
  datatype Conditions = Conditions(authorized: Provider, fenceOpen: bool, captureVerifies: bool)

  class Ledger {
    var metadata: Metadata
    var commits: Store
    var watermarks: map<nat, nat>
    var receipts: Receipts
    var heads: set<Head>
    var admissions: seq<Admission>
    var proofs: seq<Proof>
    var contributions: set<Contribution>
    var memories: set<Memory>
    var foreign: nat

    function View(): State
      reads this
    {
      State(metadata, commits, watermarks, receipts, heads, admissions, proofs, contributions, memories, foreign)
    }

    method PersistAdmission(
        input: Input, snapshot: Snapshot, prepared: Admission, c: Conditions)
      returns (r: Checked<Admission>)
      modifies `admissions
      ensures Persisted(old(View()), input, snapshot, prepared, View(), r)
      ensures r.Pass? <==>
                && prepared.input == input && c.authorized == prepared.provider && c.fenceOpen
                && (old(FindAdmission(admissions, KeyOf(prepared))).Some?
                    || (c.captureVerifies && exists stored :: old(Stamps(View(), input, snapshot, prepared, stored))))
    {
      if prepared.input != input {
        return Fail(Broken);
      }
      if c.authorized != prepared.provider || !c.fenceOpen {
        return Fail(Conflict);
      }
      var prior := FindAdmission(admissions, KeyOf(prepared));
      if prior.Some? {
        return Pass(prior.value);
      }
      var current := Reuse(metadata, snapshot);
      if current.Fail? {
        return Fail(current.fault);
      }
      if Freeze(current.value, input.publicationId, input.sourceHead, input.destinationBranch,
                input.destinationBranchId) != Pass(input) || !c.captureVerifies {
        return Fail(Conflict);
      }
      r := Put(prepared);
      assert r.Pass? ==> old(Stamps(View(), input, snapshot, prepared, r.value));
    }

    /** Stores the admission under the current watermark, which no read can claim until the transaction ends. */
    method Put(prepared: Admission) returns (r: Checked<Admission>)
      modifies `admissions
      ensures r.Fail? ==> admissions == old(admissions)
      ensures r.Pass? ==> admissions == old(admissions) + [r.value]
      ensures r.Pass? <==>
                && prepared.input.origin in watermarks && prepared.readVersion <= watermarks[prepared.input.origin]
                && (prepared.input.origin, prepared.readVersion) in receipts
                && MatchesBaseline(prepared.(afterReadVersion := watermarks[prepared.input.origin]),
                                   receipts[(prepared.input.origin, prepared.readVersion)])
      ensures r.Pass? ==> r.value == prepared.(afterReadVersion := watermarks[prepared.input.origin])
    {
      var origin := prepared.input.origin;
      if origin !in watermarks || watermarks[origin] < prepared.readVersion {
        return Fail(Conflict);
      }
      var stored := prepared.(afterReadVersion := watermarks[origin]);
      if (origin, prepared.readVersion) !in receipts
        || !MatchesBaseline(stored, receipts[(origin, prepared.readVersion)]) {
        return Fail(Broken);
      }
      admissions := admissions + [stored];
      r := Pass(stored);
    }

    method ApplyContribution(p: PreparedContribution, c: Conditions) returns (r: Checked<Proof>)
      modifies `contributions, `memories, `proofs, `metadata
      ensures Applied(old(View()), p, View(), r)
      ensures r.Pass? <==>
                && MatchesLater(p.proof.admission, p.proof.head, p.receipt)
                && RecordMatches(p.proof.contribution, p.proof.admission)
                && c.authorized == p.receipt.provider && c.fenceOpen
                && old(metadata).origin == p.proof.contribution.origin
                && match old(FindProof(proofs, p.proof.admission))
                   case Some(prior) => prior.contribution == p.proof.contribution
                   case None => old(Applies(View(), p))
    {
      if !MatchesLater(p.proof.admission, p.proof.head, p.receipt)
        || !RecordMatches(p.proof.contribution, p.proof.admission) {
        return Fail(Broken);
      }
      if c.authorized != p.receipt.provider || !c.fenceOpen || metadata.origin != p.proof.contribution.origin {
        return Fail(Conflict);
      }
      var prior := FindProof(proofs, p.proof.admission);
      if prior.Some? {
        if prior.value.contribution != p.proof.contribution {
          return Fail(Conflict);
        }
        return Pass(prior.value);
      }
      var current := Reuse(metadata, p.snapshot);
      if current.Fail? {
        return Fail(current.fault);
      }
      if current.value.graph != p.snapshot.metadata.graph || current.value.evidence != p.snapshot.metadata.evidence {
        return Fail(Conflict);
      }
      if AdmittedPublication(current.value, p.proof.admission, p.proof.head) != Pass(p.publication) {
        return Fail(Conflict);
      }
      if p.memory != MemoryOf(p.publication, p.proof.contribution) || p.proof.admission !in admissions
        || p.proof.head !in heads {
        return Fail(Broken);
      }
      contributions := contributions + {p.proof.contribution};
      if p.memory.Some? {
        memories := memories + {p.memory.value};
      }
      proofs := proofs + [p.proof];
      metadata := metadata.(evidence := metadata.evidence + 1);
      r := Pass(p.proof);
    }
  }
}
