/** Locating an introduction between two heads of a branch: the source must be absent from the
    baseline, present in the later head, and introduced on the first-parent path joining them. */
module GitRange {
  import opened CommitGraph
  import opened GitIntroduction
  import opened Obligations

  /** `r` lies on the first-parent path from `after` to `before`, strictly newer than `before`. */
  ghost predicate Between(store: Store, after: Commit, before: Commit, r: Commit) {
    exists p, i :: ChainFrom(store, p, after, before) && 0 <= i < |p| - 1 && p[i] == r
  }

  ghost predicate LongChain(store: Store, after: Commit) {
    exists p :: IsChain(store, p) && p[0] == after && |p| > MAX_CODE_EVIDENCE_READS
  }

  ghost predicate BrokenChain(store: Store, after: Commit) {
    exists c :: OnChain(store, after, c) && Look(store, c).Missing?
  }

  ghost predicate RangeLocated(
      store: Store, source: Commit, before: Commit, after: Commit, limited: bool, complete: bool, r: Result<Commit>) {
    Whole(match r
          case Ok(found) =>
            AbsentIn(store, source, before) && DefiniteIntroduction(store, source, after, found)
              && Between(store, after, before, found)
          case Err(AlreadyPresent) => Ancestor(store, before, source)
          case Err(NotFound) => AbsentIn(store, source, before) && AbsentIn(store, source, after)
          case Err(RangeDiscontinuous) =>
            AbsentIn(store, source, before) && Ancestor(store, after, source) && !OnChain(store, after, before)
          case Err(Pending) =>
            !limited && (|| Look(store, source).Missing? || Undecided(store, source, before)
                         || Undecided(store, source, after) || BrokenChain(store, after))
          case Err(Limit) => limited || TooMany(store, before) || TooMany(store, after) || LongChain(store, after)
          case Err(Validation) => !(ValidPair(source, before) && ValidPair(before, after))
          case Err(ProjectionLimit) => complete && limited
          case Err(e) =>
            Unusable(store, source, e) || Unusable(store, before, e) || Unusable(store, after, e))
  }

  // ----- the walk towards the baseline -----

  ghost predicate Descended(store: Store, before: Commit, after: Commit, chain: seq<Commit>, seen: set<Commit>) {
    Whole(&& IsChain(store, chain) && chain[0] == after
          && before !in chain[..|chain| - 1]
          && (forall c :: c in seen <==> c in chain[..|chain| - 1]))
  }

  lemma DescendedStep(store: Store, before: Commit, after: Commit, chain: seq<Commit>, seen: set<Commit>, p: Commit)
    requires Descended(store, before, after, chain, seen) && chain[|chain| - 1] != before
    requires FirstParent(store, chain[|chain| - 1], p)
    ensures Descended(store, before, after, chain + [p], seen + {chain[|chain| - 1]})
  {
    var next := chain + [p];
    assert next[..|next| - 1] == chain == chain[..|chain| - 1] + [chain[|chain| - 1]];
    forall i, j | 0 <= i < j < |next| && j == i + 1
      ensures FirstParent(store, next[i], next[j])
    {
      if j < |chain| {
        assert FirstParent(store, chain[i], chain[j]);
      }
    }
  }

  /** Because the baseline lacks the source, the walk passes the introduction before it gets there. */
  lemma PassesIntroduction(
      store: Store, source: Commit, before: Commit, after: Commit, chain: seq<Commit>, seen: set<Commit>,
      found: Commit)
    requires Descended(store, before, after, chain, seen) && chain[|chain| - 1] == before
    requires AbsentIn(store, source, before) && IsIntroduction(store, source, after, found)
    ensures found in seen && Between(store, after, before, found)
  {
    var q :| ChainFrom(store, q, after, found);
    if |q| < |chain| {
      ChainPrefix(store, q, chain, |q| - 1);
      assert chain[..|chain| - 1][|q| - 1] == found;
      assert ChainFrom(store, chain, after, before) && chain[|q| - 1] == found;
    } else {
      ChainPrefix(store, q, chain, |chain| - 1);
      ChainSegment(store, q, |chain| - 1, |q| - 1);
      AncestorTrans(store, before, found, source);
      assert false;
    }
  }

  lemma SeenTwice(store: Store, before: Commit, after: Commit, chain: seq<Commit>, seen: set<Commit>)
    requires Descended(store, before, after, chain, seen) && chain[|chain| - 1] in seen
    ensures Unusable(store, after, Integrity)
  {
    var i :| 0 <= i < |chain| - 1 && chain[..|chain| - 1][i] == chain[|chain| - 1];
    ChainSegment(store, chain, 0, |chain| - 1);
    ChainSegment(store, chain, i, |chain| - 1);
  }

  lemma ReachesRoot(store: Store, before: Commit, after: Commit, chain: seq<Commit>, seen: set<Commit>)
    requires Descended(store, before, after, chain, seen) && chain[|chain| - 1] != before
    requires Known(store, chain[|chain| - 1]) && Parents(store, chain[|chain| - 1]) == []
    ensures !OnChain(store, after, before)
  {
    if OnChain(store, after, before) {
      var q :| ChainFrom(store, q, after, before);
      if |q| > |chain| {
        ChainNext(store, chain, q);
      } else {
        ChainPrefix(store, q, chain, |q| - 1);
      }
    }
  }

  lemma ChainNext(store: Store, p: seq<Commit>, q: seq<Commit>)
    requires IsChain(store, p) && IsChain(store, q) && p[0] == q[0] && |p| < |q|
    ensures FirstParent(store, p[|p| - 1], q[|p|])
  {
    ChainPrefix(store, p, q, |p| - 1);
  }

  lemma FailedRead(store: Store, before: Commit, after: Commit, chain: seq<Commit>, seen: set<Commit>)
    requires Descended(store, before, after, chain, seen)
    ensures Ancestor(store, after, chain[|chain| - 1])
    ensures Corrupt(store, chain[|chain| - 1]) ==> Unusable(store, after, Integrity)
    ensures Look(store, chain[|chain| - 1]).Failing? ==> Unusable(store, after, StoreFailure)
    ensures Look(store, chain[|chain| - 1]).Missing? ==> BrokenChain(store, after)
  {
    ChainSegment(store, chain, 0, |chain| - 1);
    assert ChainFrom(store, chain, after, chain[|chain| - 1]);
  }

  /** The commits that locating a source between two heads may read. */
  ghost function RangeRegion(store: Store, source: Commit, before: Commit, after: Commit): iset<Commit> {
    Region(store, source, before) + Region(store, source, after)
  }

  lemma SpendsInRange(store: Store, source: Commit, before: Commit, after: Commit, s: Spend, t: Spend, u: Spend)
    requires Spends(RangeRegion(store, source, before, after), s, t) && u.readCount <= MAX_CODE_EVIDENCE_READS
    requires Spends(Region(store, source, before), t, u) || Spends(Region(store, source, after), t, u)
    ensures Spends(RangeRegion(store, source, before, after), s, u)
  {
    var region := RangeRegion(store, source, before, after);
    if Spends(Region(store, source, before), t, u) {
      SpendsWider(Region(store, source, before), region, t, u);
    } else {
      SpendsWider(Region(store, source, after), region, t, u);
    }
    SpendsTrans(region, s, t, u);
  }

  lemma DescentSurvives(store: Store, source: Commit, before: Commit, after: Commit, since: Spend)
    ensures Survives(store, after, s => Spends(RangeRegion(store, source, before, after), since, s))
  {
    forall c, s, s' | Ancestor(store, after, c) && Pays(store, c, s, s')
      && Spends(RangeRegion(store, source, before, after), since, s)
      ensures Spends(RangeRegion(store, source, before, after), since, s')
    {
      SpendsOne(RangeRegion(store, source, before, after), store, c, since, s, s');
    }
  }

  method LocateInRange(evidence: GitEvidence, source: Commit, before: Commit, after: Commit) returns (r: Result<Commit>)
    requires evidence.Valid()
    modifies evidence
    ensures evidence.Valid() && (old(evidence.limited) ==> evidence.limited)
    ensures RangeLocated(evidence.trees, source, before, after, evidence.limited, evidence.requireComplete, r)
    ensures Spends(RangeRegion(evidence.trees, source, before, after), old(evidence.Spent()), evidence.Spent())
  {
    ghost var s := evidence.Spent();
    SpendsNothing(RangeRegion(evidence.trees, source, before, after), s);
    if !(ValidOID(source) && ValidOID(before) && ValidOID(after) && source.digits == before.digits == after.digits) {
      return Err(Validation);
    }
    var baseline := LocateIntroduction(evidence, source, before);
    SpendsInRange(evidence.trees, source, before, after, s, s, evidence.Spent());
    if baseline.Ok? {
      IntroductionReaches(evidence.trees, source, before, baseline.value);
      return Err(AlreadyPresent);
    }
    if baseline.error != NotFound {
      return Err(baseline.error);
    }
    r := LocateAfter(evidence, source, before, after, s);
  }

  /** The part after a baseline without the source. */
  method LocateAfter(
      evidence: GitEvidence, source: Commit, before: Commit, after: Commit, ghost since: Spend)
    returns (r: Result<Commit>)
    requires evidence.Valid() && AbsentIn(evidence.trees, source, before) && ValidPair(source, after)
    requires Spends(RangeRegion(evidence.trees, source, before, after), since, evidence.Spent())
    modifies evidence
    ensures evidence.Valid() && (old(evidence.limited) ==> evidence.limited)
    ensures RangeLocated(evidence.trees, source, before, after, evidence.limited, evidence.requireComplete, r)
    ensures Spends(RangeRegion(evidence.trees, source, before, after), since, evidence.Spent())
  {
    ghost var s := evidence.Spent();
    var introduction := LocateIntroduction(evidence, source, after);
    SpendsInRange(evidence.trees, source, before, after, since, s, evidence.Spent());
    if introduction.Err? {
      return Err(introduction.error);
    }
    DescentSurvives(evidence.trees, source, before, after, since);
    r := Descend(evidence, source, before, after, introduction.value,
                 u => Spends(RangeRegion(evidence.trees, source, before, after), since, u));
  }

  method Descend(
      evidence: GitEvidence, source: Commit, before: Commit, after: Commit, introduction: Commit,
      ghost pays: Spend -> bool)
    returns (r: Result<Commit>)
    requires evidence.Valid() && AbsentIn(evidence.trees, source, before)
    requires Survives(evidence.trees, after, pays) && pays(evidence.Spent())
    requires DefiniteIntroduction(evidence.trees, source, after, introduction)
    modifies evidence
    ensures evidence.Valid() && (old(evidence.limited) ==> evidence.limited) && pays(evidence.Spent())
    ensures RangeLocated(evidence.trees, source, before, after, evidence.limited, evidence.requireComplete, r)
  {
    var seen, introduced, current, steps := {}, false, after, 0;
    r := Err(Limit);
    ghost var chain := [after];
    while steps < MAX_CODE_EVIDENCE_READS
      invariant evidence.Valid() && (old(evidence.limited) ==> evidence.limited) && pays(evidence.Spent())
      invariant Descended(evidence.trees, before, after, chain, seen) && chain[|chain| - 1] == current
      invariant introduced <==> introduction in seen
      invariant |chain| == steps + 1 && r == Err(Limit)
    {
      if current == before {
        PassesIntroduction(evidence.trees, source, before, after, chain, seen, introduction);
        r := if introduced then Ok(introduction) else Err(Integrity);
        break;
      }
      if current in seen {
        SeenTwice(evidence.trees, before, after, chain, seen);
        r := Err(Integrity);
        break;
      }
      seen, introduced := seen + {current}, introduced || current == introduction;
      var proof := evidence.Read(current);
      FailedRead(evidence.trees, before, after, chain, seen - {current});
      if proof == Err(NotFound) {
        r := Err(if evidence.limited then Limit else Pending);
        break;
      }
      if proof.Err? {
        r := Err(proof.error);
        break;
      }
      if |proof.value| == 0 {
        ReachesRoot(evidence.trees, before, after, chain, seen - {current});
        IntroductionReaches(evidence.trees, source, after, introduction);
        r := Err(RangeDiscontinuous);
        break;
      }
      DescendedStep(evidence.trees, before, after, chain, seen - {current}, proof.value[0]);
      current, steps, chain := proof.value[0], steps + 1, chain + [proof.value[0]];
    }
  }

  /** Over sound, acyclic evidence no integrity error arises: neither a repeated commit on the path
      nor a baseline reached without passing the introduction. */
  lemma SoundEvidenceIsNotBlamed(
      store: Store, source: Commit, before: Commit, after: Commit, limited: bool, complete: bool, r: Result<Commit>)
    requires RangeLocated(store, source, before, after, limited, complete, r)
    requires Acyclic(store) && Healthy(store, source) && Healthy(store, before) && Healthy(store, after)
    ensures r != Err(Integrity) && r != Err(StoreFailure)
  {
    forall e, c | (e == Integrity || e == StoreFailure) && Healthy(store, c)
      ensures !Unusable(store, c, e)
    {
      assert forall a :: !ProperAncestor(store, a, a);
    }
  }
}
