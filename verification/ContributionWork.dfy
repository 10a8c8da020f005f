/** The job that looks for the read proving an admission: a cursor over the bound heads of the destination branch,
    claimed under a lease, moved by one head per run, and started over when a pass is done. */
module ContributionWork {
  import opened Basics

  datatype Status = Waiting | Processing | Retrying | Completed | Attention

  /** `after` is the admission's stamp; `through` bounds the current pass and is 0 between passes. */
  datatype Work = Work(
    version: nat, after: nat, cursor: nat, through: nat, status: Status, attempts: nat, leaseUntil: nat)

  /** How examining one head ended. */
  datatype Verdict =
    | Proven | ScopeChanged | SourceAbsent | EvidencePending | EvidenceLimit | Discontinuous | AlreadyPresent
    | Refused | Broken | Trouble

  function Versions(heads: seq<nat>): set<nat> {
    set h | h in heads
  }

  predicate Valid(w: Work) {
    && w.after >= 1 && w.cursor >= w.after
    && (w.through == 0 ==> w.cursor == w.after) && (w.through != 0 ==> w.cursor <= w.through)
  }

  /** A pass ends at a bound head, or at the stamp when no head was bound. Heads are never unbound. */
  ghost predicate Bounded(w: Work, heads: set<nat>) {
    Valid(w) && (w.through != 0 ==> w.through == w.after || w.through in heads)
  }

  /** The job of an admission as it is first stored. */
  function Enqueue(after: nat): Work {
    Work(0, after, after, 0, Waiting, 0, 0)
  }

  // ----- claiming -----

  /** The jobs the store hands out: those that wait, and those whose lease has run out. */
  predicate Claimable(w: Work, now: nat) {
    w.status == Waiting || w.status == Retrying || (w.status == Processing && w.leaseUntil <= now)
  }

  method Newest(heads: seq<nat>, atLeast: nat) returns (m: nat)
    ensures m >= atLeast && (m == atLeast || m in heads) && forall h :: h in heads ==> h <= m
  {
    m := atLeast;
    for i := 0 to |heads|
      invariant m >= atLeast && (m == atLeast || m in heads) && forall k :: 0 <= k < i ==> heads[k] <= m
    {
      if heads[i] > m {
        m := heads[i];
      }
    }
  }

  method Claim(w: Work, heads: seq<nat>, now: nat, lease: nat) returns (r: Work)
    requires Bounded(w, Versions(heads)) && lease > 0
    ensures Bounded(r, Versions(heads)) && r.through != 0 && r.status == Processing
    ensures r.version == w.version + 1 && r.attempts == w.attempts + 1 && r.leaseUntil == now + lease
    ensures r.after == w.after && r.cursor == w.cursor
    ensures w.through != 0 ==> r.through == w.through
    ensures w.through == 0 ==> forall h :: h in heads ==> h <= r.through
  {
    var through := w.through;
    if through == 0 {
      through := Newest(heads, w.after);
    }
    r := w.(version := w.version + 1, attempts := w.attempts + 1, status := Processing, leaseUntil := now + lease,
            through := through);
  }

  // ----- one run -----

  /** The next bound head of the pass. */
  ghost predicate IsNext(heads: set<nat>, cursor: nat, h: nat) {
    h in heads && h > cursor && forall g :: g in heads && g > cursor ==> h <= g
  }

  method NextHead(heads: seq<nat>, cursor: nat) returns (h: nat)
    ensures h == 0 ==> forall g :: g in heads ==> g <= cursor
    ensures h != 0 ==> IsNext(Versions(heads), cursor, h)
  {
    h := 0;
    for i := 0 to |heads|
      invariant h == 0 ==> forall k :: 0 <= k < i ==> heads[k] <= cursor
      invariant h != 0 ==> h in heads && h > cursor && forall k :: 0 <= k < i && heads[k] > cursor ==> h <= heads[k]
    {
      if heads[i] > cursor && (h == 0 || heads[i] < h) {
        h := heads[i];
      }
    }
  }

  /** The failures after which the job waits with its cursor moved. */
  predicate Waits(verdict: Verdict) {
    verdict == SourceAbsent || verdict == EvidencePending || verdict == Discontinuous || verdict == AlreadyPresent
  }

  function Failure(job: Work, cursor: nat, verdict: Verdict): Work {
    if verdict == Broken || verdict == EvidenceLimit then job.(status := Attention, leaseUntil := 0)
    else if Waits(verdict) then job.(status := Waiting, leaseUntil := 0, cursor := cursor)
    else job.(status := Retrying, leaseUntil := 0)
  }

  /** What a run finds before it looks at heads: the admission has its proof, has none, or something prevents the run,
      such as a refused authorization, a changed admission or heads that cannot be listed. */
  datatype Prior = Unproven | AlreadyProven | Prevented(reason: Verdict)

  /** Reasons for failing, as opposed to results. */
  predicate IsFailure(verdict: Verdict) {
    verdict != Proven && verdict != ScopeChanged
  }

  /** What a run asks to save: a reset when the pass has no head left, the next head's outcome otherwise. `examined`
      is that head, or 0. */
  method Run(job: Work, heads: seq<nat>, prior: Prior, verdict: nat -> Verdict) returns (next: Work, examined: nat)
    requires Bounded(job, Versions(heads)) && job.through != 0 && (prior.Prevented? ==> IsFailure(prior.reason))
    ensures next.version == job.version && next.attempts == job.attempts && next.after == job.after
    ensures prior == AlreadyProven ==> examined == 0 && next == job.(status := Completed, leaseUntil := 0)
    ensures prior.Prevented? ==> examined == 0 && next == Failure(job, job.cursor, prior.reason)
    ensures prior == Unproven ==> (examined == 0 <==> job.cursor == job.through)
    ensures prior == Unproven && examined == 0 ==>
              next == job.(status := Waiting, leaseUntil := 0, cursor := job.after, through := 0)
    ensures examined != 0 ==>
              prior == Unproven && IsNext(Versions(heads), job.cursor, examined) && examined <= job.through
    ensures examined != 0 ==>
              next == match verdict(examined)
                      case Proven => job.(status := Completed, leaseUntil := 0, cursor := examined)
                      case ScopeChanged => job.(status := Waiting, leaseUntil := 0, cursor := examined)
                      case other => Failure(job, examined, other)
  {
    examined := 0;
    match prior
    case AlreadyProven => return job.(status := Completed, leaseUntil := 0), 0;
    case Prevented(reason) => return Failure(job, job.cursor, reason), 0;
    case Unproven =>
      var h := NextHead(heads, job.cursor);
      if h == 0 || h > job.through {
        return job.(status := Waiting, leaseUntil := 0, cursor := job.after, through := 0), 0;
      }
      examined := h;
      next := match verdict(h)
        case Proven => job.(status := Completed, leaseUntil := 0, cursor := h)
        case ScopeChanged => job.(status := Waiting, leaseUntil := 0, cursor := h)
        case other => Failure(job, h, other);
  }

  // ----- finishing -----

  predicate IsReset(stored: Work, next: Work) {
    next.through == 0 && next.cursor == next.after && stored.cursor == stored.through
  }

  /** The store takes a result only from the newest claim, while its lease lasts, and only if the cursor moved
      forward within the pass or the finished pass is reset. Completion needs the proof. */
  predicate MayFinish(stored: Work, next: Work, proven: bool, now: nat) {
    && next.status != Processing && stored.status == Processing && stored.version == next.version
    && stored.attempts == next.attempts
    && stored.after == next.after && stored.leaseUntil > now
    && (IsReset(stored, next) || (next.through == stored.through && stored.cursor <= next.cursor <= stored.through))
    && (next.status == Completed ==> proven) && next.leaseUntil == 0 && Valid(next)
  }

  /** How the write of a result ended. A failed write leaves nothing behind, and its reason is recorded instead. */
  datatype Write = Written | WriteFailed(reason: Verdict)

  /** The record that a failed write would leave is refused: it is that of a finished pass with a head in it, whose
      reset failed for a reason to wait, and it would move the cursor back to the stamp. */
  predicate ResetLost(job: Work, prior: Prior, write: Write) {
    prior == Unproven && job.cursor == job.through && job.after < job.through && write.WriteFailed?
      && Waits(write.reason)
  }

  /** A whole run: what it has chosen is written, together with the contribution it may have prepared, and if that
      fails a failure record is. The store takes what the run saves unless the reset of a pass is lost. A job is
      completed exactly when the admission is proven and the write did not fail. */
  method FinishOwn(
      job: Work, heads: seq<nat>, prior: Prior, verdict: nat -> Verdict, write: Write, now: nat)
    returns (saved: Work, examined: nat)
    requires Bounded(job, Versions(heads)) && job.through != 0 && job.status == Processing && job.leaseUntil > now
    requires (prior.Prevented? ==> IsFailure(prior.reason)) && (write.WriteFailed? ==> IsFailure(write.reason))
    ensures var proof := prior == AlreadyProven || (examined != 0 && verdict(examined) == Proven);
            && (MayFinish(job, saved, proof, now) <==> !ResetLost(job, prior, write))
            && (MayFinish(job, saved, proof, now) ==> Bounded(saved, Versions(heads)))
            && (saved.status == Completed <==> proof && write == Written)
    ensures ResetLost(job, prior, write) ==> saved == Failure(job, job.after, write.reason)
    ensures saved.version == job.version && saved.attempts == job.attempts
  {
    saved, examined := Run(job, heads, prior, verdict);
    if write.WriteFailed? && !prior.Prevented? && (examined == 0 || !IsFailure(verdict(examined))) {
      saved := Failure(job, saved.cursor, write.reason);
    }
  }

  /** A pass over one head: its reset is not written because something is not found, and the record of that is
      refused. */
  method LostReset() returns (job: Work, saved: Work)
    ensures job == Work(1, 1, 2, 2, Processing, 1, 9) && saved == job.(status := Waiting, cursor := 1, leaseUntil := 0)
    ensures !MayFinish(job, saved, false, 0)
  {
    job := Work(1, 1, 2, 2, Processing, 1, 9);
    var examined;
    saved, examined := FinishOwn(job, [2], Unproven, h => SourceAbsent, WriteFailed(SourceAbsent), 0);
  }

  // ----- a whole pass -----

  /** The heads a pass examines, one per run, when none of them proves the admission. */
  ghost function Pass(heads: set<nat>, cursor: nat, through: nat): seq<nat>
    decreases through - cursor
  {
    if exists h: nat :: IsNext(heads, cursor, h) && h <= through then
      var h: nat :| IsNext(heads, cursor, h) && h <= through;
      [h] + Pass(heads, h, through)
    else []
  }

  /** It examines every head bound above the stamp and within the pass, in increasing order, once. */
  lemma {:induction false} PassExact(heads: set<nat>, cursor: nat, through: nat)
    ensures forall h :: h in Pass(heads, cursor, through) <==> h in heads && cursor < h <= through
    ensures forall i, j :: 0 <= i < j < |Pass(heads, cursor, through)| ==>
              Pass(heads, cursor, through)[i] < Pass(heads, cursor, through)[j]
    decreases through - cursor
  {
    if exists h: nat :: IsNext(heads, cursor, h) && h <= through {
      var p := Pass(heads, cursor, through);
      var h := p[0];
      assert IsNext(heads, cursor, h) && h <= through && p == [h] + Pass(heads, h, through);
      PassExact(heads, h, through);
      forall k | 0 < k < |p|
        ensures h < p[k]
      {
        assert p[k] in Pass(heads, h, through);
      }
    } else {
      NoneLeft(heads, cursor, through);
    }
  }

  lemma {:induction false} NoneLeft(heads: set<nat>, cursor: nat, through: nat)
    requires !exists h: nat :: IsNext(heads, cursor, h) && h <= through
    ensures forall h :: h in heads ==> !(cursor < h <= through)
  {
    forall h | h in heads && cursor < h <= through
      ensures false
    {
      var least := Least(heads, cursor, h);
    }
  }

  lemma {:induction false} Least(heads: set<nat>, cursor: nat, h: nat) returns (least: nat)
    requires h in heads && h > cursor
    ensures IsNext(heads, cursor, least) && least <= h
    decreases h
  {
    if exists g :: g in heads && cursor < g < h {
      var g :| g in heads && cursor < g < h;
      least := Least(heads, cursor, g);
    } else {
      least := h;
    }
  }

  /** Runs that all wait examine exactly the heads of the pass and then reset it. */
  method FullPass(job: Work, heads: seq<nat>, verdict: nat -> Verdict) returns (seen: seq<nat>, last: Work)
    requires Bounded(job, Versions(heads)) && job.through != 0
    requires forall h :: Waits(verdict(h)) || verdict(h) == ScopeChanged
    ensures seen == Pass(Versions(heads), job.cursor, job.through)
    ensures last.through == 0 && last.cursor == job.after && last.status == Waiting
  {
    var w, examined := job, 0;
    ghost var all := Versions(heads);
    seen := [];
    while true
      invariant Bounded(w, all) && w.through == job.through && w.after == job.after
      invariant Pass(all, job.cursor, job.through) == seen + Pass(all, w.cursor, w.through)
      decreases w.through - w.cursor
    {
      last, examined := Run(w, heads, Unproven, verdict);
      if examined == 0 {
        assert Pass(all, w.cursor, w.through) == [] && seen + [] == seen;
        return;
      }
      PassStep(all, w.cursor, w.through, examined);
      Regroup(Pass(all, job.cursor, job.through), seen, [examined], Pass(all, examined, w.through),
              Pass(all, w.cursor, w.through));
      w, seen := last, seen + [examined];
    }
  }

  lemma PassStep(heads: set<nat>, cursor: nat, through: nat, h: nat)
    requires IsNext(heads, cursor, h) && h <= through
    ensures Pass(heads, cursor, through) == [h] + Pass(heads, h, through)
  {
    assert exists g: nat :: IsNext(heads, cursor, g) && g <= through;
    var g := Pass(heads, cursor, through)[0];
    assert IsNext(heads, cursor, g);
  }
}
