/** Every interleaving of claims, expiring leases and finishes of one job. */
module ContributionWorkRuns {
  import opened ContributionWork

  /** The stored job, the bound heads, whether the proof is stored, and for each worker the job it was handed. */
  datatype System = System(stored: Work, heads: set<nat>, proven: bool, clock: nat, workers: map<nat, Work>)

  datatype Action =
    | Take(worker: nat, lease: nat)
    | Save(worker: nat, result: Work, ok: bool)
    | Bind(version: nat)
    | Prove
    | Lose(worker: nat)

  /** What the store writes for a claim. */
  ghost predicate Taken(w: Work, heads: set<nat>, now: nat, lease: nat, w': Work) {
    && Claimable(w, now) && lease > 0
    && w' == w.(version := w.version + 1, attempts := w.attempts + 1, status := Processing, leaseUntil := now + lease,
                through := w'.through)
    && (w.through != 0 ==> w'.through == w.through)
    && (w.through == 0 ==>
          w'.through >= w.after && (w'.through == w.after || w'.through in heads) && forall h :: h in heads ==>
            h <= w'.through)
  }

  /** Any worker may save any result under the version and attempt it was handed. */
  ghost predicate Next(y: System, action: Action, z: System) {
    y.clock <= z.clock &&
    match action
    case Take(w, lease) =>
      && w !in y.workers && Taken(y.stored, y.heads, z.clock, lease, z.stored)
      && z == y.(stored := z.stored, clock := z.clock, workers := y.workers[w := z.stored])
    case Save(w, result, ok) =>
      && w in y.workers && result.version == y.workers[w].version && result.attempts == y.workers[w].attempts
      && (ok <==> MayFinish(y.stored, result, y.proven, z.clock))
      && z == y.(stored := if ok then result else y.stored, clock := z.clock, workers := y.workers - {w})
    case Bind(version) =>
      z == y.(heads := y.heads + {version}, clock := z.clock)
    case Prove =>
      z == y.(proven := true, clock := z.clock)
    case Lose(w) =>
      z == y.(clock := z.clock, workers := y.workers - {w})
  }

  /** The claim as the store makes it is a step. */
  method TakeNext(y: System, heads: seq<nat>, w: nat, now: nat, lease: nat) returns (z: System)
    requires Invariant(y) && Versions(heads) == y.heads && y.clock <= now && lease > 0 && Claimable(y.stored, now)
             && w !in y.workers
    ensures Next(y, Take(w, lease), z) && Invariant(z)
  {
    var claimed := Claim(y.stored, heads, now, lease);
    z := y.(stored := claimed, clock := now, workers := y.workers[w := claimed]);
    InvariantStep(y, Take(w, lease), z);
  }

  // ----- the invariant -----

  ghost predicate VersionsDiffer(y: System) {
    forall v, w :: v in y.workers && w in y.workers && v != w ==> y.workers[v].version != y.workers[w].version
  }

  /** A worker was handed an earlier version, or what is stored: nothing else is written under a version. */
  ghost predicate HandedOut(y: System) {
    forall w :: w in y.workers ==>
      y.workers[w].version <= y.stored.version
        && (y.workers[w].version == y.stored.version && y.stored.status == Processing ==> y.workers[w] == y.stored)
  }

  ghost predicate Invariant(y: System) {
    && Bounded(y.stored, y.heads) && VersionsDiffer(y) && HandedOut(y)
    && (y.stored.status == Completed ==> y.proven)
  }

  /** The job as it is enqueued, before any worker. */
  lemma InitialInvariant(after: nat, heads: set<nat>, proven: bool, clock: nat)
    requires after >= 1
    ensures Invariant(System(Enqueue(after), heads, proven, clock, map[]))
  {
  }

  lemma InvariantStep(y: System, action: Action, z: System)
    requires Invariant(y) && Next(y, action, z)
    ensures Invariant(z)
  {
  }

  /** What no action undoes: versions rise, a completed job stays as it is, and what was saved under a version stays
      until the next claim. */
  ghost predicate Grows(y: System, z: System) {
    && y.stored.version <= z.stored.version && y.clock <= z.clock && y.heads <= z.heads && (y.proven ==> z.proven)
    && z.stored.after == y.stored.after
    && (y.stored.status == Completed ==> z.stored == y.stored)
    && (y.stored.version == z.stored.version && y.stored.status != Processing ==> z.stored == y.stored)
    && (y.stored.version == z.stored.version && z.stored.status == Processing ==> z.stored == y.stored)
  }

  lemma StepGrows(y: System, action: Action, z: System)
    requires Invariant(y) && Next(y, action, z)
    ensures Grows(y, z)
  {
  }

  lemma GrowsTrans(x: System, y: System, z: System)
    requires Grows(x, y) && Grows(y, z)
    ensures Grows(x, z)
  {
  }

  // ----- whole runs -----

  ghost predicate Run(systems: seq<System>, actions: seq<Action>) {
    |systems| == |actions| + 1 && forall i :: 0 <= i < |actions| ==> StepAt(systems, actions, i)
  }

  ghost predicate StepAt(systems: seq<System>, actions: seq<Action>, i: int) {
    0 <= i < |actions| && i + 1 < |systems| && Next(systems[i], actions[i], systems[i + 1])
  }

  lemma {:induction false} InvariantRun(systems: seq<System>, actions: seq<Action>, i: nat, j: nat)
    requires Run(systems, actions) && Invariant(systems[0]) && i <= j < |systems|
    ensures Invariant(systems[j]) && Grows(systems[i], systems[j])
    decreases j
  {
    if j > 0 {
      InvariantRun(systems, actions, if i < j then i else i - 1, j - 1);
      assert StepAt(systems, actions, j - 1);
      InvariantStep(systems[j - 1], actions[j - 1], systems[j]);
      StepGrows(systems[j - 1], actions[j - 1], systems[j]);
      if i < j {
        GrowsTrans(systems[i], systems[j - 1], systems[j]);
      }
    }
  }

  /** A worker whose result is saved had taken the job, and from then to that moment nothing was written to it: the
      job was not taken again, and no other result was saved. */
  lemma OnlyNewestIsSaved(systems: seq<System>, actions: seq<Action>, i: nat, j: nat, k: nat)
    requires Run(systems, actions) && Invariant(systems[0]) && i < j < |actions| && i < k <= j
    requires actions[i].Take? && actions[j].Save? && actions[j].ok && actions[j].worker in systems[j].workers
    requires actions[i].worker in systems[i + 1].workers
    requires systems[j].workers[actions[j].worker] == systems[i + 1].workers[actions[i].worker]
    ensures systems[k].stored == systems[i + 1].stored
    ensures k < j ==> !actions[k].Take? && !(actions[k].Save? && actions[k].ok)
  {
    StoredThroughout(systems, actions, i, j, k);
    if k < j {
      StoredThroughout(systems, actions, i, j, k + 1);
      assert StepAt(systems, actions, k);
    }
  }

  lemma StoredThroughout(systems: seq<System>, actions: seq<Action>, i: nat, j: nat, k: nat)
    requires Run(systems, actions) && Invariant(systems[0]) && i < j < |actions| && i < k <= j
    requires actions[i].Take? && actions[j].Save? && actions[j].ok && actions[j].worker in systems[j].workers
    requires actions[i].worker in systems[i + 1].workers
    requires systems[j].workers[actions[j].worker] == systems[i + 1].workers[actions[i].worker]
    ensures systems[k].stored == systems[i + 1].stored && systems[k].stored.status == Processing
  {
    InvariantRun(systems, actions, i + 1, k);
    InvariantRun(systems, actions, k, j);
    assert StepAt(systems, actions, i) && StepAt(systems, actions, j);
    assert systems[i + 1].stored == systems[j].workers[actions[j].worker] == systems[j].stored;
    assert Grows(systems[i + 1], systems[k]) && Grows(systems[k], systems[j]);
  }

  /** A completed job is proven, and stays as it was completed. */
  lemma CompletedForGood(systems: seq<System>, actions: seq<Action>, i: nat, j: nat)
    requires Run(systems, actions) && Invariant(systems[0]) && i <= j < |systems|
             && systems[i].stored.status == Completed
    ensures systems[j].stored == systems[i].stored && systems[i].proven
  {
    InvariantRun(systems, actions, i, j);
    InvariantRun(systems, actions, i, i);
  }

  /** A result saved under an earlier claim is refused at every moment of a run. */
  lemma EarlierIsRefused(systems: seq<System>, actions: seq<Action>, i: nat, k: nat, j: nat)
    requires Run(systems, actions) && Invariant(systems[0]) && i < k < j < |actions| && actions[i].Take?
             && actions[k].Take?
    requires actions[j].Save? && actions[j].worker in systems[j].workers && actions[i].worker in systems[i + 1].workers
    requires systems[j].workers[actions[j].worker] == systems[i + 1].workers[actions[i].worker]
    ensures !actions[j].ok && systems[j + 1].stored == systems[j].stored
  {
    if actions[j].ok {
      OnlyNewestIsSaved(systems, actions, i, j, k);
    }
    assert StepAt(systems, actions, j);
  }
}
