/** Every interleaving of webhooks, owners' commands, reconciles and deliveries. */
module GitHubRuns {
  import opened GitHubSync
  import opened Obligations

  /** A reconcile under way: the lease it took and its number among the reconciles of its namespace. */
  datatype Reconcile = Reconcile(lease: Lease, serial: nat)

  datatype Work = Work(id: nat, lease: nat)

  /** `newest` numbers the reconciles begun in each namespace. */
  datatype System = System(
    state: State, clock: nat, newest: map<nat, nat>, reconciles: map<nat, Reconcile>, works: map<nat, Work>)

  datatype Action =
    | Webhook(id: nat, kind: Kind, installation: nat, bodyHash: nat, ok: bool)
    | Configure(ns: nat)
    | Begin(worker: nat, ns: nat)
    | Finish(worker: nat, answer: Answer, eligible: set<Grant>, ok: bool)
    | Claim(worker: nat, id: nat)
    | Deliver(worker: nat, worked: bool, ok: bool)
    | Lose(worker: nat)

  function Newest(y: System, ns: nat): nat {
    if ns in y.newest then y.newest[ns] else 0
  }

  /** An owner changes a connection: always a new generation, and the next reconcile may begin at once. */
  ghost predicate Configured(s: State, ns: nat, now: nat, s': State) {
    && s'.deliveries == s.deliveries && s'.leases == s.leases
    && ns in s'.connections && s'.connections == s.connections[ns := s'.connections[ns]]
    && s'.connections[ns].generation == (if ns in s.connections then s.connections[ns].generation else 0) + 1
    && s'.connections[ns].nextSync == now
  }

  ghost predicate Next(y: System, action: Action, z: System) {
    y.clock <= z.clock &&
    match action
    case Webhook(id, kind, installation, bodyHash, ok) =>
      z == y.(state := z.state, clock := z.clock)
        && Received(y.state, id, kind, installation, bodyHash, z.clock, z.state, ok)
    case Configure(ns) =>
      z == y.(state := z.state, clock := z.clock) && Configured(y.state, ns, z.clock, z.state)
    case Begin(w, ns) =>
      && w !in y.reconciles && w in z.reconciles && Began(y.state, ns, z.clock, z.state, z.reconciles[w].lease)
      && z == y.(state := z.state, clock := z.clock, newest := y.newest[ns := Newest(y, ns) + 1],
                 reconciles := y.reconciles[w := Reconcile(z.reconciles[w].lease, Newest(y, ns) + 1)])
    case Finish(w, answer, eligible, ok) =>
      && w in y.reconciles && z == y.(state := z.state, clock := z.clock, reconciles := y.reconciles - {w})
      && Finished(y.state, y.reconciles[w].lease, answer, eligible, z.clock, z.state, ok)
    case Claim(w, id) =>
      && w !in y.works && Claimed(y.state, id, z.clock, z.state, z.state.leases)
      && z == y.(state := z.state, clock := z.clock, works := y.works[w := Work(id, z.state.leases)])
    case Deliver(w, worked, ok) =>
      && w in y.works && z == y.(state := z.state, clock := z.clock, works := y.works - {w})
      && Delivered(y.state, y.works[w].id, y.works[w].lease, worked, z.clock, z.state, ok)
    case Lose(w) =>
      z == y.(clock := z.clock, reconciles := y.reconciles - {w}, works := y.works - {w})
  }

  // ----- the invariant -----

  /** A reconcile of the current generation either holds the newest lease, or its lease has run out and can never be
      the connection's again. */
  ghost predicate ReconcileHolds(y: System, a: Reconcile) {
    Whole(&& a.lease.ns in y.state.connections && a.serial <= Newest(y, a.lease.ns)
          && a.lease.generation <= y.state.connections[a.lease.ns].generation
          && (a.lease.generation == y.state.connections[a.lease.ns].generation ==>
                if a.serial == Newest(y, a.lease.ns) then y.state.connections[a.lease.ns].nextSync == a.lease.until
                else y.state.connections[a.lease.ns].nextSync > a.lease.until && a.lease.until <= y.clock))
  }

  ghost predicate SerialsDiffer(y: System) {
    forall v, w ::
      (v in y.reconciles && w in y.reconciles && v != w && y.reconciles[v].lease.ns == y.reconciles[w].lease.ns) ==>
        y.reconciles[v].serial != y.reconciles[w].serial
  }

  ghost predicate LeasesBounded(y: System) {
    && (forall id :: id in y.state.deliveries ==> y.state.deliveries[id].lease <= y.state.leases)
    && (forall w :: w in y.works ==> 0 < y.works[w].lease <= y.state.leases && y.works[w].id in y.state.deliveries)
  }

  ghost predicate WorksDiffer(y: System) {
    forall v, w :: v in y.works && w in y.works && v != w ==> y.works[v].lease != y.works[w].lease
  }

  /** A worker whose lease is still the delivery's works on that delivery, which is not done. */
  ghost predicate WorksFit(y: System) {
    forall w, id :: w in y.works && id in y.state.deliveries && y.state.deliveries[id].lease == y.works[w].lease ==>
      id == y.works[w].id && !y.state.deliveries[id].done
  }

  /** Leases are given out once. A delivery that is done keeps the lease it was done under, and nobody holds it. */
  ghost predicate DeliveriesHold(y: System) {
    Whole(LeasesBounded(y)) && Whole(WorksDiffer(y)) && Whole(WorksFit(y))
  }

  ghost predicate Invariant(y: System) {
    SerialsDiffer(y) && DeliveriesHold(y) && forall w :: w in y.reconciles ==> ReconcileHolds(y, y.reconciles[w])
  }

  // ----- reconciles -----

  /** Only the newest reconcile of the current generation passes the fence. */
  lemma FenceIsNewest(y: System, w: nat)
    requires Invariant(y) && w in y.reconciles && Fence(y.state, y.reconciles[w].lease)
    ensures y.reconciles[w].serial == Newest(y, y.reconciles[w].lease.ns)
    ensures y.reconciles[w].lease.generation == y.state.connections[y.reconciles[w].lease.ns].generation
  {
    assert ReconcileHolds(y, y.reconciles[w]);
  }

  lemma ReconcileStep(y: System, action: Action, z: System, w: nat)
    requires Invariant(y) && Next(y, action, z) && w in z.reconciles
    ensures ReconcileHolds(z, z.reconciles[w])
  {
    if w in y.reconciles && z.reconciles[w] == y.reconciles[w] {
      var a := y.reconciles[w];
      assert ReconcileHolds(y, a);
      if action.Finish? && action.worker != w && action.ok && y.reconciles[action.worker].lease.ns == a.lease.ns {
        FenceIsNewest(y, action.worker);
      }
    }
  }

  lemma SerialsStep(y: System, action: Action, z: System)
    requires Invariant(y) && Next(y, action, z)
    ensures SerialsDiffer(z)
  {
    if action.Begin? {
      forall w | w in y.reconciles && y.reconciles[w].lease.ns == action.ns
        ensures y.reconciles[w].serial <= Newest(y, action.ns)
      {
        assert ReconcileHolds(y, y.reconciles[w]);
      }
    }
  }

  // ----- deliveries -----

  lemma DeliveriesStep(y: System, action: Action, z: System)
    requires Invariant(y) && Next(y, action, z)
    ensures DeliveriesHold(z)
  {
    match action
    case Claim(w, id) =>
      ClaimStep(y, w, id, z);
    case Deliver(w, worked, ok) =>
      DeliverStep(y, w, worked, ok, z);
    case _ =>
      KeptStep(y, action, z);
      StoredStep(y, z);
  }

  /** Old deliveries as they were, new ones without a lease, and no new work. */
  ghost predicate Stored(y: System, z: System) {
    && z.state.leases == y.state.leases && (forall w :: w in z.works ==> w in y.works && z.works[w] == y.works[w])
    && (forall id :: id in y.state.deliveries ==>
          id in z.state.deliveries && z.state.deliveries[id] == y.state.deliveries[id])
    && (forall id :: id in z.state.deliveries && id !in y.state.deliveries ==> z.state.deliveries[id].lease == 0)
  }

  lemma KeptStep(y: System, action: Action, z: System)
    requires Next(y, action, z) && !action.Claim? && !action.Deliver?
    ensures Stored(y, z)
  {
  }

  lemma StoredStep(y: System, z: System)
    requires DeliveriesHold(y) && Stored(y, z)
    ensures DeliveriesHold(z)
  {
  }

  lemma ClaimStep(y: System, w: nat, id: nat, z: System)
    requires DeliveriesHold(y) && Next(y, Claim(w, id), z)
    ensures DeliveriesHold(z)
  {
    ClaimGives(y, w, id, z);
    ClaimDiffers(y, w, id, z);
    ClaimFits(y, w, id, z);
  }

  /** A claim gives one delivery and one worker a new lease. */
  ghost predicate Given(y: System, w: nat, id: nat, z: System) {
    && z.state.leases == y.state.leases + 1 && z.works == y.works[w := Work(id, z.state.leases)]
    && id in z.state.deliveries && z.state.deliveries.Keys == y.state.deliveries.Keys
    && (forall i :: i in y.state.deliveries && i != id ==> z.state.deliveries[i] == y.state.deliveries[i])
    && z.state.deliveries[id].lease == z.state.leases && !z.state.deliveries[id].done
  }

  lemma ClaimGives(y: System, w: nat, id: nat, z: System)
    requires Next(y, Claim(w, id), z)
    ensures Given(y, w, id, z)
  {
  }

  lemma ClaimDiffers(y: System, w: nat, id: nat, z: System)
    requires LeasesBounded(y) && WorksDiffer(y) && Given(y, w, id, z)
    ensures LeasesBounded(z) && WorksDiffer(z)
  {
  }

  lemma ClaimFits(y: System, w: nat, id: nat, z: System)
    requires LeasesBounded(y) && WorksFit(y) && Given(y, w, id, z)
    ensures WorksFit(z)
  {
  }

  lemma DeliverStep(y: System, w: nat, worked: bool, ok: bool, z: System)
    requires DeliveriesHold(y) && Next(y, Deliver(w, worked, ok), z)
    ensures DeliveriesHold(z)
  {
    assert z.state.leases == y.state.leases && z.works == y.works - {w};
    assert z.state.deliveries.Keys == y.state.deliveries.Keys;
    assert forall i :: i in y.state.deliveries && (i != y.works[w].id || !ok) ==>
             z.state.deliveries[i] == y.state.deliveries[i];
    assert forall i :: i in y.state.deliveries ==> z.state.deliveries[i].lease == y.state.deliveries[i].lease;
  }

  lemma InvariantStep(y: System, action: Action, z: System)
    requires Invariant(y) && Next(y, action, z)
    ensures Invariant(z)
  {
    SerialsStep(y, action, z);
    DeliveriesStep(y, action, z);
    forall w | w in z.reconciles
      ensures ReconcileHolds(z, z.reconciles[w])
    {
      ReconcileStep(y, action, z, w);
    }
  }

  /** What no action undoes. */
  ghost predicate Grows(y: System, z: System) {
    && y.clock <= z.clock
    && (forall ns :: Newest(y, ns) <= Newest(z, ns))
    && (forall ns :: ns in y.state.connections ==>
          ns in z.state.connections && y.state.connections[ns].generation <= z.state.connections[ns].generation)
    && (forall id :: id in y.state.deliveries ==>
          && id in z.state.deliveries && z.state.deliveries[id].bodyHash == y.state.deliveries[id].bodyHash
          && z.state.deliveries[id].kind == y.state.deliveries[id].kind
          && (y.state.deliveries[id].done ==>
                z.state.deliveries[id].done && z.state.deliveries[id].lease == y.state.deliveries[id].lease))
  }

  lemma StepGrows(y: System, action: Action, z: System)
    requires Invariant(y) && Next(y, action, z)
    ensures Grows(y, z)
  {
  }

  lemma GrowsTrans(x: System, y: System, z: System)
    requires Grows(x, y) && Grows(y, z)
    ensures Grows(x, z)
  {
  }

  // ----- whole runs -----

  ghost predicate Run(systems: seq<System>, actions: seq<Action>) {
    |systems| == |actions| + 1 && forall i :: 0 <= i < |actions| ==> StepAt(systems, actions, i)
  }

  ghost predicate StepAt(systems: seq<System>, actions: seq<Action>, i: int) {
    0 <= i < |actions| && i + 1 < |systems| && Next(systems[i], actions[i], systems[i + 1])
  }

  lemma {:induction false} InvariantRun(systems: seq<System>, actions: seq<Action>, i: nat, j: nat)
    requires Run(systems, actions) && Invariant(systems[0]) && i <= j < |systems|
    ensures Invariant(systems[j]) && Grows(systems[i], systems[j])
    decreases j
  {
    if j > 0 {
      InvariantRun(systems, actions, if i < j then i else i - 1, j - 1);
      assert StepAt(systems, actions, j - 1);
      InvariantStep(systems[j - 1], actions[j - 1], systems[j]);
      StepGrows(systems[j - 1], actions[j - 1], systems[j]);
      if i < j {
        GrowsTrans(systems[i], systems[j - 1], systems[j]);
      }
    }
  }

  /** One reconcile from its beginning in `b` to its end in `e`, seen at any moment `m` between. */
  lemma NewestThroughout(a: System, b: System, m: System, e: System, z: System, start: Action, end: Action)
    requires start.Begin? && Next(a, start, b) && Grows(b, m) && Grows(m, e) && Invariant(e) && end.Finish? && end.ok
             && Next(e, end, z)
    requires start.worker in b.reconciles && end.worker in e.reconciles
             && e.reconciles[end.worker] == b.reconciles[start.worker]
    ensures start.ns in a.state.connections && start.ns in m.state.connections
    ensures m.state.connections[start.ns].generation == a.state.connections[start.ns].generation
    ensures Newest(m, start.ns) == Newest(a, start.ns) + 1
  {
    var ns := start.ns;
    assert e.reconciles[end.worker].serial == Newest(a, ns) + 1 == Newest(b, ns);
    FenceIsNewest(e, end.worker);
    assert Newest(b, ns) <= Newest(m, ns) <= Newest(e, ns);
  }

  /** A reconcile that installs grants was, from its beginning to that moment, the newest of its namespace, and the
      generation never moved: whatever began before a webhook, an owner's change or a newer reconcile is refused. */
  lemma StaleNeverInstalled(systems: seq<System>, actions: seq<Action>, i: nat, j: nat, k: nat)
    requires Run(systems, actions) && Invariant(systems[0]) && i < j < |actions| && i < k <= j
    requires actions[i].Begin? && actions[j].Finish? && actions[j].ok && actions[j].worker == actions[i].worker
    requires actions[i].worker in systems[i + 1].reconciles && actions[j].worker in systems[j].reconciles
    requires systems[j].reconciles[actions[j].worker] == systems[i + 1].reconciles[actions[i].worker]
    ensures actions[i].ns in systems[i].state.connections && actions[i].ns in systems[k].state.connections
    ensures systems[k].state.connections[actions[i].ns].generation
            == systems[i].state.connections[actions[i].ns].generation
    ensures Newest(systems[k], actions[i].ns) == Newest(systems[i], actions[i].ns) + 1
    ensures k < j ==> !(actions[k].Begin? && actions[k].ns == actions[i].ns)
  {
    NewestAt(systems, actions, i, j, k);
    if k < j && actions[k].Begin? && actions[k].ns == actions[i].ns {
      NewestAt(systems, actions, i, j, k + 1);
      assert StepAt(systems, actions, k);
      BeginRaises(systems[k], actions[k], systems[k + 1]);
    }
  }

  lemma BeginRaises(y: System, action: Action, z: System)
    requires action.Begin? && Next(y, action, z)
    ensures Newest(z, action.ns) == Newest(y, action.ns) + 1
  {
  }

  lemma NewestAt(systems: seq<System>, actions: seq<Action>, i: nat, j: nat, k: nat)
    requires Run(systems, actions) && Invariant(systems[0]) && i < j < |actions| && i < k <= j
    requires actions[i].Begin? && actions[j].Finish? && actions[j].ok
    requires actions[i].worker in systems[i + 1].reconciles && actions[j].worker in systems[j].reconciles
    requires systems[j].reconciles[actions[j].worker] == systems[i + 1].reconciles[actions[i].worker]
    ensures actions[i].ns in systems[i].state.connections && actions[i].ns in systems[k].state.connections
    ensures systems[k].state.connections[actions[i].ns].generation
            == systems[i].state.connections[actions[i].ns].generation
    ensures Newest(systems[k], actions[i].ns) == Newest(systems[i], actions[i].ns) + 1
  {
    InvariantRun(systems, actions, i + 1, k);
    InvariantRun(systems, actions, k, j);
    assert StepAt(systems, actions, i) && StepAt(systems, actions, j);
    NewestThroughout(systems[i], systems[i + 1], systems[k], systems[j], systems[j + 1], actions[i], actions[j]);
  }

  /** A delivery becomes done only under the newest lease it was given, at a moment it was not done. */
  lemma DoneUnderNewestLease(y: System, action: Action, z: System, id: nat)
    requires Invariant(y) && Next(y, action, z) && id in y.state.deliveries && id in z.state.deliveries
    requires !y.state.deliveries[id].done && z.state.deliveries[id].done
    ensures action.Deliver? && action.worker in y.works
            && y.works[action.worker] == Work(id, y.state.deliveries[id].lease)
  {
  }

  /** Once done a delivery stays done, and through all replays of its webhook it keeps its kind and body hash. */
  lemma DeliveryIsKept(systems: seq<System>, actions: seq<Action>, i: nat, j: nat, id: nat)
    requires Run(systems, actions) && Invariant(systems[0]) && i <= j < |systems| && id in systems[i].state.deliveries
    ensures id in systems[j].state.deliveries
    ensures systems[j].state.deliveries[id].bodyHash == systems[i].state.deliveries[id].bodyHash
    ensures systems[j].state.deliveries[id].kind == systems[i].state.deliveries[id].kind
    ensures systems[i].state.deliveries[id].done ==> systems[j].state.deliveries[id].done
  {
    InvariantRun(systems, actions, i, j);
  }

  // ----- the store in a run -----

  /** Before any reconcile, delivery or worker the invariant holds, whatever the connections and grants. */
  lemma InitialInvariant(connections: map<nat, Connection>, members: map<nat, set<Grant>>, clock: nat)
    ensures Invariant(System(State(connections, members, map[], 0), clock, map[], map[], map[]))
  {
  }

  /** A webhook is a step of the run. */
  method ReceiveNext(store: Store, ghost y: System, id: nat, kind: Kind, installation: nat, bodyHash: nat, now: nat)
    returns (ok: bool, ghost z: System)
    requires Invariant(y) && store.View() == y.state && y.clock <= now
    modifies store
    ensures Next(y, Webhook(id, kind, installation, bodyHash, ok), z) && Invariant(z) && z.state == store.View()
  {
    ok := store.Receive(id, kind, installation, bodyHash, now);
    z := y.(state := store.View(), clock := now);
    InvariantStep(y, Webhook(id, kind, installation, bodyHash, ok), z);
  }

  /** A reconcile that begins is a step of the run: its lease passes the fence from then on, and that of no other
      reconcile under way in the namespace does. */
  method BeginNext(
      store: Store, ghost y: System, ghost w: nat, ns: nat, now: nat, policy: bool)
    returns (ok: bool, lease: Lease, ghost z: System)
    requires Invariant(y) && store.View() == y.state && y.clock <= now && w !in y.reconciles
    modifies store
    ensures z.state == store.View() && Invariant(z) && (!ok ==> z == y) && (ok ==> Next(y, Begin(w, ns), z))
    ensures ok ==> w in z.reconciles && z.reconciles[w].lease == lease && Fence(store.View(), lease)
    ensures ok ==> forall v :: v in y.reconciles && y.reconciles[v].lease.ns == ns ==>
              !Fence(store.View(), y.reconciles[v].lease)
  {
    ok, lease := store.BeginReconcile(ns, now, policy);
    z := y;
    if ok {
      z := y.(state := store.View(), clock := now, newest := y.newest[ns := Newest(y, ns) + 1],
              reconciles := y.reconciles[w := Reconcile(lease, Newest(y, ns) + 1)]);
      InvariantStep(y, Begin(w, ns), z);
      OthersShutOut(y, w, ns, z);
    }
  }

  lemma OthersShutOut(y: System, w: nat, ns: nat, z: System)
    requires Invariant(y) && Invariant(z) && Next(y, Begin(w, ns), z)
    ensures forall v :: v in y.reconciles && y.reconciles[v].lease.ns == ns ==> !Fence(z.state, y.reconciles[v].lease)
  {
    forall v | v in y.reconciles && y.reconciles[v].lease.ns == ns
      ensures !Fence(z.state, y.reconciles[v].lease)
    {
      assert v != w && z.reconciles[v] == y.reconciles[v] && ReconcileHolds(y, y.reconciles[v]);
      if Fence(z.state, z.reconciles[v].lease) {
        FenceIsNewest(z, v);
      }
    }
  }

  /** A reconcile that ends is a step of the run. It is accepted only if it is the newest, and only then do the
      grants of its namespace change. */
  method FinishNext(
      store: Store, ghost y: System, ghost w: nat, lease: Lease, a: Answer, eligible: set<Grant>, now: nat,
      policy: bool)
    returns (ok: bool, ghost z: System)
    requires Invariant(y) && store.View() == y.state && y.clock <= now && w in y.reconciles
             && y.reconciles[w].lease == lease
    modifies store
    ensures z.state == store.View() && Invariant(z) && Next(y, Finish(w, a, eligible, ok), z)
    ensures ok ==> y.reconciles[w].serial == Newest(y, lease.ns)
    ensures !ok ==> store.members == y.state.members
  {
    ok := store.FinishReconcile(lease, a, eligible, now, policy);
    z := y.(state := store.View(), clock := now, reconciles := y.reconciles - {w});
    InvariantStep(y, Finish(w, a, eligible, ok), z);
    if ok {
      FenceIsNewest(y, w);
    }
  }

  /** A delivery that is claimed is a step of the run: its lease is one that nobody else holds, and no other worker
      can finish the delivery any more. */
  method ClaimNext(
      store: Store, ghost y: System, ghost w: nat, id: nat, now: nat, policy: bool)
    returns (ok: bool, lease: nat, ghost z: System)
    requires Invariant(y) && store.View() == y.state && y.clock <= now && w !in y.works
    modifies store
    ensures z.state == store.View() && Invariant(z) && (!ok ==> z == y) && (ok ==> Next(y, Claim(w, id), z))
    ensures ok ==>
              w in z.works && z.works[w] == Work(id, lease) && id in store.deliveries
                && store.deliveries[id].lease == lease
    ensures ok ==> forall v :: v in y.works ==> y.works[v].lease != lease
  {
    ok, lease := store.ClaimDelivery(id, now, policy);
    z := y;
    if ok {
      z := y.(state := store.View(), clock := now, works := y.works[w := Work(id, lease)]);
      InvariantStep(y, Claim(w, id), z);
    }
  }

  /** A delivery that is finished is a step of the run. It is accepted only from the holder of its newest lease and
      while it is not done, and afterwards from nobody until it is claimed again. */
  method DeliverNext(
      store: Store, ghost y: System, ghost w: nat, id: nat, lease: nat, worked: bool, now: nat, policy: bool)
    returns (ok: bool, ghost z: System)
    requires Invariant(y) && store.View() == y.state && y.clock <= now && w in y.works && y.works[w] == Work(id, lease)
    modifies store
    ensures z.state == store.View() && Invariant(z) && Next(y, Deliver(w, worked, ok), z)
    ensures ok ==>
              id in y.state.deliveries && !y.state.deliveries[id].done && id in store.deliveries
                && (store.deliveries[id].done <==> worked)
    ensures ok ==> forall v :: v in z.works ==> store.deliveries[id].lease != z.works[v].lease
  {
    ok := store.FinishDelivery(id, lease, worked, now, policy);
    z := y.(state := store.View(), clock := now, works := y.works - {w});
    InvariantStep(y, Deliver(w, worked, ok), z);
  }
}
