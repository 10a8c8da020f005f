/** Synchronization with GitHub: team grants read from the provider and installed only under the fence they were read
    under, and webhook deliveries processed under leases. */
module GitHubSync {

  const MINUTE := 60

  datatype Grant = Grant(team: nat, user: nat)

  datatype Status = Pending | Disconnected | Connected | RetryingSync | AccessRemoved | TeamAccessRequired

  /** `nextSync` is when the next reconcile may begin; while one is under way it is also that one's lease. */
  datatype Connection = Connection(
    installation: nat, generation: nat, enabled: bool, status: Status, mapped: bool, nextSync: nat)

  datatype Kind = Lifecycle | Activity

  datatype Delivery = Delivery(
    kind: Kind, bodyHash: nat, hasBody: bool, done: bool, attempts: nat, nextAttempt: nat, lease: nat, leaseUntil: nat)

  /** `leases` counts the delivery leases given out, each different from all before. */
  datatype State = State(
    connections: map<nat, Connection>, members: map<nat, set<Grant>>, deliveries: map<nat, Delivery>, leases: nat)

  // ----- webhooks -----

  function Invalidated(c: Connection, now: nat): Connection {
    c.(status := if c.enabled then Pending else Disconnected, generation := c.generation + 1, nextSync := now)
  }

  /** A delivery is stored once; a lifecycle event also withdraws the grants of its installation and moves the
      generation, so that answers already on their way cannot bring them back. */
  ghost predicate Received(
      s: State, id: nat, kind: Kind, installation: nat, bodyHash: nat, now: nat, s': State, ok: bool) {
    if id in s.deliveries then
      s' == s && (ok <==> s.deliveries[id].kind == kind && s.deliveries[id].bodyHash == bodyHash)
    else
      && ok && s'.leases == s.leases
      && s'.deliveries == s.deliveries[id := Delivery(kind, bodyHash, true, false, 0, now, 0, 0)]
      && s'.connections.Keys == s.connections.Keys
      && (forall ns :: ns in s.connections ==>
            s'.connections[ns] == if kind == Lifecycle && s.connections[ns].installation == installation
                                  then Invalidated(s.connections[ns], now) else s.connections[ns])
      && (forall ns :: ns in s'.members ==>
            if kind == Lifecycle && ns in s.connections && s.connections[ns].installation == installation
            then s'.members[ns] == {} else ns in s.members && s'.members[ns] == s.members[ns])
      && s.members.Keys <= s'.members.Keys
  }

  // ----- reconciling -----

  datatype Lease = Lease(ns: nat, generation: nat, until: nat)

  predicate MayBegin(s: State, ns: nat, now: nat) {
    ns in s.connections && s.connections[ns].enabled && s.connections[ns].nextSync <= now
  }

  ghost predicate Began(s: State, ns: nat, now: nat, s': State, lease: Lease) {
    && MayBegin(s, ns, now) && lease == Lease(ns, s.connections[ns].generation, now + 2 * MINUTE)
    && s' == s.(connections := s.connections[ns := s.connections[ns].(nextSync := lease.until)])
  }

  /** What the provider answered: whether the work succeeded, whether access is gone, whether teams could be read, and
      the grants it implies. */
  datatype Answer = Answer(worked: bool, removed: bool, teamsRead: bool, grants: seq<Grant>)

  predicate Fence(s: State, lease: Lease) {
    && lease.ns in s.connections && s.connections[lease.ns].enabled
    && s.connections[lease.ns].generation == lease.generation && s.connections[lease.ns].nextSync == lease.until
  }

  function Usable(a: Answer, c: Connection): seq<Grant> {
    if !a.worked || (!a.teamsRead && c.mapped) then [] else a.grants
  }

  function Settled(c: Connection, a: Answer, now: nat): Connection {
    c.(nextSync := now + (if a.worked then 5 * MINUTE else MINUTE),
       status := if !a.teamsRead && c.mapped then TeamAccessRequired
                 else if a.worked then Connected else if a.removed then AccessRemoved else RetryingSync)
  }

  /** Installing an answer replaces the grants of the namespace by those still eligible, or changes nothing. */
  ghost predicate Finished(s: State, lease: Lease, a: Answer, eligible: set<Grant>, now: nat, s': State, ok: bool) {
    && (!ok ==> s' == s)
    && (ok ==>
          && Fence(s, lease)
          && s'.deliveries == s.deliveries && s'.leases == s.leases
          && s'.members == s.members[lease.ns := set g | g in Usable(a, s.connections[lease.ns]) && g in eligible]
          && s'.connections == s.connections[lease.ns := Settled(s.connections[lease.ns], a, now)])
  }

  // ----- delivering -----

  predicate MayClaim(s: State, id: nat, now: nat) {
    id in s.deliveries && !s.deliveries[id].done && s.deliveries[id].leaseUntil <= now
      && s.deliveries[id].nextAttempt <= now
  }

  ghost predicate Claimed(s: State, id: nat, now: nat, s': State, lease: nat) {
    && MayClaim(s, id, now) && lease == s.leases + 1
    && s' == s.(leases := lease, deliveries := s.deliveries[id := s.deliveries[id].(
                    lease := lease, leaseUntil := now + 2 * MINUTE, attempts := s.deliveries[id].attempts + 1)])
  }

  /** A finished delivery keeps its hash and drops its body; a failed one waits longer each time. */
  function Handled(d: Delivery, worked: bool, now: nat): Delivery {
    d.(leaseUntil := 0, done := worked, hasBody := !worked
       && d.hasBody, nextAttempt := now + (if d.attempts < 30 then d.attempts else 30) * MINUTE)
  }

  ghost predicate Delivered(s: State, id: nat, lease: nat, worked: bool, now: nat, s': State, ok: bool) {
    && (!ok ==> s' == s)
    && (ok ==>
          && id in s.deliveries && s.deliveries[id].lease == lease
          && s' == s.(deliveries := s.deliveries[id := Handled(s.deliveries[id], worked, now)]))
  }

  class Store {
    var connections: map<nat, Connection>
    var members: map<nat, set<Grant>>
    var deliveries: map<nat, Delivery>
    var leases: nat

    function View(): State
      reads this
    {
      State(connections, members, deliveries, leases)
    }

    method Receive(id: nat, kind: Kind, installation: nat, bodyHash: nat, now: nat) returns (ok: bool)
      modifies this
      ensures Received(old(View()), id, kind, installation, bodyHash, now, View(), ok)
    {
      if id in deliveries {
        return deliveries[id].kind == kind && deliveries[id].bodyHash == bodyHash;
      }
      deliveries := deliveries[id := Delivery(kind, bodyHash, true, false, 0, now, 0, 0)];
      if kind == Lifecycle {
        connections, members := Invalidate(connections, members, installation, now);
      }
      ok := true;
    }

    method BeginReconcile(ns: nat, now: nat, policy: bool) returns (ok: bool, lease: Lease)
      modifies `connections
      ensures ok <==> old(MayBegin(View(), ns, now)) && policy
      ensures ok ==> Began(old(View()), ns, now, View(), lease)
      ensures !ok ==> View() == old(View())
    {
      lease := Lease(ns, 0, 0);
      if ns !in connections || !connections[ns].enabled || connections[ns].nextSync > now || !policy {
        return false, lease;
      }
      lease := Lease(ns, connections[ns].generation, now + 2 * MINUTE);
      connections := connections[ns := connections[ns].(nextSync := lease.until)];
      ok := true;
    }

    method FinishReconcile(lease: Lease, a: Answer, eligible: set<Grant>, now: nat, policy: bool) returns (ok: bool)
      modifies `connections, `members
      ensures ok <==> old(Fence(View(), lease)) && policy
      ensures Finished(old(View()), lease, a, eligible, now, View(), ok)
    {
      if !Fence(View(), lease) || !policy {
        return false;
      }
      var current := connections[lease.ns];
      var grants := Usable(a, current);
      var valid := StillEligible(grants, eligible);
      members := members[lease.ns := valid];
      connections := connections[lease.ns := Settled(current, a, now)];
      ok := true;
    }

    method ClaimDelivery(id: nat, now: nat, policy: bool) returns (ok: bool, lease: nat)
      modifies `deliveries, `leases
      ensures ok <==> old(MayClaim(View(), id, now)) && policy
      ensures ok ==> Claimed(old(View()), id, now, View(), lease)
      ensures !ok ==> View() == old(View())
    {
      lease := 0;
      if id !in deliveries || deliveries[id].done || deliveries[id].leaseUntil > now || deliveries[id].nextAttempt > now
        || !policy {
        return false, lease;
      }
      leases := leases + 1;
      lease := leases;
      deliveries := deliveries[id := deliveries[id].(lease := lease, leaseUntil := now + 2 * MINUTE,
                                                     attempts := deliveries[id].attempts + 1)];
      ok := true;
    }

    method FinishDelivery(id: nat, lease: nat, worked: bool, now: nat, policy: bool) returns (ok: bool)
      modifies `deliveries
      ensures ok <==> policy && id in old(deliveries) && old(deliveries)[id].lease == lease
      ensures Delivered(old(View()), id, lease, worked, now, View(), ok)
    {
      if id !in deliveries || deliveries[id].lease != lease || !policy {
        return false;
      }
      deliveries := deliveries[id := Handled(deliveries[id], worked, now)];
      ok := true;
    }
  }

  /** Withdraws the grants of every connection of an installation. */
  method Invalidate(connections: map<nat, Connection>, members: map<nat, set<Grant>>, installation: nat, now: nat)
    returns (c: map<nat, Connection>, m: map<nat, set<Grant>>)
    ensures c.Keys == connections.Keys && members.Keys <= m.Keys
    ensures forall ns :: ns in connections ==>
              c[ns] == if connections[ns].installation == installation then Invalidated(connections[ns], now)
                else connections[ns]
    ensures forall ns :: ns in m ==>
              if ns in connections && connections[ns].installation == installation then m[ns] == {}
              else ns in members && m[ns] == members[ns]
  {
    c, m := connections, members;
    var left := connections.Keys;
    while left != {}
      invariant left <= connections.Keys && c.Keys == connections.Keys && members.Keys <= m.Keys
      invariant forall ns :: ns in connections ==>
                  c[ns] == if ns !in left
                    && connections[ns].installation == installation then Invalidated(connections[ns], now)
                       else connections[ns]
      invariant forall ns :: ns in m ==>
                  if ns in connections && ns !in left && connections[ns].installation == installation then m[ns] == {}
                  else ns in members && m[ns] == members[ns]
    {
      var ns :| ns in left;
      left := left - {ns};
      if connections[ns].installation == installation {
        m := m[ns := {}];
        c := c[ns := Invalidated(connections[ns], now)];
      }
    }
  }

  method StillEligible(grants: seq<Grant>, eligible: set<Grant>) returns (valid: set<Grant>)
    ensures valid == set g | g in grants && g in eligible
  {
    valid := {};
    for i := 0 to |grants|
      invariant valid == set g | g in grants[..i] && g in eligible
    {
      assert grants[..i + 1] == grants[..i] + [grants[i]];
      if grants[i] in eligible {
        valid := valid + {grants[i]};
      }
    }
    assert grants[..|grants|] == grants;
  }
}
