/** The checker of a test batch's event trace: events are fed one by one, and at the end the batch is verified. */
module BatchResults {
  import opened Obligations

  /** The parts of a test name between slashes; the empty name is the package itself. */
  type Name = seq<nat>

  datatype Action = Start | Output | Run | Pause | Cont | Attr | Artifacts | Pass | Fail | Skip | Other

  /** `wellFormed` covers the JSON form, the fields' types and the elapsed time; `detailed` the fields the action
      needs. */
  datatype Event = Event(package: nat, action: Action, name: Name, wellFormed: bool, detailed: bool)

  datatype Status = Idle | Running | Paused

  datatype Batch = Batch(names: set<nat>, count: nat, package: nat, allowSkip: set<nat>)

  datatype PackageOutcome = NotYet | Ended(action: Action)

  predicate IsEnd(e: Event, n: Name) {
    e.name == n && (e.action == Pass || e.action == Fail || e.action == Skip)
  }

  predicate IsRun(e: Event, n: Name) {
    e.name == n && e.action == Run
  }

  // ----- what a trace says -----

  function After(s: Status, e: Event, n: Name): Status {
    if e.name != n then s
    else match e.action
         case Run => Running
         case Pause => Paused
         case Cont => Running
         case Pass => Idle
         case Fail => Idle
         case Skip => Idle
         case _ => s
  }

  /** Whether a test is open after a trace, read off the events that name it. */
  ghost function StatusOf(trace: seq<Event>, n: Name): Status {
    if trace == [] then Idle else After(StatusOf(trace[..|trace| - 1], n), trace[|trace| - 1], n)
  }

  ghost function Runs(trace: seq<Event>, n: Name): nat {
    if trace == [] then 0 else Runs(trace[..|trace| - 1], n) + if IsRun(trace[|trace| - 1], n) then 1 else 0
  }

  ghost function Ends(trace: seq<Event>, n: Name): nat {
    if trace == [] then 0 else Ends(trace[..|trace| - 1], n) + if IsEnd(trace[|trace| - 1], n) then 1 else 0
  }

  ghost predicate Started(trace: seq<Event>) {
    exists k :: 0 <= k < |trace| && trace[k].action == Start
  }

  ghost predicate PackageEnded(trace: seq<Event>) {
    exists k :: 0 <= k < |trace| && IsEnd(trace[k], [])
  }

  predicate Inside(m: Name, n: Name) {
    |n| < |m| && m[..|n|] == n
  }

  /** A top-level test is opened at most `count` times, a subtest only inside its top-level test. */
  ghost predicate MayRun(b: Batch, trace: seq<Event>, n: Name)
    requires n != []
  {
    StatusOf(trace, n) == Idle && if |n| == 1 then Runs(trace, n) < b.count else StatusOf(trace, [n[0]]) != Idle
  }

  ghost predicate MayEnd(trace: seq<Event>, n: Name) {
    StatusOf(trace, n) == Running && forall m :: Inside(m, n) ==> StatusOf(trace, m) == Idle
  }

  /** The events the checker takes after a trace. */
  ghost predicate Allowed(b: Batch, trace: seq<Event>, e: Event) {
    && e.wellFormed && e.package == b.package && !PackageEnded(trace)
    && if e.action == Start then e.name == [] && !Started(trace)
       else
         && Started(trace) && (e.name != [] ==> e.name[0] in b.names)
         && if e.action == Output then e.detailed
            else if e.name == [] then IsEnd(e, [])
            else match e.action
                 case Run => MayRun(b, trace, e.name)
                 case Pause => StatusOf(trace, e.name) == Running
                 case Cont => StatusOf(trace, e.name) == Paused
                 case Attr => StatusOf(trace, e.name) != Idle && e.detailed
                 case Artifacts => StatusOf(trace, e.name) != Idle && e.detailed
                 case Other => false
                 case _ => MayEnd(trace, e.name)
  }

  ghost predicate AllAllowed(b: Batch, trace: seq<Event>) {
    forall k :: 0 <= k < |trace| ==> Allowed(b, trace[..k], trace[k])
  }

  /** What the final verification asks of a trace. */
  ghost predicate Complete(b: Batch, trace: seq<Event>) {
    && (forall n :: StatusOf(trace, n) == Idle)
    && (forall t :: t in b.names ==> Ends(trace, [t]) == b.count)
    && PackagePassed(trace)
    && (forall k :: 0 <= k < |trace| && trace[k].name != [] ==> trace[k].action != Fail)
    && (forall k :: 0 <= k < |trace| && |trace[k].name| == 1 && trace[k].action == Skip ==>
          trace[k].name[0] in b.allowSkip)
  }

  // ----- what the fields say -----

  ghost predicate ActiveSays(trace: seq<Event>, active: map<Name, Status>) {
    && (forall n :: StatusOf(trace, n) == if n in active then active[n] else Idle)
    && (forall n :: n in active ==> n != [] && active[n] != Idle)
  }

  ghost predicate CountsSay(trace: seq<Event>, started: map<nat, nat>, completed: map<nat, nat>) {
    && (forall t :: Runs(trace, [t]) == if t in started then started[t] else 0)
    && (forall t :: Ends(trace, [t]) == if t in completed then completed[t] else 0)
  }

  ghost predicate PackagePassed(trace: seq<Event>) {
    exists k :: 0 <= k < |trace| && trace[k].name == [] && trace[k].action == Pass
  }

  ghost predicate PackageSays(trace: seq<Event>, started: bool, outcome: PackageOutcome) {
    && (started <==> Started(trace)) && (outcome.Ended? <==> PackageEnded(trace))
    && (outcome == Ended(Pass) <==> PackagePassed(trace))
  }

  ghost predicate OutcomesSay(trace: seq<Event>, failed: bool, skipped: set<nat>) {
    && (failed <==> exists k :: 0 <= k < |trace| && trace[k].name != [] && trace[k].action == Fail)
    && (forall t :: t in skipped <==> exists k :: 0 <= k < |trace| && trace[k].name == [t] && trace[k].action == Skip)
  }

  function NextActive(active: map<Name, Status>, e: Event): map<Name, Status> {
    if e.name == [] then active
    else match e.action
         case Run => active[e.name := Running]
         case Cont => active[e.name := Running]
         case Pause => active[e.name := Paused]
         case Pass => active - {e.name}
         case Fail => active - {e.name}
         case Skip => active - {e.name}
         case _ => active
  }

  function Bump(counts: map<nat, nat>, t: nat): map<nat, nat> {
    counts[t := (if t in counts then counts[t] else 0) + 1]
  }

  function NextStarted(started: map<nat, nat>, e: Event): map<nat, nat> {
    if |e.name| == 1 && e.action == Run then Bump(started, e.name[0]) else started
  }

  function NextCompleted(completed: map<nat, nat>, e: Event): map<nat, nat> {
    if |e.name| == 1 && IsEnd(e, e.name) then Bump(completed, e.name[0]) else completed
  }

  function NextOutcome(outcome: PackageOutcome, e: Event): PackageOutcome {
    if IsEnd(e, []) then Ended(e.action) else outcome
  }

  function NextSkipped(skipped: set<nat>, e: Event): set<nat> {
    if |e.name| == 1 && e.action == Skip then skipped + {e.name[0]} else skipped
  }

  lemma ActiveTaken(trace: seq<Event>, e: Event, active: map<Name, Status>)
    requires ActiveSays(trace, active) && (e.name == [] ==> e.action == Start || e.action == Output || IsEnd(e, []))
    ensures ActiveSays(trace + [e], NextActive(active, e))
  {
    var grown := trace + [e];
    assert grown[..|grown| - 1] == trace;
    forall n
      ensures StatusOf(grown, n) == if n in NextActive(active, e) then NextActive(active, e)[n] else Idle
    {
      assert StatusOf(grown, n) == After(StatusOf(trace, n), e, n);
    }
  }

  lemma CountsTaken(trace: seq<Event>, e: Event, started: map<nat, nat>, completed: map<nat, nat>)
    requires CountsSay(trace, started, completed)
    ensures CountsSay(trace + [e], NextStarted(started, e), NextCompleted(completed, e))
  {
    var grown := trace + [e];
    assert grown[..|grown| - 1] == trace;
    forall t
      ensures Runs(grown, [t]) == if t in NextStarted(started, e) then NextStarted(started, e)[t] else 0
      ensures Ends(grown, [t]) == if t in NextCompleted(completed, e) then NextCompleted(completed, e)[t] else 0
    {
      assert e.name == [t] <==> |e.name| == 1 && e.name[0] == t;
    }
  }

  lemma Grown(trace: seq<Event>, e: Event, p: Event -> bool)
    ensures (exists k :: 0 <= k < |trace + [e]| && p((trace + [e])[k])) <==>
              p(e) || exists k :: 0 <= k < |trace| && p(trace[k])
  {
    var grown := trace + [e];
    if p(e) {
      assert p(grown[|trace|]);
    }
    if exists k :: 0 <= k < |trace| && p(trace[k]) {
      var k :| 0 <= k < |trace| && p(trace[k]);
      assert p(grown[k]);
    }
  }

  lemma PackageTaken(trace: seq<Event>, e: Event, started: bool, outcome: PackageOutcome)
    requires PackageSays(trace, started, outcome) && !PackageEnded(trace)
    ensures PackageSays(trace + [e], started || e.action == Start, NextOutcome(outcome, e))
  {
    Grown(trace, e, (x: Event) => x.action == Start);
    Grown(trace, e, (x: Event) => IsEnd(x, []));
    Grown(trace, e, (x: Event) => x.name == [] && x.action == Pass);
  }

  lemma OutcomesTaken(trace: seq<Event>, e: Event, failed: bool, skipped: set<nat>)
    requires OutcomesSay(trace, failed, skipped)
    ensures OutcomesSay(trace + [e], failed || (e.name != [] && e.action == Fail), NextSkipped(skipped, e))
  {
    Grown(trace, e, (x: Event) => x.name != [] && x.action == Fail);
    forall t
      ensures (exists k :: 0 <= k < |trace + [e]| && (trace + [e])[k].name == [t] && (trace + [e])[k].action == Skip)
              <==>
              || (e.name == [t] && e.action == Skip)
              || exists k :: 0 <= k < |trace| && trace[k].name == [t] && trace[k].action == Skip
    {
      Grown(trace, e, (x: Event) => x.name == [t] && x.action == Skip);
    }
  }

  ghost predicate AllSay(
      trace: seq<Event>, active: map<Name, Status>, started: map<nat, nat>, completed: map<nat, nat>,
      packageStarted: bool, outcome: PackageOutcome, failed: bool, skipped: set<nat>) {
    Whole(&& ActiveSays(trace, active) && CountsSay(trace, started, completed)
          && PackageSays(trace, packageStarted, outcome) && OutcomesSay(trace, failed, skipped))
  }

  lemma Taken(
      trace: seq<Event>, e: Event, active: map<Name, Status>, started: map<nat, nat>, completed: map<nat, nat>,
      packageStarted: bool, outcome: PackageOutcome, failed: bool, skipped: set<nat>)
    requires AllSay(trace, active, started, completed, packageStarted, outcome, failed, skipped)
    requires !PackageEnded(trace) && (e.name == [] ==> e.action == Start || e.action == Output || IsEnd(e, []))
    ensures AllSay(trace + [e], NextActive(active, e), NextStarted(started, e), NextCompleted(completed,
          e), packageStarted || e.action == Start,
                   NextOutcome(outcome, e), failed || (e.name != [] && e.action == Fail), NextSkipped(skipped, e))
  {
    ActiveTaken(trace, e, active);
    CountsTaken(trace, e, started, completed);
    PackageTaken(trace, e, packageStarted, outcome);
    OutcomesTaken(trace, e, failed, skipped);
  }

  lemma NothingSaid()
    ensures AllSay([], map[], map[], map[], false, NotYet, false, {})
  {
    assert ActiveSays([], map[]);
    assert CountsSay([], map[], map[]);
    assert PackageSays([], false, NotYet);
    assert OutcomesSay([], false, {});
  }

  // ----- the checker -----

  class Results {
    const batch: Batch
    var started: map<nat, nat>
    var completed: map<nat, nat>
    var skipped: set<nat>
    var active: map<Name, Status>
    var packageStarted: bool
    var packageOutcome: PackageOutcome
    var failed: bool
    ghost var trace: seq<Event>

    /** The fields say what the trace says. */
    ghost predicate Valid()
      reads this
    {
      AllSay(trace, active, started, completed, packageStarted, packageOutcome, failed, skipped)
    }

    constructor (batch: Batch)
      ensures Valid() && trace == [] && this.batch == batch
    {
      this.batch := batch;
      started, completed, skipped, active := map[], map[], {}, map[];
      packageStarted, packageOutcome, failed, trace := false, NotYet, false, [];
      new;
      NothingSaid();
    }

    /** Takes one event, or refuses it; a refusal ends the batch. */
    method Feed(e: Event) returns (ok: bool)
      requires Valid()
      modifies this
      ensures ok <==> Allowed(batch, old(trace), e)
      ensures ok ==> Valid() && trace == old(trace) + [e]
    {
      ok := Check(e);
      if ok {
        Take(e);
      }
    }

    /** Every check of an event, against the state only. */
    method Check(e: Event) returns (ok: bool)
      requires Valid()
      ensures ok <==> Allowed(batch, trace, e)
    {
      if !e.wellFormed || e.package != batch.package || packageOutcome.Ended? {
        return false;
      }
      if e.action == Start {
        return e.name == [] && !packageStarted;
      }
      if !packageStarted || (e.name != [] && e.name[0] !in batch.names) {
        return false;
      }
      if e.action == Output {
        return e.detailed;
      }
      if e.name == [] {
        return e.action == Pass || e.action == Fail || e.action == Skip;
      }
      ok := CheckTest(e);
    }

    method CheckTest(e: Event) returns (ok: bool)
      requires Valid() && e.name != [] && e.action != Start && e.action != Output
      ensures ok <==> match e.action
                      case Run => MayRun(batch, trace, e.name)
                      case Pause => StatusOf(trace, e.name) == Running
                      case Cont => StatusOf(trace, e.name) == Paused
                      case Attr => StatusOf(trace, e.name) != Idle && e.detailed
                      case Artifacts => StatusOf(trace, e.name) != Idle && e.detailed
                      case Other => false
                      case _ => MayEnd(trace, e.name)
    {
      var n := e.name;
      var state := if n in active then active[n] else Idle;
      assert state == StatusOf(trace, n) && (StatusOf(trace, [n[0]]) != Idle <==> [n[0]] in active);
      match e.action
      case Run =>
        if |n| == 1 {
          assert n == [n[0]];
          var runs := if n[0] in started then started[n[0]] else 0;
          ok := n !in active && runs < batch.count;
        } else {
          ok := n !in active && [n[0]] in active;
        }
      case Pause => ok := state == Running;
      case Cont => ok := state == Paused;
      case Attr => ok := state != Idle && e.detailed;
      case Artifacts => ok := state != Idle && e.detailed;
      case Other => ok := false;
      case _ =>
        ok := state == Running && forall m :: m in active ==> !Inside(m, n);
    }

    /** Records an event that passed the checks. */
    method Take(e: Event)
      requires Valid() && !PackageEnded(trace)
               && (e.name == [] ==> e.action == Start || e.action == Output || IsEnd(e, []))
      modifies this
      ensures Valid() && trace == old(trace) + [e]
    {
      var nowActive := NextActive(active, e);
      var nowStarted, nowCompleted := NextStarted(started, e), NextCompleted(completed, e);
      var begun, ended := packageStarted || e.action == Start, NextOutcome(packageOutcome, e);
      var nowFailed, nowSkipped := failed || (e.name != [] && e.action == Fail), NextSkipped(skipped, e);
      assert AllSay(trace + [e], nowActive, nowStarted, nowCompleted, begun, ended, nowFailed, nowSkipped) by {
        Taken(trace, e, active, started, completed, packageStarted, packageOutcome, failed, skipped);
      }
      active, started, completed, packageStarted, packageOutcome := nowActive, nowStarted, nowCompleted, begun, ended;
      failed, skipped, trace := nowFailed, nowSkipped, trace + [e];
    }

    method Verify() returns (ok: bool)
      requires Valid()
      ensures ok <==> Complete(batch, trace)
    {
      var missing := exists t :: t in batch.names && (if t in completed then completed[t] else 0) != batch.count;
      ok := active == map[] && !missing && packageOutcome == Ended(Pass) && !failed && skipped <= batch.allowSkip;
    }
  }
}
