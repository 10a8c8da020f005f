/** Agent-history pages: contiguous complete turns, newest first, within byte budgets. */
module DocTurns {
  import opened Basics

  const MAX_PAGE_BYTES := 4194304
  const MAX_PAGE_TURNS := 100
  const SMALL_MARKER_BYTES := 1024

  datatype Kind = Turn | Message | ToolCall | ToolResult | Reasoning | Compaction | Unrecognised

  /** The identity a tool call and its result share; zero stands for a missing one. */
  type CallId = nat

  /** An indexed event with its decoded body: `length` is its canonical size, `wire` its encoded size. */
  datatype Event = Event(user: bool, kind: Kind, order: int, length: int, wire: nat, call: CallId)

  datatype Error = BadRequest | BadBoundary | Budget | Integrity

  datatype Result<+T> = Ok(value: T) | Err(error: Error)

  datatype Range = Range(start: nat, end: nat)

  datatype HistoryPage = HistoryPage(before: nat, next: int, turns: seq<Range>, omitted: Option<Range>)

  // ----- the partition of a document into turns -----

  function PreviousUser(events: seq<Event>, end: nat): (u: int)
    requires end <= |events|
    ensures -1 <= u < end
    ensures u >= 0 ==> events[u].user
    ensures forall i :: u < i < end ==> !events[i].user
  {
    if end == 0 then -1 else if events[end - 1].user then end - 1 else PreviousUser(events, end - 1)
  }

  /** A user-turn marker that look-behind may attach to the prompt after it. */
  predicate Marker(e: Event, projection: bool) {
    e.user && e.kind == Turn && (projection || e.length <= SMALL_MARKER_BYTES)
  }

  function WithMarker(events: seq<Event>, projection: bool, start: nat): (s: nat)
    requires start <= |events|
    ensures s <= start
  {
    if start > 0 && Marker(events[start - 1], projection) then start - 1 else start
  }

  /** Where the newest turn before `end` starts. */
  function TurnStart(events: seq<Event>, projection: bool, end: nat): (s: nat)
    requires end <= |events| && PreviousUser(events, end) >= 0
    ensures s < end && events[s].user
  {
    WithMarker(events, projection, PreviousUser(events, end))
  }

  /** All turns before `end`, newest first. It depends on the index alone. */
  function Partition(events: seq<Event>, projection: bool, end: nat): seq<Range>
    requires end <= |events|
  {
    if PreviousUser(events, end) < 0 then []
    else
      var start := TurnStart(events, projection, end);
      [Range(start, end)] + Partition(events, projection, start)
  }

  /** The turns of a partition tile it: each ends where its predecessor starts. */
  lemma {:induction false} PartitionTiles(events: seq<Event>, projection: bool, end: nat)
    requires end <= |events|
    ensures var p := Partition(events, projection, end);
            && (p != [] ==> p[0].end == end)
            && (forall i :: 0 <= i < |p| ==> p[i].start < p[i].end <= |events| && events[p[i].start].user)
            && (forall i, j :: 0 <= i < j < |p| && j == i + 1 ==> p[j].end == p[i].start)
            && PreviousUser(events, if p == [] then end else p[|p| - 1].start) < 0
  {
    if PreviousUser(events, end) >= 0 {
      PartitionTiles(events, projection, TurnStart(events, projection, end));
    }
  }

  // ----- classification of a turn -----

  predicate KnownKind(e: Event) {
    e.kind != Unrecognised
  }

  predicate UserPlaced(events: seq<Event>, i: nat)
    requires i < |events|
  {
    events[i].user ==>
      && (events[i].kind == Message || events[i].kind == Turn)
      && (i == 0 || (i == 1 && events[0].kind == Turn && events[1].kind == Message))
  }

  predicate IsCall(e: Event) {
    e.kind == ToolCall
  }

  predicate IsResult(e: Event) {
    e.kind == ToolResult
  }

  ghost predicate Answered(events: seq<Event>, id: CallId, n: nat)
    requires n <= |events|
  {
    exists j :: 0 <= j < n && IsResult(events[j]) && events[j].call == id
  }

  ghost predicate Called(events: seq<Event>, id: CallId, n: nat)
    requires n <= |events|
  {
    exists i :: 0 <= i < n && IsCall(events[i]) && events[i].call == id
  }

  /** A call brings a new identity; a result answers an earlier call, and is the first to do so. */
  ghost predicate PairedAt(events: seq<Event>, i: nat)
    requires i < |events|
  {
    && (IsCall(events[i]) ==> events[i].call != 0 && !Called(events, events[i].call, i))
    && (IsResult(events[i]) ==> Called(events, events[i].call, i) && !Answered(events, events[i].call, i))
  }

  ghost predicate OrderedAt(events: seq<Event>, projection: bool, i: nat)
    requires i < |events|
  {
    projection ==> events[i].order >= 0 && (i > 0 ==> events[i - 1].order < events[i].order) && KnownKind(events[i])
  }

  ghost predicate AdmissibleAt(events: seq<Event>, projection: bool, i: nat)
    requires i < |events|
  {
    OrderedAt(events, projection, i) && UserPlaced(events, i) && PairedAt(events, i)
  }

  ghost predicate Admissible(events: seq<Event>, projection: bool, n: nat)
    requires n <= |events|
  {
    forall i :: 0 <= i < n ==> AdmissibleAt(events, projection, i)
  }

  /** Every call has a result. */
  ghost predicate Complete(events: seq<Event>) {
    forall i :: 0 <= i < |events| && IsCall(events[i]) ==> Answered(events, events[i].call, |events|)
  }

  /** In an admissible complete turn calls and results correspond one to one, each result after its call. */
  lemma OneToOne(events: seq<Event>, projection: bool)
    requires Admissible(events, projection, |events|)
    ensures Complete(events) <==>
              && (forall i :: 0 <= i < |events| && IsCall(events[i]) ==> exists j :: Answers(events, i, j))
              && (forall j :: 0 <= j < |events| && IsResult(events[j]) ==> exists i :: Answers(events, i, j))
    ensures forall i, j, k :: Answers(events, i, j) && Answers(events, i, k) ==> j == k
    ensures forall i, j, k :: Answers(events, i, j) && Answers(events, k, j) ==> i == k
  {
    forall j | 0 <= j < |events| && IsResult(events[j])
      ensures exists i :: Answers(events, i, j)
    {
      ResultHasCall(events, projection, j);
    }
    if Complete(events) {
      forall i | 0 <= i < |events| && IsCall(events[i])
        ensures exists j :: Answers(events, i, j)
      {
        CallHasResult(events, projection, i);
      }
    }
    if forall i :: 0 <= i < |events| && IsCall(events[i]) ==> exists j :: Answers(events, i, j) {
      forall i | 0 <= i < |events| && IsCall(events[i])
        ensures Answered(events, events[i].call, |events|)
      {
        var j :| Answers(events, i, j);
      }
    }
    forall i, j, k | Answers(events, i, j) && Answers(events, i, k)
      ensures j == k
    {
      assert AdmissibleAt(events, projection, j) && AdmissibleAt(events, projection, k);
    }
    forall i, j, k | Answers(events, i, j) && Answers(events, k, j)
      ensures i == k
    {
      SameCall(events, projection, i, k);
    }
  }

  lemma SameCall(events: seq<Event>, projection: bool, i: nat, k: nat)
    requires Admissible(events, projection, |events|) && i < |events| && k < |events|
    requires IsCall(events[i]) && IsCall(events[k]) && events[i].call == events[k].call
    ensures i == k
  {
    assert AdmissibleAt(events, projection, i) && AdmissibleAt(events, projection, k);
  }

  lemma ResultHasCall(events: seq<Event>, projection: bool, j: nat)
    requires Admissible(events, projection, |events|) && j < |events| && IsResult(events[j])
    ensures exists i :: Answers(events, i, j)
  {
    assert AdmissibleAt(events, projection, j);
    var i :| 0 <= i < j && IsCall(events[i]) && events[i].call == events[j].call;
    assert Answers(events, i, j);
  }

  lemma CallHasResult(events: seq<Event>, projection: bool, i: nat)
    requires Admissible(events, projection, |events|) && i < |events| && IsCall(events[i]) && Complete(events)
    ensures exists j :: Answers(events, i, j)
  {
    var j :| 0 <= j < |events| && IsResult(events[j]) && events[j].call == events[i].call;
    ResultHasCall(events, projection, j);
    var k :| Answers(events, k, j);
    SameCall(events, projection, i, k);
  }

  ghost predicate Answers(events: seq<Event>, i: int, j: int) {
    0 <= i < j < |events| && IsCall(events[i]) && IsResult(events[j]) && events[i].call == events[j].call
  }

  ghost predicate Ledger(events: seq<Event>, calls: map<CallId, bool>, n: nat)
    requires n <= |events|
  {
    forall id :: (id in calls <==> Called(events, id, n)) && (id in calls ==> (calls[id] <==> Answered(events, id, n)))
  }

  lemma LedgerStep(events: seq<Event>, n: nat, id: CallId)
    requires n < |events|
    ensures Called(events, id, n + 1) <==> Called(events, id, n) || (IsCall(events[n]) && events[n].call == id)
    ensures Answered(events, id, n + 1) <==> Answered(events, id, n) || (IsResult(events[n]) && events[n].call == id)
  {
  }

  lemma LedgerNext(events: seq<Event>, projection: bool, calls: map<CallId, bool>, n: nat, calls': map<CallId, bool>)
    requires n < |events| && Ledger(events, calls, n) && PairedAt(events, n)
    requires calls' == if IsCall(events[n]) then calls[events[n].call := false]
                       else if IsResult(events[n]) then calls[events[n].call := true] else calls
    requires IsCall(events[n]) ==> !Answered(events, events[n].call, n)
    ensures Ledger(events, calls', n + 1)
  {
    forall id
      ensures (id in calls' <==> Called(events, id, n + 1))
              && (id in calls' ==> (calls'[id] <==> Answered(events, id, n + 1)))
    {
      LedgerStep(events, n, id);
    }
  }

  /** Before its call there is no result for an identity. */
  lemma NoEarlyAnswer(events: seq<Event>, projection: bool, n: nat, id: CallId)
    requires n <= |events| && Admissible(events, projection, n) && !Called(events, id, n)
    ensures !Answered(events, id, n)
  {
    forall j | 0 <= j < n && IsResult(events[j])
      ensures events[j].call != id
    {
      assert AdmissibleAt(events, projection, j);
      var i :| 0 <= i < j && IsCall(events[i]) && events[i].call == events[j].call;
    }
  }

  /** Reports whether a call is still outstanding, once every event has passed validation. */
  method Classify(events: seq<Event>, projection: bool) returns (r: Result<bool>)
    ensures r.Ok? <==> Admissible(events, projection, |events|)
    ensures r.Ok? ==> (r.value <==> !Complete(events))
    ensures r.Err? ==> r.error == Integrity
  {
    var calls: map<CallId, bool> := map[];
    var i := 0;
    while i < |events|
      invariant 0 <= i <= |events| && Admissible(events, projection, i) && Ledger(events, calls, i)
    {
      var next := CheckEvent(events, projection, calls, i);
      if next.None? {
        assert !AdmissibleAt(events, projection, i);
        return Err(Integrity);
      }
      calls, i := next.value, i + 1;
    }
    r := Ok(exists id :: id in calls && !calls[id]);
    if r.value {
      var id :| id in calls && !calls[id];
      var k :| 0 <= k < |events| && IsCall(events[k]) && events[k].call == id;
    }
  }

  /** The checks made on one event, and the ledger of calls after it. */
  method CheckEvent(
      events: seq<Event>, projection: bool, calls: map<CallId, bool>, i: nat)
    returns (next: Option<map<CallId, bool>>)
    requires i < |events| && Admissible(events, projection, i) && Ledger(events, calls, i)
    ensures next.Some? <==> AdmissibleAt(events, projection, i)
    ensures next.Some? ==> Ledger(events, next.value, i + 1)
  {
    var e := events[i];
    if projection && (e.order < 0 || (i > 0 && e.order <= events[i - 1].order) || !KnownKind(e)) {
      return None;
    }
    if !UserPlaced(events, i) {
      return None;
    }
    var after := calls;
    if IsCall(e) {
      if e.call in calls || e.call == 0 {
        return None;
      }
      NoEarlyAnswer(events, projection, i, e.call);
      after := calls[e.call := false];
    } else if IsResult(e) {
      if e.call !in calls || calls[e.call] {
        return None;
      }
      after := calls[e.call := true];
    }
    LedgerNext(events, projection, calls, i, after);
    next := Some(after);
  }
}
