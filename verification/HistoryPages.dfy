/** Reading one page of agent history, and following pages back to the start of a document. */
module HistoryPages {
  import opened Basics
  import opened DocTurns
  import opened Obligations

  // ----- sizes -----

  /** Canonical size of the events in a range as a list: brackets, separators and bodies. */
  function CanonicalSize(events: seq<Event>, start: nat, end: nat): int
    requires start <= end <= |events|
    decreases end - start
  {
    if start == end then 1 else events[start].length + 1 + CanonicalSize(events, start + 1, end)
  }

  /** Size of the same list in its wire encoding. */
  function WireSize(events: seq<Event>, start: nat, end: nat): (n: nat)
    requires start <= end <= |events|
    ensures n >= 1
    decreases end - start
  {
    if start == end then 1 else events[start].wire + 1 + WireSize(events, start + 1, end)
  }

  lemma {:induction false} CanonicalSizeSnoc(events: seq<Event>, start: nat, i: nat)
    requires start <= i < |events|
    ensures CanonicalSize(events, start, i + 1) == CanonicalSize(events, start, i) + events[i].length + 1
    decreases i - start
  {
    if start < i {
      CanonicalSizeSnoc(events, start + 1, i);
    }
  }

  lemma {:induction false} CanonicalSizeGrows(events: seq<Event>, start: nat, i: nat, end: nat)
    requires start <= i <= end <= |events| && Lengths(events)
    ensures CanonicalSize(events, start, i) <= CanonicalSize(events, start, end)
    decreases end - i
  {
    if i < end {
      CanonicalSizeGrows(events, start, i + 1, end);
      CanonicalSizeSnoc(events, start, i);
    }
  }

  ghost predicate Lengths(events: seq<Event>) {
    forall i :: 0 <= i < |events| ==> events[i].length > 0
  }

  /** Stops at the first event that cannot fit; the canonical bytes alone decide it. */
  method Preflight(events: seq<Event>, start: nat, end: nat, remaining: nat) returns (fits: bool)
    requires start <= end <= |events| && Lengths(events) && remaining >= 1
    ensures fits <==> CanonicalSize(events, start, end) <= remaining
  {
    var size, i := 1, start;
    while i < end
      invariant start <= i <= end && size == CanonicalSize(events, start, i) <= remaining
    {
      CanonicalSizeSnoc(events, start, i);
      if events[i].length >= remaining - size {
        CanonicalSizeGrows(events, start, i + 1, end);
        return false;
      }
      size, i := size + events[i].length + 1, i + 1;
    }
    fits := true;
  }

  /** When every encoded event is at least as long as its canonical form, the preflight turns away only
      turns that the final size check would turn away too. */
  lemma {:induction false} PreflightIsSafe(events: seq<Event>, start: nat, end: nat)
    requires start <= end <= |events| && forall i :: 0 <= i < |events| ==> events[i].length <= events[i].wire
    ensures CanonicalSize(events, start, end) <= WireSize(events, start, end)
    decreases end - start
  {
    if start < end {
      PreflightIsSafe(events, start + 1, end);
    }
  }

  // ----- the read allowance -----

  /** Bytes of the first `n` events that have been read. */
  function ReadBytes(events: seq<Event>, read: set<nat>, n: nat): int
    requires n <= |events|
  {
    if n == 0 then 0 else ReadBytes(events, read, n - 1) + if n - 1 in read then events[n - 1].length else 0
  }

  lemma {:induction false} ReadOneMore(events: seq<Event>, read: set<nat>, i: nat, n: nat)
    requires i !in read && n <= |events|
    ensures ReadBytes(events, read + {i}, n) == ReadBytes(events, read, n) + if i < n then events[i].length else 0
  {
    if n > 0 {
      ReadOneMore(events, read, i, n - 1);
    }
  }

  /** Bytes of a range that are still to be read. */
  function Unread(events: seq<Event>, read: set<nat>, start: nat, end: nat): int
    requires start <= end <= |events|
    decreases end - start
  {
    if start == end then 0
      else (if start in read then 0 else events[start].length) + Unread(events, read, start + 1, end)
  }

  lemma {:induction false} UnreadSnoc(events: seq<Event>, read: set<nat>, start: nat, i: nat)
    requires start <= i < |events|
    ensures Unread(events, read, start, i + 1) == Unread(events, read, start, i) + if i in read then 0
            else events[i].length
    decreases i - start
  {
    if start < i {
      UnreadSnoc(events, read, start + 1, i);
    }
  }

  lemma {:induction false} UnreadGrows(events: seq<Event>, read: set<nat>, start: nat, i: nat, end: nat)
    requires start <= i <= end <= |events| && Lengths(events)
    ensures 0 <= Unread(events, read, start, i) <= Unread(events, read, start, end)
    decreases end - start
  {
    if start < i {
      UnreadGrows(events, read, start + 1, i, end);
    } else if i < end {
      UnreadGrows(events, read, start + 1, start + 1, end);
    }
  }

  lemma {:induction false} UnreadOther(events: seq<Event>, read: set<nat>, i: nat, start: nat, end: nat)
    requires i < start <= end <= |events|
    ensures Unread(events, read + {i}, start, end) == Unread(events, read, start, end)
    decreases end - start
  {
    if start < end {
      UnreadOther(events, read, i, start + 1, end);
    }
  }

  /** One page's reads: in the projection every body is read once, out of one shared allowance. */
  class HistoryReader {
    const events: seq<Event>
    const projection: bool
    var readRemaining: int
    var classified: set<nat>

    constructor (events: seq<Event>, projection: bool)
      requires Lengths(events)
      ensures Valid() && this.events == events && this.projection == projection && classified == {}
              && readRemaining == MAX_PAGE_BYTES
    {
      this.events, this.projection := events, projection;
      readRemaining, classified := MAX_PAGE_BYTES, {};
      new;
      NothingRead(this.events, |this.events|);
    }

    /** All bodies read so far fit in the allowance. */
    ghost predicate Valid()
      reads this
    {
      Lengths(events) && 0 <= readRemaining && ReadBytes(events, classified, |events|) + readRemaining == MAX_PAGE_BYTES
    }

    method ReadEvent(i: nat) returns (ok: bool)
      requires Valid() && i < |events|
      modifies this
      ensures Valid() && old(classified) <= classified
      ensures ok <==> !projection || i in old(classified) || events[i].length <= old(readRemaining)
      ensures projection && ok && i !in old(classified) ==>
                classified == old(classified) + {i} && readRemaining == old(readRemaining) - events[i].length
      ensures !projection || !ok || i in old(classified) ==>
                classified == old(classified) && readRemaining == old(readRemaining)
    {
      ok := true;
      if projection {
        if i in classified {
          return;
        }
        if events[i].length > readRemaining {
          return false;
        }
        ReadOneMore(events, classified, i, |events|);
        readRemaining := readRemaining - events[i].length;
        classified := classified + {i};
      }
    }

    method PreviousUserEvent(end: nat) returns (u: int)
      requires end <= |events|
      ensures u == PreviousUser(events, end)
    {
      u := end - 1;
      while u >= 0 && !events[u].user
        invariant -1 <= u < end && PreviousUser(events, end) == PreviousUser(events, u + 1)
      {
        u := u - 1;
      }
    }

    /** Looks behind a prompt for its marker; only an exhausted allowance can stop it. */
    method FindMarker(start: nat) returns (r: Result<nat>)
      requires Valid() && start <= |events|
      modifies this
      ensures Valid() && old(classified) <= classified
      ensures r.Ok? ==> r.value == WithMarker(events, projection, start)
      ensures r.Ok? ==>
                if start > 0 && start - 1 in classified && start - 1 !in old(classified)
                then classified == old(classified) + {start - 1}
                  && readRemaining == old(readRemaining) - events[start - 1].length
                else classified == old(classified) && readRemaining == old(readRemaining)
      ensures r.Ok? && projection && start > 0 ==>
                (if events[start - 1].user then start - 1 in classified else classified == old(classified))
      ensures r.Err? ==>
                && r.error == Budget && projection && start > 0 && events[start - 1].user
                && start - 1 !in old(classified)
                && events[start - 1].length > old(readRemaining)
    {
      if start > 0 && events[start - 1].user && (projection || events[start - 1].length <= SMALL_MARKER_BYTES) {
        var ok := ReadEvent(start - 1);
        if !ok {
          return Err(Budget);
        }
        if events[start - 1].kind == Turn {
          return Ok(start - 1);
        }
      }
      r := Ok(start);
    }

    /** Checks that the rest of a turn fits the allowance, and if so reads it: none of those reads can then fail. */
    method LoadTurn(start: nat, end: nat) returns (ok: bool)
      requires Valid() && start <= end <= |events|
      modifies this
      ensures Valid() && old(classified) <= classified
      ensures ok <==> !projection || Unread(events, old(classified), start, end) <= old(readRemaining)
      ensures !ok ==> classified == old(classified)
      ensures ok ==> ReadsTurn(projection, old(classified), classified, start, end)
    {
      if projection {
        ok := Affordable(start, end);
        if !ok {
          return;
        }
      }
      ReadTurn(start, end);
      ok := true;
    }

    method Affordable(start: nat, end: nat) returns (ok: bool)
      requires Valid() && start <= end <= |events|
      ensures ok <==> Unread(events, classified, start, end) <= readRemaining
    {
      var needed, i := 0, start;
      while i < end
        invariant start <= i <= end && needed == Unread(events, classified, start, i) <= readRemaining
      {
        UnreadSnoc(events, classified, start, i);
        if i !in classified {
          if events[i].length > readRemaining - needed {
            UnreadGrows(events, classified, start, i + 1, end);
            return false;
          }
          needed := needed + events[i].length;
        }
        i := i + 1;
      }
      ok := true;
    }

    method ReadTurn(start: nat, end: nat)
      requires Valid() && start <= end <= |events|
      requires projection ==> Unread(events, classified, start, end) <= readRemaining
      modifies this
      ensures Valid() && old(classified) <= classified && ReadsTurn(projection, old(classified), classified, start, end)
    {
      var i := start;
      while i < end
        invariant start <= i <= end && Valid() && old(classified) <= classified
        invariant ReadsTurn(projection, old(classified), classified, start, i)
        invariant projection ==> Unread(events, classified, i, end) <= readRemaining
      {
        UnreadGrows(events, classified, i + 1, i + 1, end);
        UnreadOther(events, classified, i, i + 1, end);
        var ok := ReadEvent(i);
        assert ok;
        i := i + 1;
      }
    }

    /** Tries to add the turn that ends at `end`. A turn that does not fit ends the page, or refuses it if it is the
        first; the newest turn is omitted while it is open, and any other turn that is not whole is an error. */
    method TakeTurn(end: nat, canOmit: bool, first: bool, remaining: nat) returns (step: TurnStep)
      requires Valid() && end <= |events| && PreviousUser(events, end) >= 0
               && (canOmit <==> projection && end == |events|)
      modifies this
      ensures Valid()
      ensures step == StepOf(events, projection, end, first, remaining, old(classified), old(readRemaining))
      ensures step.Took? || step.Omitted? ==> ReadsTurn(projection, old(classified), classified, step.start, end)
    {
      var u := PreviousUserEvent(end);
      var marker := FindMarker(u);
      if marker.Err? {
        UnreadGrows(events, old(classified), u, u, end);
        assert Unread(events, old(classified), u - 1, end)
               == events[u - 1].length + Unread(events, old(classified), u, end);
        return if first then Failed(Budget) else Full;
      }
      var start := marker.value;
      var fits := remaining >= 1;
      if fits {
        fits := Preflight(events, start, end, remaining);
      }
      CanonicalSizeGrows(events, start, start, end);
      if !fits && !canOmit {
        return if first then Failed(Budget) else Full;
      }
      if projection {
        ShortIff(events, old(classified), old(readRemaining), classified, readRemaining, u, start, end);
      }
      var loaded := LoadTurn(start, end);
      if !loaded {
        return if first then Failed(Budget) else Full;
      }
      var incomplete := Classify(events[start..end], projection);
      if incomplete.Err? {
        return Failed(Integrity);
      }
      if incomplete.value {
        return if canOmit then Omitted(start) else Failed(Integrity);
      }
      if WireSize(events, start, end) > remaining {
        return if first then Failed(Budget) else Full;
      }
      step := Took(start);
    }
  }

  /** Under the projection every body of a turn is read, and besides them at most that of the event before it. */
  ghost predicate ReadsTurn(projection: bool, read: set<nat>, read': set<nat>, start: nat, end: nat) {
    && (forall i :: i in read' ==> i in read || start <= i + 1 <= end)
    && (projection ==> read <= read' && forall i: nat :: start <= i < end ==> i in read')
  }

  datatype TurnStep = Took(start: nat) | Omitted(start: nat) | Full | Failed(error: Error)

  ghost predicate WholeTurn(events: seq<Event>, projection: bool, t: Range) {
    && t.start <= t.end <= |events|
    && Admissible(events[t.start..t.end], projection, t.end - t.start) && Complete(events[t.start..t.end])
  }

  ghost predicate WholeTurns(events: seq<Event>, projection: bool, turns: seq<Range>) {
    forall t :: t in turns ==> WholeTurn(events, projection, t)
  }

  ghost predicate OpenTurn(events: seq<Event>, projection: bool, t: Range) {
    && t.start <= t.end <= |events|
    && Admissible(events[t.start..t.end], projection, t.end - t.start) && !Complete(events[t.start..t.end])
  }

  /** The newest turn of a document, under the projection, while it is open. */
  ghost predicate Omissible(events: seq<Event>, projection: bool, end: nat)
    requires end <= |events| && PreviousUser(events, end) >= 0
  {
    projection && end == |events| && OpenTurn(events, projection, Range(TurnStart(events, projection, end), end))
  }

  /** The first body that reading the turn of a prompt needs: that of the event before it, if it may be its marker. */
  function FirstNeeded(events: seq<Event>, u: nat): (i: nat)
    requires u <= |events|
    ensures i <= u
  {
    if u > 0 && events[u - 1].user then u - 1 else u
  }

  /** The bodies that reading the turn of a prompt needs exceed what is left of the allowance. */
  ghost predicate Short(events: seq<Event>, read: set<nat>, left: int, u: int, end: nat) {
    0 <= u <= end <= |events| && Unread(events, read, FirstNeeded(events, u), end) > left
  }

  /** After looking for the marker, what is left of the turn is too much exactly when the whole was. */
  lemma ShortIff(
      events: seq<Event>, read: set<nat>, left: int, read': set<nat>, left': int, u: nat, start: nat, end: nat)
    requires Lengths(events) && u < end <= |events| && start == WithMarker(events, true, u)
    requires if u > 0 && events[u - 1].user && u - 1 !in read then read' == read + {u - 1}
             && left' == left - events[u - 1].length
             else read' == read && left' == left
    ensures Unread(events, read', start, end) > left' <==> Short(events, read, left, u, end)
  {
    if read' != read {
      UnreadOther(events, read, u - 1, u, end);
    }
  }

  /** The turn before `end` is too much: under the projection its bodies do not fit the allowance, or its canonical form
      does not fit the page, unless it may yet be omitted, or it is whole and its encoding does not. */
  ghost predicate TooMuch(events: seq<Event>, projection: bool, end: nat, remaining: nat, read: set<nat>, left: int)
    requires end <= |events| && PreviousUser(events, end) >= 0
  {
    var start := TurnStart(events, projection, end);
    || (projection && Short(events, read, left, PreviousUser(events, end), end))
    || (!(projection && end == |events|) && CanonicalSize(events, start, end) > remaining)
    || (WholeTurn(events, projection, Range(start, end)) && WireSize(events, start, end) > remaining)
  }

  /** What becomes of the turn before `end`. */
  ghost function StepOf(
      events: seq<Event>, projection: bool, end: nat, first: bool, remaining: nat, read: set<nat>, left: int): TurnStep
    requires end <= |events| && PreviousUser(events, end) >= 0
  {
    var start := TurnStart(events, projection, end);
    if TooMuch(events, projection, end, remaining, read, left) then (if first then Failed(Budget) else Full)
    else if WholeTurn(events, projection, Range(start, end)) then Took(start)
    else if Omissible(events, projection, end) then Omitted(start)
    else Failed(Integrity)
  }

  lemma {:induction false} NothingRead(events: seq<Event>, n: nat)
    requires n <= |events|
    ensures ReadBytes(events, {}, n) == 0
  {
    if n > 0 {
      NothingRead(events, n - 1);
    }
  }

  // ----- pages -----

  /** The turns a page accounts for, the omitted tail first. */
  function Shown(page: HistoryPage): seq<Range> {
    (if page.omitted.Some? then [page.omitted.value] else []) + page.turns
  }

  function Last(page: HistoryPage): nat {
    if Shown(page) == [] then page.before else Shown(page)[|Shown(page)| - 1].start
  }

  function WireTotal(events: seq<Event>, turns: seq<Range>): nat
    requires forall t :: t in turns ==> t.start <= t.end <= |events|
  {
    if turns == [] then 0
    else WireTotal(events, turns[..|turns| - 1]) + WireSize(events, turns[|turns| - 1].start, turns[|turns| - 1].end)
  }

  ghost predicate ValidIndex(events: seq<Event>, projection: bool) {
    && Lengths(events)
    && (projection ==> forall i :: 0 <= i < |events| ==>
          events[i].order >= 0 && (i > 0 ==> events[i - 1].order < events[i].order))
  }

  /** A position at which a page may start. */
  ghost predicate GoodBoundary(events: seq<Event>, projection: bool, b: int) {
    && 0 <= b <= |events|
    && (0 < b < |events| ==>
          events[b].user && (PreviousUser(events, b) >= 0 ==> WithMarker(events, projection, b) == b))
  }

  ghost predicate ValidRequest(before: int, limit: int, maxBytes: int) {
    -1 <= before && 1 <= limit <= MAX_PAGE_TURNS && 1 <= maxBytes <= MAX_PAGE_BYTES
  }

  /** What a page says: it accounts for a stretch of the document's own turn partition, newest first. */
  ghost predicate PageOf(events: seq<Event>, projection: bool, limit: nat, maxBytes: nat, page: HistoryPage) {
    Whole(&& page.before <= |events| && Last(page) <= page.before
          && Partition(events, projection, page.before) == Shown(page) + Partition(events, projection, Last(page))
          && |page.turns| <= limit
          && WholeTurns(events, projection, page.turns) && WireTotal(events, page.turns) <= maxBytes
          && (page.omitted.Some? ==>
                projection && page.before == |events| && page.omitted.value.end == |events|
                  && OpenTurn(events, projection, page.omitted.value)))
  }

  /** The bodies read for what a page shows: under the projection all of them, and at most that of the event before. */
  ghost predicate ReadFor(projection: bool, page: HistoryPage, read: set<nat>) {
    ReadsTurn(projection, {}, read, Last(page), page.before)
  }

  /** The page is as long as its limits allow: it has the turns asked for, or no prompt is left, or the next turn is
      too much for what the page's bytes and the allowance of its reads have left. */
  ghost predicate Longest(events: seq<Event>, projection: bool, limit: nat, maxBytes: nat, page: HistoryPage)
    requires PageOf(events, projection, limit, maxBytes, page)
  {
    || |page.turns| == limit || PreviousUser(events, Last(page)) < 0
    || exists read: set<nat> :: ReadFor(projection, page, read) && StopsPage(events, projection, maxBytes, page, read)
  }

  ghost predicate StopsPage(events: seq<Event>, projection: bool, maxBytes: nat, page: HistoryPage, read: set<nat>)
    requires page.before <= |events| && Last(page) <= page.before && PreviousUser(events, Last(page)) >= 0
    requires (forall t :: t in page.turns ==> t.start <= t.end <= |events|) && WireTotal(events, page.turns) <= maxBytes
  {
    TooMuch(events, projection, Last(page), maxBytes - WireTotal(events, page.turns), read,
            MAX_PAGE_BYTES - ReadBytes(events, read, |events|))
  }

  lemma {:induction false} ShownStep(events: seq<Event>, projection: bool, page: HistoryPage, t: Range)
    requires page.before <= |events| && Last(page) <= page.before
    requires Partition(events, projection, page.before) == Shown(page) + Partition(events, projection, Last(page))
    requires PreviousUser(events, Last(page)) >= 0 && t == Range(TurnStart(events, projection, Last(page)), Last(page))
    ensures var next := page.(turns := page.turns + [t]);
            Last(next) == t.start
              && Partition(events, projection, page.before) == Shown(next) + Partition(events, projection, t.start)
  {
    ShownMore(page, t);
    Regroup(Partition(events, projection, page.before), Shown(page), [t], Partition(events, projection, t.start),
            Partition(events, projection, Last(page)));
  }

  lemma ShownMore(page: HistoryPage, t: Range)
    ensures var next := page.(turns := page.turns + [t]); Shown(next) == Shown(page) + [t] && Last(next) == t.start
  {
    var next := page.(turns := page.turns + [t]);
    assert Shown(next) == Shown(page) + [t];
  }

  lemma WireTotalStep(events: seq<Event>, turns: seq<Range>, t: Range)
    requires t.start <= t.end <= |events| && forall t :: t in turns ==> t.start <= t.end <= |events|
    ensures WireTotal(events, turns + [t]) == WireTotal(events, turns) + WireSize(events, t.start, t.end)
  {
    assert (turns + [t])[..|turns|] == turns;
  }

  method CheckIndex(events: seq<Event>, projection: bool) returns (ok: bool)
    ensures ok <==> ValidIndex(events, projection)
  {
    var i := 0;
    while i < |events|
      invariant 0 <= i <= |events|
      invariant forall k :: 0 <= k < i ==> events[k].length > 0
      invariant projection ==> forall k :: 0 <= k < i ==>
                  events[k].order >= 0 && (k > 0 ==> events[k - 1].order < events[k].order)
    {
      if events[i].length <= 0
        || (projection && (events[i].order < 0 || (i > 0 && events[i].order <= events[i - 1].order))) {
        return false;
      }
      i := i + 1;
    }
    ok := true;
  }

  /** A page under way: `page.next` is not yet set, and `remaining` is what the byte budget still allows. */
  ghost predicate Filling(
      events: seq<Event>, projection: bool, limit: nat, maxBytes: nat, page: HistoryPage, remaining: nat) {
    Whole(PageOf(events, projection, limit, maxBytes, page) && remaining + WireTotal(events, page.turns) == maxBytes)
  }

  lemma FillingTook(
      events: seq<Event>, projection: bool, limit: nat, maxBytes: nat, page: HistoryPage, remaining: nat, start: nat)
    requires Filling(events, projection, limit, maxBytes, page, remaining) && |page.turns| < limit
    requires PreviousUser(events, Last(page)) >= 0 && start == TurnStart(events, projection, Last(page))
    requires WholeTurn(events, projection, Range(start, Last(page))) && WireSize(events, start, Last(page)) <= remaining
    ensures var next := page.(turns := page.turns + [Range(start, Last(page))]);
            Last(next) == start
              && Filling(events, projection, limit, maxBytes, next, remaining - WireSize(events, start, Last(page)))
  {
    var t := Range(start, Last(page));
    ShownStep(events, projection, page, t);
    TurnsMore(events, projection, page.turns, t, remaining, maxBytes);
  }

  lemma TurnsMore(events: seq<Event>, projection: bool, turns: seq<Range>, t: Range, remaining: nat, maxBytes: nat)
    requires WholeTurns(events, projection, turns) && remaining + WireTotal(events, turns) == maxBytes
    requires WholeTurn(events, projection, t) && WireSize(events, t.start, t.end) <= remaining
    ensures WholeTurns(events, projection, turns + [t])
    ensures remaining - WireSize(events, t.start, t.end) + WireTotal(events, turns + [t]) == maxBytes
  {
    AllWhole(events, projection, turns, t);
    WireTotalStep(events, turns, t);
  }

  lemma AllWhole(events: seq<Event>, projection: bool, turns: seq<Range>, t: Range)
    requires WholeTurn(events, projection, t) && WholeTurns(events, projection, turns)
    ensures WholeTurns(events, projection, turns + [t])
  {
  }

  lemma FillingOmitted(
      events: seq<Event>, projection: bool, limit: nat, maxBytes: nat, page: HistoryPage, remaining: nat, start: nat)
    requires Filling(events, projection, limit, maxBytes, page, remaining)
    requires projection && page.before == |events| && page.turns == [] && page.omitted.None?
    requires PreviousUser(events, |events|) >= 0 && start == TurnStart(events, projection, |events|)
    requires OpenTurn(events, projection, Range(start, |events|))
    ensures var next := page.(omitted := Some(Range(start, |events|)));
            Last(next) == start && Filling(events, projection, limit, maxBytes, next, remaining)
  {
    var t := Range(start, |events|);
    assert Shown(page.(omitted := Some(t))) == [t];
    assert Partition(events, projection, |events|) == [t] + Partition(events, projection, start);
  }

  lemma ReadsOn(projection: bool, read: set<nat>, read': set<nat>, start: nat, end: nat, b: nat)
    requires start < end <= b && ReadsTurn(projection, {}, read, end, b)
             && ReadsTurn(projection, read, read', start, end)
    ensures ReadsTurn(projection, {}, read', start, b)
  {
  }

  /** A page under way, and the bodies read for it. */
  ghost predicate Filled(
      events: seq<Event>, projection: bool, b: nat, limit: nat, maxBytes: nat, page: HistoryPage, remaining: nat,
      read: set<nat>) {
    Whole(&& page.before == b && Filling(events, projection, limit, maxBytes, page, remaining)
          && (Last(page) == b <==> page.turns == [] && page.omitted.None?)
          && (Last(page) == b ==> remaining == maxBytes)
          && ReadFor(projection, page, read))
  }

  /** A page that cannot be longer. */
  ghost predicate Finished(events: seq<Event>, projection: bool, b: nat, limit: nat, maxBytes: nat, page: HistoryPage) {
    Whole(&& page.before == b && Last(page) < b && PageOf(events, projection, limit, maxBytes, page)
          && Longest(events, projection, limit, maxBytes, page))
  }

  /** Why a page is refused: its first turn is too much, or it comes to a turn that cannot be shown. */
  ghost predicate FillError(
      events: seq<Event>, projection: bool, b: nat, limit: nat, maxBytes: nat, page: HistoryPage, read: set<nat>,
      left: int, error: Error)
    requires b <= |events| && PreviousUser(events, b) >= 0
  {
    Whole(match error
          case Integrity => Stuck(events, projection, b, limit, maxBytes)
          case Budget => page.turns == [] && page.omitted.None? && TooMuch(events, projection, b, maxBytes, read, left)
          case _ => false)
  }

  lemma FilledNone(events: seq<Event>, projection: bool, b: nat, limit: nat, maxBytes: nat, read: set<nat>)
    requires b <= |events| && ReadsTurn(projection, {}, read, b, b)
    ensures Filled(events, projection, b, limit, maxBytes, HistoryPage(b, -1, [], None), maxBytes, read)
  {
    var page := HistoryPage(b, -1, [], None);
    assert Shown(page) == [] && [] + Partition(events, projection, b) == Partition(events, projection, b);
  }

  /** What one turn of the loop leaves: an error, a page that cannot be longer, or one that is longer. */
  ghost predicate FillStep(
      events: seq<Event>, projection: bool, b: nat, limit: nat, maxBytes: nat, page: HistoryPage, read: set<nat>,
      left: int, error: Option<Error>, next: HistoryPage, remaining: nat, done: bool, read': set<nat>)
    requires b <= |events| && PreviousUser(events, b) >= 0
  {
    Whole(match error
          case Some(e) => FillError(events, projection, b, limit, maxBytes, page, read, left, e)
          case None =>
            && !(next.turns == [] && next.omitted.None?)
            && if done then Finished(events, projection, b, limit, maxBytes, next)
               else Filled(events, projection, b, limit, maxBytes, next, remaining, read') && Last(next) < Last(page))
  }

  lemma FilledPage(
      events: seq<Event>, projection: bool, b: nat, limit: nat, maxBytes: nat, page: HistoryPage, remaining: nat,
      read: set<nat>, left: int)
    requires Filled(events, projection, b, limit, maxBytes, page, remaining, read)
    requires b <= |events| && PreviousUser(events, b) >= 0
    ensures Last(page) <= b && (Last(page) == b <==> page.turns == [] && page.omitted.None?)
    ensures PreviousUser(events, Last(page)) < 0 ==>
              FillStep(events, projection, b, limit, maxBytes, page, read, left, None, page, remaining, true, read)
  {
  }

  /** The loop ended at its limit. */
  lemma FilledUp(
      events: seq<Event>, projection: bool, b: nat, limit: nat, maxBytes: nat, page: HistoryPage, remaining: nat,
      read: set<nat>)
    requires Filled(events, projection, b, limit, maxBytes, page, remaining, read) && 1 <= limit <= |page.turns|
    ensures Finished(events, projection, b, limit, maxBytes, page)
  {
  }

  lemma FilledFull(
      events: seq<Event>, projection: bool, b: nat, limit: nat, maxBytes: nat, page: HistoryPage, remaining: nat,
      read: set<nat>, left: int, read': set<nat>)
    requires Filled(events, projection, b, limit, maxBytes, page, remaining, read) && Last(page) < b <= |events|
    requires PreviousUser(events, b) >= 0 && PreviousUser(events, Last(page)) >= 0
    requires ReadBytes(events, read, |events|) + left == MAX_PAGE_BYTES
    requires TooMuch(events, projection, Last(page), remaining, read, left)
    ensures FillStep(events, projection, b, limit, maxBytes, page, read, left, None, page, remaining, true, read')
  {
    assert StopsPage(events, projection, maxBytes, page, read);
  }

  lemma FilledFailed(
      events: seq<Event>, projection: bool, b: nat, limit: nat, maxBytes: nat, page: HistoryPage, remaining: nat,
      read: set<nat>, left: int, error: Error, read': set<nat>)
    requires Filled(events, projection, b, limit, maxBytes, page, remaining, read) && |page.turns| < limit
    requires Last(page) <= b <= |events| && PreviousUser(events, b) >= 0 && PreviousUser(events, Last(page)) >= 0
    requires ReadBytes(events, read, |events|) + left == MAX_PAGE_BYTES
    requires StepOf(events, projection, Last(page), page.turns == [] && page.omitted.None?, remaining, read, left)
             == Failed(error)
    ensures FillStep(events, projection, b, limit, maxBytes, page, read, left, Some(error), page, remaining, true,
                     read')
  {
    if error == Integrity {
      assert StuckAfter(events, projection, b, limit, maxBytes, page, read);
    }
  }

  lemma FilledOmitted(
      events: seq<Event>, projection: bool, b: nat, limit: nat, maxBytes: nat, page: HistoryPage, remaining: nat,
      read: set<nat>, left: int, read': set<nat>)
    requires Filled(events, projection, b, limit, maxBytes, page, remaining, read)
    requires Last(page) <= b <= |events| && PreviousUser(events, b) >= 0 && PreviousUser(events, Last(page)) >= 0
    requires StepOf(
               events, projection, Last(page), page.turns == [] && page.omitted.None?, remaining, read, left).Omitted?
    requires ReadsTurn(projection, read, read', TurnStart(events, projection, Last(page)), Last(page))
    ensures var next := page.(omitted := Some(Range(TurnStart(events, projection, Last(page)), Last(page))));
            FillStep(events, projection, b, limit, maxBytes, page, read, left, None, next, remaining, false, read')
  {
    var start := TurnStart(events, projection, Last(page));
    FillingOmitted(events, projection, limit, maxBytes, page, remaining, start);
    ReadsOn(projection, read, read', start, Last(page), b);
  }

  lemma FilledTook(
      events: seq<Event>, projection: bool, b: nat, limit: nat, maxBytes: nat, page: HistoryPage, remaining: nat,
      read: set<nat>, left: int, read': set<nat>)
    requires Filled(events, projection, b, limit, maxBytes, page, remaining, read) && |page.turns| < limit
    requires Last(page) <= b <= |events| && PreviousUser(events, b) >= 0 && PreviousUser(events, Last(page)) >= 0
    requires StepOf(
               events, projection, Last(page), page.turns == [] && page.omitted.None?, remaining, read, left).Took?
    requires ReadsTurn(projection, read, read', TurnStart(events, projection, Last(page)), Last(page))
    ensures var start, end := TurnStart(events, projection, Last(page)), Last(page);
            && WireSize(events, start, end) <= remaining
            && FillStep(events, projection, b, limit, maxBytes, page, read, left, None,
                        page.(turns := page.turns + [Range(start, end)]), remaining - WireSize(events, start, end),
                        false, read')
  {
    var start := TurnStart(events, projection, Last(page));
    FillingTook(events, projection, limit, maxBytes, page, remaining, start);
    ReadsOn(projection, read, read', start, Last(page), b);
  }

  lemma SetNext(events: seq<Event>, projection: bool, b: nat, limit: nat, maxBytes: nat, page: HistoryPage, next: int)
    requires Finished(events, projection, b, limit, maxBytes, page)
    ensures Last(page.(next := next)) == Last(page)
            && Finished(events, projection, b, limit, maxBytes, page.(next := next))
  {
    assert Shown(page.(next := next)) == Shown(page);
    if |page.turns| < limit && PreviousUser(events, Last(page)) >= 0 {
      var read: set<nat> :| ReadFor(projection, page, read) && StopsPage(events, projection, maxBytes, page, read);
      assert ReadFor(projection, page.(next := next), read)
             && StopsPage(events, projection, maxBytes, page.(next := next), read);
    }
  }

  /** A page asked for at `b` comes, with fewer turns than asked for, to a turn that is not too much but neither whole
      nor the open newest one; `page` accounts for the turns before it, for which the bodies `read` were read. */
  ghost predicate StuckAfter(
      events: seq<Event>, projection: bool, b: nat, limit: nat, maxBytes: nat, page: HistoryPage, read: set<nat>) {
    && page.before == b && PageOf(events, projection, limit, maxBytes, page) && |page.turns| < limit
    && PreviousUser(events, Last(page)) >= 0 && ReadFor(projection, page, read)
    && !StopsPage(events, projection, maxBytes, page, read)
    && !WholeTurn(events, projection, Range(TurnStart(events, projection, Last(page)), Last(page)))
    && !Omissible(events, projection, Last(page))
  }

  ghost predicate Stuck(events: seq<Event>, projection: bool, b: nat, limit: nat, maxBytes: nat) {
    exists page, read :: StuckAfter(events, projection, b, limit, maxBytes, page, read)
  }

  ghost predicate Showable(events: seq<Event>, projection: bool, t: Range) {
    && t.end <= |events| && PreviousUser(events, t.end) >= 0
    && (WholeTurn(events, projection, t) || Omissible(events, projection, t.end))
  }

  ghost predicate AllShowable(events: seq<Event>, projection: bool, b: nat)
    requires b <= |events|
  {
    forall t :: t in Partition(events, projection, b) ==> Showable(events, projection, t)
  }

  /** The turn a page is stuck at is one of the partition before it. */
  lemma NotStuck(events: seq<Event>, projection: bool, b: nat, limit: nat, maxBytes: nat)
    requires b <= |events| && AllShowable(events, projection, b)
    ensures !Stuck(events, projection, b, limit, maxBytes)
  {
    forall page: HistoryPage | page.before == b && PageOf(events, projection, limit, maxBytes, page)
      && PreviousUser(events, Last(page)) >= 0
      ensures Showable(events, projection, Range(TurnStart(events, projection, Last(page)), Last(page)))
    {
      assert Range(TurnStart(events, projection, Last(page)), Last(page)) in Partition(events, projection, Last(page));
    }
  }

  /** Reads one page of complete turns, newest first, starting before the given position. */
  method ReadPage(
      events: seq<Event>, projection: bool, before: int, limit: int, maxBytes: int)
    returns (r: Result<HistoryPage>)
    ensures r.Ok? || r == Err(BadRequest) || r == Err(BadBoundary) || r == Err(Budget) || r == Err(Integrity)
    ensures r == Err(BadRequest) <==> !ValidRequest(before, limit, maxBytes)
    ensures r.Ok? ==>
              ValidRequest(before, limit, maxBytes) && ValidIndex(events, projection)
                && r.value.before == StartAt(events, before)
    ensures r.Ok? ==>
              PageOf(events, projection, limit, maxBytes, r.value) && GoodBoundary(events, projection, r.value.before)
    ensures r.Ok? ==> Longest(events, projection, limit, maxBytes, r.value)
    ensures r.Ok? ==>
              r.value.next == (if PreviousUser(events, Last(r.value)) >= 0 then Last(r.value) else -1) < r.value.before
    ensures r == Err(BadBoundary) ==> !GoodBoundary(events, projection, StartAt(events, before))
    ensures r == Err(Integrity) ==>
              || !ValidIndex(events, projection)
              || (0 <= StartAt(events, before) <= |events|
                  && Stuck(events, projection, StartAt(events, before), limit, maxBytes))
    ensures r == Err(Budget) ==>
              && 0 <= StartAt(events, before) <= |events| && PreviousUser(events, StartAt(events, before)) >= 0
              && TooMuch(events, projection, StartAt(events, before), maxBytes, {}, MAX_PAGE_BYTES)
    ensures r == Err(Budget) && !projection ==> GoodBoundary(events, projection, StartAt(events, before))
  {
    if before < -1 || limit < 1 || limit > MAX_PAGE_TURNS || maxBytes < 1 || maxBytes > MAX_PAGE_BYTES {
      return Err(BadRequest);
    }
    var indexed := CheckIndex(events, projection);
    if !indexed {
      return Err(Integrity);
    }
    var b := if before == -1 then |events| else before;
    if b > |events| || (0 < b < |events| && !events[b].user) {
      return Err(BadBoundary);
    }
    r := ReadAt(events, projection, b, limit, maxBytes);
  }

  /** What a page asked for at a position may be. */
  ghost predicate PageAnswer(
      events: seq<Event>, projection: bool, b: nat, limit: nat, maxBytes: nat, r: Result<HistoryPage>)
    requires b <= |events|
  {
    Whole(match r
          case Ok(page) =>
            && page.before == b && PageOf(events, projection, limit, maxBytes, page)
            && Longest(events, projection, limit, maxBytes, page)
            && GoodBoundary(events, projection, b)
            && page.next == (if PreviousUser(events, Last(page)) >= 0 then Last(page) else -1) < b
          case Err(BadBoundary) => !GoodBoundary(events, projection, b)
          case Err(Integrity) => Stuck(events, projection, b, limit, maxBytes)
          case Err(Budget) =>
            && PreviousUser(events, b) >= 0 && TooMuch(events, projection, b, maxBytes, {}, MAX_PAGE_BYTES)
            && (!projection ==> GoodBoundary(events, projection, b))
          case Err(_) => false)
  }

  method ReadAt(
      events: seq<Event>, projection: bool, b: nat, limit: nat, maxBytes: nat)
    returns (r: Result<HistoryPage>)
    requires Lengths(events) && b <= |events| && (0 < b < |events| ==> events[b].user) && limit >= 1 && maxBytes >= 1
    ensures PageAnswer(events, projection, b, limit, maxBytes, r)
  {
    var reader := new HistoryReader(events, projection);
    var u := reader.PreviousUserEvent(b);
    if u < 0 {
      assert Shown(HistoryPage(b, -1, [], None)) == [];
      return Ok(HistoryPage(b, -1, [], None));
    }
    if 0 < b < |events| {
      var start := reader.FindMarker(b);
      if start.Err? {
        LastIsShort(events, {}, MAX_PAGE_BYTES, u, b);
        return Err(Budget);
      }
      if start.value != b {
        return Err(BadBoundary);
      }
    }
    ghost var read, left := reader.classified, reader.readRemaining;
    r := FillPage(reader, b, limit, maxBytes);
    if r == Err(Budget) && Short(events, read, left, u, b) {
      ShortFromStart(events, read, left, u, b);
    }
  }

  lemma LastIsShort(events: seq<Event>, read: set<nat>, left: int, u: nat, b: nat)
    requires Lengths(events) && u < b <= |events| && b - 1 !in read && events[b - 1].length > left
    ensures Short(events, read, left, u, b)
  {
    var from := FirstNeeded(events, u);
    UnreadSnoc(events, read, from, b - 1);
    UnreadGrows(events, read, from, b - 1, b);
  }

  /** Having read only the event before the page's start leaves a page as short as having read nothing. */
  lemma ShortFromStart(events: seq<Event>, read: set<nat>, left: int, u: nat, b: nat)
    requires Lengths(events) && u < b <= |events| && Short(events, read, left, u, b)
    requires (read == {} && left == MAX_PAGE_BYTES)
             || (read == {b - 1} && left == MAX_PAGE_BYTES - events[b - 1].length)
    ensures Short(events, {}, MAX_PAGE_BYTES, u, b)
  {
    if read != {} {
      var from := FirstNeeded(events, u);
      UnreadSnoc(events, read, from, b - 1);
      UnreadSnoc(events, {}, from, b - 1);
      UnreadSame(events, {}, read, from, b - 1);
    }
  }

  lemma {:induction false} UnreadSame(events: seq<Event>, read: set<nat>, read': set<nat>, start: nat, end: nat)
    requires start <= end <= |events| && forall i :: start <= i < end ==> (i in read <==> i in read')
    ensures Unread(events, read, start, end) == Unread(events, read', start, end)
    decreases end - start
  {
    if start < end {
      UnreadSame(events, read, read', start + 1, end);
    }
  }

  function StartAt(events: seq<Event>, before: int): int {
    if before == -1 then |events| else before
  }

  method FillPage(reader: HistoryReader, b: nat, limit: nat, maxBytes: nat) returns (r: Result<HistoryPage>)
    requires reader.Valid() && b <= |reader.events| && PreviousUser(reader.events, b) >= 0 && limit >= 1
             && maxBytes >= 1
    requires ReadsTurn(reader.projection, {}, reader.classified, b, b)
    modifies reader
    ensures r.Ok? ==> r.value.before == b && PageOf(reader.events, reader.projection, limit, maxBytes, r.value)
    ensures r.Ok? ==> Longest(reader.events, reader.projection, limit, maxBytes, r.value)
    ensures r.Ok? ==>
              r.value.next == (if PreviousUser(reader.events, Last(r.value)) >= 0 then Last(r.value) else -1) < b
    ensures r == Err(Budget) ==>
              TooMuch(reader.events, reader.projection, b, maxBytes, old(reader.classified), old(reader.readRemaining))
    ensures r == Err(Integrity) ==> Stuck(reader.events, reader.projection, b, limit, maxBytes)
    ensures r.Err? ==> r.error == Budget || r.error == Integrity
  {
    var events, projection := reader.events, reader.projection;
    var page, remaining: nat, done := HistoryPage(b, -1, [], None), maxBytes, false;
    FilledNone(events, projection, b, limit, maxBytes, reader.classified);
    while |page.turns| < limit && !done
      invariant reader.Valid()
      invariant if done then Finished(events, projection, b, limit, maxBytes, page)
                else Filled(events, projection, b, limit, maxBytes, page, remaining, reader.classified)
      invariant page.turns == [] && page.omitted.None? ==>
                  reader.classified == old(reader.classified) && reader.readRemaining == old(reader.readRemaining)
      decreases !done, Last(page)
    {
      var error;
      error, page, remaining, done := FillNext(reader, b, limit, maxBytes, page, remaining);
      if error.Some? {
        return Err(error.value);
      }
    }
    if !done {
      FilledUp(events, projection, b, limit, maxBytes, page, remaining, reader.classified);
    }
    var u := reader.PreviousUserEvent(Last(page));
    r := Ok(page.(next := if u >= 0 then Last(page) else -1));
    SetNext(events, projection, b, limit, maxBytes, page, r.value.next);
  }

  /** One turn of the loop that fills a page. */
  method FillNext(reader: HistoryReader, b: nat, limit: nat, maxBytes: nat, page: HistoryPage, remaining: nat)
    returns (error: Option<Error>, next: HistoryPage, left: nat, done: bool)
    requires reader.Valid()
             && Filled(reader.events, reader.projection, b, limit, maxBytes, page, remaining, reader.classified)
    requires |page.turns| < limit && b <= |reader.events| && PreviousUser(reader.events, b) >= 0
    modifies reader
    ensures reader.Valid()
    ensures FillStep(reader.events, reader.projection, b, limit, maxBytes, page, old(reader.classified),
                     old(reader.readRemaining), error, next, left, done, reader.classified)
  {
    var events, projection, end := reader.events, reader.projection, Last(page);
    FilledPage(events, projection, b, limit, maxBytes, page, remaining, reader.classified, reader.readRemaining);
    var u := reader.PreviousUserEvent(end);
    if u < 0 {
      return None, page, remaining, true;
    }
    ghost var read, allowed := reader.classified, reader.readRemaining;
    var first := page.turns == [] && page.omitted.None?;
    var step := reader.TakeTurn(end, projection && b == |events| && end == |events|, first, remaining);
    match step {
      case Full =>
        FilledFull(events, projection, b, limit, maxBytes, page, remaining, read, allowed, reader.classified);
        return None, page, remaining, true;
      case Failed(e) =>
        FilledFailed(events, projection, b, limit, maxBytes, page, remaining, read, allowed, e, reader.classified);
        return Some(e), page, remaining, true;
      case Omitted(start) =>
        FilledOmitted(events, projection, b, limit, maxBytes, page, remaining, read, allowed, reader.classified);
        return None, page.(omitted := Some(Range(start, end))), remaining, false;
      case Took(start) =>
        FilledTook(events, projection, b, limit, maxBytes, page, remaining, read, allowed, reader.classified);
        return None, page.(turns := page.turns + [Range(start, end)]), remaining - WireSize(events, start, end), false;
    }
  }

  // ----- following pages -----

  /** The prompt of the turn before `end` is preceded by two markers in a row. */
  ghost predicate DoubleMarker(events: seq<Event>, projection: bool, end: nat)
    requires end <= |events|
  {
    var u := PreviousUser(events, end);
    u >= 2 && Marker(events[u - 1], projection) && Marker(events[u - 2], projection)
  }

  /** A page's next position is accepted as the start of another page exactly when the last turn it
      shows is not preceded by a second marker. */
  lemma NextAcceptedIff(events: seq<Event>, projection: bool, end: nat)
    requires end <= |events| && PreviousUser(events, end) >= 0
    requires PreviousUser(events, TurnStart(events, projection, end)) >= 0
    ensures GoodBoundary(events, projection, TurnStart(events, projection, end)) <==>
              !DoubleMarker(events, projection, end)
  {
    var u, s := PreviousUser(events, end), TurnStart(events, projection, end);
    assert 0 < s < |events| && events[s].user;
  }

  function TwoMarkers(): seq<Event> {
    [Event(true, Turn, 0, 200, 220, 0), Event(true, Turn, 1, 200, 220, 0), Event(true, Message, 2, 300, 330, 0)]
  }

  lemma TwoMarkersTurns()
    ensures var events := TwoMarkers();
            && PreviousUser(events, 3) == 2 && TurnStart(events, false, 3) == 1
            && PreviousUser(events, 1) == 0 && TurnStart(events, false, 1) == 0
            && GoodBoundary(events, false, 3) && !GoodBoundary(events, false, 1) && ValidIndex(events, false)
  {
    assert WithMarker(TwoMarkers(), false, 1) == 0;
  }

  lemma TwoMarkersWhole()
    ensures WholeTurn(TwoMarkers(), false, Range(1, 3)) && WholeTurn(TwoMarkers(), false, Range(0, 1))
  {
    var events := TwoMarkers();
    assert events[1..3] == [events[1], events[2]] && events[0..1] == [events[0]];
  }

  lemma TwoMarkersSizes()
    ensures CanonicalSize(TwoMarkers(), 1, 3) <= 1000 && WireSize(TwoMarkers(), 1, 3) <= 1000
  {
    var events := TwoMarkers();
    assert CanonicalSize(events, 1, 3) == 503 && WireSize(events, 1, 3) == 553;
  }

  lemma TwoMarkersFacts()
    ensures var events := TwoMarkers();
            && PreviousUser(events, 3) == 2 && TurnStart(events, false, 3) == 1 && PreviousUser(events, 1) == 0
            && Partition(events, false, 3) == [Range(1, 3), Range(0, 1)]
            && AllShowable(events, false, 3) && AllShowable(events, false, 1)
            && ValidIndex(events, false) && GoodBoundary(events, false, 3) && !GoodBoundary(events, false, 1)
            && CanonicalSize(events, 1, 3) <= 1000 && WireSize(events, 1, 3) <= 1000
  {
    TwoMarkersTurns();
    TwoMarkersWhole();
    TwoMarkersSizes();
    TwoTurns(TwoMarkers());
  }

  lemma TwoTurns(events: seq<Event>)
    requires |events| == 3 && PreviousUser(events, 3) == 2 && TurnStart(events, false, 3) == 1
    requires PreviousUser(events, 1) == 0 && TurnStart(events, false, 1) == 0
    requires WholeTurn(events, false, Range(1, 3)) && WholeTurn(events, false, Range(0, 1))
    ensures Partition(events, false, 3) == [Range(1, 3), Range(0, 1)]
    ensures AllShowable(events, false, 3) && AllShowable(events, false, 1)
  {
    assert Partition(events, false, 0) == [];
    assert Partition(events, false, 1) == [Range(0, 1)] + [];
    assert Partition(events, false, 3) == [Range(1, 3)] + [Range(0, 1)];
  }

  /** A page of one turn over two shows the newer. */
  lemma OneTurnPage(events: seq<Event>, page: HistoryPage, newer: Range, older: Range)
    requires PageOf(events, false, 1, 1000, page) && Partition(events, false, page.before) == [newer, older]
    requires Last(page) < page.before
    ensures page.turns == [newer] && Last(page) == newer.start
  {
    FirstOfTwo(page, Partition(events, false, Last(page)), newer, older);
  }

  lemma FirstOfTwo(page: HistoryPage, rest: seq<Range>, newer: Range, older: Range)
    requires Shown(page) + rest == [newer, older] && page.omitted.None? && |page.turns| <= 1 && Last(page) < page.before
    ensures page.turns == [newer] && Last(page) == newer.start
  {
    assert [] + page.turns == page.turns;
    assert |page.turns| == 1 && page.turns[0] == (page.turns + rest)[0];
  }

  /** Two adjacent markers: the first page hands out position 1, and the request for it is refused. */
  method NextRefused() returns (page: Result<HistoryPage>, refused: Result<HistoryPage>)
    ensures page.Ok? && page.value.turns == [Range(1, 3)] && page.value.next == 1
    ensures refused == Err(BadBoundary)
  {
    TwoMarkersFacts();
    NotStuck(TwoMarkers(), false, 3, 1, 1000);
    NotStuck(TwoMarkers(), false, 1, 1, 1000);
    page := ReadPage(TwoMarkers(), false, -1, 1, 1000);
    OneTurnPage(TwoMarkers(), page.value, Range(1, 3), Range(0, 1));
    refused := ReadPage(TwoMarkers(), false, 1, 1, 1000);
  }

  ghost predicate NoAdjacentMarkers(events: seq<Event>, projection: bool) {
    forall i, j :: 0 <= i < j < |events| && j == i + 1 ==>
      !(Marker(events[i], projection) && Marker(events[j], projection))
  }

  /** The turns accounted for by several pages, the omitted tail first. */
  function AllShown(omitted: Option<Range>, turns: seq<Range>): seq<Range> {
    (if omitted.Some? then [omitted.value] else []) + turns
  }

  /** Only the newest turn can be left out, when it is still open; every other turn handed out is complete. */
  ghost predicate RightlyShown(events: seq<Event>, projection: bool, omitted: Option<Range>, turns: seq<Range>) {
    && (omitted.Some? ==> projection && omitted.value.end == |events| && OpenTurn(events, projection, omitted.value))
    && WholeTurns(events, projection, turns)
  }

  /** Why the page asked for at `end` failed. */
  ghost predicate FailsAt(events: seq<Event>, projection: bool, limit: nat, maxBytes: nat, end: nat, error: Error)
    requires end <= |events|
  {
    Whole(match error
          case Integrity => !ValidIndex(events, projection) || Stuck(events, projection, end, limit, maxBytes)
          case Budget => PreviousUser(events, end) >= 0
            && TooMuch(events, projection, end, maxBytes, {}, MAX_PAGE_BYTES)
          case BadBoundary => !GoodBoundary(events, projection, end)
          case _ => false)
  }

  /** Every turn of the document can be shown on a page of its own, and the newest one may be open instead of whole. */
  ghost predicate Readable(events: seq<Event>, projection: bool, maxBytes: nat) {
    && ValidIndex(events, projection) && NoAdjacentMarkers(events, projection)
    && forall t :: t in Partition(events, projection, |events|) ==>
      Showable(events, projection, t) && !TooMuch(events, projection, t.end, maxBytes, {}, MAX_PAGE_BYTES)
  }

  /** Requests page after page, each at the position the one before handed out. Whatever the limits, the
      turns accounted for are the newest part of the document's turn partition, each exactly once; when
      the pages run out it is the whole partition. At most the newest turn is left out, and only when it
      is open; all others are complete. A failure is that of the page asked for next, and a document whose
      turns can be shown one by one is read to its beginning. */
  method FollowHistory(events: seq<Event>, projection: bool, limit: int, maxBytes: int)
    returns (omitted: Option<Range>, turns: seq<Range>, end: nat, failure: Option<Error>)
    requires ValidRequest(-1, limit, maxBytes)
    ensures end <= |events|
            && Partition(events, projection, |events|) == AllShown(omitted, turns) + Partition(events, projection, end)
    ensures RightlyShown(events, projection, omitted, turns)
    ensures failure.None? ==> AllShown(omitted, turns) == Partition(events, projection, |events|)
    ensures failure.Some? ==> FailsAt(events, projection, limit, maxBytes, end, failure.value)
    ensures NoAdjacentMarkers(events, projection) ==> failure != Some(BadBoundary)
    ensures Readable(events, projection, maxBytes) ==> failure.None?
  {
    omitted, turns, end, failure := FollowPages(events, projection, limit, maxBytes);
    if failure.Some? && Readable(events, projection, maxBytes) {
      ReadableGoesOn(events, projection, limit, maxBytes, AllShown(omitted, turns), end, failure.value);
    }
  }

  method FollowPages(events: seq<Event>, projection: bool, limit: int, maxBytes: int)
    returns (omitted: Option<Range>, turns: seq<Range>, end: nat, failure: Option<Error>)
    requires ValidRequest(-1, limit, maxBytes)
    ensures end <= |events| && Followed(events, projection, omitted, turns, end)
    ensures failure.None? ==> AllShown(omitted, turns) == Partition(events, projection, |events|)
    ensures failure.Some? ==> FailsAt(events, projection, limit, maxBytes, end, failure.value)
    ensures NoAdjacentMarkers(events, projection) ==> failure != Some(BadBoundary)
  {
    omitted, turns, end, failure := None, [], |events|, None;
    var before := -1;
    while failure.None?
      invariant end <= |events| && Followed(events, projection, omitted, turns, end)
      invariant if before == -1 then end == |events| && omitted == None && turns == [] else before == end < |events|
      invariant failure.Some? ==> FailsAt(events, projection, limit, maxBytes, end, failure.value)
      invariant NoAdjacentMarkers(events, projection) && before >= 0 ==> GoodBoundary(events, projection, end)
      invariant NoAdjacentMarkers(events, projection) ==> failure != Some(BadBoundary)
      decreases failure.None?, end, before == -1
    {
      var page := AskPage(events, projection, before, end, limit, maxBytes);
      match page {
        case Err(error) =>
          if NoAdjacentMarkers(events, projection) {
            GoodBoundaryHolds(events, projection, limit, maxBytes, end, error);
          }
          failure := Some(error);
        case Ok(p) =>
          FollowOn(events, projection, limit, maxBytes, omitted, turns, p);
          omitted, turns, end := if before == -1 then p.omitted else omitted, turns + p.turns, Last(p);
          if p.next == -1 {
            break;
          }
          before := p.next;
      }
    }
  }

  /** The page asked for at the position reached. */
  method AskPage(
      events: seq<Event>, projection: bool, before: int, end: nat, limit: int, maxBytes: int)
    returns (r: Result<HistoryPage>)
    requires ValidRequest(before, limit, maxBytes) && StartAt(events, before) == end <= |events|
    ensures r.Err? ==> FailsAt(events, projection, limit, maxBytes, end, r.error)
    ensures r.Ok? ==> r.value.before == end && PageOf(events, projection, limit, maxBytes, r.value)
    ensures r.Ok? ==> r.value.next == (if PreviousUser(events, Last(r.value)) >= 0 then Last(r.value) else -1) < end
  {
    r := ReadPage(events, projection, before, limit, maxBytes);
  }

  lemma GoodBoundaryHolds(events: seq<Event>, projection: bool, limit: nat, maxBytes: nat, end: nat, error: Error)
    requires end <= |events| && GoodBoundary(events, projection, end)
             && FailsAt(events, projection, limit, maxBytes, end, error)
    ensures error != BadBoundary
  {
  }

  /** What has been followed down to `end`. */
  ghost predicate Followed(events: seq<Event>, projection: bool, omitted: Option<Range>, turns: seq<Range>, end: nat)
    requires end <= |events|
  {
    Whole(&& Partition(events, projection, |events|) == AllShown(omitted, turns) + Partition(events, projection, end)
          && RightlyShown(events, projection, omitted, turns))
  }

  lemma FollowOn(
      events: seq<Event>, projection: bool, limit: nat, maxBytes: nat, omitted: Option<Range>, turns: seq<Range>,
      p: HistoryPage)
    requires PageOf(events, projection, limit, maxBytes, p) && p.before <= |events| && Last(p) <= p.before
    requires Followed(events, projection, omitted, turns, p.before)
             && (p.before == |events| ==> omitted == None && turns == [])
    ensures var both := if p.before == |events| then p.omitted else omitted;
            && Followed(events, projection, both, turns + p.turns, Last(p))
            && (PreviousUser(events, Last(p)) < 0 ==>
                  AllShown(both, turns + p.turns) == Partition(events, projection, |events|))
    ensures NoAdjacentMarkers(events, projection) && Last(p) < p.before && PreviousUser(events, Last(p)) >= 0 ==>
              GoodBoundary(events, projection, Last(p))
  {
    FollowStep(events, projection, limit, maxBytes, AllShown(omitted, turns), p);
    ShownTogether(events, projection, limit, maxBytes, omitted, turns, p);
  }

  /** A readable document fails at no position but a bad boundary. */
  lemma ReadableGoesOn(
      events: seq<Event>, projection: bool, limit: nat, maxBytes: nat, shown: seq<Range>, end: nat, error: Error)
    requires Readable(events, projection, maxBytes) && end <= |events|
    requires Partition(events, projection, |events|) == shown + Partition(events, projection, end)
    ensures FailsAt(events, projection, limit, maxBytes, end, error) ==> error == BadBoundary
  {
    forall t | t in Partition(events, projection, end)
      ensures Showable(events, projection, t)
    {
      assert t in shown + Partition(events, projection, end);
    }
    NotStuck(events, projection, end, limit, maxBytes);
    if PreviousUser(events, end) >= 0 {
      var t := Range(TurnStart(events, projection, end), end);
      assert t in Partition(events, projection, end);
      assert t in shown + Partition(events, projection, end);
    }
  }

  lemma AllWholeJoined(events: seq<Event>, projection: bool, a: seq<Range>, b: seq<Range>)
    requires WholeTurns(events, projection, a) && WholeTurns(events, projection, b)
    ensures WholeTurns(events, projection, a + b)
  {
  }

  /** A page adds its turns, and its omitted tail only if it is the first page. */
  lemma ShownTogether(
      events: seq<Event>, projection: bool, limit: nat, maxBytes: nat, omitted: Option<Range>, turns: seq<Range>,
      p: HistoryPage)
    requires PageOf(events, projection, limit, maxBytes, p) && RightlyShown(events, projection, omitted, turns)
    requires p.before == |events| ==> omitted == None && turns == []
    ensures var both := if p.before == |events| then p.omitted else omitted;
            AllShown(both, turns + p.turns) == AllShown(omitted, turns) + Shown(p)
              && RightlyShown(events, projection, both, turns + p.turns)
  {
    AllWholeJoined(events, projection, turns, p.turns);
    var front := if omitted.Some? then [omitted.value] else [];
    Associate(front, turns, p.turns);
    assert Shown(p) == if p.omitted.Some? then [p.omitted.value] + p.turns else p.turns;
  }

  lemma {:induction false} FollowStep(
      events: seq<Event>, projection: bool, limit: nat, maxBytes: nat, shown: seq<Range>, p: HistoryPage)
    requires PageOf(events, projection, limit, maxBytes, p)
    requires Partition(events, projection, |events|) == shown + Partition(events, projection, p.before)
    ensures Partition(events, projection, |events|) == shown + Shown(p) + Partition(events, projection, Last(p))
    ensures PreviousUser(events, Last(p)) < 0 ==> Partition(events, projection, |events|) == shown + Shown(p)
    ensures NoAdjacentMarkers(events, projection) && Last(p) < p.before && PreviousUser(events, Last(p)) >= 0 ==>
              GoodBoundary(events, projection, Last(p))
  {
    Associate(shown, Shown(p), Partition(events, projection, Last(p)));
    if Shown(p) != [] {
      assert Shown(p)[|Shown(p)| - 1] == Partition(events, projection, p.before)[|Shown(p)| - 1];
      TurnOf(events, projection, p.before, |Shown(p)| - 1);
    }
  }

  /** Every range of the partition is the turn that ends where it ends. */
  lemma {:induction false} TurnOf(events: seq<Event>, projection: bool, end: nat, k: nat)
    requires end <= |events| && k < |Partition(events, projection, end)|
    ensures var t := Partition(events, projection, end)[k];
            t.end <= end && PreviousUser(events, t.end) >= 0 && t.start == TurnStart(events, projection, t.end)
    ensures var t := Partition(events, projection, end)[k];
            NoAdjacentMarkers(events, projection) && PreviousUser(events, t.start) >= 0 ==>
              GoodBoundary(events, projection, t.start)
    decreases k
  {
    if k > 0 {
      TurnOf(events, projection, TurnStart(events, projection, end), k - 1);
    } else if PreviousUser(events, TurnStart(events, projection, end)) >= 0 {
      NextAcceptedIff(events, projection, end);
    }
  }
}
