/** Pages of a document search, and the whole search obtained by following their cursors. */
module DocFindPaging {
  import opened Basics
  import opened Utf8
  import opened FindText
  import opened FindWindow
  import opened DocFind
  import opened Obligations

  datatype PageResult = Paged(matches: seq<DocMatch>, next: Cursor) | Refused(error: Error)

  ghost predicate BadRange(source: seq<Entry>, from: int, to: int, index: int, field: int, byte: int) {
    !(0 <= from <= index <= to <= |source| && 0 <= field && 0 <= byte)
  }

  ghost predicate BrokenBetween(source: seq<Entry>, first: nat, to: nat) {
    exists i :: first <= i < to <= |source| && PlanOf(source[i]).Broken?
  }

  ghost predicate CursorOk(source: seq<Entry>, to: nat, c: Cursor) {
    c.index >= to || (c.index < |source| && ValidCursor(source[c.index], c))
  }

  lemma FreshCursor(e: Entry, i: nat)
    requires ValidEntry(e) && !PlanOf(e).Broken?
    ensures ValidCursor(e, Cursor(i, 0, 0))
  {
  }

  /** Delivering part of one event's matches delivers part of the range's. */
  lemma RemainingMoved(
      fold: Folding, source: seq<Entry>, to: nat, pattern: seq<int>, c: Cursor, had: seq<DocMatch>, d: Cursor,
      has: seq<DocMatch>)
    requires c.index < to <= |source| && EventScanned(fold, source[c.index], pattern, c, had, d, has)
    ensures Remaining(fold, source, to, pattern, c) == has[|had|..] + Remaining(fold, source, to, pattern, d)
  {
    var got, later := has[|had|..], Remaining(fold, source, to, pattern, Cursor(c.index + 1, 0, 0));
    if d.index == c.index {
      Associate(got, EventRest(fold, source[c.index], pattern, d), later);
    } else {
      assert got + [] == got;
    }
  }

  /** The state of a page under way: what it holds and what remains make up what there was. */
  ghost predicate PageInv(
      fold: Folding, source: seq<Entry>, to: nat, pattern: seq<int>, c: Cursor, d: Cursor, has: seq<DocMatch>) {
    Whole(&& to <= |source| && |has| <= PAGE_MATCHES && d.index <= to
          && Remaining(fold, source, to, pattern, c) == has + Remaining(fold, source, to, pattern, d)
          && (d == c || Ahead(c, d)))
  }

  lemma PageStep(
      fold: Folding, source: seq<Entry>, to: nat, pattern: seq<int>, c: Cursor, d: Cursor, has: seq<DocMatch>,
      e: Cursor, has': seq<DocMatch>)
    requires PageInv(fold, source, to, pattern, c, d, has) && d.index < to
    requires EventScanned(fold, source[d.index], pattern, d, has, e, has')
    ensures PageInv(fold, source, to, pattern, c, e, has') && Ahead(c, e)
            && (e.index == d.index ==> CursorOk(source, to, e))
  {
    RemainingMoved(fold, source, to, pattern, d, has, e, has');
    assert has' == has + has'[|has|..];
    Associate(has, has'[|has|..], Remaining(fold, source, to, pattern, e));
  }

  lemma {:induction false} SkippedRest(fold: Folding, source: seq<Entry>, to: nat, pattern: seq<int>, d: Cursor)
    requires d.index < to <= |source| && PlanOf(source[d.index]).Skipped?
    ensures Remaining(fold, source, to, pattern, d) == Remaining(fold, source, to, pattern, Cursor(d.index + 1, 0, 0))
  {
    var e, later := source[d.index], Remaining(fold, source, to, pattern, Cursor(d.index + 1, 0, 0));
    assert EventRest(fold, e, pattern, d) == [];
    EmptyLeft(later);
    assert Remaining(fold, source, to, pattern, d) == EventRest(fold, e, pattern, d) + later;
  }

  lemma {:induction false} SkipStep(
      fold: Folding, source: seq<Entry>, to: nat, pattern: seq<int>, c: Cursor, d: Cursor, has: seq<DocMatch>)
    requires PageInv(fold, source, to, pattern, c, d, has) && d.index < to && PlanOf(source[d.index]).Skipped?
    ensures PageInv(fold, source, to, pattern, c, Cursor(d.index + 1, 0, 0), has) && Ahead(c, Cursor(d.index + 1, 0, 0))
  {
    SkippedRest(fold, source, to, pattern, d);
  }

  lemma SmallEvent(
      fold: Folding, e: Entry, pattern: seq<int>, c: Cursor, had: seq<DocMatch>, d: Cursor, has: seq<DocMatch>)
    requires |e.body| <= VIEW_BYTES && !e.emptyReasoning && e.kind != Compaction
    requires TextsScanned(fold, e.texts, pattern, c, had, d, has)
    ensures EventScanned(fold, e, pattern, c, had, d, has)
  {
  }

  /** One page. On success the matches it holds and those still ahead of its cursor are exactly those that
      were ahead of the cursor it started from, and a page that is not at the end has moved on. */
  method ScanRange(
      fold: Folding, source: seq<Entry>, query: Text, from: int, to: int, index: int, field: int, byte: int)
    returns (r: PageResult)
    requires ValidQuery(query) && ValidSource(source)
    ensures r.Refused? ==>
              || BadRange(source, from, to, index, field, byte)
              || !CursorOk(source, to, Cursor(index, field, byte)) || BrokenBetween(source, index, to)
    ensures r.Paged? ==> !BadRange(source, from, to, index, field, byte) && index <= r.next.index <= to
    ensures r.Paged? ==> |r.matches| <= PAGE_MATCHES
    ensures r.Paged? ==>
              Remaining(fold, source, to, Pattern(fold, query), Cursor(index, field, byte))
              == r.matches + Remaining(fold, source, to, Pattern(fold, query), r.next)
    ensures r.Paged? && index < to ==> Ahead(Cursor(index, field, byte), r.next)
    ensures r.Paged? && CursorOk(source, to, Cursor(index, field, byte)) ==>
              CursorOk(source, to, r.next) || BrokenBetween(source, index, to)
  {
    if from < 0 || to < from || to > |source| || index < from || index > to || field < 0 || byte < 0 {
      return Refused(Validation);
    }
    ghost var c := Cursor(index, field, byte);
    var selector := new Progress(from, to, index, field, byte);
    var page := new Page();
    var scanned, events := 0, 0;
    while selector.index < to && scanned < SCAN_BYTES && events < SCAN_EVENTS && |page.matches| < PAGE_MATCHES
      invariant selector.Placed() && index <= selector.index && 0 <= scanned <= SCAN_BYTES && 0 <= events <= SCAN_EVENTS
      invariant UnderWay(fold, source, to, Pattern(fold, query), c, selector.At(), page.matches, scanned)
      invariant selector.At() == c ==> events == 0 && page.matches == []
      decreases SCAN_BYTES - scanned + SCAN_EVENTS - events + PAGE_MATCHES - |page.matches|
    {
      var step := ScanEvent(fold, source, to, query, selector, page, scanned, c);
      match step
      case Stop =>
        break;
      case Refuse(error) =>
        return Refused(error);
      case Go(bytes, done) =>
        scanned := scanned + bytes;
        if done {
          events := events + 1;
        }
    }
    r := Paged(page.matches, selector.At());
  }

  /** What one pass of the page loop did: nothing for want of byte budget, fail, or scan some bytes and perhaps finish
      an event. */
  datatype Step = Stop | Refuse(error: Error) | Go(bytes: nat, done: bool)

  ghost predicate UnderWay(
      fold: Folding, source: seq<Entry>, to: nat, pattern: seq<int>, c: Cursor, d: Cursor, has: seq<DocMatch>,
      scanned: int) {
    Whole(&& PageInv(fold, source, to, pattern, c, d, has)
          && (d == c ==> scanned == 0)
          && (d == c || CursorOk(source, to, d) || BrokenBetween(source, c.index, to)))
  }

  ghost predicate Refusable(source: seq<Entry>, to: nat, c: Cursor) {
    Whole(!CursorOk(source, to, c) || BrokenBetween(source, c.index, to))
  }

  /** A pass that stops has not moved, and any other has moved on with the page still right. */
  ghost predicate Stepped(
      fold: Folding, source: seq<Entry>, to: nat, pattern: seq<int>, c: Cursor, scanned: nat, before: Cursor,
      had: seq<DocMatch>,
      step: Step, d: Cursor, has: seq<DocMatch>) {
    Whole(match step
          case Refuse(_) => true
          case Stop => d == before && has == had && d != c
          case Go(bytes, done) =>
            && Ahead(c, d) && scanned + bytes <= SCAN_BYTES
            && UnderWay(fold, source, to, pattern, c, d, has, scanned + bytes)
            && |had| <= |has| && (bytes > 0 || done || |has| > |had|))
  }

  method ScanEvent(
      fold: Folding, source: seq<Entry>, to: nat, query: Text, selector: Progress, page: Page, scanned: nat,
      ghost c: Cursor)
    returns (step: Step)
    requires ValidQuery(query) && ValidSource(source) && to <= |source|
    requires selector.Placed() && c.index <= selector.index < to && scanned < SCAN_BYTES
             && |page.matches| < PAGE_MATCHES
    requires UnderWay(fold, source, to, Pattern(fold, query), c, selector.At(), page.matches, scanned)
    modifies selector, page
    ensures step.Refuse? ==> Refusable(source, to, c)
    ensures !step.Refuse? ==>
              selector.Placed()
              && Stepped(fold, source, to, Pattern(fold, query), c, scanned, old(selector.At()), old(page.matches),
                         step, selector.At(), page.matches)
  {
    var e := source[selector.index];
    if e.emptyReasoning || e.kind == Compaction {
      step := SkipEvent(fold, source, to, query, selector, page, scanned, c);
    } else if |e.body| > VIEW_BYTES {
      step := ScanLargeEvent(fold, source, to, query, selector, page, scanned, c);
    } else {
      step := ScanSmallEvent(fold, source, to, query, selector, page, scanned, c);
    }
  }

  method SkipEvent(
      fold: Folding, source: seq<Entry>, to: nat, query: Text, selector: Progress, page: Page, scanned: nat,
      ghost c: Cursor)
    returns (step: Step)
    requires ValidQuery(query) && ValidSource(source) && to <= |source|
    requires selector.Placed() && c.index <= selector.index < to && scanned < SCAN_BYTES
             && |page.matches| < PAGE_MATCHES
    requires UnderWay(fold, source, to, Pattern(fold, query), c, selector.At(), page.matches, scanned)
    requires var e := source[selector.index]; e.emptyReasoning || e.kind == Compaction
    modifies selector
    ensures step == Go(0, true) && selector.Placed()
    ensures Stepped(fold, source, to, Pattern(fold, query), c, scanned, old(selector.At()), page.matches, step,
                    selector.At(), page.matches)
  {
    SkipStepped(fold, source, to, Pattern(fold, query), c, scanned, selector.At(), page.matches);
    selector.index, selector.field, selector.byte := selector.index + 1, 0, 0;
    assert selector.At() == Cursor(old(selector.At()).index + 1, 0, 0);
    step := Go(0, true);
  }

  lemma SkipStepped(
      fold: Folding, source: seq<Entry>, to: nat, pattern: seq<int>, c: Cursor, scanned: nat, d: Cursor,
      has: seq<DocMatch>)
    requires ValidSource(source) && to <= |source| && c.index <= d.index < to && scanned < SCAN_BYTES
    requires UnderWay(fold, source, to, pattern, c, d, has, scanned)
             && (source[d.index].emptyReasoning || source[d.index].kind == Compaction)
    ensures Stepped(fold, source, to, pattern, c, scanned, d, has, Go(0, true), Cursor(d.index + 1, 0, 0), has)
  {
    NextCursorOk(source, c.index, to, d.index + 1);
    SkipStep(fold, source, to, pattern, c, d, has);
  }

  method ScanLargeEvent(
      fold: Folding, source: seq<Entry>, to: nat, query: Text, selector: Progress, page: Page, scanned: nat,
      ghost c: Cursor)
    returns (step: Step)
    requires ValidQuery(query) && ValidSource(source) && to <= |source|
    requires selector.Placed() && c.index <= selector.index < to && scanned < SCAN_BYTES
             && |page.matches| < PAGE_MATCHES
    requires UnderWay(fold, source, to, Pattern(fold, query), c, selector.At(), page.matches, scanned)
    requires var e := source[selector.index]; |e.body| > VIEW_BYTES && !e.emptyReasoning && e.kind != Compaction
    modifies selector, page
    ensures step.Refuse? ==> Refusable(source, to, c)
    ensures !step.Refuse? ==>
              selector.Placed()
              && Stepped(fold, source, to, Pattern(fold, query), c, scanned, old(selector.At()), old(page.matches),
                         step, selector.At(), page.matches)
  {
    if SCAN_BYTES - scanned < VIEW_BYTES + FIELDS_BYTES {
      return Stop;
    }
    ghost var pattern, d, has := Pattern(fold, query), selector.At(), page.matches;
    NextCursorOk(source, c.index, to, d.index + 1);
    var count := ScanLarge(fold, source[selector.index], query, selector, page, SCAN_BYTES - scanned);
    if count.Failed? {
      return Refuse(count.error);
    }
    PageStep(fold, source, to, pattern, c, d, has, selector.At(), page.matches);
    step := Go(count.bytes, selector.byte == 0);
  }

  method ScanSmallEvent(
      fold: Folding, source: seq<Entry>, to: nat, query: Text, selector: Progress, page: Page, scanned: nat,
      ghost c: Cursor)
    returns (step: Step)
    requires ValidQuery(query) && ValidSource(source) && to <= |source|
    requires selector.Placed() && c.index <= selector.index < to && scanned < SCAN_BYTES
             && |page.matches| < PAGE_MATCHES
    requires UnderWay(fold, source, to, Pattern(fold, query), c, selector.At(), page.matches, scanned)
    requires var e := source[selector.index]; |e.body| <= VIEW_BYTES && !e.emptyReasoning && e.kind != Compaction
    modifies selector, page
    ensures step.Refuse? ==> Refusable(source, to, c)
    ensures !step.Refuse? ==>
              selector.Placed()
              && Stepped(fold, source, to, Pattern(fold, query), c, scanned, old(selector.At()), old(page.matches),
                         step, selector.At(), page.matches)
  {
    var e := source[selector.index];
    if scanned + |e.body| > SCAN_BYTES {
      return Stop;
    }
    ghost var pattern, d, has := Pattern(fold, query), selector.At(), page.matches;
    NextCursorOk(source, c.index, to, d.index + 1);
    var previous := selector.index;
    var ok := ScanTexts(fold, e.texts, query, selector, page);
    if !ok {
      return Refuse(Validation);
    }
    SmallEvent(fold, e, pattern, d, has, selector.At(), page.matches);
    PageStep(fold, source, to, pattern, c, d, has, selector.At(), page.matches);
    step := Go(|e.body|, selector.index != previous);
  }

  lemma NextCursorOk(source: seq<Entry>, first: nat, to: nat, i: nat)
    requires ValidSource(source) && first <= i && to <= |source|
    ensures CursorOk(source, to, Cursor(i, 0, 0)) || BrokenBetween(source, first, to)
  {
    if i < to && !PlanOf(source[i]).Broken? {
      FreshCursor(source[i], i);
    }
  }

  // ----- following the cursor -----

  function FieldBound(e: Entry): nat {
    match PlanOf(e)
    case Texts(texts) => |texts|
    case _ => 0
  }

  function ByteBound(e: Entry, field: nat): nat {
    match PlanOf(e)
    case Texts(texts) => if field < |texts| then |texts[field]| else 0
    case _ => |e.body|
  }

  lemma CursorBounds(e: Entry, c: Cursor)
    requires ValidCursor(e, c)
    ensures c.field <= FieldBound(e) && c.byte <= ByteBound(e, c.field)
  {
  }

  /** Following the cursor from page to page until it reaches the end of the range collects every match
      of the range, in order, whatever the budgets cut. */
  method FollowCursor(fold: Folding, source: seq<Entry>, query: Text, from: nat, to: nat) returns (all: seq<DocMatch>)
    requires ValidQuery(query) && ValidSource(source) && from <= to <= |source| && !BrokenBetween(source, from, to)
    ensures all == Remaining(fold, source, to, Pattern(fold, query), Cursor(from, 0, 0))
  {
    ghost var pattern := Pattern(fold, query);
    var c := Cursor(from, 0, 0);
    all := [];
    NextCursorOk(source, from, to, from);
    EmptyLeft(Remaining(fold, source, to, pattern, c));
    while c.index < to
      invariant from <= c.index <= to && CursorOk(source, to, c)
      invariant Remaining(fold, source, to, pattern, Cursor(from, 0, 0))
                == all + Remaining(fold, source, to, pattern, c)
      decreases |source| - c.index, LeftAt(source, c).0, LeftAt(source, c).1
    {
      var page := ScanRange(fold, source, query, from, to, c.index, c.field, c.byte);
      assert BrokenBetween(source, c.index, to) ==> BrokenBetween(source, from, to);
      match page
      case Refused(_) =>
        assert false;
      case Paged(matches, next) =>
        Associate(all, matches, Remaining(fold, source, to, pattern, next));
        if next.index == c.index {
          LeftShrinks(source[c.index], c, next);
        }
        all, c := all + matches, next;
    }
  }

  /** Fields and bytes a cursor still has before it in its event. */
  ghost function LeftIn(e: Entry, c: Cursor): (nat, nat) {
    (if c.field <= FieldBound(e) then FieldBound(e) - c.field else 0,
     if c.byte <= ByteBound(e, c.field) then ByteBound(e, c.field) - c.byte else 0)
  }

  ghost function LeftAt(source: seq<Entry>, c: Cursor): (nat, nat) {
    if c.index < |source| then LeftIn(source[c.index], c) else (0, 0)
  }

  lemma LeftShrinks(e: Entry, c: Cursor, d: Cursor)
    requires ValidCursor(e, c) && ValidCursor(e, d) && c.index == d.index && Ahead(c, d)
    ensures LeftIn(e, d).0 < LeftIn(e, c).0 || (LeftIn(e, d).0 == LeftIn(e, c).0 && LeftIn(e, d).1 < LeftIn(e, c).1)
  {
    CursorBounds(e, c);
    CursorBounds(e, d);
  }

  // ----- no match is reported twice -----

  predicate Precedes(a: DocMatch, b: DocMatch) {
    a.index < b.index || (a.index == b.index && (a.field < b.field || (a.field == b.field && a.offset < b.offset)))
  }

  ghost predicate Increasing(ms: seq<DocMatch>) {
    forall i, j :: 0 <= i < j < |ms| ==> Precedes(ms[i], ms[j])
  }

  lemma IncreasingConcat(a: seq<DocMatch>, b: seq<DocMatch>)
    requires Increasing(a) && Increasing(b) && forall x, y :: x in a && y in b ==> Precedes(x, y)
    ensures Increasing(a + b)
  {
  }

  lemma SearchIncreases(fold: Folding, t: Text, i: nat, pattern: seq<int>)
    ensures var ms := Search(fold, t, i, pattern); forall a, b :: 0 <= a < b < |ms| ==> ms[a].offset < ms[b].offset
  {
    if i <= |t| && ValidFrom(t, i) {
      AllMatchesIncrease(fold, t, i, pattern);
    }
  }

  lemma {:induction false} TextsIncrease(fold: Folding, texts: seq<Text>, pattern: seq<int>, c: Cursor)
    ensures Increasing(TextRest(fold, texts, pattern, c))
    ensures forall m :: m in TextRest(fold, texts, pattern, c) ==> m.index == c.index && m.field >= c.field
    decreases |texts| - c.field
  {
    if c.field < |texts| {
      var next := Cursor(c.index, c.field + 1, 0);
      TextsIncrease(fold, texts, pattern, next);
      SearchIncreases(fold, texts[c.field], c.byte, pattern);
      IncreasingConcat(InText(Search(fold, texts[c.field], c.byte, pattern), c.index, c.field),
                       TextRest(fold, texts, pattern, next));
    }
  }

  lemma EventIncreases(fold: Folding, e: Entry, pattern: seq<int>, c: Cursor)
    ensures Increasing(EventRest(fold, e, pattern, c))
    ensures forall m :: m in EventRest(fold, e, pattern, c) ==> m.index == c.index
  {
    match PlanOf(e)
    case Texts(texts) => TextsIncrease(fold, texts, pattern, c);
    case Raw(from, to) =>
      if from <= to <= |e.body| {
        SearchIncreases(fold, e.body[from..to], RawPosition(from, c), pattern);
      }
    case _ =>
  }

  /** The matches of a range are strictly increasing in event, field and offset: none is reported twice. */
  lemma {:induction false} RemainingIncreases(fold: Folding, source: seq<Entry>, to: nat, pattern: seq<int>, c: Cursor)
    requires to <= |source|
    ensures Increasing(Remaining(fold, source, to, pattern, c))
    ensures forall m :: m in Remaining(fold, source, to, pattern, c) ==> c.index <= m.index < to
    decreases |source| - c.index
  {
    if c.index < to {
      var next := Cursor(c.index + 1, 0, 0);
      RemainingIncreases(fold, source, to, pattern, next);
      EventIncreases(fold, source[c.index], pattern, c);
      IncreasingConcat(EventRest(fold, source[c.index], pattern, c), Remaining(fold, source, to, pattern, next));
    }
  }
}
