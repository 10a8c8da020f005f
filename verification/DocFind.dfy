/** Paged search over the events of a document. Each page continues at the cursor the previous one
    left, under byte, event and match budgets; together the pages give every match exactly once. */
module DocFind {
  import opened Basics
  import opened Obligations
  import opened Utf8
  import opened FindText
  import opened FindWindow

  const SCAN_BYTES := 262144
  const FRAGMENT_BYTES := 65536
  const SCAN_EVENTS := 128
  const VIEW_BYTES := 131072
  const FIELDS_BYTES := 2048

  datatype Kind = Message | Turn | ToolCall | ToolResult | Reasoning | Compaction

  datatype Span = Span(from: nat, to: nat)

  /** Where the searchable public part of an oversized event lies in its bytes. */
  datatype Fields = Fields(summary: Option<Span>, blocks: Option<Span>)

  /** An indexed event: its bytes, the texts decoded from them, and for an oversized event the located
      public fields with the texts decoded from those. */
  datatype Entry = Entry(
    kind: Kind, emptyReasoning: bool, body: Text, texts: seq<Text>, fields: Option<Fields>, publicTexts: seq<Text>)

  datatype Error = Validation | Unavailable | Integrity

  datatype DocMatch = DocMatch(index: nat, field: nat, offset: nat, end: nat, raw: bool)

  datatype Cursor = Cursor(index: nat, field: nat, byte: nat)

  // ----- what a search of the whole range finds -----

  /** How an event is searched: not at all, text by text, or over a range of its raw bytes. */
  datatype Plan = Skipped | Texts(texts: seq<Text>) | Raw(from: nat, to: nat) | Broken(error: Error)

  function Selected(e: Entry): Option<Span>
    requires e.fields.Some?
  {
    if e.kind == Message then e.fields.value.blocks else e.fields.value.summary
  }

  function PlanOf(e: Entry): Plan {
    if e.emptyReasoning || e.kind == Compaction then Skipped
    else if |e.body| <= VIEW_BYTES then Texts(e.texts)
    else if e.kind != Reasoning && e.kind != Message then Raw(0, |e.body|)
    else if e.fields.None? then Broken(Unavailable)
    else if Selected(e).None? then (if e.kind == Reasoning then Broken(Integrity) else Texts([]))
    else
      var span := Selected(e).value;
      if span.to - span.from <= VIEW_BYTES then Texts(e.publicTexts)
      else if e.kind == Reasoning then Raw(span.from + 1, span.to - 1)
      else Raw(span.from, span.to)
  }

  predicate ValidTexts(texts: seq<Text>) {
    forall i :: 0 <= i < |texts| ==> Valid(texts[i])
  }

  /** The stored document is well-formed text, and the located fields lie inside it. */
  predicate ValidEntry(e: Entry) {
    match PlanOf(e)
    case Texts(texts) => ValidTexts(texts)
    case Raw(from, to) => from < to <= |e.body| && Valid(e.body[from..to])
    case _ => true
  }

  predicate ValidSource(source: seq<Entry>) {
    forall i :: 0 <= i < |source| ==> ValidEntry(source[i])
  }

  function Search(fold: Folding, t: Text, i: nat, pattern: seq<int>): seq<Match> {
    if i <= |t| && ValidFrom(t, i) then AllMatches(fold, t, i, pattern) else []
  }

  function InText(ms: seq<Match>, index: nat, field: nat): seq<DocMatch> {
    seq(|ms|, k requires 0 <= k < |ms| => DocMatch(index, field, ms[k].offset, ms[k].end, false))
  }

  function InRaw(ms: seq<Match>, index: nat, from: nat): seq<DocMatch> {
    seq(|ms|, k requires 0 <= k < |ms| => DocMatch(index, 0, ms[k].offset + from, ms[k].end + from, true))
  }

  function TextRest(fold: Folding, texts: seq<Text>, pattern: seq<int>, c: Cursor): seq<DocMatch>
    decreases |texts| - c.field
  {
    if c.field >= |texts| then []
    else InText(Search(fold, texts[c.field], c.byte, pattern), c.index, c.field)
         + TextRest(fold, texts, pattern, Cursor(c.index, c.field + 1, 0))
  }

  function RawRest(fold: Folding, range: Text, from: nat, pattern: seq<int>, c: Cursor): seq<DocMatch> {
    InRaw(Search(fold, range, RawPosition(from, c), pattern), c.index, from)
  }

  /** A byte cursor of zero stands for the start of the raw range. */
  function RawPosition(from: nat, c: Cursor): nat {
    if c.byte < from then 0 else c.byte - from
  }

  /** What is still to be found in the cursor's own event. */
  function EventRest(fold: Folding, e: Entry, pattern: seq<int>, c: Cursor): seq<DocMatch> {
    match PlanOf(e)
    case Texts(texts) => TextRest(fold, texts, pattern, c)
    case Raw(from, to) => if from <= to <= |e.body| then RawRest(fold, e.body[from..to], from, pattern, c) else []
    case _ => []
  }

  /** What is still to be found from the cursor up to the event `to`. */
  function Remaining(fold: Folding, source: seq<Entry>, to: nat, pattern: seq<int>, c: Cursor): seq<DocMatch>
    requires to <= |source|
    decreases |source| - c.index
  {
    if c.index >= to then []
    else EventRest(fold, source[c.index], pattern, c) + Remaining(fold, source, to, pattern, Cursor(c.index + 1, 0, 0))
  }

  // ----- cursors -----

  predicate TextCursor(texts: seq<Text>, c: Cursor) {
    if c.field < |texts| then Boundary(texts[c.field], c.byte) else c.field == |texts| && c.byte == 0
  }

  predicate RawCursor(range: Text, from: nat, c: Cursor) {
    c.field == 0 && (c.byte == 0 || (from <= c.byte < from + |range| && Boundary(range, c.byte - from)))
  }

  /** A position inside its event from which a page can continue. */
  predicate ValidCursor(e: Entry, c: Cursor) {
    match PlanOf(e)
    case Skipped => c.field == 0 && c.byte == 0
    case Texts(texts) => TextCursor(texts, c)
    case Raw(from, to) => from <= to <= |e.body| && RawCursor(e.body[from..to], from, c)
    case Broken(_) => false
  }

  predicate Ahead(c: Cursor, d: Cursor) {
    c.index < d.index || (c.index == d.index && (c.field < d.field || (c.field == d.field && c.byte < d.byte)))
  }

  /** Scanning moved the cursor from `c` to `d` within or past one event, and delivered exactly what lay between. */
  ghost predicate Moved(
      rest: seq<DocMatch>, had: seq<DocMatch>, c: Cursor, restAfter: seq<DocMatch>, has: seq<DocMatch>, d: Cursor) {
    Whole(&& had <= has && |has| <= PAGE_MATCHES
          && (d.index == c.index || d == Cursor(c.index + 1, 0, 0))
          && Ahead(c, d)
          && rest == has[|had|..] + (if d.index == c.index then restAfter else []))
  }

  class Progress {
    const from: int
    const to: int
    var index: int
    var field: int
    var byte: int

    constructor (from: int, to: int, index: int, field: int, byte: int)
      ensures this.from == from && this.to == to && this.index == index && this.field == field && this.byte == byte
    {
      this.from, this.to, this.index, this.field, this.byte := from, to, index, field, byte;
    }

    predicate Placed()
      reads this
    {
      0 <= index && 0 <= field && 0 <= byte
    }

    function At(): Cursor
      reads this
      requires Placed()
    {
      Cursor(index, field, byte)
    }
  }

  class Page {
    var matches: seq<DocMatch>

    constructor ()
      ensures matches == []
    {
      matches := [];
    }
  }

  // ----- searching text by text -----

  lemma InTextConcat(a: seq<Match>, b: seq<Match>, index: nat, field: nat)
    ensures InText(a + b, index, field) == InText(a, index, field) + InText(b, index, field)
  {
  }

  /** A page that fills up inside a text resumes behind the first rune of its last match. */
  lemma TextFull(fold: Folding, t: Text, i: nat, pattern: seq<int>, limit: nat)
    requires Valid(t) && Boundary(t, i) && limit > 0
    requires |Take(Search(fold, t, i, pattern), limit)| == limit
    ensures var taken := Take(Search(fold, t, i, pattern), limit); var last := taken[limit - 1].offset;
            && i <= last < |t| && RuneAt(t, last) && Boundary(t, Next(t, last))
            && Search(fold, t, i, pattern) == taken + Search(fold, t, Next(t, last), pattern)
  {
    BoundaryReached(t, 0, i);
    ResumeAfter(fold, t, i, pattern, limit);
    BoundaryOfValid(t, Next(t, Take(Search(fold, t, i, pattern), limit)[limit - 1].offset));
  }

  lemma BoundaryOfValid(t: Text, i: nat)
    requires ValidFrom(t, i) && i <= |t|
    ensures Boundary(t, i)
  {
  }

  lemma SearchEnd(fold: Folding, t: Text, pattern: seq<int>)
    ensures Search(fold, t, |t|, pattern) == []
  {
  }

  ghost predicate TextScan(
      fold: Folding, texts: seq<Text>, pattern: seq<int>, c: Cursor, had: seq<DocMatch>, d: Cursor,
      has: seq<DocMatch>) {
    Whole(&& d.index == c.index && had <= has && |has| <= PAGE_MATCHES && TextCursor(texts, d)
          && TextRest(fold, texts, pattern, c) == has[|had|..] + TextRest(fold, texts, pattern, d))
  }

  /** One text searched: either all its remaining matches fit, or the page is now full. */
  lemma TextStep(
      fold: Folding, texts: seq<Text>, pattern: seq<int>, c: Cursor, had: seq<DocMatch>, d: Cursor, has: seq<DocMatch>,
      e: Cursor, taken: seq<Match>, rest: seq<Match>)
    requires TextScan(fold, texts, pattern, c, had, d, has) && d.field < |texts|
    requires Search(fold, texts[d.field], d.byte, pattern) == taken + rest
    requires e.index == d.index && TextCursor(texts, e) && |has| + |taken| <= PAGE_MATCHES
    requires TextRest(fold, texts, pattern, e)
             == InText(rest, d.index, d.field) + TextRest(fold, texts, pattern, Cursor(d.index, d.field + 1, 0))
    ensures TextScan(fold, texts, pattern, c, had, e, has + InText(taken, d.index, d.field))
  {
    InTextConcat(taken, rest, d.index, d.field);
    RestUnfolds(fold, texts, pattern, d);
    ScanMore(fold, texts, pattern, c, had, d, has, e, InText(taken, d.index, d.field), InText(rest, d.index, d.field),
             TextRest(fold, texts, pattern, Cursor(d.index, d.field + 1, 0)));
  }

  lemma RestUnfolds(fold: Folding, texts: seq<Text>, pattern: seq<int>, d: Cursor)
    requires d.field < |texts|
    ensures TextRest(fold, texts, pattern, d)
            == InText(Search(fold, texts[d.field], d.byte, pattern), d.index, d.field)
               + TextRest(fold, texts, pattern, Cursor(d.index, d.field + 1, 0))
  {
  }

  lemma ScanMore(
      fold: Folding, texts: seq<Text>, pattern: seq<int>, c: Cursor, had: seq<DocMatch>, d: Cursor, has: seq<DocMatch>,
      e: Cursor, now: seq<DocMatch>, later: seq<DocMatch>, next: seq<DocMatch>)
    requires TextScan(fold, texts, pattern, c, had, d, has)
    requires e.index == d.index && TextCursor(texts, e) && |has| + |now| <= PAGE_MATCHES
    requires TextRest(fold, texts, pattern, d) == (now + later) + next
    requires TextRest(fold, texts, pattern, e) == later + next
    ensures TextScan(fold, texts, pattern, c, had, e, has + now)
  {
    Delivered(TextRest(fold, texts, pattern, c), |had|, has, now, later, next);
    PrefixOfLonger(had, has, now);
  }

  /** What is delivered now joins what was delivered since `had`. */
  lemma Delivered(
      whole: seq<DocMatch>, had: nat, has: seq<DocMatch>, now: seq<DocMatch>, later: seq<DocMatch>, next: seq<DocMatch>)
    requires had <= |has| && whole == has[had..] + ((now + later) + next)
    ensures whole == (has + now)[had..] + (later + next)
  {
    assert (has + now)[had..] == has[had..] + now;
    Associate(now, later, next);
    Associate(has[had..], now, later + next);
  }

  /** Where a page that filled up at the match starting at `last` continues. */
  function AfterMatch(text: Text, d: Cursor, last: nat): Cursor
    requires RuneAt(text, last)
  {
    if Next(text, last) == |text| then Cursor(d.index, d.field + 1, 0) else Cursor(d.index, d.field, Next(text, last))
  }

  /** What is left after a match is the rest of its text and the later texts. */
  lemma RestAfterMatch(fold: Folding, texts: seq<Text>, pattern: seq<int>, d: Cursor, last: nat)
    requires ValidTexts(texts) && d.field < |texts| && RuneAt(texts[d.field], last)
             && Boundary(texts[d.field], Next(texts[d.field], last))
    ensures var text, after := texts[d.field], AfterMatch(texts[d.field], d, last);
            && TextCursor(texts, after)
            && TextRest(fold, texts, pattern, after)
               == InText(Search(fold, text, Next(text, last), pattern), d.index, d.field)
                 + TextRest(fold, texts, pattern, Cursor(d.index, d.field + 1, 0))
  {
    var text := texts[d.field];
    if Next(text, last) == |text| {
      SearchEnd(fold, text, pattern);
      NothingInText(Search(fold, text, Next(text, last), pattern), d,
                    TextRest(fold, texts, pattern, Cursor(d.index, d.field + 1, 0)));
    } else {
      RestInText(fold, texts, pattern, Cursor(d.index, d.field, Next(text, last)));
    }
  }

  lemma NothingInText(found: seq<Match>, d: Cursor, rest: seq<DocMatch>)
    requires found == []
    ensures InText(found, d.index, d.field) + rest == rest
  {
  }

  lemma RestInText(fold: Folding, texts: seq<Text>, pattern: seq<int>, d: Cursor)
    requires ValidTexts(texts) && d.field < |texts| && Boundary(texts[d.field], d.byte)
    ensures TextCursor(texts, d)
    ensures TextRest(fold, texts, pattern, d)
            == InText(Search(fold, texts[d.field], d.byte, pattern), d.index, d.field)
              + TextRest(fold, texts, pattern, Cursor(d.index, d.field + 1, 0))
  {
  }

  lemma TextStepFull(
      fold: Folding, texts: seq<Text>, pattern: seq<int>, c: Cursor, had: seq<DocMatch>, d: Cursor, has: seq<DocMatch>,
      taken: seq<Match>)
    requires ValidTexts(texts) && TextScan(fold, texts, pattern, c, had, d, has) && d.field < |texts|
             && |has| < PAGE_MATCHES
    requires taken == Take(Search(fold, texts[d.field], d.byte, pattern), PAGE_MATCHES - |has|)
             && |taken| == PAGE_MATCHES - |has|
    ensures var last := taken[|taken| - 1].offset;
            && d.byte <= last && RuneAt(texts[d.field], last)
            && TextScan(fold, texts, pattern, c, had, AfterMatch(texts[d.field], d, last),
                        has + InText(taken, d.index, d.field))
  {
    var text := texts[d.field];
    TextFull(fold, text, d.byte, pattern, |taken|);
    var last := taken[|taken| - 1].offset;
    RestAfterMatch(fold, texts, pattern, d, last);
    TextStep(fold, texts, pattern, c, had, d, has, AfterMatch(text, d, last), taken,
             Search(fold, text, Next(text, last), pattern));
  }

  lemma TextStepWhole(
      fold: Folding, texts: seq<Text>, pattern: seq<int>, c: Cursor, had: seq<DocMatch>, d: Cursor, has: seq<DocMatch>,
      taken: seq<Match>)
    requires ValidTexts(texts) && TextScan(fold, texts, pattern, c, had, d, has) && d.field < |texts|
             && |has| < PAGE_MATCHES
    requires taken == Take(Search(fold, texts[d.field], d.byte, pattern), PAGE_MATCHES - |has|)
             && |taken| < PAGE_MATCHES - |has|
    ensures TextScan(fold, texts, pattern, c, had, Cursor(d.index, d.field + 1, 0),
                     has + InText(taken, d.index, d.field))
  {
    TextStep(fold, texts, pattern, c, had, d, has, Cursor(d.index, d.field + 1, 0), taken, []);
  }

  method ScanTexts(fold: Folding, texts: seq<Text>, query: Text, selector: Progress, page: Page) returns (ok: bool)
    requires ValidQuery(query) && ValidTexts(texts)
    requires selector.Placed() && |page.matches| < PAGE_MATCHES
    modifies selector, page
    ensures ok <==> TextCursor(texts, old(selector.At()))
    ensures ok && selector.index == old(selector.index) ==> |page.matches| == PAGE_MATCHES
    ensures ok ==>
              selector.Placed()
                && TextsScanned(fold, texts, Pattern(fold, query), old(selector.At()), old(page.matches), selector.At(),
                                page.matches)
  {
    var pattern := Pattern(fold, query);
    if selector.field > |texts| || (selector.field == |texts| && selector.byte != 0) {
      return false;
    }
    ghost var start, had := selector.At(), page.matches;
    if selector.field < |texts| && !Boundary(texts[selector.field], selector.byte) {
      return false;
    }
    assert page.matches[|had|..] == [];
    while selector.field < |texts| && |page.matches| < PAGE_MATCHES
      invariant selector.Placed() && selector.index == old(selector.index)
      invariant TextScan(fold, texts, pattern, start, had, selector.At(), page.matches)
      invariant selector.At() == start || Ahead(start, selector.At())
      decreases |texts| - selector.field, if |page.matches| < PAGE_MATCHES then 1 else 0
    {
      ScanText(fold, texts, query, selector, page, start, had);
    }
    if selector.field == |texts| {
      selector.index, selector.field, selector.byte := selector.index + 1, 0, 0;
    }
    ok := true;
  }

  ghost predicate TextsScanned(
      fold: Folding, texts: seq<Text>, pattern: seq<int>, c: Cursor, had: seq<DocMatch>, d: Cursor,
      has: seq<DocMatch>) {
    Whole(&& Moved(TextRest(fold, texts, pattern, c), had, c, TextRest(fold, texts, pattern, d), has, d)
          && (d.index == c.index ==> TextCursor(texts, d)))
  }

  /** A text has been searched: its end is passed, or the page is full. */
  ghost predicate TextDone(
      fold: Folding, texts: seq<Text>, pattern: seq<int>, c: Cursor, had: seq<DocMatch>, d: Cursor, e: Cursor,
      has: seq<DocMatch>) {
    Whole(&& TextScan(fold, texts, pattern, c, had, e, has) && Ahead(c, e) && e.index == d.index
          && (d.field < e.field || (d.field == e.field && |has| == PAGE_MATCHES)))
  }

  /** Where the search of a text that brought `taken` continues. */
  function AfterText(text: Text, d: Cursor, full: bool, taken: seq<Match>): Cursor
    requires full ==> taken != [] && RuneAt(text, taken[|taken| - 1].offset)
  {
    if full then AfterMatch(text, d, taken[|taken| - 1].offset) else Cursor(d.index, d.field + 1, 0)
  }

  lemma TextSearched(
      fold: Folding, texts: seq<Text>, pattern: seq<int>, c: Cursor, had: seq<DocMatch>, d: Cursor, has: seq<DocMatch>,
      taken: seq<Match>,
      full: bool)
    requires ValidTexts(texts) && TextScan(fold, texts, pattern, c, had, d, has) && d.field < |texts|
             && |has| < PAGE_MATCHES
    requires d == c || Ahead(c, d)
    requires taken == Take(Search(fold, texts[d.field], d.byte, pattern), PAGE_MATCHES - |has|)
    requires full <==> |has| + |taken| == PAGE_MATCHES
    ensures full ==> RuneAt(texts[d.field], taken[|taken| - 1].offset)
    ensures TextDone(fold, texts, pattern, c, had, d, AfterText(texts[d.field], d, full, taken),
                     has + InText(taken, d.index, d.field))
  {
    if full {
      TextFilled(fold, texts, pattern, c, had, d, has, taken);
    } else {
      TextPassed(fold, texts, pattern, c, had, d, has, taken);
    }
  }

  lemma TextFilled(
      fold: Folding, texts: seq<Text>, pattern: seq<int>, c: Cursor, had: seq<DocMatch>, d: Cursor, has: seq<DocMatch>,
      taken: seq<Match>)
    requires ValidTexts(texts) && TextScan(fold, texts, pattern, c, had, d, has) && d.field < |texts|
             && |has| < PAGE_MATCHES
    requires d == c || Ahead(c, d)
    requires taken == Take(Search(fold, texts[d.field], d.byte, pattern), PAGE_MATCHES - |has|)
             && |has| + |taken| == PAGE_MATCHES
    ensures RuneAt(texts[d.field], taken[|taken| - 1].offset)
    ensures TextDone(fold, texts, pattern, c, had, d, AfterText(texts[d.field], d, true, taken),
                     has + InText(taken, d.index, d.field))
  {
    TextStepFull(fold, texts, pattern, c, had, d, has, taken);
    DoneBy(fold, texts, pattern, c, had, d, AfterText(texts[d.field], d, true, taken),
           has + InText(taken, d.index, d.field));
  }

  lemma DoneBy(
      fold: Folding, texts: seq<Text>, pattern: seq<int>, c: Cursor, had: seq<DocMatch>, d: Cursor, e: Cursor,
      has: seq<DocMatch>)
    requires TextScan(fold, texts, pattern, c, had, e, has) && (d == c || Ahead(c, d)) && Ahead(d, e)
             && e.index == d.index
    requires d.field < e.field || (d.field == e.field && |has| == PAGE_MATCHES)
    ensures TextDone(fold, texts, pattern, c, had, d, e, has)
  {
  }

  lemma TextPassed(
      fold: Folding, texts: seq<Text>, pattern: seq<int>, c: Cursor, had: seq<DocMatch>, d: Cursor, has: seq<DocMatch>,
      taken: seq<Match>)
    requires ValidTexts(texts) && TextScan(fold, texts, pattern, c, had, d, has) && d.field < |texts|
             && |has| < PAGE_MATCHES
    requires d == c || Ahead(c, d)
    requires taken == Take(Search(fold, texts[d.field], d.byte, pattern), PAGE_MATCHES - |has|)
             && |has| + |taken| != PAGE_MATCHES
    ensures TextDone(fold, texts, pattern, c, had, d, AfterText(texts[d.field], d, false, taken),
                     has + InText(taken, d.index, d.field))
  {
    TextStepWhole(fold, texts, pattern, c, had, d, has, taken);
    DoneBy(fold, texts, pattern, c, had, d, Cursor(d.index, d.field + 1, 0), has + InText(taken, d.index, d.field));
  }

  /** The body of the loop over texts. */
  method ScanText(
      fold: Folding, texts: seq<Text>, query: Text, selector: Progress, page: Page, ghost start: Cursor,
      ghost had: seq<DocMatch>)
    requires ValidQuery(query) && ValidTexts(texts)
    requires selector.Placed() && selector.field < |texts| && |page.matches| < PAGE_MATCHES
    requires TextScan(fold, texts, Pattern(fold, query), start, had, selector.At(), page.matches)
    requires selector.At() == start || Ahead(start, selector.At())
    modifies selector, page
    ensures selector.Placed()
    ensures TextDone(fold, texts, Pattern(fold, query), start, had, old(selector.At()), selector.At(), page.matches)
  {
    ghost var pattern, d, has := Pattern(fold, query), selector.At(), page.matches;
    var text := texts[selector.field];
    var found := FindDocText(fold, text, query, selector.byte, PAGE_MATCHES - |page.matches|);
    var taken := found.value;
    page.matches := page.matches + InText(taken, selector.index, selector.field);
    TextSearched(fold, texts, pattern, start, had, d, has, taken, |page.matches| == PAGE_MATCHES);
    if |page.matches| == PAGE_MATCHES {
      var last := page.matches[|page.matches| - 1];
      assert last.offset == taken[|taken| - 1].offset;
      selector.byte := Next(text, last.offset);
      if selector.byte == |text| {
        selector.field, selector.byte := selector.field + 1, 0;
      }
    } else {
      selector.field, selector.byte := selector.field + 1, 0;
    }
    assert selector.At() == AfterText(text, d, |page.matches| == PAGE_MATCHES, taken);
  }

  // ----- searching a raw range window by window -----

  lemma InRawConcat(a: seq<Match>, b: seq<Match>, index: nat, from: nat)
    ensures InRaw(a + b, index, from) == InRaw(a, index, from) + InRaw(b, index, from)
  {
  }

  ghost predicate RawScanned(
      fold: Folding, range: Text, from: nat, pattern: seq<int>, c: Cursor, had: seq<DocMatch>, d: Cursor,
      has: seq<DocMatch>) {
    Whole(&& Moved(RawRest(fold, range, from, pattern, c), had, c, RawRest(fold, range, from, pattern, d), has, d)
          && (d.index == c.index ==> d.byte > 0 && RawCursor(range, from, d)))
  }

  /** Where a raw search at range position `next` continues. */
  function AfterRaw(range: Text, from: nat, c: Cursor, next: nat): Cursor {
    if next == |range| then Cursor(c.index + 1, 0, 0) else Cursor(c.index, 0, from + next)
  }

  /** Delivering the matches before `next` and continuing there loses nothing. */
  lemma RawStep(
      fold: Folding, range: Text, from: nat, pattern: seq<int>, c: Cursor, had: seq<DocMatch>, taken: seq<Match>,
      next: nat)
    requires RawCursor(range, from, c) && RawPosition(from, c) < next <= |range| && Boundary(range, next)
    requires |had| + |taken| <= PAGE_MATCHES
    requires Search(fold, range, RawPosition(from, c), pattern) == taken + Search(fold, range, next, pattern)
    ensures RawScanned(fold, range, from, pattern, c, had, AfterRaw(range, from, c, next),
                       had + InRaw(taken, c.index, from))
  {
    var d, now := AfterRaw(range, from, c, next), InRaw(taken, c.index, from);
    InRawConcat(taken, Search(fold, range, next, pattern), c.index, from);
    assert (had + now)[|had|..] == now;
    if next == |range| {
      SearchEnd(fold, range, pattern);
      assert now + [] == now;
    } else {
      assert RawPosition(from, d) == next;
    }
  }

  /** The frontier is the last rune start that leaves room for the longest match inside the window. */
  ghost predicate IsFrontier(range: Text, p: nat, e: nat, frontier: nat) {
    && p < frontier <= e && Boundary(range, frontier)
    && (if e == |range| then frontier == e else frontier + 4 * MAX_QUERY_RUNES <= e)
  }

  lemma WindowValid(range: Text, p: nat, w: Text, frontier: nat)
    requires IsWindow(range, p, w, frontier)
    ensures p < frontier <= p + |w| && Valid(w) && Boundary(w, frontier - p)
    ensures ValidFrom(range, p) && Boundary(range, frontier)
  {
    BoundaryReached(range, 0, p);
    ValidWindow(range, p, p + |w|, p);
  }

  lemma WindowShifted(fold: Folding, range: Text, p: nat, w: Text, frontier: nat, pattern: seq<int>)
    requires IsWindow(range, p, w, frontier) && 1 <= |pattern| <= MAX_QUERY_RUNES
    requires p < frontier <= p + |w| && Valid(w) && ValidFrom(range, p)
    ensures Shift(Before(fold, w, 0, frontier - p, pattern), p) == Before(fold, range, p, frontier, pattern)
  {
    BeforeInWindow(fold, range, p, p + |w|, p, frontier, pattern);
  }

  /** Matches of the window that start before the frontier are the matches of the range there. */
  lemma WindowFound(fold: Folding, range: Text, p: nat, w: Text, frontier: nat, pattern: seq<int>)
    requires IsWindow(range, p, w, frontier) && 1 <= |pattern| <= MAX_QUERY_RUNES
    ensures p < frontier <= p + |w| && Valid(w)
    ensures Search(fold, range, p, pattern)
            == Shift(Before(fold, w, 0, frontier - p, pattern), p) + Search(fold, range, frontier, pattern)
  {
    WindowValid(range, p, w, frontier);
    WindowShifted(fold, range, p, w, frontier, pattern);
    SplitAt(fold, range, p, frontier, pattern);
  }

  /** A window of well-formed text, cut at rune boundaries, with its frontier. */
  ghost predicate IsWindow(range: Text, p: nat, w: Text, frontier: nat) {
    && p + |w| <= |range| && w == range[p..p + |w|]
    && Whole(Valid(range) && Boundary(range, p) && Boundary(range, p + |w|) && IsFrontier(range, p, p + |w|, frontier))
  }

  /** Keeping the limited window matches that start before the frontier keeps a prefix of all of those. */
  lemma KeptBeforeFrontier(before: seq<Match>, beyond: seq<Match>, limit: nat, kept: nat, stop: nat)
    requires forall m :: m in before ==> m.offset < stop
    requires forall m :: m in beyond ==> stop <= m.offset
    requires var found := Take(before + beyond, limit);
             && kept <= |found| && (forall i :: 0 <= i < kept ==> found[i].offset < stop)
             && (kept < |found| ==> found[kept].offset >= stop)
    ensures Take(before + beyond, limit)[..kept] == Take(before, limit)
  {
    var all, found := before + beyond, Take(before + beyond, limit);
    assert forall i :: 0 <= i < |found| ==> found[i] == all[i];
    assert forall i :: 0 <= i < |before| ==> all[i] == before[i] && before[i] in before;
    assert forall i :: |before| <= i < |all| ==> all[i] == beyond[i - |before|] && beyond[i - |before|] in beyond;
    assert forall i :: 0 <= i < |before| && i < |found| ==> found[i].offset < stop;
    assert forall i :: |before| <= i < |found| ==> found[i].offset >= stop;
    if |before| < |found| {
      assert found[|before|].offset >= stop;
    }
    if kept < |found| {
      assert found[kept].offset >= stop;
    }
    assert kept == if |before| < |found| then |before| else |found|;
  }

  lemma AllFrom(fold: Folding, t: Text, i: nat, pattern: seq<int>)
    requires ValidFrom(t, i) && i <= |t|
    ensures forall m :: m in AllMatches(fold, t, i, pattern) ==> i <= m.offset
  {
    AllBounds(fold, t, i, pattern);
  }

  /** The same for the matches found in a window. */
  lemma KeptInWindow(fold: Folding, w: Text, stop: nat, pattern: seq<int>, limit: nat, found: seq<Match>, kept: nat)
    requires Valid(w) && stop <= |w| && Boundary(w, stop)
    requires found == Take(Search(fold, w, 0, pattern), limit) && kept <= |found|
    requires (forall i :: 0 <= i < kept ==> found[i].offset < stop) && (kept < |found| ==> found[kept].offset >= stop)
    ensures found[..kept] == Take(Before(fold, w, 0, stop, pattern), limit)
  {
    SplitAt(fold, w, 0, stop, pattern);
    BeforeBounds(fold, w, 0, stop, pattern);
    AllFrom(fold, w, stop, pattern);
    KeptBeforeFrontier(Before(fold, w, 0, stop, pattern), AllMatches(fold, w, stop, pattern), limit, kept, stop);
  }

  datatype Scan = Counted(bytes: nat) | Failed(error: Error)

  /** Looks back from `start` for a rune start; in well-formed text it is at most three bytes away. */
  method LookBack(range: Text, p: nat, start: nat) returns (frontier: nat)
    requires Valid(range) && Boundary(range, p) && p + 4 <= start < |range|
    ensures p < frontier <= start && Boundary(range, frontier)
  {
    ghost var c := LastBoundary(range, p, start);
    frontier := start;
    while frontier > p && !RuneStart(range[frontier])
      invariant c <= frontier <= start
    {
      frontier := frontier - 1;
    }
  }

  /** The window matches kept: those that start before `stop`. */
  method KeepBefore(found: seq<Match>, stop: nat) returns (kept: nat)
    ensures kept <= |found| && (forall i :: 0 <= i < kept ==> found[i].offset < stop)
    ensures kept < |found| ==> found[kept].offset >= stop
  {
    kept := 0;
    while kept < |found| && found[kept].offset < stop
      invariant kept <= |found| && forall i :: 0 <= i < kept ==> found[i].offset < stop
    {
      kept := kept + 1;
    }
  }

  /** Both ways a window can end: with the page full, or with every match before the frontier delivered. */
  lemma WindowFull(
      fold: Folding, range: Text, from: nat, pattern: seq<int>, c: Cursor, had: seq<DocMatch>, taken: seq<Match>,
      rest: seq<Match>)
    requires Valid(range) && RawCursor(range, from, c) && |had| < PAGE_MATCHES
    requires Search(fold, range, RawPosition(from, c), pattern) == taken + rest && |taken| == PAGE_MATCHES - |had|
    ensures var last := taken[|taken| - 1].offset;
            && RawPosition(from, c) <= last && RuneAt(range, last)
            && RawScanned(fold, range, from, pattern, c, had, AfterRaw(range, from, c, Next(range, last)),
                          had + InRaw(taken, c.index, from))
  {
    var p := RawPosition(from, c);
    TakePrefix(taken, taken + rest);
    TextFull(fold, range, p, pattern, |taken|);
    RawStep(fold, range, from, pattern, c, had, taken, Next(range, taken[|taken| - 1].offset));
  }

  /** `taken` begins the matches of the range from `p`, and is all of them before the frontier unless it is cut
      short. */
  ghost predicate Takes(
      fold: Folding, range: Text, p: nat, frontier: nat, pattern: seq<int>, limit: nat, taken: seq<Match>) {
    Whole(&& |taken| <= limit
          && (exists rest :: Search(fold, range, p, pattern) == taken + rest)
          && (|taken| < limit ==> Search(fold, range, p, pattern) == taken + Search(fold, range, frontier, pattern)))
  }

  /** What the window's kept matches are in the whole range. */
  lemma WindowTaken(
      fold: Folding, range: Text, p: nat, w: Text, frontier: nat, pattern: seq<int>, limit: nat, kept: seq<Match>)
    requires IsWindow(range, p, w, frontier) && 1 <= |pattern| <= MAX_QUERY_RUNES
    requires ValidFrom(w, 0) && kept == Take(Before(fold, w, 0, frontier - p, pattern), limit)
    ensures Takes(fold, range, p, frontier, pattern, limit, Shift(kept, p))
  {
    WindowFound(fold, range, p, w, frontier, pattern);
    var before := Before(fold, w, 0, frontier - p, pattern);
    if |before| > limit {
      var more := Shift(before[limit..], p);
      assert before == kept + before[limit..];
      ShiftConcat(kept, before[limit..], p);
      Associate(Shift(kept, p), more, Search(fold, range, frontier, pattern));
    }
  }

  lemma WindowKept(
      fold: Folding, range: Text, p: nat, w: Text, frontier: nat, pattern: seq<int>, limit: nat, found: seq<Match>,
      kept: nat)
    requires IsWindow(range, p, w, frontier) && 1 <= |pattern| <= MAX_QUERY_RUNES && ValidFrom(w, 0)
    requires found == Take(Search(fold, w, 0, pattern), limit) && kept <= |found|
    requires (forall i :: 0 <= i < kept ==> found[i].offset < frontier - p)
             && (kept < |found| ==> found[kept].offset >= frontier - p)
    ensures Takes(fold, range, p, frontier, pattern, limit, Shift(found[..kept], p))
  {
    WindowValid(range, p, w, frontier);
    KeptInWindow(fold, w, frontier - p, pattern, limit, found, kept);
    WindowTaken(fold, range, p, w, frontier, pattern, limit, found[..kept]);
  }

  /** Reads the next window of a raw range, cut back to whole runes, and finds its frontier. */
  method ReadWindow(range: Text, p: nat) returns (ok: bool, raw: Text, frontier: nat)
    requires Valid(range) && p < |range|
    ensures ok <==> Boundary(range, p)
    ensures ok ==> 0 < |raw| <= FRAGMENT_BYTES && p + |raw| <= |range| && raw == range[p..p + |raw|] && Valid(raw)
    ensures ok ==> IsWindow(range, p, raw, frontier)
  {
    raw, frontier := [], 0;
    var size := if |range| - p < FRAGMENT_BYTES then |range| - p else FRAGMENT_BYTES;
    var window := range[p..p + size];
    if !RuneStart(window[0]) {
      return false, raw, frontier;
    }
    ok, raw := TrimPartialRune(window);
    if p + size == |range| {
      ValidWindow(range, p, |range|, p);
    }
    assert range[p..p + size] == window && Boundary(range, p);
    assert raw == range[p..p + |raw|];
    frontier := p + |raw|;
    if frontier < |range| {
      frontier := LookBack(range, p, frontier - 4 * MAX_QUERY_RUNES);
    }
  }

  /** One window of a raw range: at most a fragment's worth of bytes, or what the budget leaves. */
  method ScanRawRange(
      fold: Folding, body: Text, from: nat, to: nat, query: Text, selector: Progress, page: Page, budget: nat)
    returns (r: Scan)
    requires ValidQuery(query) && from < to <= |body| && Valid(body[from..to]) && budget >= FRAGMENT_BYTES
    requires selector.Placed() && |page.matches| < PAGE_MATCHES
    modifies selector, page
    ensures r.Counted? <==> RawCursor(body[from..to], from, old(selector.At()))
    ensures r.Failed? ==> r.error == Validation
    ensures r.Counted? ==> selector.Placed() && 0 < r.bytes <= FRAGMENT_BYTES
    ensures r.Counted? ==>
              RawScanned(fold, body[from..to], from, Pattern(fold, query), old(selector.At()), old(page.matches),
                         selector.At(), page.matches)
  {
    ghost var c := selector.At();
    if selector.byte == 0 {
      selector.byte := from;
    }
    if selector.field != 0 || selector.byte < from || selector.byte >= to {
      return Failed(Validation);
    }
    var range, p := body[from..to], selector.byte - from;
    var ok, raw, frontier := ReadWindow(range, p);
    if !ok {
      return Failed(Validation);
    }
    var taken := TakeWindow(fold, range, p, raw, frontier, query, PAGE_MATCHES - |page.matches|);
    Deliver(fold, range, from, query, selector, page, p + |raw|, frontier, taken, c);
    r := Counted(|raw|);
  }

  /** The window's matches that start before its frontier, as positions in the range. */
  method TakeWindow(
      fold: Folding, range: Text, p: nat, raw: Text, frontier: nat, query: Text, limit: nat)
    returns (taken: seq<Match>)
    requires ValidQuery(query) && 1 <= limit <= PAGE_MATCHES && IsWindow(range, p, raw, frontier) && Valid(raw)
    ensures Takes(fold, range, p, frontier, Pattern(fold, query), limit, taken)
  {
    var found := FindDocText(fold, raw, query, 0, limit);
    var kept := KeepBefore(found.value, frontier - p);
    WindowKept(fold, range, p, raw, frontier, Pattern(fold, query), limit, found.value, kept);
    taken := Shift(found.value[..kept], p);
  }

  /** Appends the window's matches and moves the cursor behind them, to the frontier, or to the next event. */
  method Deliver(
      fold: Folding, range: Text, from: nat, query: Text, selector: Progress, page: Page, end: nat, frontier: nat,
      taken: seq<Match>, ghost c: Cursor)
    requires ValidQuery(query) && Valid(range) && selector.Placed() && |page.matches| < PAGE_MATCHES
    requires RawCursor(range, from, c) && selector.At() == Cursor(c.index, 0, from + RawPosition(from, c))
    requires end <= |range| && IsFrontier(range, RawPosition(from, c), end, frontier)
    requires Takes(fold, range, RawPosition(from, c), frontier, Pattern(fold, query), PAGE_MATCHES - |page.matches|,
                   taken)
    modifies selector, page
    ensures selector.Placed()
    ensures RawScanned(fold, range, from, Pattern(fold, query), c, old(page.matches), selector.At(), page.matches)
  {
    ghost var pattern, had := Pattern(fold, query), page.matches;
    page.matches := page.matches + InRaw(taken, selector.index, from);
    if |page.matches| == PAGE_MATCHES {
      ghost var rest :| Search(fold, range, RawPosition(from, c), pattern) == taken + rest;
      WindowFull(fold, range, from, pattern, c, had, taken, rest);
      var last := taken[|taken| - 1];
      selector.byte := from + Next(range, last.offset);
      if selector.byte == from + |range| {
        selector.index, selector.byte := selector.index + 1, 0;
      }
      assert selector.At() == AfterRaw(range, from, c, Next(range, last.offset));
    } else {
      RawStep(fold, range, from, pattern, c, had, taken, frontier);
      if end == |range| {
        selector.index, selector.byte := selector.index + 1, 0;
      } else {
        selector.byte := from + frontier;
      }
      assert selector.At() == AfterRaw(range, from, c, frontier);
    }
  }

  // ----- one event -----

  ghost predicate EventScanned(
      fold: Folding, e: Entry, pattern: seq<int>, c: Cursor, had: seq<DocMatch>, d: Cursor, has: seq<DocMatch>) {
    Whole(&& Moved(EventRest(fold, e, pattern, c), had, c, EventRest(fold, e, pattern, d), has, d)
          && (d.index == c.index ==> ValidCursor(e, d)))
  }

  /** An oversized event: its located public fields, or a window of its raw bytes. */
  method ScanLarge(fold: Folding, e: Entry, query: Text, selector: Progress, page: Page, budget: nat) returns (r: Scan)
    requires ValidQuery(query) && ValidEntry(e) && |e.body| > VIEW_BYTES && !e.emptyReasoning && e.kind != Compaction
    requires budget >= VIEW_BYTES + FIELDS_BYTES && selector.Placed() && |page.matches| < PAGE_MATCHES
    modifies selector, page
    ensures r.Counted? <==> ValidCursor(e, old(selector.At()))
    ensures r.Failed? ==> PlanOf(e) == Broken(r.error) || (!PlanOf(e).Broken? && r.error == Validation)
    ensures r.Counted? ==> selector.Placed() && 0 < r.bytes <= VIEW_BYTES + FIELDS_BYTES
    ensures r.Counted? ==>
              EventScanned(fold, e, Pattern(fold, query), old(selector.At()), old(page.matches), selector.At(),
                           page.matches)
  {
    if e.kind == Reasoning || e.kind == Message {
      r := ScanPublicFields(fold, e, query, selector, page, budget);
    } else {
      r := ScanRawRange(fold, e.body, 0, |e.body|, query, selector, page, budget);
    }
  }

  method ScanPublicFields(
      fold: Folding, e: Entry, query: Text, selector: Progress, page: Page, budget: nat)
    returns (r: Scan)
    requires ValidQuery(query) && ValidEntry(e) && |e.body| > VIEW_BYTES && !e.emptyReasoning
             && (e.kind == Reasoning || e.kind == Message)
    requires budget >= VIEW_BYTES + FIELDS_BYTES && selector.Placed() && |page.matches| < PAGE_MATCHES
    modifies selector, page
    ensures r.Counted? <==> ValidCursor(e, old(selector.At()))
    ensures r.Failed? ==> PlanOf(e) == Broken(r.error) || (!PlanOf(e).Broken? && r.error == Validation)
    ensures r.Counted? ==> selector.Placed() && 0 < r.bytes <= VIEW_BYTES + FIELDS_BYTES
    ensures r.Counted? ==>
              EventScanned(fold, e, Pattern(fold, query), old(selector.At()), old(page.matches), selector.At(),
                           page.matches)
  {
    if e.fields.None? {
      return Failed(Unavailable);
    }
    var selected := Selected(e);
    if selected.None? {
      if e.kind == Reasoning {
        return Failed(Integrity);
      }
      var ok := ScanTexts(fold, [], query, selector, page);
      return if ok then Counted(FIELDS_BYTES) else Failed(Validation);
    }
    var span := selected.value;
    if span.to - span.from > VIEW_BYTES {
      var from, to := span.from, span.to;
      if e.kind == Reasoning {
        from, to := from + 1, to - 1;
      }
      var count := ScanRawRange(fold, e.body, from, to, query, selector, page, budget - FIELDS_BYTES);
      return if count.Counted? then Counted(count.bytes + FIELDS_BYTES) else count;
    }
    var ok := ScanTexts(fold, e.publicTexts, query, selector, page);
    r := if ok then Counted((if span.from < span.to then span.to - span.from else 0) + FIELDS_BYTES)
      else Failed(Validation);
  }
}
