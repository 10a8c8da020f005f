/** The capture itself: page after page, with every bound and every order check it makes. */
module GraphCapture {
  import opened Basics
  import opened SlotOrder
  import opened GraphSource
  import opened Obligations

  const MAX_PAGE_ENTRIES := 1000
  const MAX_CURSOR_BYTES := 16384
  const MAX_KEY_BYTES := 4096
  const MAX_VALUE_BYTES := 1048576
  const MAX_PAGE_BYTES := 4194304
  const MAX_INPUT_BYTES := 33554432
  const MAX_INPUT_ROWS := 100000

  datatype Error = Validation | Integrity | Limit | Failure

  datatype Result<+T> = Ok(value: T) | Err(error: Error)

  datatype Checkpoint = Checkpoint(scope: nat, repo: nat, epoch: nat, sequence: int)

  /** One answer of the store. `cursor` is empty on the last page, which alone carries the checkpoint. */
  datatype Page = Page(
    through: Checkpoint, delta: bool, entries: seq<Entry>, cursor: seq<nat>, checkpoint: Option<Checkpoint>)

  datatype Captured = Captured(checkpoint: Checkpoint, entries: seq<Entry>)

  /** The store's successive answers; none stands for a failed read. */
  type Answers = nat -> Option<Page>

  /** What the capture asks of a kind and of a value; both are decided outside it. */
  datatype Rules = Rules(scope: nat, validKind: Name -> bool, isObject: seq<nat> -> bool)

  function EntryBytes(e: Entry): nat {
    |e.slot.kind| + |e.slot.key| + |e.value| + 128
  }

  // ----- retained bytes -----

  ghost function TotalBytes(images: Images): nat {
    if images == map[] then 0
    else
      var slot :| slot in images;
      EntryBytes(images[slot]) + TotalBytes(images - {slot})
  }

  lemma {:induction false} TotalWithout(images: Images, slot: Slot)
    requires slot in images
    ensures TotalBytes(images) == EntryBytes(images[slot]) + TotalBytes(images - {slot})
    decreases |images|
  {
    assert images != map[];
    var first :| first in images && TotalBytes(images) == EntryBytes(images[first]) + TotalBytes(images - {first});
    if first != slot {
      TotalWithout(images - {first}, slot);
      TotalWithout(images - {slot}, first);
      assert images - {first} - {slot} == images - {slot} - {first};
    }
  }

  /** Bytes retained after an entry, computed from the bytes before it. */
  lemma TotalApply(images: Images, e: Entry)
    ensures TotalBytes(Apply(images, e)) ==
            TotalBytes(images) - (if e.slot in images then EntryBytes(images[e.slot]) else 0)
              + (if e.deleted then 0 else EntryBytes(e))
  {
    var without := images - {e.slot};
    if e.slot in images {
      TotalWithout(images, e.slot);
    } else {
      assert without == images;
    }
    if !e.deleted {
      TotalWithout(images[e.slot := e], e.slot);
      assert images[e.slot := e] - {e.slot} == without;
    }
  }

  // ----- one entry -----

  /** The newest-so-far entry is followed in the order its mode prescribes. */
  predicate Follows(delta: bool, last: Entry, e: Entry) {
    if delta then last.sequence < e.sequence || (last.sequence == e.sequence && Less(last.slot, e.slot))
      else Less(last.slot, e.slot)
  }

  predicate EntryOk(rules: Rules, delta: bool, after: int, through: int, last: Entry, e: Entry) {
    && Follows(delta, last, e)
    && rules.validKind(e.slot.kind) && e.slot.key != []
    && 0 <= e.sequence <= through && (delta ==> after < e.sequence)
    && (e.deleted ==> delta && e.value == [])
    && (!e.deleted ==> rules.isObject(e.value))
  }

  /** What the loop over entries has built up. */
  datatype Progress = Progress(images: Images, retained: int, readBytes: int, readRows: int, last: Entry)

  const NO_ENTRY := Entry(Slot([], []), [], 0, false)

  ghost predicate Accounted(p: Progress) {
    && p.retained == TotalBytes(p.images) <= MAX_INPUT_BYTES && |p.images| <= MAX_INPUT_ROWS
    && 0 <= p.readRows <= MAX_INPUT_ROWS && 0 <= p.readBytes <= MAX_INPUT_BYTES
  }

  /** Every bound an entry must respect: its own, the page's, those on everything read, and those on everything kept. */
  ghost predicate EntryFits(p: Progress, pageBytes: int, e: Entry) {
    Whole(&& |e.slot.key| <= MAX_KEY_BYTES && |e.value| <= MAX_VALUE_BYTES && pageBytes <= MAX_PAGE_BYTES
          && p.readBytes + EntryBytes(e) <= MAX_INPUT_BYTES && p.readRows < MAX_INPUT_ROWS
          && (!e.deleted ==>
                TotalBytes(Apply(p.images, e)) <= MAX_INPUT_BYTES
                  && (e.slot in p.images || |p.images| < MAX_INPUT_ROWS)))
  }

  /** What an entry that is taken makes of the progress. */
  ghost function Added(p: Progress, e: Entry): Progress {
    var images := Apply(p.images, e);
    Progress(images, TotalBytes(images), p.readBytes + EntryBytes(e), p.readRows + 1, e)
  }

  method TakeEntry(rules: Rules, delta: bool, after: int, through: int, p: Progress, pageBytes: int, e: Entry)
    returns (r: Result<Progress>, pageBytes': int)
    requires Accounted(p)
    ensures pageBytes' == pageBytes + |e.slot.key| + |e.value| + 128
    ensures r.Ok? <==> EntryOk(rules, delta, after, through, p.last, e) && EntryFits(p, pageBytes', e)
    ensures r == Err(Integrity) ==> !EntryOk(rules, delta, after, through, p.last, e)
    ensures r == Err(Limit) ==> !EntryFits(p, pageBytes', e)
    ensures r.Err? ==> r.error == Integrity || r.error == Limit
    ensures r.Ok? ==> Accounted(r.value) && r.value == Added(p, e)
  {
    var cost := EntryBytes(e);
    var bytes, rows := p.readBytes + cost, p.readRows + 1;
    pageBytes' := pageBytes + |e.slot.key| + |e.value| + 128;
    if |e.slot.key| > MAX_KEY_BYTES || |e.value| > MAX_VALUE_BYTES || pageBytes' > MAX_PAGE_BYTES
      || bytes > MAX_INPUT_BYTES || rows > MAX_INPUT_ROWS {
      return Err(Limit), pageBytes';
    }
    if !EntryOk(rules, delta, after, through, p.last, e) {
      return Err(Integrity), pageBytes';
    }
    var images, retained := p.images, p.retained;
    TotalApply(images, e);
    if e.slot in images {
      retained := retained - EntryBytes(images[e.slot]);
    }
    if e.deleted {
      assert |images - {e.slot}| <= |images| by {
        assert (images - {e.slot}).Keys <= images.Keys;
        SubsetSize((images - {e.slot}).Keys, images.Keys);
      }
      images := images - {e.slot};
    } else {
      retained := retained + cost;
      if retained > MAX_INPUT_BYTES || (|images| == MAX_INPUT_ROWS && e.slot !in images) {
        return Err(Limit), pageBytes';
      }
      images := PutImage(images, e);
    }
    r := Ok(Progress(images, retained, bytes, rows, e));
  }

  function PutImage(images: Images, e: Entry): (m: Images)
    ensures |m| == if e.slot in images then |images| else |images| + 1
  {
    assert images[e.slot := e].Keys == images.Keys + {e.slot};
    images[e.slot := e]
  }

  lemma {:induction false} SubsetSize<T>(a: set<T>, b: set<T>)
    requires a <= b
    ensures |a| <= |b|
    decreases |a|
  {
    if a != {} {
      var x :| x in a;
      SubsetSize(a - {x}, b - {x});
    }
  }

  // ----- the entries of a page -----

  function LastOf(last: Entry, entries: seq<Entry>): Entry {
    if entries == [] then last else entries[|entries| - 1]
  }

  /** Consecutive entries each follow the one before and pass every check. */
  ghost predicate AllOk(rules: Rules, delta: bool, after: int, through: int, last: Entry, entries: seq<Entry>) {
    entries != [] ==>
      var front := entries[..|entries| - 1];
      AllOk(rules, delta, after, through, last, front)
      && EntryOk(rules, delta, after, through, LastOf(last, front), entries[|entries| - 1])
  }

  lemma {:induction false} AllOkConcat(
      rules: Rules, delta: bool, after: int, through: int, last: Entry, a: seq<Entry>, b: seq<Entry>)
    requires AllOk(rules, delta, after, through, last, a) && AllOk(rules, delta, after, through, LastOf(last, a), b)
    ensures AllOk(rules, delta, after, through, last, a + b) && LastOf(last, a + b) == LastOf(LastOf(last, a), b)
    decreases |b|
  {
    if b == [] {
      assert a + b == a;
    } else {
      assert (a + b)[..|a + b| - 1] == a + b[..|b| - 1];
      AllOkConcat(rules, delta, after, through, last, a, b[..|b| - 1]);
    }
  }

  lemma FollowsTrans(delta: bool, a: Entry, b: Entry, c: Entry)
    requires Follows(delta, a, b) && Follows(delta, b, c)
    ensures Follows(delta, a, c)
  {
    if Less(a.slot, b.slot) && Less(b.slot, c.slot) {
      LessTrans(a.slot, b.slot, c.slot);
    }
  }

  /** Entries that pass one after another are ordered throughout: by slot in a baseline, by sequence and slot in a
      delta. */
  lemma {:induction false} AllOkOrdered(
      rules: Rules, delta: bool, after: int, through: int, last: Entry, entries: seq<Entry>)
    requires AllOk(rules, delta, after, through, last, entries)
    ensures if delta then Log(entries) else Sorted(entries)
    ensures forall e :: e in entries ==>
              0 <= e.sequence <= through && (delta ==> after < e.sequence) && (!delta ==> !e.deleted)
    decreases |entries|
  {
    if entries != [] {
      var front, e := entries[..|entries| - 1], entries[|entries| - 1];
      AllOkOrdered(rules, delta, after, through, last, front);
      assert entries == front + [e];
      OrderedMore(delta, front, e);
    }
  }

  ghost predicate Ordered(delta: bool, entries: seq<Entry>) {
    if delta then Log(entries) else Sorted(entries)
  }

  lemma OrderedMore(delta: bool, front: seq<Entry>, e: Entry)
    requires Ordered(delta, front) && (front != [] ==> Follows(delta, front[|front| - 1], e))
    ensures Ordered(delta, front + [e])
  {
    forall i | 0 <= i < |front|
      ensures Follows(delta, front[i], e)
    {
      if i < |front| - 1 {
        FollowsTrans(delta, front[i], front[|front| - 1], e);
      }
    }
  }

  /** What a page's entries count against the page. */
  function PageBytes(entries: seq<Entry>): nat {
    if entries == [] then 0
    else
      var e := entries[|entries| - 1];
      PageBytes(entries[..|entries| - 1]) + |e.slot.key| + |e.value| + 128
  }

  /** What they count against everything read. */
  function EntriesBytes(entries: seq<Entry>): nat {
    if entries == [] then 0 else EntriesBytes(entries[..|entries| - 1]) + EntryBytes(entries[|entries| - 1])
  }

  /** What entries make of the progress when all of them are taken. */
  ghost function Advanced(p: Progress, entries: seq<Entry>): Progress {
    if entries == [] then p
    else
      var images := Replay(p.images, entries);
      Progress(images, TotalBytes(images), p.readBytes + EntriesBytes(entries), p.readRows + |entries|,
               LastOf(p.last, entries))
  }

  /** Entry by entry, what comes next is well ordered and formed and fits what those before it have left. */
  ghost predicate EntriesPass(rules: Rules, delta: bool, after: int, through: int, p: Progress, entries: seq<Entry>) {
    entries != [] ==>
      var front, e := entries[..|entries| - 1], entries[|entries| - 1];
      && EntriesPass(rules, delta, after, through, p, front)
      && EntryOk(rules, delta, after, through, LastOf(p.last, front), e)
      && EntryFits(Advanced(p, front), PageBytes(entries), e)
  }

  lemma {:induction false} PassPrefix(
      rules: Rules, delta: bool, after: int, through: int, p: Progress, entries: seq<Entry>, k: nat)
    requires k <= |entries| && EntriesPass(rules, delta, after, through, p, entries)
    ensures EntriesPass(rules, delta, after, through, p, entries[..k])
    decreases |entries|
  {
    if k == |entries| {
      assert entries[..k] == entries;
    } else {
      PassPrefix(rules, delta, after, through, p, entries[..|entries| - 1], k);
      assert entries[..|entries| - 1][..k] == entries[..k];
    }
  }

  lemma {:induction false} PassOk(rules: Rules, delta: bool, after: int, through: int, p: Progress, entries: seq<Entry>)
    requires EntriesPass(rules, delta, after, through, p, entries)
    ensures AllOk(rules, delta, after, through, p.last, entries)
    decreases |entries|
  {
    if entries != [] {
      PassOk(rules, delta, after, through, p, entries[..|entries| - 1]);
    }
  }

  /** All entries are taken, exactly when they pass, and one error or the other says that they do not. */
  ghost predicate EntriesTaken(
      rules: Rules, delta: bool, after: int, through: int, p: Progress, entries: seq<Entry>, r: Result<Progress>) {
    Whole(match r
          case Ok(now) =>
            EntriesPass(rules, delta, after, through, p, entries) && now == Advanced(p, entries) && Accounted(now)
          case Err(error) =>
            !EntriesPass(rules, delta, after, through, p, entries) && (error == Integrity || error == Limit))
  }

  method TakeEntries(
      rules: Rules, delta: bool, after: int, through: int, p: Progress, entries: seq<Entry>)
    returns (r: Result<Progress>)
    requires Accounted(p)
    ensures EntriesTaken(rules, delta, after, through, p, entries, r)
  {
    var now, pageBytes, i := p, 0, 0;
    while i < |entries|
      invariant 0 <= i <= |entries| && Accounted(now)
                && TakenUpTo(rules, delta, after, through, p, entries[..i], now, pageBytes)
    {
      var step, bytes := TakeEntry(rules, delta, after, through, now, pageBytes, entries[i]);
      EntryStep(rules, delta, after, through, p, entries, i, now, pageBytes, step);
      if step.Err? {
        return Err(step.error);
      }
      now, pageBytes, i := step.value, bytes, i + 1;
    }
    EntriesEnd(rules, delta, after, through, p, entries, i, now, pageBytes);
    r := Ok(now);
  }

  lemma EntryStep(
      rules: Rules, delta: bool, after: int, through: int, p: Progress, entries: seq<Entry>, i: nat, now: Progress,
      pageBytes: int, step: Result<Progress>)
    requires i < |entries| && TakenUpTo(rules, delta, after, through, p, entries[..i], now, pageBytes)
    requires var e := entries[i]; var bytes := pageBytes + |e.slot.key| + |e.value| + 128;
             && (step.Ok? <==> EntryOk(rules, delta, after, through, now.last, e) && EntryFits(now, bytes, e))
             && (step.Ok? ==> Accounted(step.value) && step.value == Added(now, e))
             && (step.Err? ==> step.error == Integrity || step.error == Limit)
    ensures step.Err? ==> EntriesTaken(rules, delta, after, through, p, entries, Err(step.error))
    ensures step.Ok? ==> var e := entries[i];
                         TakenUpTo(rules, delta, after, through, p, entries[..i + 1], step.value,
                                   pageBytes + |e.slot.key| + |e.value| + 128)
  {
    assert entries[..i + 1] == entries[..i] + [entries[i]];
    TakenStep(rules, delta, after, through, p, entries[..i], now, pageBytes, entries[i]);
    if step.Err? && EntriesPass(rules, delta, after, through, p, entries) {
      PassPrefix(rules, delta, after, through, p, entries, i + 1);
    }
  }

  lemma EntriesEnd(
      rules: Rules, delta: bool, after: int, through: int, p: Progress, entries: seq<Entry>, i: nat, now: Progress,
      pageBytes: int)
    requires i == |entries| && TakenUpTo(rules, delta, after, through, p, entries[..i], now, pageBytes)
    ensures EntriesTaken(rules, delta, after, through, p, entries, Ok(now))
  {
    assert entries[..i] == entries;
  }

  /** What taking entries one after another from `p` has made of it. */
  ghost predicate TakenUpTo(
      rules: Rules, delta: bool, after: int, through: int, p: Progress, entries: seq<Entry>, now: Progress,
      pageBytes: int) {
    Whole(Accounted(now) && now == Advanced(p, entries) && pageBytes == PageBytes(entries)
          && EntriesPass(rules, delta, after, through, p, entries))
  }

  lemma TakenStep(
      rules: Rules, delta: bool, after: int, through: int, p: Progress, entries: seq<Entry>, now: Progress,
      pageBytes: int, e: Entry)
    requires TakenUpTo(rules, delta, after, through, p, entries, now, pageBytes)
    ensures var bytes := pageBytes + |e.slot.key| + |e.value| + 128;
            var passes := EntryOk(rules, delta, after, through, now.last, e) && EntryFits(now, bytes, e);
            && (passes <==> EntriesPass(rules, delta, after, through, p, entries + [e]))
            && (passes && Accounted(Added(now, e)) ==>
                  TakenUpTo(rules, delta, after, through, p, entries + [e], Added(now, e), bytes))
  {
    AdvancedStep(p, entries, e);
    var all := entries + [e];
    assert all[..|all| - 1] == entries && all[|all| - 1] == e;
    assert now.last == LastOf(p.last, entries);
    assert PageBytes(all) == pageBytes + |e.slot.key| + |e.value| + 128;
  }

  lemma AdvancedStep(p: Progress, entries: seq<Entry>, e: Entry)
    ensures Advanced(p, entries + [e]) == Added(Advanced(p, entries), e)
  {
    var all := entries + [e];
    assert all[..|all| - 1] == entries && all[|all| - 1] == e;
    assert Replay(p.images, all) == Apply(Replay(p.images, entries), e);
    assert EntriesBytes(all) == EntriesBytes(entries) + EntryBytes(e);
  }

  // ----- the final sort -----

  ghost predicate Keyed(images: Images) {
    forall slot :: slot in images ==> images[slot].slot == slot
  }

  lemma {:induction false} ReplayKeyed(images: Images, entries: seq<Entry>)
    requires Keyed(images)
    ensures Keyed(Replay(images, entries))
    decreases |entries|
  {
    if entries != [] {
      ReplayKeyed(images, entries[..|entries| - 1]);
    }
  }

  method InsertSorted(entries: seq<Entry>, e: Entry) returns (out: seq<Entry>)
    requires Sorted(entries) && forall f :: f in entries ==> f.slot != e.slot
    ensures Sorted(out) && forall f :: f in out <==> f in entries || f == e
  {
    var i := 0;
    while i < |entries| && Less(entries[i].slot, e.slot)
      invariant 0 <= i <= |entries| && forall k :: 0 <= k < i ==> Less(entries[k].slot, e.slot)
    {
      i := i + 1;
    }
    forall k | i <= k < |entries|
      ensures Less(e.slot, entries[k].slot)
    {
      LessTotal(e.slot, entries[i].slot);
      assert entries[i] in entries;
      if k > i {
        LessTrans(e.slot, entries[i].slot, entries[k].slot);
      }
    }
    out := entries[..i] + [e] + entries[i..];
    InsertedSorted(entries, e, i);
    assert entries == entries[..i] + entries[i..];
  }

  lemma InsertedSorted(entries: seq<Entry>, e: Entry, i: nat)
    requires Sorted(entries) && i <= |entries|
    requires forall k :: 0 <= k < i ==> Less(entries[k].slot, e.slot)
    requires forall k :: i <= k < |entries| ==> Less(e.slot, entries[k].slot)
    ensures Sorted(entries[..i] + [e] + entries[i..])
  {
    var out := entries[..i] + [e] + entries[i..];
    forall a, b | 0 <= a < b < |out|
      ensures Less(out[a].slot, out[b].slot)
    {
      assert out[a] == if a < i then entries[a] else if a == i then e else entries[a - 1];
      assert out[b] == if b < i then entries[b] else if b == i then e else entries[b - 1];
    }
  }

  method SortImages(images: Images) returns (entries: seq<Entry>)
    requires Keyed(images)
    ensures Lists(entries, images)
  {
    entries := [];
    var left := images.Keys;
    while left != {}
      invariant left <= images.Keys && Sorted(entries)
      invariant forall e :: e in entries <==> e.slot in images && images[e.slot] == e && e.slot !in left
    {
      var slot :| slot in left;
      entries := InsertSorted(entries, images[slot]);
      left := left - {slot};
    }
  }

  // ----- the pages -----

  function Start(previous: Option<Captured>): Images {
    match previous
    case None => map[]
    case Some(c) => ToImages(c.entries)
  }

  /** Entries of the first `n` answers. */
  ghost function Taken(answers: Answers, n: nat): seq<Entry> {
    if n == 0 || answers(n - 1).None? then [] else Taken(answers, n - 1) + answers(n - 1).value.entries
  }

  predicate ValidCheckpoint(rules: Rules, repo: nat, c: Checkpoint) {
    c.scope == rules.scope && c.repo == repo && c.sequence >= 0
  }

  /** An earlier capture: a sorted list within the retention bounds. */
  ghost predicate Retained(previous: Option<Captured>) {
    previous.Some? ==>
      && Sorted(previous.value.entries)
      && TotalBytes(ToImages(previous.value.entries)) <= MAX_INPUT_BYTES
      && |ToImages(previous.value.entries)| <= MAX_INPUT_ROWS
  }

  method LoadPrevious(entries: seq<Entry>) returns (images: Images, retained: int)
    requires Sorted(entries)
    ensures images == ToImages(entries) && retained == TotalBytes(images)
  {
    images, retained := map[], 0;
    var i := 0;
    while i < |entries|
      invariant 0 <= i <= |entries| && images == ToImages(entries[..i]) && retained == TotalBytes(images)
    {
      var e := entries[i];
      assert entries[..i + 1][..i] == entries[..i] && entries[..i + 1][i] == e;
      FreshSlot(entries, i);
      TotalApply(images, e.(deleted := false));
      TotalApplyPut(images, e);
      images, retained, i := images[e.slot := e], retained + EntryBytes(e), i + 1;
    }
    assert entries[..i] == entries;
  }

  lemma TotalApplyPut(images: Images, e: Entry)
    requires e.slot !in images
    ensures TotalBytes(images[e.slot := e]) == TotalBytes(images) + EntryBytes(e)
  {
    TotalWithout(images[e.slot := e], e.slot);
    assert images[e.slot := e] - {e.slot} == images;
  }

  lemma FreshSlot(entries: seq<Entry>, i: nat)
    requires Sorted(entries) && i < |entries|
    ensures entries[i].slot !in ToImages(entries[..i])
  {
    if entries[i].slot in ToImages(entries[..i]) {
      SlotOfImage(entries[..i], entries[i].slot);
      LessTotal(entries[i].slot, entries[i].slot);
    }
  }

  /** What a page's header and cursor must satisfy, given what was captured before and read so far. */
  ghost predicate PageOk(
      rules: Rules, repo: nat, previous: Option<Captured>, checkpoint: Option<Checkpoint>, visited: set<seq<nat>>,
      page: Page, readBytes: int) {
    Whole(&& ValidCheckpoint(rules, repo, page.through) && page.delta == previous.Some?
          && page.through.sequence >= After(previous)
          && (previous.Some? ==> previous.value.checkpoint.epoch == page.through.epoch)
          && (checkpoint.Some? ==> checkpoint.value == page.through)
          && |page.entries| <= MAX_PAGE_ENTRIES && |page.cursor| <= MAX_CURSOR_BYTES
          && (page.cursor != [] ==>
                page.entries != [] && page.cursor !in visited && page.checkpoint.None?
                  && readBytes + |page.cursor| <= MAX_INPUT_BYTES)
          && (page.cursor == [] ==> page.checkpoint == Some(page.through)))
  }

  /** The first `pages` answers arrived and all speak of the checkpoint `c`. */
  ghost predicate AllThrough(answers: Answers, pages: nat, c: Checkpoint) {
    pages > 0 ==> AllThrough(answers, pages - 1, c) && answers(pages - 1).Some? && answers(pages - 1).value.through == c
  }

  /** What a capture holds: the sorted entries of the replay of everything the pages brought, all of it checked. */
  ghost predicate CapturedFrom(rules: Rules, previous: Option<Captured>, answers: Answers, pages: nat, c: Captured) {
    && AllThrough(answers, pages, c.checkpoint)
    && (previous.Some? ==>
          After(previous) <= c.checkpoint.sequence && c.checkpoint.epoch == previous.value.checkpoint.epoch)
    && AllOk(rules, previous.Some?, After(previous), c.checkpoint.sequence, NO_ENTRY, Taken(answers, pages))
    && Lists(c.entries, Replay(Start(previous), Taken(answers, pages)))
    && TotalBytes(Replay(Start(previous), Taken(answers, pages))) <= MAX_INPUT_BYTES
    && |Replay(Start(previous), Taken(answers, pages))| <= MAX_INPUT_ROWS
  }

  function After(previous: Option<Captured>): int {
    if previous.Some? then previous.value.checkpoint.sequence else -1
  }

  // ----- what the answers so far amount to -----

  /** The bytes of the cursors and entries of the first `n` answers. */
  ghost function ReadBytes(answers: Answers, n: nat): nat {
    if n == 0 || answers(n - 1).None? then 0
    else ReadBytes(answers, n - 1) + |answers(n - 1).value.cursor| + EntriesBytes(answers(n - 1).value.entries)
  }

  /** The cursors of the first `n` answers. */
  ghost function Visited(answers: Answers, n: nat): set<seq<nat>> {
    if n == 0 || answers(n - 1).None? then {}
    else if answers(n - 1).value.cursor == [] then Visited(answers, n - 1)
    else Visited(answers, n - 1) + {answers(n - 1).value.cursor}
  }

  /** The state of a capture between pages. The earlier capture is loaded only when the first entry arrives. */
  datatype Reading = Reading(checkpoint: Option<Checkpoint>, loaded: bool, visited: set<seq<nat>>, progress: Progress)

  ghost function ImagesAt(previous: Option<Captured>, answers: Answers, n: nat): Images {
    if Taken(answers, n) == [] then map[] else Replay(Start(previous), Taken(answers, n))
  }

  ghost function ProgressAt(previous: Option<Captured>, answers: Answers, n: nat): Progress {
    var images := ImagesAt(previous, answers, n);
    Progress(images, TotalBytes(images), ReadBytes(answers, n), |Taken(answers, n)|,
             LastOf(NO_ENTRY, Taken(answers, n)))
  }

  ghost function ReadingAt(previous: Option<Captured>, answers: Answers, n: nat): Reading {
    Reading(if n == 0 || answers(n - 1).None? then None else Some(answers(n - 1).value.through),
            Taken(answers, n) != [], Visited(answers, n), ProgressAt(previous, answers, n))
  }

  /** What a page's entries are applied to: its cursor is counted, and the first entry brings the earlier capture in. */
  ghost function BaseOf(previous: Option<Captured>, s: Reading, page: Page): Progress {
    var p := s.progress.(readBytes := s.progress.readBytes + |page.cursor|);
    if page.entries != [] && !s.loaded && previous.Some? then p.(images := Start(previous),
                                                                 retained := TotalBytes(Start(previous))) else p
  }

  /** A page passes after those before it: its header and cursor, and every one of its entries. */
  ghost predicate PassesAfter(rules: Rules, repo: nat, previous: Option<Captured>, s: Reading, page: Page) {
    && PageOk(rules, repo, previous, s.checkpoint, s.visited, page, s.progress.readBytes)
    && EntriesPass(rules, page.delta, After(previous), page.through.sequence, BaseOf(previous, s, page), page.entries)
  }

  /** The answer number `n` is a page and passes after those before it. */
  ghost predicate PagePasses(rules: Rules, repo: nat, previous: Option<Captured>, answers: Answers, n: nat) {
    answers(n).Some? && PassesAfter(rules, repo, previous, ReadingAt(previous, answers, n), answers(n).value)
  }

  /** The numbers of the answers that pass. */
  ghost function Passing(rules: Rules, repo: nat, previous: Option<Captured>, answers: Answers): nat -> bool {
    (n: nat) => PagePasses(rules, repo, previous, answers, n)
  }

  /** The first `n` answers are pages that pass and name another one. */
  ghost predicate Continues(passing: nat -> bool, answers: Answers, n: nat) {
    n > 0 ==>
      Continues(passing, answers, n - 1) && passing(n - 1) && answers(n - 1).Some? && answers(n - 1).value.cursor != []
  }

  /** The first `n` answers are pages that pass, and the last of them is the first without a cursor. */
  ghost predicate Completes(passing: nat -> bool, answers: Answers, n: nat) {
    n > 0 && Continues(passing, answers, n - 1) && passing(n - 1) && answers(n - 1).Some?
      && answers(n - 1).value.cursor == []
  }

  /** A caller's condition on the answers: the earlier checkpoint is valid, and the first `n` answers are pages that
      pass, of which only the last has no cursor. */
  ghost predicate Capturable(rules: Rules, repo: nat, previous: Option<Captured>, answers: Answers, n: nat) {
    && (previous.Some? ==> ValidCheckpoint(rules, repo, previous.value.checkpoint))
    && Completes(Passing(rules, repo, previous, answers), answers, n)
  }

  lemma {:induction false} ContinuesPrefix(passing: nat -> bool, answers: Answers, n: nat, k: nat)
    requires k < n && Continues(passing, answers, n)
    ensures Continues(passing, answers, k) && passing(k) && answers(k).Some? && answers(k).value.cursor != []
    decreases n
  {
    if k < n - 1 {
      ContinuesPrefix(passing, answers, n - 1, k);
    }
  }

  /** There is at most one number of answers to capture. */
  lemma CompletesOnce(passing: nat -> bool, answers: Answers, m: nat, n: nat)
    requires Completes(passing, answers, m) && Completes(passing, answers, n)
    ensures m == n
  {
    if m < n {
      ContinuesPrefix(passing, answers, n - 1, m - 1);
    } else if n < m {
      ContinuesPrefix(passing, answers, m - 1, n - 1);
    }
  }

  /** A page that does not pass is not got past. */
  lemma NeverCompletes(passing: nat -> bool, answers: Answers, k: nat, n: nat)
    requires Continues(passing, answers, k) && !passing(k)
    ensures !Completes(passing, answers, n)
  {
    if Completes(passing, answers, n) {
      if n <= k {
        ContinuesPrefix(passing, answers, k, n - 1);
      } else if k < n - 1 {
        ContinuesPrefix(passing, answers, n - 1, k);
      }
    }
  }

  // ----- reading -----

  method CheckPage(
      rules: Rules, repo: nat, previous: Option<Captured>, checkpoint: Option<Checkpoint>, visited: set<seq<nat>>,
      page: Page, readBytes: int)
    returns (error: Option<Error>)
    ensures error.None? <==> PageOk(rules, repo, previous, checkpoint, visited, page, readBytes)
    ensures error.Some? ==> error.value == Integrity || error.value == Limit
  {
    var after := if previous.Some? then previous.value.checkpoint.sequence else -1;
    if !ValidCheckpoint(rules, repo, page.through) || page.delta != previous.Some? || page.through.sequence < after
       || (previous.Some? && page.through.epoch != previous.value.checkpoint.epoch)
          || (checkpoint.Some? && checkpoint.value != page.through) {
      return Some(Integrity);
    }
    if |page.entries| > MAX_PAGE_ENTRIES || |page.cursor| > MAX_CURSOR_BYTES {
      return Some(Limit);
    }
    if page.cursor != [] {
      if page.checkpoint.Some? || |page.entries| == 0 || page.cursor in visited {
        return Some(Integrity);
      }
      if readBytes + |page.cursor| > MAX_INPUT_BYTES {
        return Some(Limit);
      }
    } else if page.checkpoint != Some(page.through) {
      return Some(Integrity);
    }
    error := None;
  }

  method LoadBase(previous: Option<Captured>, page: Page, s: Reading) returns (base: Progress)
    requires Retained(previous) && Accounted(s.progress) && s.progress.readBytes + |page.cursor| <= MAX_INPUT_BYTES
    ensures base == BaseOf(previous, s, page) && Accounted(base)
  {
    base := s.progress.(readBytes := s.progress.readBytes + |page.cursor|);
    if |page.entries| > 0 && !s.loaded && previous.Some? {
      var images, retained := LoadPrevious(previous.value.entries);
      base := base.(images := images, retained := retained);
    }
  }

  /** The page is taken, exactly when it passes, and one error or the other says that it does not. */
  ghost predicate PageRead(
      rules: Rules, repo: nat, previous: Option<Captured>, s: Reading, page: Page, r: Result<Reading>) {
    Whole(match r
          case Ok(next) => PassesAfter(rules, repo, previous, s, page) && next == NextReading(previous, s, page)
            && Accounted(next.progress)
          case Err(error) => !PassesAfter(rules, repo, previous, s, page) && (error == Integrity || error == Limit))
  }

  method ReadPage(
      rules: Rules, repo: nat, previous: Option<Captured>, page: Page, s: Reading)
    returns (r: Result<Reading>)
    requires Retained(previous) && Accounted(s.progress)
    ensures PageRead(rules, repo, previous, s, page, r)
  {
    var error := CheckPage(rules, repo, previous, s.checkpoint, s.visited, page, s.progress.readBytes);
    if error.Some? {
      return Err(error.value);
    }
    var base := LoadBase(previous, page, s);
    var taken := TakeEntries(rules, page.delta, After(previous), page.through.sequence, base, page.entries);
    PageEntries(rules, repo, previous, s, page, base, taken);
    if taken.Err? {
      return Err(taken.error);
    }
    var visited := if page.cursor != [] then s.visited + {page.cursor} else s.visited;
    r := Ok(Reading(Some(page.through), s.loaded || page.entries != [], visited, taken.value));
  }

  lemma PageEntries(
      rules: Rules, repo: nat, previous: Option<Captured>, s: Reading, page: Page, base: Progress,
      taken: Result<Progress>)
    requires PageOk(rules, repo, previous, s.checkpoint, s.visited, page, s.progress.readBytes)
             && base == BaseOf(previous, s, page)
    requires EntriesTaken(rules, page.delta, After(previous), page.through.sequence, base, page.entries, taken)
    ensures taken.Err? ==> PageRead(rules, repo, previous, s, page, Err(taken.error))
    ensures taken.Ok? ==> var visited := if page.cursor != [] then s.visited + {page.cursor} else s.visited;
                          PageRead(rules, repo, previous, s, page,
                                   Ok(Reading(Some(page.through), s.loaded
                                              || page.entries != [], visited, taken.value)))
  {
  }

  /** What a page that passes makes of the state. */
  ghost function NextReading(previous: Option<Captured>, s: Reading, page: Page): Reading {
    Reading(Some(page.through), s.loaded || page.entries != [],
            if page.cursor != [] then s.visited + {page.cursor}
              else s.visited, Advanced(BaseOf(previous, s, page), page.entries))
  }

  lemma NextReadingAt(previous: Option<Captured>, answers: Answers, n: nat)
    requires answers(n).Some?
    ensures NextReading(previous, ReadingAt(previous, answers, n), answers(n).value)
            == ReadingAt(previous, answers, n + 1)
  {
    var before, entries := Taken(answers, n), answers(n).value.entries;
    assert Taken(answers, n + 1) == before + entries;
    ReplayConcat(Start(previous), before, entries);
    if entries == [] {
      assert before + entries == before;
    } else if before == [] {
      assert before + entries == entries;
    }
  }

  /** What holds between pages. */
  ghost predicate Between(
      rules: Rules, repo: nat, previous: Option<Captured>, answers: Answers, pages: nat, s: Reading) {
    Whole(&& s == ReadingAt(previous, answers, pages) && Accounted(s.progress)
          && Continues(Passing(rules, repo, previous, answers), answers, pages) && pages <= s.progress.readRows)
  }

  /** The reading ended with the last page, or at one that is missing or refused. */
  ghost predicate PagesRead(
      rules: Rules, repo: nat, previous: Option<Captured>, answers: Answers, pages: nat, r: Result<Reading>) {
    Whole(pages <= MAX_INPUT_ROWS + 1
          && match r
             case Ok(s) =>
               Completes(Passing(rules, repo, previous, answers), answers, pages)
                 && s == ReadingAt(previous, answers, pages) && Accounted(s.progress)
             case Err(error) => FailsAt(rules, repo, previous, answers, pages, error))
  }

  /** The answer number `n` is reached and is not a page that passes. */
  ghost predicate FailsAt(rules: Rules, repo: nat, previous: Option<Captured>, answers: Answers, n: nat, error: Error) {
    && Continues(Passing(rules, repo, previous, answers), answers, n) && !PagePasses(rules, repo, previous, answers, n)
    && (if answers(n).None? then error == Failure else error == Integrity || error == Limit)
  }

  lemma BetweenAccounted(rules: Rules, repo: nat, previous: Option<Captured>, answers: Answers, pages: nat, s: Reading)
    requires Between(rules, repo, previous, answers, pages, s)
    ensures Accounted(s.progress)
  {
  }

  /** What one turn of the loop over pages leaves: the end of the reading, or more to read with more entries read. */
  ghost predicate Turned(
      rules: Rules, repo: nat, previous: Option<Captured>, answers: Answers, s: Reading, r: Result<Reading>, read: nat,
      next: Reading, done: bool) {
    Whole(if done then PagesRead(rules, repo, previous, answers, read, r)
          else
            && Between(rules, repo, previous, answers, read, next)
            && s.progress.readRows < next.progress.readRows <= MAX_INPUT_ROWS)
  }

  lemma NoAnswer(rules: Rules, repo: nat, previous: Option<Captured>, answers: Answers, pages: nat, s: Reading)
    requires Between(rules, repo, previous, answers, pages, s) && answers(pages).None?
    ensures Turned(rules, repo, previous, answers, s, Err(Failure), pages, s, true)
  {
  }

  lemma PageStops(
      rules: Rules, repo: nat, previous: Option<Captured>, answers: Answers, pages: nat, s: Reading, page: Page,
      error: Error)
    requires Between(rules, repo, previous, answers, pages, s) && answers(pages) == Some(page)
    requires PageRead(rules, repo, previous, s, page, Err(error))
    ensures Turned(rules, repo, previous, answers, s, Err(error), pages, s, true)
  {
  }

  lemma PageTaken(
      rules: Rules, repo: nat, previous: Option<Captured>, answers: Answers, pages: nat, s: Reading, page: Page,
      next: Reading)
    requires Between(rules, repo, previous, answers, pages, s) && answers(pages) == Some(page)
    requires PageRead(rules, repo, previous, s, page, Ok(next))
    ensures Turned(rules, repo, previous, answers, s, Ok(next), pages + 1, next, page.cursor == [])
  {
    PageBecame(rules, repo, previous, answers, pages, s, page, next);
    OnePageMore(Passing(rules, repo, previous, answers), answers, pages);
  }

  lemma PageBecame(
      rules: Rules, repo: nat, previous: Option<Captured>, answers: Answers, pages: nat, s: Reading, page: Page,
      next: Reading)
    requires Between(rules, repo, previous, answers, pages, s) && answers(pages) == Some(page)
    requires PageRead(rules, repo, previous, s, page, Ok(next))
    ensures Passing(rules, repo, previous, answers)(pages)
            && Continues(Passing(rules, repo, previous, answers), answers, pages)
    ensures next == ReadingAt(previous, answers, pages + 1) && Accounted(next.progress)
    ensures pages <= s.progress.readRows <= next.progress.readRows <= MAX_INPUT_ROWS
    ensures page.cursor != [] ==> s.progress.readRows < next.progress.readRows
  {
    assert PagePasses(rules, repo, previous, answers, pages);
    NextReadingAt(previous, answers, pages);
  }

  lemma OnePageMore(passing: nat -> bool, answers: Answers, n: nat)
    requires Continues(passing, answers, n) && passing(n) && answers(n).Some?
    ensures if answers(n).value.cursor == [] then Completes(passing, answers, n + 1)
            else Continues(passing, answers, n + 1)
  {
  }

  lemma PageTurns(
      rules: Rules, repo: nat, previous: Option<Captured>, answers: Answers, pages: nat, s: Reading, page: Page,
      r: Result<Reading>)
    requires Between(rules, repo, previous, answers, pages, s) && answers(pages) == Some(page)
    requires PageRead(rules, repo, previous, s, page, r)
    ensures Turned(rules, repo, previous, answers, s, r, if r.Ok? then pages + 1 else pages, if r.Ok? then r.value
                   else s, r.Err? || page.cursor == [])
  {
    if r.Ok? {
      PageTaken(rules, repo, previous, answers, pages, s, page, r.value);
    } else {
      PageStops(rules, repo, previous, answers, pages, s, page, r.error);
    }
  }

  /** Reads pages until the last one. Every page but the last brings at least one entry, and the number of entries
      is bounded, so the reading ends. */
  method ReadPages(
      rules: Rules, repo: nat, previous: Option<Captured>, answers: Answers)
    returns (r: Result<Reading>, pages: nat)
    requires Retained(previous)
    ensures PagesRead(rules, repo, previous, answers, pages, r)
  {
    pages := 0;
    var s, done := Reading(None, false, {}, Progress(map[], 0, 0, 0, NO_ENTRY)), false;
    r := Err(Failure);
    while !done
      invariant if done then PagesRead(rules, repo, previous, answers, pages, r)
                else Between(rules, repo, previous, answers, pages, s)
      decreases !done, MAX_INPUT_ROWS - s.progress.readRows
    {
      r, pages, s, done := ReadNext(rules, repo, previous, answers, pages, s);
    }
  }

  /** One turn of the loop over pages. */
  method ReadNext(rules: Rules, repo: nat, previous: Option<Captured>, answers: Answers, pages: nat, s: Reading)
    returns (r: Result<Reading>, read: nat, next: Reading, done: bool)
    requires Retained(previous) && Between(rules, repo, previous, answers, pages, s)
    ensures Turned(rules, repo, previous, answers, s, r, read, next, done)
  {
    var answer := answers(pages);
    if answer.None? {
      NoAnswer(rules, repo, previous, answers, pages, s);
      return Err(Failure), pages, s, true;
    }
    r, read, next, done := ReadAnswer(rules, repo, previous, answers, pages, s, answer.value);
  }

  method ReadAnswer(
      rules: Rules, repo: nat, previous: Option<Captured>, answers: Answers, pages: nat, s: Reading, page: Page)
    returns (r: Result<Reading>, read: nat, next: Reading, done: bool)
    requires Retained(previous) && Between(rules, repo, previous, answers, pages, s) && answers(pages) == Some(page)
    ensures Turned(rules, repo, previous, answers, s, r, read, next, done)
  {
    BetweenAccounted(rules, repo, previous, answers, pages, s);
    r := ReadPage(rules, repo, previous, page, s);
    PageTurns(rules, repo, previous, answers, pages, s, page, r);
    read, next, done := if r.Ok? then pages + 1 else pages, if r.Ok? then r.value else s, r.Err? || page.cursor == [];
  }

  /** Reads every page and returns the source they describe. It succeeds exactly when the answers can be captured;
      otherwise `pages` of them passed and the next is missing or refused. */
  method Capture(
      rules: Rules, repo: nat, previous: Option<Captured>, answers: Answers)
    returns (r: Result<Captured>, pages: nat)
    requires Retained(previous)
    ensures pages <= MAX_INPUT_ROWS + 1
    ensures r.Ok? <==> exists n: nat :: Capturable(rules, repo, previous, answers, n)
    ensures r.Ok? ==>
              Capturable(rules, repo, previous, answers, pages)
                && CapturedFrom(rules, previous, answers, pages, r.value)
    ensures r == Err(Validation) <==> previous.Some? && !ValidCheckpoint(rules, repo, previous.value.checkpoint)
    ensures r.Err? && r.error != Validation ==> FailsAt(rules, repo, previous, answers, pages, r.error)
  {
    if previous.Some? && !ValidCheckpoint(rules, repo, previous.value.checkpoint) {
      return Err(Validation), 0;
    }
    var read;
    read, pages := ReadPages(rules, repo, previous, answers);
    if read.Err? {
      forall n: nat
        ensures !Capturable(rules, repo, previous, answers, n)
      {
        NeverCompletes(Passing(rules, repo, previous, answers), answers, pages, n);
      }
      return Err(read.error), pages;
    }
    assert Capturable(rules, repo, previous, answers, pages);
    r := Conclude(rules, repo, previous, answers, pages, read.value);
  }

  /** What a page that passes says, and how it goes on from the one before. */
  lemma PageIsOk(rules: Rules, repo: nat, previous: Option<Captured>, answers: Answers, n: nat)
    requires PagePasses(rules, repo, previous, answers, n)
    ensures var page := answers(n).value;
            && (previous.Some? ==>
                  After(previous) <= page.through.sequence && page.through.epoch == previous.value.checkpoint.epoch)
            && AllOk(rules, previous.Some?, After(previous), page.through.sequence, LastOf(NO_ENTRY, Taken(answers, n)),
                     page.entries)
            && (n > 0 && answers(n - 1).Some? ==> answers(n - 1).value.through == page.through)
  {
    var page, s := answers(n).value, ReadingAt(previous, answers, n);
    PassOk(rules, page.delta, After(previous), page.through.sequence, BaseOf(previous, s, page), page.entries);
  }

  /** What pages that pass bring is checked throughout and speaks of one checkpoint. */
  lemma {:induction false} PagesAreOk(
      rules: Rules, repo: nat, previous: Option<Captured>, answers: Answers, passing: nat -> bool, n: nat)
    requires n > 0 && Continues(passing, answers, n - 1) && passing(n - 1) && answers(n - 1).Some?
    requires passing == Passing(rules, repo, previous, answers)
    ensures var c := answers(n - 1).value.through;
            && AllThrough(answers, n, c)
            && (previous.Some? ==> After(previous) <= c.sequence && c.epoch == previous.value.checkpoint.epoch)
            && AllOk(rules, previous.Some?, After(previous), c.sequence, NO_ENTRY, Taken(answers, n))
    decreases n
  {
    var before, page := Taken(answers, n - 1), answers(n - 1).value;
    if n > 1 {
      PagesAreOk(rules, repo, previous, answers, passing, n - 1);
    }
    PageIsOk(rules, repo, previous, answers, n - 1);
    AllOkConcat(rules, previous.Some?, After(previous), page.through.sequence, NO_ENTRY, before, page.entries);
  }

  /** The result: the earlier list when nothing changed, otherwise the images in slot order. */
  method Conclude(
      rules: Rules, repo: nat, previous: Option<Captured>, answers: Answers, pages: nat, s: Reading)
    returns (r: Result<Captured>)
    requires Retained(previous) && Capturable(rules, repo, previous, answers, pages)
    requires s == ReadingAt(previous, answers, pages) && Accounted(s.progress)
    ensures r.Ok? && CapturedFrom(rules, previous, answers, pages, r.value)
  {
    PagesAreOk(rules, repo, previous, answers, Passing(rules, repo, previous, answers), pages);
    StartKeyed(previous);
    ReplayKeyed(Start(previous), Taken(answers, pages));
    if previous.Some? && !s.loaded {
      SortedLists(previous.value.entries);
      r := Ok(Captured(s.checkpoint.value, previous.value.entries));
    } else {
      var entries := SortImages(s.progress.images);
      r := Ok(Captured(s.checkpoint.value, entries));
    }
  }

  lemma StartKeyed(previous: Option<Captured>)
    ensures Keyed(Start(previous))
  {
    if previous.Some? {
      ImageSlots(previous.value.entries);
    }
  }

  // ----- what a capture means -----

  lemma {:induction false} ReplayPuts(entries: seq<Entry>)
    requires forall e :: e in entries ==> !e.deleted
    ensures Replay(map[], entries) == ToImages(entries)
    decreases |entries|
  {
    if entries != [] {
      ReplayPuts(entries[..|entries| - 1]);
    }
  }

  /** When the pages serve a faithful change log, a capture is the source at its checkpoint, whether it was read
      from nothing or as the changes since an earlier capture; so the two are equal, entry for entry. */
  lemma CaptureIsFaithful(
      log: seq<Entry>, rules: Rules, previous: Option<Captured>, answers: Answers, pages: nat, c: Captured)
    requires Log(log) && CapturedFrom(rules, previous, answers, pages, c)
    requires previous.None? ==> Baseline(log, c.checkpoint.sequence, Taken(answers, pages))
    requires previous.Some? ==> Baseline(log, After(previous), previous.value.entries)
                                && Delta(log, After(previous), c.checkpoint.sequence, Taken(answers, pages))
    ensures Baseline(log, c.checkpoint.sequence, c.entries)
    ensures forall other :: Baseline(log, c.checkpoint.sequence, other) ==> c.entries == other
  {
    var entries := Taken(answers, pages);
    if previous.Some? {
      DeltaEqualsBaseline(log, After(previous), c.checkpoint.sequence, previous.value.entries, entries, c.entries);
    } else {
      ReplayPuts(entries);
      SortedLists(entries);
      ListsUnique(c.entries, entries, ToImages(entries));
      forall other | Baseline(log, c.checkpoint.sequence, other)
        ensures c.entries == other
      {
        SortedUnique(c.entries, other);
      }
    }
  }

  // ----- captures in a row -----

  lemma ListsToImages(entries: seq<Entry>, images: Images)
    requires Lists(entries, images) && Keyed(images)
    ensures ToImages(entries) == images
  {
    SortedLists(entries);
    ImageSlots(entries);
    var made := ToImages(entries);
    forall slot
      ensures slot in made <==> slot in images
      ensures slot in images ==> made[slot] == images[slot]
    {
      if slot in images {
        assert images[slot] in entries;
      }
      if slot in made {
        assert made[slot] in entries;
      }
    }
  }

  /** A capture can be the earlier capture of the next one. */
  lemma CapturedIsRetained(rules: Rules, previous: Option<Captured>, answers: Answers, pages: nat, c: Captured)
    requires CapturedFrom(rules, previous, answers, pages, c)
    ensures Retained(Some(c)) && ToImages(c.entries) == Replay(Start(previous), Taken(answers, pages))
  {
    StartKeyed(previous);
    ReplayKeyed(Start(previous), Taken(answers, pages));
    ListsToImages(c.entries, Replay(Start(previous), Taken(answers, pages)));
  }

  /** Two captures in a row, the second from the first. */
  method CaptureTwice(rules: Rules, repo: nat, previous: Option<Captured>, first: Answers, second: Answers)
    returns (r: Result<Captured>, middle: Captured, m: nat, n: nat)
    requires Retained(previous)
    ensures r.Ok? <==>
              exists i: nat, j: nat, c :: Capturable(rules, repo, previous, first, i)
                && CapturedFrom(rules, previous, first, i, c)
                                          && Capturable(rules, repo, Some(c), second, j)
    ensures r.Ok? ==>
              CapturedFrom(rules, previous, first, m, middle) && CapturedFrom(rules, Some(middle), second, n, r.value)
  {
    middle, n := Captured(Checkpoint(0, 0, 0, 0), []), 0;
    r, m := Capture(rules, repo, previous, first);
    if r.Ok? {
      middle := r.value;
      CapturedIsRetained(rules, previous, first, m, middle);
      r, n := Capture(rules, repo, Some(middle), second);
      if r.Err? {
        forall i: nat, j: nat, c | Capturable(rules, repo, previous, first, i)
          && CapturedFrom(rules, previous, first, i, c)
          ensures !Capturable(rules, repo, Some(c), second, j)
        {
          CompletesOnce(Passing(rules, repo, previous, first), first, i, m);
          CapturedOnce(rules, previous, first, m, c, middle);
        }
      }
    }
  }

  /** The answers decide the capture. */
  lemma CapturedOnce(rules: Rules, previous: Option<Captured>, answers: Answers, pages: nat, a: Captured, b: Captured)
    requires pages > 0 && CapturedFrom(rules, previous, answers, pages, a)
             && CapturedFrom(rules, previous, answers, pages, b)
    ensures a == b
  {
    ListsUnique(a.entries, b.entries, Replay(Start(previous), Taken(answers, pages)));
  }

  /** Two captures in a row hold what one capture of both their entries holds, whatever the pages say. */
  lemma CapturesConcat(
      rules: Rules, previous: Option<Captured>, first: Answers, m: nat, middle: Captured, second: Answers, n: nat,
      c: Captured,
      both: Answers, k: nat, direct: Captured)
    requires CapturedFrom(rules, previous, first, m, middle) && CapturedFrom(rules, Some(middle), second, n, c)
    requires CapturedFrom(rules, previous, both, k, direct) && Taken(both, k) == Taken(first, m) + Taken(second, n)
    ensures c.entries == direct.entries
  {
    CapturedIsRetained(rules, previous, first, m, middle);
    ReplayConcat(Start(previous), Taken(first, m), Taken(second, n));
    ListsUnique(c.entries, direct.entries, Replay(Start(previous), Taken(both, k)));
  }

  /** Over a faithful log, two captures in a row hold what one capture up to the same sequence holds, although its
      pages need not repeat theirs. */
  lemma CapturesCompose(
      log: seq<Entry>, rules: Rules, previous: Option<Captured>, first: Answers, m: nat, middle: Captured,
      second: Answers, n: nat, c: Captured,
      both: Answers, k: nat, direct: Captured)
    requires Log(log) && Served(log, rules, previous, first, m, middle)
             && Served(log, rules, Some(middle), second, n, c)
    requires Served(log, rules, previous, both, k, direct) && direct.checkpoint.sequence == c.checkpoint.sequence
    requires previous.Some? ==> Baseline(log, After(previous), previous.value.entries)
    ensures c.entries == direct.entries && Baseline(log, c.checkpoint.sequence, c.entries)
  {
    CaptureIsFaithful(log, rules, previous, first, m, middle);
    CaptureIsFaithful(log, rules, Some(middle), second, n, c);
    CaptureIsFaithful(log, rules, previous, both, k, direct);
  }

  /** A capture whose pages brought what the log holds. */
  ghost predicate Served(
      log: seq<Entry>, rules: Rules, previous: Option<Captured>, answers: Answers, pages: nat, c: Captured) {
    && CapturedFrom(rules, previous, answers, pages, c)
    && if previous.None? then Baseline(log, c.checkpoint.sequence, Taken(answers, pages))
       else Delta(log, After(previous), c.checkpoint.sequence, Taken(answers, pages))
  }
}
