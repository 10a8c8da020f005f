/** Comparing two documents page by page, and reading a document whose last event is kept at hand. */
module DocViews {
  import opened Basics

  const PAGE_EVENTS := 128

  type Bytes = seq<nat>

  // ----- the inherited prefix -----

  /** A document as the comparison sees it: the hash of every event, and a hash of every page when there is an index. */
  datatype Document = Document(events: seq<nat>, blocks: Option<seq<nat>>)

  ghost predicate Indexed(d: Document) {
    d.blocks.Some? ==> |d.blocks.value| == (|d.events| + PAGE_EVENTS - 1) / PAGE_EVENTS
  }

  function Page(d: Document, page: nat): seq<nat>
    requires page * PAGE_EVENTS <= |d.events|
  {
    d.events[page * PAGE_EVENTS..Min(|d.events|, (page + 1) * PAGE_EVENTS)]
  }

  /** Equal page hashes stand for equal pages. */
  ghost predicate PagesFaithful(a: Document, b: Document) {
    a.blocks.Some? && b.blocks.Some? ==>
      forall page: nat ::
        page < |a.blocks.value| && page < |b.blocks.value| && page * PAGE_EVENTS <= Min(|a.events|, |b.events|) ==>
          (a.blocks.value[page] == b.blocks.value[page] ==> Page(a, page) == Page(b, page))
  }

  /** The longest common prefix, by comparing events one by one. */
  function CommonPrefix(a: seq<nat>, b: seq<nat>): nat {
    if a == [] || b == [] || a[0] != b[0] then 0 else 1 + CommonPrefix(a[1..], b[1..])
  }

  lemma {:induction false} CommonPrefixExact(a: seq<nat>, b: seq<nat>, n: nat)
    requires n <= |a| && n <= |b| && a[..n] == b[..n] && (n == |a| || n == |b| || a[n] != b[n])
    ensures CommonPrefix(a, b) == n
    decreases n
  {
    if n > 0 {
      assert a[0] == a[..n][0] && b[0] == b[..n][0];
      assert a[1..][..n - 1] == a[..n][1..] && b[1..][..n - 1] == b[..n][1..];
      CommonPrefixExact(a[1..], b[1..], n - 1);
    }
  }

  lemma {:induction false} CommonPrefixMeans(a: seq<nat>, b: seq<nat>)
    ensures var n := CommonPrefix(a, b);
            n <= |a| && n <= |b| && a[..n] == b[..n] && (n == |a| || n == |b| || a[n] != b[n])
    decreases |a|
  {
    if a != [] && b != [] && a[0] == b[0] {
      CommonPrefixMeans(a[1..], b[1..]);
      var m := CommonPrefix(a[1..], b[1..]);
      assert a[..m + 1] == [a[0]] + a[1..][..m] && b[..m + 1] == [b[0]] + b[1..][..m];
    }
  }

  /** Skipping pages with equal hashes finds what comparing every event finds. */
  method Inherited(a: Document, b: Document) returns (inherited: nat)
    requires Indexed(a) && Indexed(b) && PagesFaithful(a, b)
    ensures inherited == CommonPrefix(a.events, b.events)
  {
    inherited := 0;
    var total := Min(|a.events|, |b.events|);
    while inherited < total
      invariant 0 <= inherited <= total && a.events[..inherited] == b.events[..inherited]
    {
      var page := inherited / PAGE_EVENTS;
      if inherited % PAGE_EVENTS == 0 && a.blocks.Some? && b.blocks.Some?
        && a.blocks.value[page] == b.blocks.value[page] {
        SkipPage(a, b, page, total);
        inherited := Min(total, inherited + PAGE_EVENTS);
      } else {
        if a.events[inherited] != b.events[inherited] {
          break;
        }
        assert a.events[..inherited + 1] == a.events[..inherited] + [a.events[inherited]];
        assert b.events[..inherited + 1] == b.events[..inherited] + [b.events[inherited]];
        inherited := inherited + 1;
      }
    }
    CommonPrefixExact(a.events, b.events, inherited);
  }

  lemma SkipPage(a: Document, b: Document, page: nat, total: nat)
    requires PagesFaithful(a, b) && Indexed(a) && Indexed(b) && a.blocks.Some? && b.blocks.Some?
    requires total == Min(|a.events|, |b.events|) && page * PAGE_EVENTS < total
    requires page < |a.blocks.value| && page < |b.blocks.value| && a.blocks.value[page] == b.blocks.value[page]
    requires a.events[..page * PAGE_EVENTS] == b.events[..page * PAGE_EVENTS]
    ensures var next := Min(total, (page + 1) * PAGE_EVENTS); a.events[..next] == b.events[..next]
  {
    var start, next := page * PAGE_EVENTS, Min(total, (page + 1) * PAGE_EVENTS);
    assert Page(a, page) == Page(b, page);
    assert a.events[..next] == a.events[..start] + Page(a, page)[..next - start];
    assert b.events[..next] == b.events[..start] + Page(b, page)[..next - start];
  }

  // ----- a document view with one event at hand -----

  datatype Location = Location(index: nat, offset: nat, length: nat, hash: nat)

  /** What decoding an event yields beside its location. */
  datatype Entry = Entry(location: Location, kind: nat)

  datatype Result<+T> = Ok(value: T) | Err

  /** The uncached read of a range. */
  function Slice(stream: Bytes, offset: int, length: int): (r: Result<Bytes>)
    ensures r.Ok? <==> offset >= 0 && length > 0 && offset + length <= |stream|
  {
    if offset < 0 || length <= 0 || offset > |stream| - length then Err else Ok(stream[offset..offset + length])
  }

  /** Decoding the bytes of an event at its recorded place; an event that does not decode is refused. */
  function Decode(decode: Bytes -> Option<nat>, raw: Bytes, location: Location): Result<Entry> {
    if |raw| != location.length || location.length == 0 || decode(raw).None? then Err
      else Ok(Entry(location, decode(raw).value))
  }

  function EntryAt(stream: Bytes, events: seq<Location>, decode: Bytes -> Option<nat>, position: int): Result<Entry> {
    if position < 0 || position >= |events| then Err
    else
      match Slice(stream, events[position].offset, events[position].length)
      case Err => Err
      case Ok(raw) => Decode(decode, raw, events[position])
  }

  class LegacyView {
    const stream: Bytes
    const events: seq<Location>
    const decode: Bytes -> Option<nat>
    var cachedEvent: int
    var cachedBody: Bytes
    var cachedEntry: Entry

    ghost predicate Valid()
      reads this
    {
      cachedEvent != -1 ==>
        && 0 <= cachedEvent < |events| && cachedEntry.location == events[cachedEvent]
        && Slice(stream, cachedEntry.location.offset, cachedEntry.location.length).Ok?
        && Slice(stream, cachedEntry.location.offset, cachedEntry.location.length).value == cachedBody
        && EntryAt(stream, events, decode, cachedEvent) == Ok(cachedEntry)
    }

    constructor (stream: Bytes, events: seq<Location>, decode: Bytes -> Option<nat>)
      ensures Valid() && this.stream == stream && this.events == events && this.decode == decode
    {
      this.stream, this.events, this.decode := stream, events, decode;
      cachedEvent, cachedBody, cachedEntry := -1, [], Entry(Location(0, 0, 0, 0), 0);
    }

    /** The entry of an event, decoded anew only when another event was read in between. */
    method ReadEntry(position: int) returns (r: Result<Entry>)
      requires Valid()
      modifies this
      ensures Valid() && r == EntryAt(stream, events, decode, position)
      ensures r.Ok? ==> cachedEvent == position
    {
      if position < 0 || position >= |events| {
        return Err;
      }
      if position == cachedEvent {
        return Ok(cachedEntry);
      }
      var item := events[position];
      var raw := Slice(stream, item.offset, item.length);
      if raw.Err? {
        return Err;
      }
      r := Decode(decode, raw.value, item);
      if r.Ok? {
        cachedEvent, cachedBody, cachedEntry := position, raw.value, r.value;
      }
    }

    /** A range inside the event at hand is served from it; the answer is always that of an uncached read. */
    method Read(offset: int, length: int) returns (r: Result<Bytes>)
      requires Valid()
      ensures r == Slice(stream, offset, length)
    {
      if cachedEvent >= 0 && offset >= cachedEntry.location.offset && 0 < length <= cachedEntry.location.length
         && offset - cachedEntry.location.offset <= cachedEntry.location.length - length {
        var start := offset - cachedEntry.location.offset;
        var at := cachedEntry.location;
        SliceOfSlice(stream, at.offset, at.offset + at.length, offset - at.offset, offset - at.offset + length);
        return Ok(cachedBody[start..start + length]);
      }
      r := Slice(stream, offset, length);
    }

    /** The searchable bytes of an event are those at its place, and only if the place is the recorded one. */
    method ReadFields(item: Location) returns (r: Result<Bytes>)
      requires Valid()
      modifies this
      ensures Valid()
      ensures r.Ok? <==> EntryAt(stream, events, decode, item.index).Ok? && events[item.index] == item
      ensures r.Ok? ==> r == Slice(stream, item.offset, item.length)
    {
      var entry := ReadEntry(item.index);
      if entry.Err? || entry.value.location != item {
        return Err;
      }
      r := Ok(cachedBody);
    }
  }
}
