/** Capturing a repository's graph source: ordered pages of puts and deletes folded into an image of
    the source, from nothing (a baseline) or from an earlier capture (a delta). */
module GraphSource {
  import opened SlotOrder

  datatype Entry = Entry(slot: Slot, value: seq<nat>, sequence: int, deleted: bool)

  type Images = map<Slot, Entry>

  // ----- replay -----

  function Apply(images: Images, e: Entry): Images {
    if e.deleted then images - {e.slot} else images[e.slot := e]
  }

  function Replay(images: Images, entries: seq<Entry>): Images {
    if entries == [] then images else Apply(Replay(images, entries[..|entries| - 1]), entries[|entries| - 1])
  }

  lemma {:induction false} ReplayConcat(images: Images, a: seq<Entry>, b: seq<Entry>)
    ensures Replay(images, a + b) == Replay(Replay(images, a), b)
    decreases |b|
  {
    if b == [] {
      assert a + b == a;
    } else {
      assert (a + b)[..|a + b| - 1] == a + b[..|b| - 1];
      ReplayConcat(images, a, b[..|b| - 1]);
    }
  }

  /** The last entry for a slot decides it. */
  ghost predicate Decides(entries: seq<Entry>, k: nat, slot: Slot) {
    k < |entries| && entries[k].slot == slot && forall i :: k < i < |entries| ==> entries[i].slot != slot
  }

  lemma {:induction false} ReplayUntouched(images: Images, entries: seq<Entry>, slot: Slot)
    requires forall i :: 0 <= i < |entries| ==> entries[i].slot != slot
    ensures slot in Replay(images, entries) <==> slot in images
    ensures slot in images ==> Replay(images, entries)[slot] == images[slot]
    decreases |entries|
  {
    if entries != [] {
      ReplayUntouched(images, entries[..|entries| - 1], slot);
    }
  }

  lemma {:induction false} ReplayDecided(images: Images, entries: seq<Entry>, k: nat, slot: Slot)
    requires Decides(entries, k, slot)
    ensures if entries[k].deleted then slot !in Replay(images, entries)
            else slot in Replay(images, entries) && Replay(images, entries)[slot] == entries[k]
    decreases |entries|
  {
    var last := |entries| - 1;
    if k < last {
      assert entries[last].slot != slot;
      ReplayDecided(images, entries[..last], k, slot);
    }
  }

  // ----- lists and images -----

  ghost predicate Sorted(entries: seq<Entry>) {
    forall i, j :: 0 <= i < j < |entries| ==> Less(entries[i].slot, entries[j].slot)
  }

  /** A list holds exactly the entries of the images, in slot order, each once. */
  ghost predicate Lists(entries: seq<Entry>, images: Images) {
    Sorted(entries) && forall e :: e in entries <==> e.slot in images && images[e.slot] == e
  }

  function ToImages(entries: seq<Entry>): Images {
    if entries == [] then map[]
      else ToImages(entries[..|entries| - 1])[entries[|entries| - 1].slot := entries[|entries| - 1]]
  }

  lemma {:induction false} SortedUnique(a: seq<Entry>, b: seq<Entry>)
    requires Sorted(a) && Sorted(b) && forall e :: e in a <==> e in b
    ensures a == b
    decreases |a|
  {
    assert (a != [] ==> a[0] in a) && (b != [] ==> b[0] in b);
    if a != [] && b != [] {
      SameFirst(a, b);
      forall e
        ensures e in a[1..] <==> e in b[1..]
      {
        RestOf(a, e);
        RestOf(b, e);
      }
      SortedUnique(a[1..], b[1..]);
      assert a == [a[0]] + a[1..] && b == [b[0]] + b[1..];
    }
  }

  lemma SameFirst(a: seq<Entry>, b: seq<Entry>)
    requires Sorted(a) && Sorted(b) && a != [] && b != [] && forall e :: e in a <==> e in b
    ensures a[0] == b[0]
  {
    assert a[0] in a && b[0] in b;
    var i :| 0 <= i < |b| && b[i] == a[0];
    var j :| 0 <= j < |a| && a[j] == b[0];
    LessTotal(a[0].slot, b[0].slot);
  }

  lemma RestOf(a: seq<Entry>, e: Entry)
    requires Sorted(a) && a != []
    ensures e in a[1..] <==> e in a && e != a[0]
  {
    if e in a[1..] {
      var i :| 0 <= i < |a| - 1 && a[1..][i] == e;
      LessTotal(a[0].slot, a[i + 1].slot);
      assert a[i + 1] == e;
    }
    if e in a && e != a[0] {
      var i :| 0 <= i < |a| && a[i] == e;
      assert a[1..][i - 1] == e;
    }
  }

  lemma ListsUnique(a: seq<Entry>, b: seq<Entry>, images: Images)
    requires Lists(a, images) && Lists(b, images)
    ensures a == b
  {
    SortedUnique(a, b);
  }

  lemma {:induction false} SortedLists(entries: seq<Entry>)
    requires Sorted(entries)
    ensures Lists(entries, ToImages(entries))
    decreases |entries|
  {
    if entries != [] {
      var front, last := entries[..|entries| - 1], entries[|entries| - 1];
      SortedLists(front);
      forall e | e in front
        ensures e.slot != last.slot
      {
        LessTotal(e.slot, last.slot);
      }
      assert entries == front + [last];
    }
  }

  // ----- a faithful change log -----

  /** Rows in order of sequence and slot: at one sequence each slot changes at most once. */
  ghost predicate Log(log: seq<Entry>) {
    forall i, j :: 0 <= i < j < |log| ==>
      log[i].sequence < log[j].sequence || (log[i].sequence == log[j].sequence && Less(log[i].slot, log[j].slot))
  }

  /** The newest row for its slot up to sequence `s`. */
  ghost predicate Newest(log: seq<Entry>, s: int, e: Entry) {
    e in log && e.sequence <= s && forall f :: f in log && f.slot == e.slot && f.sequence <= s ==>
      f.sequence <= e.sequence
  }

  /** What the store serves as the source at sequence `s`: the newest row of every slot that is not deleted, by slot. */
  ghost predicate Baseline(log: seq<Entry>, s: int, entries: seq<Entry>) {
    Sorted(entries) && forall e :: e in entries <==> Newest(log, s, e) && !e.deleted
  }

  /** What the store serves as the changes after `a` up to `s`: every row in between, in order. */
  ghost predicate Delta(log: seq<Entry>, a: int, s: int, entries: seq<Entry>) {
    Log(entries) && forall e :: e in entries <==> e in log && a < e.sequence <= s
  }

  lemma LogUnique(log: seq<Entry>, e: Entry, f: Entry)
    requires Log(log) && e in log && f in log && e.slot == f.slot && e.sequence == f.sequence
    ensures e == f
  {
    var i :| 0 <= i < |log| && log[i] == e;
    var j :| 0 <= j < |log| && log[j] == f;
    LessTotal(e.slot, e.slot);
  }

  /** The last delta row for a slot is its newest row, and a slot without one keeps its newest row. */
  lemma LastInDelta(log: seq<Entry>, a: int, s: int, delta: seq<Entry>, slot: Slot)
    requires Log(log) && Delta(log, a, s, delta) && a <= s
    ensures forall k: nat :: Decides(delta, k, slot) ==> Newest(log, s, delta[k])
    ensures (forall i :: 0 <= i < |delta| ==> delta[i].slot != slot) ==>
              forall e: Entry :: e.slot == slot ==> (Newest(log, s, e) <==> Newest(log, a, e))
  {
    forall k: nat | Decides(delta, k, slot)
      ensures Newest(log, s, delta[k])
    {
      assert delta[k] in delta;
      forall f | f in log && f.slot == slot && f.sequence <= s
        ensures f.sequence <= delta[k].sequence
      {
        if f.sequence > a {
          var i :| 0 <= i < |delta| && delta[i] == f;
        }
      }
    }
    if forall i :: 0 <= i < |delta| ==> delta[i].slot != slot {
      forall f | f in log && f.slot == slot && f.sequence <= s
        ensures f.sequence <= a
      {
        assert f.sequence > a ==> f in delta;
      }
    }
  }

  lemma {:induction false} FindLast(entries: seq<Entry>, slot: Slot) returns (k: int)
    ensures k == -1 ==> forall i :: 0 <= i < |entries| ==> entries[i].slot != slot
    ensures k != -1 ==> 0 <= k && Decides(entries, k, slot)
    decreases |entries|
  {
    k := -1;
    if entries != [] {
      if entries[|entries| - 1].slot == slot {
        k := |entries| - 1;
      } else {
        k := FindLast(entries[..|entries| - 1], slot);
      }
    }
  }

  /** Replaying the changes after `a` on the source at `a` leaves the newest rows at `s` that are not deleted. */
  lemma DeltaImage(log: seq<Entry>, a: int, s: int, previous: seq<Entry>, delta: seq<Entry>, e: Entry)
    requires Log(log) && a <= s && Baseline(log, a, previous) && Delta(log, a, s, delta)
    ensures var images := Replay(ToImages(previous), delta);
            e.slot in images && images[e.slot] == e <==> Newest(log, s, e) && !e.deleted
  {
    LastInDelta(log, a, s, delta, e.slot);
    var k := FindLast(delta, e.slot);
    if k >= 0 {
      ReplayDecided(ToImages(previous), delta, k, e.slot);
      assert Newest(log, s, delta[k]);
      if Newest(log, s, e) {
        LogUnique(log, e, delta[k]);
      }
    } else {
      ReplayUntouched(ToImages(previous), delta, e.slot);
      SortedLists(previous);
      SlotOfImage(previous, e.slot);
    }
  }

  /** A delta capture is the baseline a fresh capture at the same sequence would serve, entry for entry. */
  lemma DeltaEqualsBaseline(
      log: seq<Entry>, a: int, s: int, previous: seq<Entry>, delta: seq<Entry>, captured: seq<Entry>)
    requires Log(log) && a <= s && Baseline(log, a, previous) && Delta(log, a, s, delta)
    requires Lists(captured, Replay(ToImages(previous), delta))
    ensures Baseline(log, s, captured)
    ensures forall baseline :: Baseline(log, s, baseline) ==> captured == baseline
  {
    forall e
      ensures e in captured <==> Newest(log, s, e) && !e.deleted
    {
      DeltaImage(log, a, s, previous, delta, e);
    }
    forall baseline | Baseline(log, s, baseline)
      ensures captured == baseline
    {
      SortedUnique(captured, baseline);
    }
  }

  lemma SlotOfImage(entries: seq<Entry>, slot: Slot)
    requires Sorted(entries)
    ensures slot in ToImages(entries) ==> ToImages(entries)[slot].slot == slot && ToImages(entries)[slot] in entries
  {
    SortedLists(entries);
    ImageSlots(entries);
  }

  lemma {:induction false} ImageSlots(entries: seq<Entry>)
    ensures forall slot :: slot in ToImages(entries) ==> ToImages(entries)[slot].slot == slot
    decreases |entries|
  {
    if entries != [] {
      ImageSlots(entries[..|entries| - 1]);
    }
  }

  /** Two deltas in a row give what one combined delta gives. */
  lemma DeltasCompose(
      log: seq<Entry>, a: int, b: int, c: int, previous: seq<Entry>,
      first: seq<Entry>, middle: seq<Entry>, second: seq<Entry>, last: seq<Entry>, combined: seq<Entry>,
      direct: seq<Entry>)
    requires Log(log) && a <= b <= c && Baseline(log, a, previous)
    requires Delta(log, a, b, first) && Lists(middle, Replay(ToImages(previous), first))
    requires Delta(log, b, c, second) && Lists(last, Replay(ToImages(middle), second))
    requires Delta(log, a, c, combined) && Lists(direct, Replay(ToImages(previous), combined))
    ensures last == direct
  {
    DeltaEqualsBaseline(log, a, b, previous, first, middle);
    DeltaEqualsBaseline(log, b, c, middle, second, last);
    DeltaEqualsBaseline(log, a, c, previous, combined, direct);
  }
}
