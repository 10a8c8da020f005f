/** Byte-wise string order, and the order of entry slots built on it. */
module SlotOrder {

  type Name = seq<nat>

  predicate Before(a: Name, b: Name) {
    b != [] && (a == [] || a[0] < b[0] || (a[0] == b[0] && Before(a[1..], b[1..])))
  }

  lemma {:induction false} BeforeTrans(a: Name, b: Name, c: Name)
    requires Before(a, b) && Before(b, c)
    ensures Before(a, c)
    decreases |a|
  {
    if a != [] && a[0] == b[0] == c[0] {
      BeforeTrans(a[1..], b[1..], c[1..]);
    }
  }

  lemma {:induction false} BeforeTotal(a: Name, b: Name)
    ensures Before(a, b) || a == b || Before(b, a)
    ensures !(Before(a, b) && Before(b, a)) && !Before(a, a)
    decreases |a|
  {
    if a != [] && b != [] && a[0] == b[0] {
      BeforeTotal(a[1..], b[1..]);
      assert a == [a[0]] + a[1..] && b == [b[0]] + b[1..];
    }
    if a != [] {
      BeforeTotal(a[1..], a[1..]);
    }
  }

  /** What an entry is about: its kind, and its key within the kind. */
  datatype Slot = Slot(kind: Name, key: Name)

  predicate Less(a: Slot, b: Slot) {
    Before(a.kind, b.kind) || (a.kind == b.kind && Before(a.key, b.key))
  }

  lemma LessTrans(a: Slot, b: Slot, c: Slot)
    requires Less(a, b) && Less(b, c)
    ensures Less(a, c)
  {
    if Before(a.kind, b.kind) && Before(b.kind, c.kind) {
      BeforeTrans(a.kind, b.kind, c.kind);
    } else if a.kind == b.kind == c.kind {
      BeforeTrans(a.key, b.key, c.key);
    }
  }

  lemma LessTotal(a: Slot, b: Slot)
    ensures Less(a, b) || a == b || Less(b, a)
    ensures !(Less(a, b) && Less(b, a)) && !Less(a, a)
  {
    BeforeTotal(a.kind, b.kind);
    BeforeTotal(a.key, b.key);
  }
}
