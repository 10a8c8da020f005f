/** UTF-8 as section 3 of RFC 3629 defines it, with the accept ranges of the Go decoder. */
module Utf8 {

  type byte = b: int | 0 <= b < 256

  type Text = seq<byte>

  predicate Continuation(b: byte) {
    0x80 <= b <= 0xBF
  }

  predicate RuneStart(b: byte) {
    !Continuation(b)
  }

  /** How many bytes a rune with this first byte has; 0 when no rune starts with it. */
  function Width(b: byte): nat {
    if b <= 0x7F then 1
    else if 0xC2 <= b <= 0xDF then 2
    else if 0xE0 <= b <= 0xEF then 3
    else if 0xF0 <= b <= 0xF4 then 4
    else 0
  }

  predicate Accepts(first: byte, second: byte) {
    if first == 0xE0 then 0xA0 <= second <= 0xBF
    else if first == 0xED then 0x80 <= second <= 0x9F
    else if first == 0xF0 then 0x90 <= second <= 0xBF
    else if first == 0xF4 then 0x80 <= second <= 0x8F
    else Continuation(second)
  }

  /** A whole well-formed rune starts at `i`. */
  predicate RuneAt(t: Text, i: nat) {
    && i < |t| && Width(t[i]) > 0 && i + Width(t[i]) <= |t|
    && (Width(t[i]) >= 2 ==> Accepts(t[i], t[i + 1]))
    && (Width(t[i]) >= 3 ==> Continuation(t[i + 2]))
    && (Width(t[i]) >= 4 ==> Continuation(t[i + 3]))
  }

  function Next(t: Text, i: nat): (n: nat)
    requires RuneAt(t, i)
    ensures i < n <= |t| && n <= i + 4
  {
    i + Width(t[i])
  }

  function Value(t: Text, i: nat): int
    requires RuneAt(t, i)
  {
    match Width(t[i])
    case 1 => t[i]
    case 2 => (t[i] as int - 0xC0) * 64 + (t[i + 1] as int - 0x80)
    case 3 => (t[i] as int - 0xE0) * 4096 + (t[i + 1] as int - 0x80) * 64 + (t[i + 2] as int - 0x80)
    case _ =>
      (t[i] as int - 0xF0) * 262144 + (t[i + 1] as int - 0x80) * 4096 + (t[i + 2] as int - 0x80) * 64
      + (t[i + 3] as int - 0x80)
  }

  /** `t` is well formed from `i` on. */
  predicate ValidFrom(t: Text, i: nat)
    decreases |t| - i
  {
    i >= |t| || (RuneAt(t, i) && ValidFrom(t, Next(t, i)))
  }

  predicate Valid(t: Text) {
    ValidFrom(t, 0)
  }

  predicate Boundary(t: Text, i: nat) {
    i == |t| || (i < |t| && RuneStart(t[i]))
  }

  lemma {:induction false} BoundaryReached(t: Text, i: nat, j: nat)
    requires ValidFrom(t, i) && i <= j && Boundary(t, j)
    ensures ValidFrom(t, j)
    decreases |t| - i
  {
    if i < j && i < |t| {
      BoundaryReached(t, Next(t, i), j);
    }
  }

  /** In well-formed text a rune starts at every boundary, and the next boundary is its end. */
  lemma RuneAtBoundary(t: Text, i: nat)
    requires Valid(t) && i < |t| && Boundary(t, i)
    ensures RuneAt(t, i) && Boundary(t, Next(t, i))
    ensures forall j :: i < j < Next(t, i) ==> !Boundary(t, j)
  {
    BoundaryReached(t, 0, i);
    assert ValidFrom(t, Next(t, i));
  }

  // ----- windows of a well-formed text -----

  /** Whether the bytes hold a whole rune or can no longer become one. */
  predicate FullRune(p: Text) {
    && |p| > 0
    && (|| |p| >= (if Width(p[0]) == 0 then 1 else Width(p[0]))
        || (|p| > 1 && !Accepts(p[0], p[1]))
        || (|p| > 2 && !Continuation(p[2])))
  }

  lemma {:induction false} ValidWindow(t: Text, b: nat, e: nat, i: nat)
    requires Valid(t) && b <= i <= e <= |t| && Boundary(t, i) && Boundary(t, e)
    ensures ValidFrom(t[b..e], i - b)
    decreases e - i
  {
    if i < e {
      RuneAtBoundary(t, i);
      assert Next(t, i) <= e;
      ValidWindow(t, b, e, Next(t, i));
      assert RuneAt(t[b..e], i - b) && Next(t[b..e], i - b) == Next(t, i) - b;
    }
  }

  lemma {:induction false} WindowReaches(t: Text, b: nat, e: nat, i: nat)
    requires Valid(t) && b <= i <= e <= |t| && Boundary(t, i) && ValidFrom(t[b..e], i - b)
    ensures Boundary(t, e)
    decreases e - i
  {
    if i < e {
      RuneAtBoundary(t, i);
      assert RuneAt(t[b..e], i - b);
      WindowReaches(t, b, e, Next(t, i));
    }
  }

  /** The last boundary at or before `e` is at most three bytes back. */
  lemma {:induction false} LastBoundary(t: Text, i: nat, e: nat) returns (c: nat)
    requires Valid(t) && Boundary(t, i) && i <= e < |t|
    ensures i <= c <= e < c + 4 && RuneAt(t, c) && RuneStart(t[c])
    ensures e < Next(t, c) && forall j :: c < j <= e ==> !RuneStart(t[j])
    decreases e - i
  {
    RuneAtBoundary(t, i);
    if Next(t, i) <= e {
      c := LastBoundary(t, Next(t, i), e);
    } else {
      c := i;
    }
  }

  /** The last whole-rune prefix of a window, found by looking back over continuation bytes. */
  method TrimPartialRune(raw: Text) returns (ok: bool, trimmed: Text)
    ensures ok ==> trimmed <= raw && Valid(trimmed)
    ensures Valid(raw) ==> ok && trimmed == raw
    ensures forall t, b: nat :: Valid(t) && b + |raw| <= |t| && Boundary(t, b) && t[b..b + |raw|] == raw ==>
              ok && Boundary(t, b + |trimmed|) && |raw| < |trimmed| + 4
  {
    if ValidFrom(raw, 0) {
      forall t, b: nat | Valid(t) && b + |raw| <= |t| && Boundary(t, b) && t[b..b + |raw|] == raw
        ensures Boundary(t, b + |raw|)
      {
        WindowReaches(t, b, b + |raw|, b);
      }
      return true, raw;
    }
    var boundary := |raw| - 1;
    while boundary > 0 && |raw| - boundary < 4 && !RuneStart(raw[boundary])
      invariant 0 <= boundary < |raw| && |raw| - boundary <= 4
      invariant forall j :: boundary < j < |raw| ==> !RuneStart(raw[j])
    {
      boundary := boundary - 1;
    }
    trimmed := raw[..boundary];
    ok := !FullRune(raw[boundary..]) && ValidFrom(trimmed, 0);
    forall t, b: nat | Valid(t) && b + |raw| <= |t| && Boundary(t, b) && t[b..b + |raw|] == raw
      ensures ok && Boundary(t, b + boundary)
    {
      TrimmedAt(t, b, raw, boundary);
    }
  }

  lemma TrimmedAt(t: Text, b: nat, raw: Text, boundary: nat)
    requires Valid(t) && b + |raw| <= |t| && Boundary(t, b) && t[b..b + |raw|] == raw && !Valid(raw)
    requires boundary < |raw| && |raw| - boundary <= 4
    requires forall j :: boundary < j < |raw| ==> !RuneStart(raw[j])
    requires boundary == 0 || |raw| - boundary == 4 || RuneStart(raw[boundary])
    ensures !FullRune(raw[boundary..]) && Valid(raw[..boundary]) && Boundary(t, b + boundary)
  {
    var e := b + |raw|;
    if Boundary(t, e) {
      ValidWindow(t, b, e, b);
    }
    var c := LastBoundary(t, b, e - 1);
    assert forall j :: 0 <= j < |raw| ==> raw[j] == t[b + j];
    assert c == b + boundary;
    ValidWindow(t, b, c, b);
    assert raw[..boundary] == t[b..c];
    RuneAtBoundary(t, c);
    assert Next(t, c) > e;
  }
}
