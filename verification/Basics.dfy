/** Definitions shared by the models. */
module Basics {

  datatype Option<+T> = None | Some(value: T)

  function Min(a: int, b: int): int {
    if a < b then a else b
  }

  lemma Associate<T>(a: seq<T>, b: seq<T>, c: seq<T>)
    ensures (a + b) + c == a + (b + c)
  {
  }

  /** What follows a part can be joined to it first. */
  lemma Regroup<T>(whole: seq<T>, a: seq<T>, b: seq<T>, c: seq<T>, rest: seq<T>)
    requires whole == a + rest && rest == b + c
    ensures whole == (a + b) + c
  {
  }

  lemma PrefixOfLonger<T>(s: seq<T>, t: seq<T>, more: seq<T>)
    requires s <= t
    ensures s <= t + more
  {
  }

  lemma EmptyLeft<T>(s: seq<T>)
    ensures [] + s == s
  {
  }

  lemma SliceOfSlice<T>(s: seq<T>, from: nat, upto: nat, lo: nat, hi: nat)
    requires from <= upto <= |s| && lo <= hi <= upto - from
    ensures s[from..upto][lo..hi] == s[from + lo..from + hi]
  {
    var inner, want := s[from..upto][lo..hi], s[from + lo..from + hi];
    assert |inner| == |want|;
    forall k | 0 <= k < hi - lo
      ensures inner[k] == want[k]
    {
      assert inner[k] == s[from..upto][lo + k] == s[from + lo + k];
    }
  }
}
