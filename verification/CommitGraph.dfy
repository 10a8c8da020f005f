/** Commit history as far as the stored evidence shows it: a partial graph whose edges
    are known only at commits with a stored, well-formed proof. */
module CommitGraph {

  /** A lower-case hexadecimal object name: how many digits it has, and their value. */
  datatype Commit = Commit(digits: nat, value: nat)

  /** The part of a stored commit tree the introduction search looks at. */
  datatype CommitProof = CommitProof(commit: Commit, parents: seq<Commit>)

  datatype Answer = Found(proof: CommitProof) | Missing | Failing

  /** Stored answers; a commit outside the map is missing. */
  type Store = map<Commit, Answer>

  function Look(store: Store, c: Commit): Answer {
    if c in store then store[c] else Missing
  }

  predicate ValidOID(c: Commit) {
    (c.digits == 40 || c.digits == 64) && c.value != 0
  }

  /** Parents are well-formed names of the commit's own width, none of them the commit and none repeated. */
  predicate ValidParents(c: Commit, parents: seq<Commit>) {
    || parents == []
    || (&& ValidOID(parents[0]) && parents[0].digits == c.digits && parents[0] != c
        && parents[0] !in parents[1..] && ValidParents(c, parents[1..]))
  }

  predicate ValidProof(p: CommitProof) {
    ValidOID(p.commit) && |p.parents| <= 16 && ValidParents(p.commit, p.parents)
  }

  predicate Known(store: Store, c: Commit) {
    Look(store, c).Found? && Look(store, c).proof.commit == c && ValidProof(Look(store, c).proof)
  }

  /** The store answered for `c` with something that is not a proof of `c`. */
  predicate Corrupt(store: Store, c: Commit) {
    Look(store, c).Found? && !Known(store, c)
  }

  function Parents(store: Store, c: Commit): seq<Commit>
    requires Known(store, c)
  {
    Look(store, c).proof.parents
  }

  predicate Edge(store: Store, c: Commit, p: Commit) {
    Known(store, c) && p in Parents(store, c)
  }

  /** `a` is `n` known edges away from `c`. */
  ghost predicate Away(store: Store, c: Commit, a: Commit, n: nat)
    decreases n
  {
    if n == 0 then c == a else exists p :: Edge(store, c, p) && Away(store, p, a, n - 1)
  }

  /** `a` is `c` or one of its ancestors along known edges. */
  ghost predicate Ancestor(store: Store, c: Commit, a: Commit) {
    exists n: nat :: Away(store, c, a, n)
  }

  ghost predicate ProperAncestor(store: Store, c: Commit, a: Commit) {
    exists b :: Edge(store, c, b) && Ancestor(store, b, a)
  }

  ghost predicate Acyclic(store: Store) {
    forall c :: !ProperAncestor(store, c, c)
  }

  /** Every ancestor of `c` has a stored proof. */
  ghost predicate Closed(store: Store, c: Commit) {
    forall a :: Ancestor(store, c, a) ==> Known(store, a)
  }

  /** The whole history of `c` is known and `source` is not in it. */
  ghost predicate AbsentIn(store: Store, source: Commit, c: Commit) {
    Closed(store, c) && !Ancestor(store, c, source)
  }

  /** No answer for an ancestor of `c` is malformed or a storage failure. */
  ghost predicate Healthy(store: Store, c: Commit) {
    forall a :: Ancestor(store, c, a) ==> !Corrupt(store, a) && !Look(store, a).Failing?
  }

  /** `larger` knows everything `smaller` knows, and possibly more. */
  ghost predicate Extends(smaller: Store, larger: Store) {
    forall c :: Known(smaller, c) ==> Look(larger, c) == Look(smaller, c)
  }

  lemma AncestorRefl(store: Store, c: Commit)
    ensures Ancestor(store, c, c)
  {
    assert Away(store, c, c, 0);
  }

  lemma AncestorStep(store: Store, c: Commit, p: Commit, a: Commit)
    requires Edge(store, c, p) && Ancestor(store, p, a)
    ensures Ancestor(store, c, a)
  {
    var n: nat :| Away(store, p, a, n);
    assert Away(store, c, a, n + 1);
  }

  lemma AncestorUnfold(store: Store, c: Commit, a: Commit)
    ensures Ancestor(store, c, a) <==> c == a || ProperAncestor(store, c, a)
  {
    if Ancestor(store, c, a) {
      var n: nat :| Away(store, c, a, n);
      if n > 0 {
        var p :| Edge(store, c, p) && Away(store, p, a, n - 1);
      }
    }
    if c == a {
      AncestorRefl(store, c);
    } else if ProperAncestor(store, c, a) {
      var b :| Edge(store, c, b) && Ancestor(store, b, a);
      AncestorStep(store, c, b, a);
    }
  }

  lemma {:induction false} AwayThen(store: Store, a: Commit, b: Commit, c: Commit, n: nat)
    requires Away(store, a, b, n) && Ancestor(store, b, c)
    ensures Ancestor(store, a, c)
    decreases n
  {
    if n > 0 {
      var p :| Edge(store, a, p) && Away(store, p, b, n - 1);
      AwayThen(store, p, b, c, n - 1);
      AncestorStep(store, a, p, c);
    }
  }

  lemma AncestorTrans(store: Store, a: Commit, b: Commit, c: Commit)
    requires Ancestor(store, a, b) && Ancestor(store, b, c)
    ensures Ancestor(store, a, c)
  {
    var n: nat :| Away(store, a, b, n);
    AwayThen(store, a, b, c, n);
  }

  lemma ProperThenAncestor(store: Store, a: Commit, b: Commit, c: Commit)
    requires ProperAncestor(store, a, b) && Ancestor(store, b, c)
    ensures ProperAncestor(store, a, c)
  {
    var d :| Edge(store, a, d) && Ancestor(store, d, b);
    AncestorTrans(store, d, b, c);
  }

  lemma EdgeIsAncestor(store: Store, c: Commit, p: Commit)
    requires Edge(store, c, p)
    ensures Ancestor(store, c, p) && ProperAncestor(store, c, p)
  {
    AncestorRefl(store, p);
    AncestorStep(store, c, p, p);
  }

  /** A known commit's reachability and closure follow from its parents'. */
  lemma KnownUnfold(store: Store, c: Commit, source: Commit)
    requires Known(store, c)
    ensures Ancestor(store, c, source) <==>
              c == source || exists p :: p in Parents(store, c) && Ancestor(store, p, source)
    ensures Closed(store, c) <==> forall p :: p in Parents(store, c) ==> Closed(store, p)
  {
    AncestorUnfold(store, c, source);
    assert forall p :: p in Parents(store, c) <==> Edge(store, c, p);
    forall p, a | p in Parents(store, c) && Ancestor(store, p, a)
      ensures Ancestor(store, c, a)
    {
      AncestorStep(store, c, p, a);
    }
    forall a | Ancestor(store, c, a)
      ensures a == c || exists p :: p in Parents(store, c) && Ancestor(store, p, a)
    {
      AncestorUnfold(store, c, a);
    }
  }

  lemma UnknownUnfold(store: Store, c: Commit, a: Commit)
    requires !Known(store, c)
    ensures Ancestor(store, c, a) <==> c == a
    ensures !Closed(store, c)
  {
    AncestorUnfold(store, c, a);
    AncestorRefl(store, c);
  }

  lemma ClosedAncestor(store: Store, c: Commit, a: Commit)
    requires Closed(store, c) && Ancestor(store, c, a)
    ensures Closed(store, a)
  {
    forall b | Ancestor(store, a, b)
      ensures Known(store, b)
    {
      AncestorTrans(store, c, a, b);
    }
  }

  // ----- growing evidence -----

  lemma {:induction false} ExtendsAway(smaller: Store, larger: Store, c: Commit, a: Commit, n: nat)
    requires Extends(smaller, larger) && Away(smaller, c, a, n)
    ensures Away(larger, c, a, n)
    decreases n
  {
    if n > 0 {
      var p :| Edge(smaller, c, p) && Away(smaller, p, a, n - 1);
      ExtendsAway(smaller, larger, p, a, n - 1);
      assert Edge(larger, c, p);
    }
  }

  lemma ExtendsAncestor(smaller: Store, larger: Store, c: Commit, a: Commit)
    requires Extends(smaller, larger) && Ancestor(smaller, c, a)
    ensures Ancestor(larger, c, a)
  {
    var n: nat :| Away(smaller, c, a, n);
    ExtendsAway(smaller, larger, c, a, n);
  }

  /** Over a completely known history more evidence reveals no further ancestor. */
  lemma {:induction false} ClosedAway(smaller: Store, larger: Store, c: Commit, a: Commit, n: nat)
    requires Extends(smaller, larger) && Closed(smaller, c) && Away(larger, c, a, n)
    ensures Away(smaller, c, a, n)
    decreases n
  {
    AncestorRefl(smaller, c);
    if n > 0 {
      var p :| Edge(larger, c, p) && Away(larger, p, a, n - 1);
      EdgeIsAncestor(smaller, c, p);
      ClosedAncestor(smaller, c, p);
      ClosedAway(smaller, larger, p, a, n - 1);
      assert Edge(smaller, c, p);
    }
  }

  lemma ClosedExtends(smaller: Store, larger: Store, c: Commit)
    requires Extends(smaller, larger) && Closed(smaller, c)
    ensures Closed(larger, c)
    ensures forall a :: Ancestor(larger, c, a) <==> Ancestor(smaller, c, a)
  {
    forall a | Ancestor(larger, c, a)
      ensures Ancestor(smaller, c, a) && Known(larger, a)
    {
      var n: nat :| Away(larger, c, a, n);
      ClosedAway(smaller, larger, c, a, n);
    }
    forall a | Ancestor(smaller, c, a)
      ensures Ancestor(larger, c, a)
    {
      ExtendsAncestor(smaller, larger, c, a);
    }
  }

  lemma AbsentExtends(smaller: Store, larger: Store, source: Commit, c: Commit)
    requires Extends(smaller, larger) && AbsentIn(smaller, source, c)
    ensures AbsentIn(larger, source, c)
  {
    ClosedExtends(smaller, larger, c);
  }

  // ----- first-parent chains -----

  predicate FirstParent(store: Store, c: Commit, p: Commit) {
    Known(store, c) && |Parents(store, c)| > 0 && Parents(store, c)[0] == p
  }

  ghost predicate IsChain(store: Store, p: seq<Commit>) {
    |p| > 0 && forall i, j :: 0 <= i < j < |p| && j == i + 1 ==> FirstParent(store, p[i], p[j])
  }

  ghost predicate ChainFrom(store: Store, p: seq<Commit>, c: Commit, a: Commit) {
    IsChain(store, p) && p[0] == c && p[|p| - 1] == a
  }

  ghost predicate OnChain(store: Store, c: Commit, a: Commit) {
    exists p :: ChainFrom(store, p, c, a)
  }

  lemma {:induction false} ChainSegment(store: Store, p: seq<Commit>, i: nat, j: nat)
    requires IsChain(store, p) && i <= j < |p|
    ensures Ancestor(store, p[i], p[j])
    ensures i < j ==> ProperAncestor(store, p[i], p[j])
    decreases j - i
  {
    if i == j {
      AncestorRefl(store, p[i]);
    } else {
      ChainSegment(store, p, i + 1, j);
      assert FirstParent(store, p[i], p[i + 1]);
      AncestorStep(store, p[i], p[i + 1], p[j]);
    }
  }

  /** Chains from one commit agree: the shorter is a prefix of the longer. */
  lemma {:induction false} ChainPrefix(store: Store, p: seq<Commit>, q: seq<Commit>, n: nat)
    requires IsChain(store, p) && IsChain(store, q) && p[0] == q[0]
    requires n < |p| && n < |q|
    ensures p[n] == q[n]
  {
    if n > 0 {
      ChainPrefix(store, p, q, n - 1);
      assert FirstParent(store, p[n - 1], p[n]) && FirstParent(store, q[n - 1], q[n]);
    }
  }

  lemma ExtendsChain(smaller: Store, larger: Store, p: seq<Commit>)
    requires Extends(smaller, larger) && IsChain(smaller, p)
    ensures IsChain(larger, p)
  {
    forall i | 0 <= i < |p| - 1
      ensures FirstParent(larger, p[i], p[i + 1])
    {
      assert FirstParent(smaller, p[i], p[i + 1]);
    }
  }

  // ----- introductions -----

  /** `r` brought `source` into the branch at `d`: it lies on the first-parent chain of `d`,
      contains `source`, and its first parent does not. */
  ghost predicate IsIntroduction(store: Store, source: Commit, d: Commit, r: Commit) {
    && OnChain(store, d, r)
    && Ancestor(store, r, source)
    && (r == source || (Known(store, r) && |Parents(store, r)| > 0 && !Ancestor(store, Parents(store, r)[0], source)))
  }

  /** An introduction whose parent side is completely known, so that no further evidence can move it. */
  ghost predicate DefiniteIntroduction(store: Store, source: Commit, d: Commit, r: Commit) {
    && IsIntroduction(store, source, d, r)
    && (r == source || AbsentIn(store, source, Parents(store, r)[0]))
  }

  lemma IntroductionReaches(store: Store, source: Commit, d: Commit, r: Commit)
    requires IsIntroduction(store, source, d, r)
    ensures Ancestor(store, d, source)
  {
    var p :| ChainFrom(store, p, d, r);
    ChainSegment(store, p, 0, |p| - 1);
    AncestorTrans(store, d, r, source);
  }

  lemma IntroductionOrder(store: Store, source: Commit, r: Commit, p: seq<Commit>, i: nat, j: nat)
    requires IsChain(store, p) && i < j < |p| && p[i] == r
    requires Ancestor(store, p[j], source)
    requires r == source
             || (Known(store, r) && |Parents(store, r)| > 0 && !Ancestor(store, Parents(store, r)[0], source))
    ensures r == source && ProperAncestor(store, source, source)
  {
    assert FirstParent(store, p[i], p[i + 1]);
    ChainSegment(store, p, i + 1, j);
    AncestorTrans(store, p[i + 1], p[j], source);
    ChainSegment(store, p, i, j);
    ProperThenAncestor(store, p[i], p[j], source);
  }

  /** A branch of an acyclic history has at most one introducing commit. */
  lemma IntroductionUnique(store: Store, source: Commit, d: Commit, r: Commit, r': Commit)
    requires IsIntroduction(store, source, d, r) && IsIntroduction(store, source, d, r')
    requires !ProperAncestor(store, source, source)
    ensures r == r'
  {
    var p :| ChainFrom(store, p, d, r);
    var q :| ChainFrom(store, q, d, r');
    if |p| < |q| {
      ChainPrefix(store, p, q, |p| - 1);
      IntroductionOrder(store, source, r, q, |p| - 1, |q| - 1);
    } else {
      ChainPrefix(store, p, q, |q| - 1);
      if |q| < |p| {
        IntroductionOrder(store, source, r', p, |q| - 1, |p| - 1);
      }
    }
  }

  lemma DefiniteExtends(smaller: Store, larger: Store, source: Commit, d: Commit, r: Commit)
    requires Extends(smaller, larger) && DefiniteIntroduction(smaller, source, d, r)
    ensures DefiniteIntroduction(larger, source, d, r)
  {
    var p :| ChainFrom(smaller, p, d, r);
    ExtendsChain(smaller, larger, p);
    assert ChainFrom(larger, p, d, r);
    ExtendsAncestor(smaller, larger, r, source);
    if r != source {
      AbsentExtends(smaller, larger, source, Parents(smaller, r)[0]);
    }
  }

  lemma OnChainStep(store: Store, d: Commit, p: Commit, r: Commit)
    requires FirstParent(store, d, p) && OnChain(store, p, r)
    ensures OnChain(store, d, r)
  {
    var q :| ChainFrom(store, q, p, r);
    var chain := [d] + q;
    forall i, j | 0 <= i < j < |chain| && j == i + 1
      ensures FirstParent(store, chain[i], chain[j])
    {
      if i > 0 {
        assert FirstParent(store, q[i - 1], q[j - 1]);
      }
    }
    assert ChainFrom(store, chain, d, r);
  }

  ghost function Lineage(store: Store, d: Commit): set<Commit> {
    set c | c in store && Ancestor(store, d, c)
  }

  /** A completely known, acyclic history that contains `source` has a definite introduction of it. */
  lemma {:induction false} IntroductionExists(store: Store, source: Commit, d: Commit) returns (r: Commit)
    requires Acyclic(store) && Closed(store, d) && Ancestor(store, d, source)
    ensures DefiniteIntroduction(store, source, d, r)
    decreases Lineage(store, d)
  {
    AncestorRefl(store, d);
    assert d in Lineage(store, d);
    assert ChainFrom(store, [d], d, d);
    AncestorUnfold(store, d, source);
    if d == source {
      r := d;
    } else {
      var p := Parents(store, d)[0];
      EdgeIsAncestor(store, d, p);
      ClosedAncestor(store, d, p);
      if Ancestor(store, p, source) {
        assert !Ancestor(store, p, d) by {
          assert !ProperAncestor(store, d, d) && Edge(store, d, p);
        }
        forall c | Ancestor(store, p, c)
          ensures Ancestor(store, d, c)
        {
          AncestorTrans(store, d, p, c);
        }
        r := IntroductionExists(store, source, p);
        OnChainStep(store, d, p, r);
      } else {
        r := d;
      }
    }
  }
}
