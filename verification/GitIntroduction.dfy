/** Locating the commit that introduced a source commit into a branch: a memoised
    three-valued search over budgeted evidence, followed by a first-parent walk. */
module GitIntroduction {
  import opened CommitGraph
  import opened Obligations

  const MAX_CODE_EVIDENCE_READS := 8192

  datatype Error =
    | Validation | Integrity | NotFound | Pending | Limit
    | AlreadyPresent | RangeDiscontinuous | ProjectionLimit | StoreFailure

  datatype Result<+T> = Ok(value: T) | Err(error: Error)

  datatype Reach = Absent | Present | Unknown

  ghost predicate Kept<K, V>(m: map<K, V>, n: map<K, V>) {
    Whole(forall k :: k in m ==> k in n && n[k] == m[k])
  }

  function ReadOf(answer: Answer): Result<CommitProof> {
    match answer
    case Found(proof) => Ok(proof)
    case Missing => Err(NotFound)
    case Failing => Err(StoreFailure)
  }

  // ----- spending reads -----

  /** What has been read so far: the cached answers, the reads consumed by all readers, and whether one was refused. */
  datatype Spend = Spend(commits: map<Commit, Answer>, readCount: nat, limited: bool)

  /** What asking for one commit costs: nothing when it is cached, one read while there are any, and otherwise nothing
      but the memory that a read was refused. */
  ghost predicate Pays(store: Store, c: Commit, s: Spend, s': Spend) {
    Whole(if c in s.commits then s' == s
          else if s.readCount < MAX_CODE_EVIDENCE_READS
            then s' == Spend(s.commits[c := Look(store, c)], s.readCount + 1, s.limited)
          else s' == s.(limited := true))
  }

  /** Between two moments only commits of the region were read, each new one for one read, and a read was refused only
      when all reads were consumed and some commit of the region was still unread. */
  ghost predicate Spends(region: iset<Commit>, s: Spend, s': Spend) {
    Whole(&& Kept(s.commits, s'.commits) && s'.readCount - s.readCount == |s'.commits| - |s.commits|
          && (forall c :: c in s'.commits ==> c in s.commits || c in region)
          && (s.limited ==> s'.limited) && (s'.limited && !s.limited ==> Exhausted(region, s')))
  }

  ghost predicate Exhausted(region: iset<Commit>, s: Spend) {
    s.readCount >= MAX_CODE_EVIDENCE_READS && exists c :: c in region && c !in s.commits
  }

  lemma SpendsNothing(region: iset<Commit>, s: Spend)
    ensures Spends(region, s, s)
  {
  }

  lemma SpendsOne(region: iset<Commit>, store: Store, c: Commit, s: Spend, t: Spend, u: Spend)
    requires Spends(region, s, t) && Pays(store, c, t, u) && c in region
    ensures Spends(region, s, u)
  {
    if c !in t.commits && t.readCount < MAX_CODE_EVIDENCE_READS {
      OneMore(t.commits, c, Look(store, c));
    } else if c !in t.commits {
      assert Exhausted(region, u);
    }
  }

  lemma OneMore<K, V>(m: map<K, V>, k: K, v: V)
    requires k !in m
    ensures |m[k := v]| == |m| + 1 && Kept(m, m[k := v])
  {
    assert m[k := v].Keys == m.Keys + {k};
  }

  lemma SpendsWider(region: iset<Commit>, wider: iset<Commit>, s: Spend, t: Spend)
    requires Spends(region, s, t) && region <= wider
    ensures Spends(wider, s, t)
  {
    if t.limited && !s.limited {
      var c :| c in region && c !in t.commits;
      assert c in wider;
    }
  }

  lemma SpendsTrans(region: iset<Commit>, s: Spend, t: Spend, u: Spend)
    requires Spends(region, s, t) && Spends(region, t, u) && u.readCount <= MAX_CODE_EVIDENCE_READS
    ensures Spends(region, s, u)
  {
    if t.limited && !s.limited {
      assert t.commits.Keys <= u.commits.Keys;
      SameWhenAsMany(t.commits.Keys, u.commits.Keys);
    }
  }

  lemma {:induction false} SameWhenAsMany<T>(a: set<T>, b: set<T>)
    requires a <= b
    ensures |a| <= |b| && (|a| == |b| ==> a == b)
    decreases |a|
  {
    if a == {} {
      assert |b| == 0 ==> b == {};
    } else {
      var x :| x in a;
      SameWhenAsMany(a - {x}, b - {x});
      assert a == (a - {x}) + {x} && b == (b - {x}) + {x};
    }
  }

  /** The commits that locating a source in the history of `d` may read. */
  ghost function Region(store: Store, source: Commit, d: Commit): iset<Commit> {
    iset c | c == source || Ancestor(store, d, c)
  }

  /** What is true of the spending stays true when a commit of the history of `root` is asked for. */
  ghost predicate Survives(store: Store, root: Commit, pays: Spend -> bool) {
    forall c, s, s' :: Ancestor(store, root, c) && Pays(store, c, s, s') && pays(s) ==> pays(s')
  }

  lemma SpendingSurvives(store: Store, source: Commit, d: Commit, since: Spend)
    ensures Survives(store, d, s => Spends(Region(store, source, d), since, s))
  {
    forall c, s, s' | Ancestor(store, d, c) && Pays(store, c, s, s') && Spends(Region(store, source, d), since, s)
      ensures Spends(Region(store, source, d), since, s')
    {
      SpendsOne(Region(store, source, d), store, c, since, s, s');
    }
  }

  /** Known beforehand: the reads consumed and the unread commits of the region together stay within the allowance. */
  ghost predicate Affords(region: iset<Commit>, s: Spend) {
    && !s.limited
    && exists all: set<Commit> ::
      Covers(region, all) && s.readCount + |all - s.commits.Keys| <= MAX_CODE_EVIDENCE_READS
  }

  ghost predicate Covers(region: iset<Commit>, all: set<Commit>) {
    forall c :: c in region ==> c in all
  }

  /** What can be afforded is never refused, and its region is no larger than the allowance. */
  lemma AffordedIsRead(region: iset<Commit>, s: Spend, t: Spend)
    requires Spends(region, s, t) && Affords(region, s) && |s.commits| <= s.readCount
    ensures !t.limited && exists all: set<Commit> :: Covers(region, all) && |all| <= MAX_CODE_EVIDENCE_READS
  {
    var all: set<Commit> :| Covers(region, all) && s.readCount + |all - s.commits.Keys| <= MAX_CODE_EVIDENCE_READS;
    SplitSize(all, s.commits.Keys);
    if t.limited {
      var c :| c in region && c !in t.commits;
      AddedSize(region, all, s.commits.Keys, t.commits.Keys, c);
    }
  }

  lemma SplitSize<T>(all: set<T>, cached: set<T>)
    ensures |all| <= |all - cached| + |cached|
  {
    var shared := all * cached;
    assert all == (all - cached) + shared && |all| == |all - cached| + |shared|;
    SameWhenAsMany(shared, cached);
  }

  /** With one of them still unread, fewer than all the commits were added. */
  lemma AddedSize(region: iset<Commit>, all: set<Commit>, before: set<Commit>, after: set<Commit>, c: Commit)
    requires Covers(region, all) && before <= after && (forall k :: k in after ==> k in before || k in region)
    requires c in region && c !in after
    ensures |after| - |before| < |all - before|
  {
    var added, unread := after - before, all - before;
    assert after == added + before && |after| == |added| + |before|;
    assert added <= unread - {c} && |unread - {c}| == |unread| - 1;
    SameWhenAsMany(added, unread - {c});
  }

  /** Stored commit trees behind a cache and a shared read allowance. */
  class GitEvidence {
    const trees: Store
    const requireComplete: bool
    var commits: map<Commit, Answer>
    var readCount: nat
    var limited: bool

    ghost predicate Valid()
      reads this
    {
      && (forall c :: c in commits ==> commits[c] == Look(trees, c))
      && |commits| <= readCount <= MAX_CODE_EVIDENCE_READS
      && (limited ==> readCount == MAX_CODE_EVIDENCE_READS)
    }

    function Spent(): Spend
      reads this
    {
      Spend(commits, readCount, limited)
    }

    constructor (trees: Store, requireComplete: bool)
      ensures Valid() && this.trees == trees && this.requireComplete == requireComplete
      ensures commits == map[] && readCount == 0 && !limited
    {
      this.trees, this.requireComplete := trees, requireComplete;
      commits, readCount, limited := map[], 0, false;
    }

    /** A cached answer is free; otherwise a read is consumed, and an exhausted allowance is
        reported as a missing commit, or as a projection limit when completeness is required. */
    method GetGitCommitTree(c: Commit) returns (r: Result<CommitProof>)
      requires Valid()
      modifies this
      ensures Valid() && Pays(trees, c, old(Spent()), Spent())
      ensures Kept(old(commits), commits) && old(readCount) <= readCount && (old(limited) ==> limited)
      ensures if c in old(commits) || old(readCount) < MAX_CODE_EVIDENCE_READS
              then r == ReadOf(Look(trees, c)) && c in commits && limited == old(limited)
                   && readCount == old(readCount) + (if c in old(commits) then 0 else 1)
              else limited && r == Err(if requireComplete then ProjectionLimit else NotFound) && commits == old(commits)
                   && readCount == old(readCount)
      ensures c in old(commits) ==> commits == old(commits) && readCount == old(readCount)
    {
      if c in commits {
        return ReadOf(commits[c]);
      }
      if readCount >= MAX_CODE_EVIDENCE_READS {
        limited := true;
        return Err(if requireComplete then ProjectionLimit else NotFound);
      }
      assert commits[c := Look(trees, c)].Keys == commits.Keys + {c};
      readCount := readCount + 1;
      commits := commits[c := Look(trees, c)];
      r := ReadOf(Look(trees, c));
    }

    /** A read whose answer is also checked to be a well-formed proof of `c`. */
    method Read(c: Commit) returns (r: Result<seq<Commit>>)
      requires Valid()
      modifies this
      ensures Valid() && Pays(trees, c, old(Spent()), Spent())
      ensures Kept(old(commits), commits) && old(readCount) <= readCount && (old(limited) ==> limited)
      ensures c in old(commits) ==> commits == old(commits) && readCount == old(readCount) && limited == old(limited)
      ensures r.Ok? ==> c in commits && Known(trees, c) && r.value == Parents(trees, c)
      ensures c in old(commits) && Known(trees, c) ==> r.Ok?
      ensures r.Err? ==> BadRead(c, r.error)
    {
      var proof := GetGitCommitTree(c);
      match proof
      case Err(e) =>
        r := Err(e);
      case Ok(p) =>
        if p.commit != c || !ValidProof(p) {
          r := Err(Integrity);
        } else {
          r := Ok(p.parents);
        }
    }

    ghost predicate BadRead(c: Commit, e: Error)
      reads this
    {
      match e
      case NotFound => Look(trees, c).Missing? || limited
      case ProjectionLimit => requireComplete && limited
      case StoreFailure => Look(trees, c).Failing?
      case Integrity => Corrupt(trees, c)
      case _ => false
    }
  }

  // ----- what the three answers mean -----

  /** `cut` says that the search gave up somewhere; only then may Unknown be less than exact. */
  ghost predicate Answers(store: Store, source: Commit, c: Commit, reach: Reach, cut: bool) {
    match reach
    case Present => Ancestor(store, c, source)
    case Absent => AbsentIn(store, source, c)
    case Unknown => cut || (!Ancestor(store, c, source) && !Closed(store, c))
  }

  /** The running answer for a commit after folding in the parents `done`. */
  ghost predicate Folded(store: Store, source: Commit, c: Commit, done: seq<Commit>, reach: Reach, cut: bool) {
    match reach
    case Present => c == source || exists p :: p in done && Ancestor(store, p, source)
    case Absent => c != source && forall p :: p in done ==> AbsentIn(store, source, p)
    case Unknown =>
      || cut
      || (&& c != source && (forall p :: p in done ==> !Ancestor(store, p, source))
          && exists p :: p in done && !Closed(store, p))
  }

  function Fold(reach: Reach, parent: Reach): Reach {
    if parent == Present || (parent == Unknown && reach == Absent) then parent else reach
  }

  lemma FoldStep(
      store: Store, source: Commit, c: Commit, done: seq<Commit>, p: Commit, reach: Reach, parent: Reach, cut: bool)
    requires Folded(store, source, c, done, reach, cut) && Answers(store, source, p, parent, cut)
    ensures Folded(store, source, c, done + [p], Fold(reach, parent), cut)
  {
    assert forall q :: q in done + [p] <==> q in done || q == p;
    if Fold(reach, parent) == Unknown && !cut && parent == Unknown {
      assert p in done + [p] && !Closed(store, p);
    }
  }

  lemma FoldFinish(store: Store, source: Commit, c: Commit, reach: Reach, cut: bool)
    requires Known(store, c) && Folded(store, source, c, Parents(store, c), reach, cut)
    ensures Answers(store, source, c, reach, cut)
  {
    KnownUnfold(store, c, source);
  }

  /** The search stops only at a commit of the branch's history whose stored answer is unusable,
      or because that history runs in a circle, or because completeness was demanded of a spent budget. */
  ghost predicate Blames(evidence: GitEvidence, c: Commit, e: Error)
    reads evidence
  {
    Whole(match e
          case Integrity => Unusable(evidence.trees, c, Integrity)
          case StoreFailure => Unusable(evidence.trees, c, StoreFailure)
          case ProjectionLimit => evidence.requireComplete && evidence.limited
          case _ => false)
  }

  ghost predicate TooMany(store: Store, c: Commit) {
    exists big: set<Commit> :: |big| > MAX_CODE_EVIDENCE_READS && forall a :: a in big ==> Ancestor(store, c, a)
  }

  /** The search's own bookkeeping; `finished` lists the memo in the order it was filled. */
  datatype State = State(
    memo: map<Commit, Reach>, active: set<Commit>, visited: nat, truncated: bool, finished: seq<Commit>)

  /** A parent of a decided commit is in the memo too, unless the visit budget ran out on it. */
  ghost predicate Settled(s: State, p: Commit) {
    p in s.memo || (s.truncated && s.visited >= MAX_CODE_EVIDENCE_READS && p !in s.active)
  }

  /** The search is through with a commit, and its answer means what it should. */
  ghost predicate SettledAs(store: Store, source: Commit, limited: bool, s: State, c: Commit, reach: Reach) {
    Whole(Settled(s, c) && Answers(store, source, c, reach, s.truncated || limited))
  }

  ghost predicate Decided(memo: map<Commit, Reach>, c: Commit) {
    c in memo && memo[c] != Unknown
  }

  ghost predicate Counted(s: State) {
    && s.memo.Keys !! s.active
    && |s.memo.Keys| + |s.active| == s.visited <= MAX_CODE_EVIDENCE_READS
    && |s.finished| == |s.memo.Keys|
    && (forall c :: c in s.memo <==> c in s.finished)
  }

  /** Decided commits finish after every parent they have in the memo, so they hold no cycle. */
  ghost predicate Ordered(store: Store, memo: map<Commit, Reach>, finished: seq<Commit>) {
    forall i, p :: 0 <= i < |finished| && Decided(memo, finished[i]) && Edge(store, finished[i], p) && p in memo ==>
      p in finished[..i]
  }

  ghost predicate Inv(
      store: Store, source: Commit, root: Commit, cached: map<Commit, Answer>, limited: bool, s: State) {
    && Known(store, source) && source in cached
    && (forall c :: c in s.memo ==> Answers(store, source, c, s.memo[c], s.truncated || limited))
    && (forall c :: Decided(s.memo, c) ==> Known(store, c) && c in cached)
    && (forall c, p :: Decided(s.memo, c) && Edge(store, c, p) ==> Settled(s, p))
    && Counted(s) && Ordered(store, s.memo, s.finished)
    && (forall c :: c in s.memo || c in s.active ==> Ancestor(store, root, c))
    && (s.truncated ==> TooMany(store, root))
  }

  /** What every call of the search keeps: answers, cached reads and the reasons for giving up only grow. */
  ghost predicate Later(
      cached: map<Commit, Answer>, limited: bool, s: State, cached': map<Commit, Answer>, limited': bool, t: State) {
    Whole(&& Kept(cached, cached') && (limited ==> limited')
          && s.visited <= t.visited && (s.truncated ==> t.truncated) && Kept(s.memo, t.memo))
  }

  lemma TooManyBy(store: Store, root: Commit, finished: set<Commit>, active: set<Commit>, c: Commit)
    requires finished !! active && |finished| + |active| >= MAX_CODE_EVIDENCE_READS && c !in finished && c !in active
    requires Ancestor(store, root, c) && forall a :: a in finished || a in active ==> Ancestor(store, root, a)
    ensures TooMany(store, root)
  {
    var big := finished + active + {c};
    assert |finished + active| == |finished| + |active|;
    assert forall a :: a in big ==> Ancestor(store, root, a);
  }

  lemma InvTruncate(
      store: Store, source: Commit, root: Commit, cached: map<Commit, Answer>, limited: bool, s: State, c: Commit)
    requires Inv(store, source, root, cached, limited, s)
    requires s.visited >= MAX_CODE_EVIDENCE_READS && c !in s.memo && c !in s.active && Ancestor(store, root, c)
    ensures Inv(store, source, root, cached, limited, s.(truncated := true))
    ensures Later(cached, limited, s, cached, limited, s.(truncated := true))
  {
    TooManyBy(store, root, s.memo.Keys, s.active, c);
  }

  lemma InvRead(
      store: Store, source: Commit, root: Commit, cached: map<Commit, Answer>, limited: bool,
      cached': map<Commit, Answer>, limited': bool, s: State)
    requires Inv(store, source, root, cached, limited, s) && Kept(cached, cached') && (limited ==> limited')
    ensures Inv(store, source, root, cached', limited', s)
    ensures Later(cached, limited, s, cached', limited', s)
  {
  }

  /** A read keeps the invariant of a search that has not moved. */
  ghost predicate Asked(
      store: Store, source: Commit, root: Commit, cached: map<Commit, Answer>, limited: bool, cached': map<Commit,
      Answer>, limited': bool, s: State) {
    Whole(Inv(store, source, root, cached', limited', s) && Later(cached, limited, s, cached', limited', s))
  }

  /** Before the budget runs out, no decided commit has a parent outside the memo. */
  lemma NoDecidedChild(
      store: Store, source: Commit, root: Commit, cached: map<Commit, Answer>, limited: bool, s: State, c: Commit)
    requires Inv(store, source, root, cached, limited, s) && c !in s.memo
    requires s.visited < MAX_CODE_EVIDENCE_READS || c in s.active
    ensures forall a :: Decided(s.memo, a) ==> !Edge(store, a, c)
  {
    forall a | Decided(s.memo, a)
      ensures !Edge(store, a, c)
    {
      assert !Settled(s, c);
    }
  }

  function Memoise(s: State, c: Commit, reach: Reach): State {
    s.(memo := s.memo[c := reach], finished := s.finished + [c])
  }

  function Finish(s: State, c: Commit, reach: Reach): State {
    Memoise(s, c, reach).(active := s.active - {c})
  }

  lemma MemoiseOrdered(store: Store, s: State, c: Commit, reach: Reach)
    requires Counted(s) && Ordered(store, s.memo, s.finished) && c !in s.memo
    requires forall a :: Decided(s.memo, a) ==> !Edge(store, a, c)
    requires reach != Unknown ==> !Edge(store, c, c)
    ensures Ordered(store, s.memo[c := reach], s.finished + [c])
  {
    var t := Memoise(s, c, reach);
    forall i, p | 0 <= i < |t.finished| && Decided(t.memo, t.finished[i]) && Edge(store, t.finished[i], p)
      && p in t.memo
      ensures p in t.finished[..i]
    {
      if i < |s.finished| {
        assert t.finished[i] == s.finished[i] && s.finished[i] in s.finished && Decided(s.memo, s.finished[i]);
        assert p in s.memo && p in s.finished[..i];
        assert t.finished[..i] == s.finished[..i];
      } else {
        assert t.finished[..i] == s.finished;
        assert p in s.memo;
      }
    }
  }

  lemma CountedMissing(s: State, c: Commit)
    requires Counted(s) && s.visited < MAX_CODE_EVIDENCE_READS && c !in s.memo && c !in s.active
    ensures Counted(Memoise(s, c, Unknown).(visited := s.visited + 1))
  {
    assert s.memo[c := Unknown].Keys == s.memo.Keys + {c};
  }

  lemma CountedFinish(s: State, c: Commit, reach: Reach)
    requires Counted(s) && c in s.active
    ensures Counted(Finish(s, c, reach))
  {
    assert s.memo[c := reach].Keys == s.memo.Keys + {c};
  }

  lemma InvMissing(
      store: Store, source: Commit, root: Commit, cached: map<Commit, Answer>, limited: bool, s: State, c: Commit)
    requires Inv(store, source, root, cached, limited, s) && s.visited < MAX_CODE_EVIDENCE_READS
    requires c !in s.memo && c !in s.active && Ancestor(store, root, c)
    requires Look(store, c).Missing? || limited
    ensures Inv(store, source, root, cached, limited, Memoise(s, c, Unknown).(visited := s.visited + 1))
    ensures Later(cached, limited, s, cached, limited, Memoise(s, c, Unknown).(visited := s.visited + 1))
  {
    if Look(store, c).Missing? {
      UnknownUnfold(store, c, source);
    }
    NoDecidedChild(store, source, root, cached, limited, s, c);
    MemoiseOrdered(store, s, c, Unknown);
    CountedMissing(s, c);
    var t := Memoise(s, c, Unknown).(visited := s.visited + 1);
    assert forall a :: Decided(t.memo, a) <==> Decided(s.memo, a);
    forall a, p | Decided(t.memo, a) && Edge(store, a, p)
      ensures Settled(t, p)
    {
      assert Settled(s, p);
    }
  }

  lemma CountedActivate(s: State, c: Commit)
    requires Counted(s) && s.visited < MAX_CODE_EVIDENCE_READS && c !in s.memo && c !in s.active
    ensures Counted(s.(active := s.active + {c}, visited := s.visited + 1))
  {
    assert |s.active + {c}| == |s.active| + 1;
  }

  lemma InvActivate(
      store: Store, source: Commit, root: Commit, cached: map<Commit, Answer>, limited: bool, s: State, c: Commit)
    requires Inv(store, source, root, cached, limited, s) && s.visited < MAX_CODE_EVIDENCE_READS
    requires c !in s.memo && c !in s.active && Ancestor(store, root, c)
    ensures Inv(store, source, root, cached, limited, s.(active := s.active + {c}, visited := s.visited + 1))
    ensures Later(cached, limited, s, cached, limited, s.(active := s.active + {c}, visited := s.visited + 1))
  {
    var t := s.(active := s.active + {c}, visited := s.visited + 1);
    CountedActivate(s, c);
    assert forall a :: Decided(t.memo, a) <==> Decided(s.memo, a);
    forall a, p | Decided(t.memo, a) && Edge(store, a, p)
      ensures Settled(t, p)
    {
      assert Settled(s, p);
    }
  }

  lemma InvFinish(
      store: Store, source: Commit, root: Commit, cached: map<Commit, Answer>, limited: bool, s: State, c: Commit,
      reach: Reach)
    requires Inv(store, source, root, cached, limited, s) && c in s.active
    requires Known(store, c) && c in cached && Answers(store, source, c, reach, s.truncated || limited)
    requires forall p :: p in Parents(store, c) ==> Settled(s, p)
    ensures Inv(store, source, root, cached, limited, Finish(s, c, reach))
  {
    NoDecidedChild(store, source, root, cached, limited, s, c);
    MemoiseOrdered(store, s, c, reach);
    CountedFinish(s, c, reach);
    var t := Finish(s, c, reach);
    forall a, p | Decided(t.memo, a) && Edge(store, a, p)
      ensures Settled(t, p)
    {
      assert a == c || Decided(s.memo, a);
      assert Settled(s, p);
    }
  }

  ghost predicate AllSettled(s: State, ps: seq<Commit>) {
    Whole(forall p :: p in ps ==> Settled(s, p))
  }

  ghost predicate Folding(
      store: Store, source: Commit, limited: bool, s: State, c: Commit, done: seq<Commit>, reach: Reach) {
    Whole(Folded(store, source, c, done, reach, s.truncated || limited) && AllSettled(s, done))
  }

  lemma FoldingStep(
      store: Store, source: Commit, cached: map<Commit, Answer>, limited: bool, s: State, cached': map<Commit, Answer>,
      limited': bool, t: State,
      c: Commit, parents: seq<Commit>, i: nat, reach: Reach, parent: Reach)
    requires i < |parents| && Folding(store, source, limited, s, c, parents[..i], reach)
    requires Later(cached, limited, s, cached', limited', t) && t.active == s.active
    requires Answers(store, source, parents[i], parent, t.truncated || limited') && Settled(t, parents[i])
    ensures Folding(store, source, limited', t, c, parents[..i + 1], Fold(reach, parent))
  {
    var done, p := parents[..i], parents[i];
    assert parents[..i + 1] == done + [p];
    assert Folded(store, source, c, done, reach, t.truncated || limited');
    FoldStep(store, source, c, done, p, reach, parent, t.truncated || limited');
    forall q | q in done + [p]
      ensures Settled(t, q)
    {
      if q in done {
        assert Settled(s, q);
      }
    }
  }

  lemma LaterTrans(
      cached: map<Commit, Answer>, limited: bool, s: State, cached': map<Commit, Answer>, limited': bool, t: State,
      cached'': map<Commit, Answer>, limited'': bool, u: State)
    requires Later(cached, limited, s, cached', limited', t) && Later(cached', limited', t, cached'', limited'', u)
    ensures Later(cached, limited, s, cached'', limited'', u)
  {
  }

  lemma LaterThree(
      cached: map<Commit, Answer>, limited: bool, s: State, cached': map<Commit, Answer>, limited': bool, t: State,
      cached'': map<Commit, Answer>, limited'': bool, u: State)
    requires Later(cached, limited, s, cached', limited', s) && Later(cached', limited', s, cached', limited', t)
    requires Later(cached', limited', t, cached'', limited'', u)
    ensures Later(cached, limited, s, cached'', limited'', u)
  {
    LaterTrans(cached, limited, s, cached', limited', s, cached', limited', t);
    LaterTrans(cached, limited, s, cached', limited', t, cached'', limited'', u);
  }

  lemma KeptIn(
      cached: map<Commit, Answer>, limited: bool, s: State, cached': map<Commit, Answer>, limited': bool, t: State,
      c: Commit)
    requires Later(cached, limited, s, cached', limited', t) && c in cached
    ensures c in cached'
  {
  }

  lemma FoldingNone(store: Store, source: Commit, limited: bool, s: State, c: Commit, parents: seq<Commit>)
    ensures Folding(store, source, limited, s, c, parents[..0], if c == source then Present else Absent)
  {
  }

  lemma FoldingFinish(
      store: Store, source: Commit, root: Commit, cached: map<Commit, Answer>, limited: bool, s: State, c: Commit,
      reach: Reach)
    requires Inv(store, source, root, cached, limited, s) && c in s.active && Known(store, c) && c in cached
    requires Folding(store, source, limited, s, c, Parents(store, c), reach)
    ensures Inv(store, source, root, cached, limited, Finish(s, c, reach))
    ensures Later(cached, limited, s, cached, limited, Finish(s, c, reach))
  {
    FoldFinish(store, source, c, reach, s.truncated || limited);
    InvFinish(store, source, root, cached, limited, s, c, reach);
  }

  lemma ParentContext(
      store: Store, source: Commit, root: Commit, cached: map<Commit, Answer>, limited: bool, s: State, c: Commit,
      p: Commit)
    requires Inv(store, source, root, cached, limited, s) && c in s.active && Edge(store, c, p)
    requires Leading(store, s.active - {c}, c)
    ensures Ancestor(store, root, p) && Leading(store, s.active, p) && s.visited <= MAX_CODE_EVIDENCE_READS
  {
    EdgeIsAncestor(store, c, p);
    AncestorTrans(store, root, c, p);
    forall a | a in s.active - {c}
      ensures ProperAncestor(store, a, p)
    {
      ProperThenAncestor(store, a, c, p);
    }
  }

  /** Every commit on the search stack leads to `c`. */
  ghost predicate Leading(store: Store, active: set<Commit>, c: Commit) {
    Whole(forall a :: a in active ==> ProperAncestor(store, a, c))
  }

  // ----- the first-parent walk -----

  /** A first-parent chain from `root` through commits that contain `source`, which itself can only be the last. */
  ghost predicate Walked(store: Store, source: Commit, root: Commit, chain: seq<Commit>) {
    Whole(&& IsChain(store, chain) && chain[0] == root
          && (forall i :: 0 <= i < |chain| ==> Ancestor(store, chain[i], source))
          && (forall i :: 0 <= i < |chain| - 1 ==> chain[i] != source))
  }

  lemma WalkedStep(store: Store, source: Commit, root: Commit, chain: seq<Commit>, p: Commit)
    requires Walked(store, source, root, chain) && chain[|chain| - 1] != source
    requires FirstParent(store, chain[|chain| - 1], p) && Ancestor(store, p, source)
    ensures Walked(store, source, root, chain + [p])
  {
    var next := chain + [p];
    forall i, j | 0 <= i < j < |next| && j == i + 1
      ensures FirstParent(store, next[i], next[j])
    {
      if j < |chain| {
        assert FirstParent(store, chain[i], chain[j]);
      }
    }
  }

  /** The walk's last commit is the introduction once its first parent is known to lack `source`. */
  lemma WalkedEnd(store: Store, source: Commit, root: Commit, chain: seq<Commit>, current: Commit)
    requires Walked(store, source, root, chain) && chain[|chain| - 1] == current
    requires current == source
             || (Known(store, current) && |Parents(store, current)| > 0
                 && AbsentIn(store, source, Parents(store, current)[0]))
    ensures DefiniteIntroduction(store, source, root, current)
  {
    assert ChainFrom(store, chain, root, current);
  }

  /** An undecided first parent leaves the whole question undecided. */
  lemma WalkedStuck(store: Store, source: Commit, root: Commit, chain: seq<Commit>, p: Commit)
    requires Walked(store, source, root, chain) && chain[|chain| - 1] != source
    requires FirstParent(store, chain[|chain| - 1], p) && !Ancestor(store, p, source) && !Closed(store, p)
    ensures Undecided(store, source, root)
  {
    forall r
      ensures !DefiniteIntroduction(store, source, root, r)
    {
      if OnChain(store, root, r) {
        var q :| ChainFrom(store, q, root, r);
        WalkedStuckAt(store, source, root, chain, p, q);
      }
    }
  }

  lemma WalkedStuckAt(store: Store, source: Commit, root: Commit, chain: seq<Commit>, p: Commit, q: seq<Commit>)
    requires Walked(store, source, root, chain) && chain[|chain| - 1] != source
    requires FirstParent(store, chain[|chain| - 1], p) && !Ancestor(store, p, source) && !Closed(store, p)
    requires IsChain(store, q) && q[0] == root
    ensures !DefiniteIntroduction(store, source, root, q[|q| - 1])
  {
    if |q| < |chain| {
      ChainPrefix(store, q, chain, |q| - 1);
      assert FirstParent(store, chain[|q| - 1], chain[|q|]) && Ancestor(store, chain[|q|], source);
    } else {
      ChainPrefix(store, q, chain, |chain| - 1);
      if |chain| < |q| {
        assert FirstParent(store, q[|chain| - 1], q[|chain|]);
        ChainSegment(store, q, |chain|, |q| - 1);
        if Ancestor(store, q[|q| - 1], source) {
          AncestorTrans(store, p, q[|q| - 1], source);
        }
      }
    }
  }

  /** A present commit other than the source has a cached proof and a first parent the search dealt with earlier. */
  lemma WalkFacts(
      store: Store, source: Commit, root: Commit, cached: map<Commit, Answer>, limited: bool, s: State,
      current: Commit, rank: nat)
    requires Inv(store, source, root, cached, limited, s) && rank < |s.finished| && s.finished[rank] == current
    requires current in s.memo && s.memo[current] == Present && current != source
    ensures Known(store, current) && current in cached && |Parents(store, current)| > 0
    ensures Settled(s, Parents(store, current)[0]) && FirstParent(store, current, Parents(store, current)[0])
    ensures Parents(store, current)[0] in s.memo ==>
              Answers(store, source, Parents(store, current)[0], s.memo[Parents(store, current)[0]], s.truncated
                      || limited)
  {
    assert Decided(s.memo, current) && Answers(store, source, current, Present, s.truncated || limited);
    AncestorUnfold(store, current, source);
    assert Edge(store, current, Parents(store, current)[0]);
  }

  lemma WalkRank(
      store: Store, source: Commit, root: Commit, cached: map<Commit, Answer>, limited: bool, s: State,
      current: Commit, parent: Commit, rank: nat)
    returns (next: nat)
    requires Inv(store, source, root, cached, limited, s) && rank < |s.finished| && s.finished[rank] == current
    requires Decided(s.memo, current) && FirstParent(store, current, parent) && parent in s.memo
    ensures next < rank && s.finished[next] == parent
  {
    assert Edge(store, s.finished[rank], parent);
    next :| 0 <= next < rank && s.finished[..rank][next] == parent;
  }

  /** Neither outcome can be read off the evidence. */
  ghost predicate Undecided(store: Store, source: Commit, d: Commit) {
    !AbsentIn(store, source, d) && forall r :: !DefiniteIntroduction(store, source, d, r)
  }

  lemma UnknownUndecided(store: Store, source: Commit, d: Commit)
    requires Answers(store, source, d, Unknown, false)
    ensures Undecided(store, source, d)
  {
    forall r
      ensures !DefiniteIntroduction(store, source, d, r)
    {
      if IsIntroduction(store, source, d, r) {
        IntroductionReaches(store, source, d, r);
      }
    }
  }

  class IntroductionSearch {
    const evidence: GitEvidence
    const source: Commit
    const root: Commit
    ghost const pays: Spend -> bool
    var state: State

    constructor (evidence: GitEvidence, source: Commit, root: Commit, ghost pays: Spend -> bool)
      requires evidence.Valid() && Known(evidence.trees, source) && source in evidence.commits
      requires Survives(evidence.trees, root, pays) && pays(evidence.Spent())
      ensures Valid() && Paid() && state == State(map[], {}, 0, false, [])
      ensures this.evidence == evidence && this.source == source && this.root == root && this.pays == pays
    {
      this.evidence, this.source, this.root, this.pays := evidence, source, root, pays;
      state := State(map[], {}, 0, false, []);
    }

    ghost predicate Valid()
      reads this, evidence
    {
      Whole(evidence.Valid() && Inv(evidence.trees, source, root, evidence.commits, evidence.limited, state))
    }

    /** What was true of the spending, and survives the reads the search may make, is still true. */
    ghost predicate Paid()
      reads evidence
    {
      Survives(evidence.trees, root, pays) && pays(evidence.Spent())
    }

    ghost predicate Sound(limited: bool)
      reads evidence
    {
      Whole(evidence.Valid() && (limited ==> evidence.limited))
    }

    /** Answers from the memo, or visits the commit, or gives up on it for want of budget. */
    method Contains(commit: Commit) returns (r: Result<Reach>)
      requires Paid() && Valid() && Ancestor(evidence.trees, root, commit)
               && Leading(evidence.trees, state.active, commit)
      modifies this, evidence
      ensures Paid() && Sound(old(evidence.limited))
      ensures r.Err? ==> Blames(evidence, root, r.error)
      ensures r.Ok? ==> Valid() && state.active == old(state.active)
      ensures r.Ok? ==>
                Later(old(evidence.commits), old(evidence.limited), old(state), evidence.commits, evidence.limited,
                      state)
      ensures r.Ok? ==> SettledAs(evidence.trees, source, evidence.limited, state, commit, r.value)
      ensures r.Ok? ==> if commit in state.memo then state.memo[commit] == r.value else r.value == Unknown
      decreases MAX_CODE_EVIDENCE_READS - state.visited, 1
    {
      if commit in state.memo {
        return Ok(state.memo[commit]);
      }
      if commit in state.active {
        return Err(Integrity);
      }
      if state.visited >= MAX_CODE_EVIDENCE_READS {
        InvTruncate(evidence.trees, source, root, evidence.commits, evidence.limited, state, commit);
        state := state.(truncated := true);
        return Ok(Unknown);
      }
      r := Visit(commit);
    }

    /** The first visit of a commit: an unreadable one stays unknown, a readable one is expanded. */
    method Visit(commit: Commit) returns (r: Result<Reach>)
      requires Paid() && Valid() && Ancestor(evidence.trees, root, commit)
               && Leading(evidence.trees, state.active, commit)
      requires commit !in state.memo && commit !in state.active && state.visited < MAX_CODE_EVIDENCE_READS
      modifies this, evidence
      ensures Paid() && Sound(old(evidence.limited))
      ensures r.Err? ==> Blames(evidence, root, r.error)
      ensures r.Ok? ==> Valid() && state.active == old(state.active)
      ensures r.Ok? ==>
                Later(old(evidence.commits), old(evidence.limited), old(state), evidence.commits, evidence.limited,
                      state)
      ensures r.Ok? ==> commit in state.memo && state.memo[commit] == r.value
      decreases MAX_CODE_EVIDENCE_READS - state.visited, 0
    {
      ghost var before := state;
      state := state.(visited := state.visited + 1);
      var proof := Ask(commit, before);
      if proof == Err(NotFound) {
        Skip(commit, before);
        LaterTrans(old(evidence.commits), old(evidence.limited), before, evidence.commits, evidence.limited, before,
                   evidence.commits, evidence.limited, state);
        return Ok(Unknown);
      }
      if proof.Err? {
        return Err(proof.error);
      }
      Enter(commit, before);
      ghost var cached, limited, entered := evidence.commits, evidence.limited, state;
      r := Expand(commit, proof.value);
      if r.Ok? {
        LaterThree(old(evidence.commits), old(evidence.limited), before, cached, limited, entered, evidence.commits,
                   evidence.limited, state);
        assert before.active + {commit} - {commit} == before.active;
      }
    }

    /** Reads a commit of the root's history. */
    method Ask(commit: Commit, ghost before: State) returns (proof: Result<seq<Commit>>)
      requires Paid() && evidence.Valid()
               && Inv(evidence.trees, source, root, evidence.commits, evidence.limited, before)
      requires Ancestor(evidence.trees, root, commit)
      modifies evidence
      ensures Paid() && Sound(old(evidence.limited))
      ensures Asked(evidence.trees, source, root, old(evidence.commits), old(evidence.limited), evidence.commits,
                    evidence.limited, before)
      ensures proof.Ok? ==>
                commit in evidence.commits && Known(evidence.trees, commit)
                  && proof.value == Parents(evidence.trees, commit)
      ensures proof == Err(NotFound) ==> Look(evidence.trees, commit).Missing? || evidence.limited
      ensures proof.Err? && proof.error != NotFound ==> Blames(evidence, root, proof.error)
    {
      proof := evidence.Read(commit);
      InvRead(evidence.trees, source, root, old(evidence.commits), old(evidence.limited), evidence.commits,
              evidence.limited, before);
    }

    /** A commit without stored evidence stays unknown. */
    method Skip(commit: Commit, ghost before: State)
      requires evidence.Valid() && Inv(evidence.trees, source, root, evidence.commits, evidence.limited, before)
      requires state == before.(visited := before.visited + 1) && before.visited < MAX_CODE_EVIDENCE_READS
      requires commit !in before.memo && commit !in before.active && Ancestor(evidence.trees, root, commit)
      requires Look(evidence.trees, commit).Missing? || evidence.limited
      modifies this
      ensures Valid() && state.active == before.active && commit in state.memo && state.memo[commit] == Unknown
      ensures Later(evidence.commits, evidence.limited, before, evidence.commits, evidence.limited, state)
    {
      InvMissing(evidence.trees, source, root, evidence.commits, evidence.limited, before, commit);
      state := Memoise(state, commit, Unknown);
      assert state == Memoise(before, commit, Unknown).(visited := before.visited + 1);
    }

    /** A commit with evidence goes on the search stack. */
    method Enter(commit: Commit, ghost before: State)
      requires evidence.Valid() && Inv(evidence.trees, source, root, evidence.commits, evidence.limited, before)
      requires state == before.(visited := before.visited + 1) && before.visited < MAX_CODE_EVIDENCE_READS
      requires commit !in before.memo && commit !in before.active && Ancestor(evidence.trees, root, commit)
      modifies this
      ensures Valid() && state == before.(active := before.active + {commit}, visited := before.visited + 1)
      ensures Later(evidence.commits, evidence.limited, before, evidence.commits, evidence.limited, state)
    {
      InvActivate(evidence.trees, source, root, evidence.commits, evidence.limited, before, commit);
      state := state.(active := state.active + {commit});
    }

    /** Folds the parents' answers and records the commit's own. */
    method Expand(commit: Commit, parents: seq<Commit>) returns (r: Result<Reach>)
      requires Paid() && Valid() && commit in state.active && Leading(evidence.trees, state.active - {commit}, commit)
      requires Known(evidence.trees, commit) && parents == Parents(evidence.trees, commit) && commit in evidence.commits
      modifies this, evidence
      ensures Paid() && Sound(old(evidence.limited))
      ensures r.Err? ==> Blames(evidence, root, r.error)
      ensures r.Ok? ==> Valid() && state.active == old(state.active) - {commit}
      ensures r.Ok? ==>
                Later(old(evidence.commits), old(evidence.limited), old(state), evidence.commits, evidence.limited,
                      state)
      ensures r.Ok? ==> commit in state.memo && state.memo[commit] == r.value
      decreases MAX_CODE_EVIDENCE_READS - state.visited, 3
    {
      var reach := if commit == source then Present else Absent;
      var i := 0;
      FoldingNone(evidence.trees, source, evidence.limited, state, commit, parents);
      while i < |parents|
        invariant 0 <= i <= |parents|
        invariant Valid() && Paid() && state.active == old(state.active)
        invariant Later(old(evidence.commits), old(evidence.limited), old(state), evidence.commits, evidence.limited,
                        state)
        invariant Folding(evidence.trees, source, evidence.limited, state, commit, parents[..i], reach)
      {
        ghost var cached, limited, before := evidence.commits, evidence.limited, state;
        var folded := FoldParent(commit, parents, i, reach);
        if folded.Err? {
          return Err(folded.error);
        }
        LaterTrans(old(evidence.commits), old(evidence.limited), old(state), cached, limited, before,
                   evidence.commits, evidence.limited, state);
        reach, i := folded.value, i + 1;
      }
      assert parents[..i] == parents;
      ghost var cached, limited, before := evidence.commits, evidence.limited, state;
      KeptIn(old(evidence.commits), old(evidence.limited), old(state), cached, limited, before, commit);
      Record(commit, reach);
      LaterTrans(old(evidence.commits), old(evidence.limited), old(state), cached, limited, before, evidence.commits,
                 evidence.limited, state);
      r := Ok(reach);
    }

    /** Folds in the answer of one more parent. */
    method FoldParent(commit: Commit, parents: seq<Commit>, i: nat, reach: Reach) returns (r: Result<Reach>)
      requires Paid() && Valid() && commit in state.active && Leading(evidence.trees, state.active - {commit}, commit)
      requires Known(evidence.trees, commit) && parents == Parents(evidence.trees, commit) && i < |parents|
      requires Folding(evidence.trees, source, evidence.limited, state, commit, parents[..i], reach)
      modifies this, evidence
      ensures Paid() && Sound(old(evidence.limited))
      ensures r.Err? ==> Blames(evidence, root, r.error)
      ensures r.Ok? ==> Valid() && state.active == old(state.active)
      ensures r.Ok? ==>
                Later(old(evidence.commits), old(evidence.limited), old(state), evidence.commits, evidence.limited,
                      state)
      ensures r.Ok? ==> Folding(evidence.trees, source, evidence.limited, state, commit, parents[..i + 1], r.value)
      decreases MAX_CODE_EVIDENCE_READS - state.visited, 2
    {
      ParentContext(evidence.trees, source, root, evidence.commits, evidence.limited, state, commit, parents[i]);
      r := Contains(parents[i]);
      if r.Ok? {
        FoldingStep(evidence.trees, source, old(evidence.commits), old(evidence.limited), old(state), evidence.commits,
                    evidence.limited, state,
                    commit, parents, i, reach, r.value);
        r := Ok(Fold(reach, r.value));
      }
    }

    /** The commit's answer enters the memo as the commit leaves the search stack. */
    method Record(commit: Commit, reach: Reach)
      requires Valid() && commit in state.active && Known(evidence.trees, commit) && commit in evidence.commits
      requires Folding(evidence.trees, source, evidence.limited, state, commit, Parents(evidence.trees, commit), reach)
      modifies this
      ensures Valid() && state == Finish(old(state), commit, reach)
      ensures Later(evidence.commits, evidence.limited, old(state), evidence.commits, evidence.limited, state)
    {
      FoldingFinish(evidence.trees, source, root, evidence.commits, evidence.limited, state, commit, reach);
      state := Finish(state, commit, reach);
    }

    /** Follows first parents from the root for as long as they contain the source. The loop always
        ends before its bound, and neither a missing proof nor a missing parent can stop it. */
    method Walk() returns (r: Result<Commit>, steps: nat)
      requires Valid() && root in state.memo && state.memo[root] == Present
      modifies evidence
      ensures evidence.Valid() && evidence.Spent() == old(evidence.Spent())
      ensures steps < MAX_CODE_EVIDENCE_READS
      ensures WalkOutcome(evidence.trees, source, root, state.truncated || evidence.limited, r)
    {
      var current := root;
      steps := 0;
      r := Err(Limit);
      ghost var chain := [root];
      ghost var rank: nat :| rank < |state.finished| && state.finished[rank] == root;
      while steps < MAX_CODE_EVIDENCE_READS
        invariant Valid() && evidence.Spent() == old(evidence.Spent())
        invariant Walked(evidence.trees, source, root, chain) && chain[|chain| - 1] == current
        invariant current in state.memo && state.memo[current] == Present
        invariant rank + steps < |state.finished| <= MAX_CODE_EVIDENCE_READS && state.finished[rank] == current
      {
        if current == source {
          WalkedEnd(evidence.trees, source, root, chain, current);
          r := Ok(current);
          break;
        }
        var step;
        step, rank := StepFrom(current, chain, rank);
        if step.Stop? {
          r := step.result;
          break;
        }
        current, steps, chain := step.parent, steps + 1, chain + [step.parent];
      }
    }

    /** A parent that the memo does not hold is one the visit budget ran out on. */
    method StepFrom(
        current: Commit, ghost chain: seq<Commit>, ghost rank: nat)
      returns (step: WalkStep, ghost next: nat)
      requires Valid() && current in state.memo && state.memo[current] == Present && current != source
      requires Walked(evidence.trees, source, root, chain) && chain[|chain| - 1] == current
      requires rank < |state.finished| && state.finished[rank] == current
      modifies evidence
      ensures Valid() && evidence.Spent() == old(evidence.Spent())
      ensures Known(evidence.trees, current) && |Parents(evidence.trees, current)| > 0
      ensures Parents(evidence.trees, current)[0] !in state.memo ==> state.truncated && step == Stop(Err(Limit))
      ensures step.Stop? ==> WalkOutcome(evidence.trees, source, root, state.truncated || evidence.limited, step.result)
      ensures step.Continue? ==> step.parent in state.memo && state.memo[step.parent] == Present
      ensures step.Continue? ==>
                next < rank && state.finished[next] == step.parent
                  && Walked(evidence.trees, source, root, chain + [step.parent])
    {
      next := 0;
      WalkFacts(evidence.trees, source, root, evidence.commits, evidence.limited, state, current, rank);
      var proof := evidence.Read(current);
      match proof
      case Err(e) =>
        step := Stop(Err(e));
      case Ok(parents) =>
        if |parents| == 0 {
          step := Stop(Err(Integrity));
        } else {
          step, next := StepTo(current, parents[0], chain, rank);
        }
    }

    /** What the memo says of the first parent decides the step. */
    method StepTo(
        current: Commit, parent: Commit, ghost chain: seq<Commit>, ghost rank: nat)
      returns (step: WalkStep, ghost next: nat)
      requires Valid() && current in state.memo && state.memo[current] == Present && current != source
      requires Walked(evidence.trees, source, root, chain) && chain[|chain| - 1] == current
      requires rank < |state.finished| && state.finished[rank] == current
      requires FirstParent(evidence.trees, current, parent)
      ensures parent !in state.memo ==> state.truncated && step == Stop(Err(Limit))
      ensures step.Stop? ==> WalkOutcome(evidence.trees, source, root, state.truncated || evidence.limited, step.result)
      ensures step.Continue? ==> step.parent in state.memo && state.memo[step.parent] == Present
      ensures step.Continue? ==>
                next < rank && state.finished[next] == step.parent
                  && Walked(evidence.trees, source, root, chain + [step.parent])
    {
      next := 0;
      WalkFacts(evidence.trees, source, root, evidence.commits, evidence.limited, state, current, rank);
      var cut := state.truncated || evidence.limited;
      if parent !in state.memo {
        step := Stop(Err(if cut then Limit else Pending));
      } else if state.memo[parent] == Unknown {
        if cut {
          step := Stop(Err(Limit));
        } else {
          WalkedStuck(evidence.trees, source, root, chain, parent);
          step := Stop(Err(Pending));
        }
      } else if state.memo[parent] == Absent {
        WalkedEnd(evidence.trees, source, root, chain, current);
        step := Stop(Ok(current));
      } else {
        WalkedStep(evidence.trees, source, root, chain, parent);
        next := WalkRank(evidence.trees, source, root, evidence.commits, evidence.limited, state, current, parent,
                         rank);
        step := Continue(parent);
      }
    }
  }

  datatype WalkStep = Stop(result: Result<Commit>) | Continue(parent: Commit)

  ghost predicate WalkOutcome(store: Store, source: Commit, d: Commit, cut: bool, r: Result<Commit>) {
    Whole(match r
          case Ok(found) => DefiniteIntroduction(store, source, d, found)
          case Err(Limit) => cut
          case Err(Pending) => !cut && Undecided(store, source, d)
          case _ => false)
  }

  // ----- locating an introduction -----

  ghost predicate ValidPair(source: Commit, d: Commit) {
    ValidOID(source) && ValidOID(d) && source.digits == d.digits
  }

  ghost predicate Unusable(store: Store, c: Commit, e: Error) {
    exists a :: Ancestor(store, c, a) && match e
      case Integrity => Corrupt(store, a) || ProperAncestor(store, a, a)
      case StoreFailure => Look(store, a).Failing?
      case _ => false
  }

  /** What each answer of the search says about the stored history. A definite answer (a commit, or
      not found) is exact; a pending one means the evidence truly does not decide the question; and
      the other errors name a fault in the evidence or a spent budget. */
  ghost predicate Located(store: Store, source: Commit, d: Commit, limited: bool, complete: bool, r: Result<Commit>) {
    Whole(match r
          case Ok(found) => ValidPair(source, d) && Known(store, source)
            && DefiniteIntroduction(store, source, d, found)
          case Err(NotFound) => ValidPair(source, d) && Known(store, source) && AbsentIn(store, source, d)
          case Err(Pending) => !limited && (Look(store, source).Missing? || Undecided(store, source, d))
          case Err(Limit) => limited || TooMany(store, d)
          case Err(Validation) => !ValidPair(source, d)
          case Err(ProjectionLimit) => complete && limited
          case Err(Integrity) => Unusable(store, source, Integrity) || Unusable(store, d, Integrity)
          case Err(StoreFailure) => Unusable(store, source, StoreFailure) || Unusable(store, d, StoreFailure)
          case _ => false)
  }

  lemma LocatedSourceError(store: Store, source: Commit, d: Commit, limited: bool, complete: bool, e: Error)
    requires e == Integrity || e == StoreFailure || e == ProjectionLimit
    requires e == Integrity ==> Corrupt(store, source)
    requires e == StoreFailure ==> Look(store, source).Failing?
    requires e == ProjectionLimit ==> complete && limited
    ensures Located(store, source, d, limited, complete, Err(e))
  {
    AncestorRefl(store, source);
    if e == Integrity {
      assert Unusable(store, source, Integrity);
    } else if e == StoreFailure {
      assert Unusable(store, source, StoreFailure);
    }
  }

  method LocateIntroduction(evidence: GitEvidence, source: Commit, d: Commit) returns (r: Result<Commit>)
    requires evidence.Valid()
    modifies evidence
    ensures evidence.Valid() && (old(evidence.limited) ==> evidence.limited)
    ensures Located(evidence.trees, source, d, evidence.limited, evidence.requireComplete, r)
    ensures Spends(Region(evidence.trees, source, d), old(evidence.Spent()), evidence.Spent())
  {
    ghost var before := evidence.Spent();
    SpendsNothing(Region(evidence.trees, source, d), before);
    if !(ValidOID(source) && ValidOID(d) && source.digits == d.digits) {
      return Err(Validation);
    }
    var proof := evidence.Read(source);
    SpendsOne(Region(evidence.trees, source, d), evidence.trees, source, before, before, evidence.Spent());
    if proof == Err(NotFound) {
      return Err(if evidence.limited then Limit else Pending);
    }
    if proof.Err? {
      LocatedSourceError(evidence.trees, source, d, evidence.limited, evidence.requireComplete, proof.error);
      return Err(proof.error);
    }
    r := SearchFrom(evidence, source, d, before);
  }

  method SearchFrom(evidence: GitEvidence, source: Commit, d: Commit, ghost since: Spend) returns (r: Result<Commit>)
    requires evidence.Valid() && ValidPair(source, d) && Known(evidence.trees, source) && source in evidence.commits
    requires Spends(Region(evidence.trees, source, d), since, evidence.Spent())
    modifies evidence
    ensures Spends(Region(evidence.trees, source, d), since, evidence.Spent())
    ensures evidence.Valid() && (old(evidence.limited) ==> evidence.limited)
    ensures Located(evidence.trees, source, d, evidence.limited, evidence.requireComplete, r)
  {
    SpendingSurvives(evidence.trees, source, d, since);
    var search := new IntroductionSearch(evidence, source, d, s => Spends(Region(evidence.trees, source, d), since, s));
    AncestorRefl(evidence.trees, d);
    var reach := search.Contains(d);
    if reach.Err? {
      r := Err(reach.error);
    } else if reach.value == Absent {
      r := Err(NotFound);
    } else if reach.value == Unknown {
      if search.state.truncated || evidence.limited {
        r := Err(Limit);
      } else {
        UnknownUndecided(evidence.trees, source, d);
        r := Err(Pending);
      }
    } else {
      var steps;
      r, steps := search.Walk();
    }
  }

  ghost predicate Definite(r: Result<Commit>) {
    r.Ok? || r == Err(NotFound)
  }

  lemma NotBoth(store: Store, source: Commit, d: Commit, r: Commit)
    requires AbsentIn(store, source, d)
    ensures !IsIntroduction(store, source, d, r)
  {
    if IsIntroduction(store, source, d, r) {
      IntroductionReaches(store, source, d, r);
    }
  }

  /** More evidence never overturns a definite answer: a later search over a larger store gives the
      same answer or runs out of budget. */
  lemma DefiniteAnswersAreStable(
      smaller: Store, larger: Store, source: Commit, d: Commit,
      limited: bool, complete: bool, r: Result<Commit>, limited': bool, complete': bool, r': Result<Commit>)
    requires Extends(smaller, larger) && Acyclic(larger) && Healthy(larger, source) && Healthy(larger, d)
    requires Located(smaller, source, d, limited, complete, r) && Definite(r)
    requires Located(larger, source, d, limited', complete', r')
    ensures r' == r || r' == Err(Limit) || r' == Err(ProjectionLimit)
  {
    if r.Ok? {
      DefiniteExtends(smaller, larger, source, d, r.value);
      if r'.Ok? {
        IntroductionUnique(larger, source, d, r.value, r'.value);
      } else if r' == Err(NotFound) {
        NotBoth(larger, source, d, r.value);
      }
    } else {
      AbsentExtends(smaller, larger, source, d);
      if r'.Ok? {
        NotBoth(larger, source, d, r'.value);
      }
    }
  }

  /** Over complete, sound evidence that it can afford to read the search always decides, and finds a commit exactly
      when the branch contains the source. Whether it can afford it is known before it begins. */
  lemma CompleteEvidenceDecides(
      store: Store, source: Commit, d: Commit, before: Spend, after: Spend, complete: bool, r: Result<Commit>)
    requires Located(store, source, d, after.limited, complete, r) && Spends(Region(store, source, d), before, after)
    requires Affords(Region(store, source, d), before) && |before.commits| <= before.readCount
    requires ValidPair(source, d) && Acyclic(store) && Closed(store, d) && Closed(store, source)
    ensures r.Ok? <==> Ancestor(store, d, source)
    ensures r == Err(NotFound) <==> !Ancestor(store, d, source)
  {
    AffordedIsRead(Region(store, source, d), before, after);
    NotTooMany(store, source, d);
    UnlimitedDecides(store, source, d, complete, r);
  }

  lemma UnlimitedDecides(store: Store, source: Commit, d: Commit, complete: bool, r: Result<Commit>)
    requires Located(store, source, d, false, complete, r) && ValidPair(source, d)
    requires Acyclic(store) && Closed(store, d) && Closed(store, source) && !TooMany(store, d)
    ensures r.Ok? <==> Ancestor(store, d, source)
    ensures r == Err(NotFound) <==> !Ancestor(store, d, source)
  {
    AncestorRefl(store, source);
    if Ancestor(store, d, source) {
      var found := IntroductionExists(store, source, d);
      DecidedBy(store, source, d, found);
    } else if r.Ok? {
      IntroductionReaches(store, source, d, r.value);
    }
  }

  lemma NotTooMany(store: Store, source: Commit, d: Commit)
    requires exists all: set<Commit> :: Covers(Region(store, source, d), all) && |all| <= MAX_CODE_EVIDENCE_READS
    ensures !TooMany(store, d)
  {
    var all: set<Commit> :| Covers(Region(store, source, d), all) && |all| <= MAX_CODE_EVIDENCE_READS;
    forall big: set<Commit> | forall a :: a in big ==> Ancestor(store, d, a)
      ensures |big| <= MAX_CODE_EVIDENCE_READS
    {
      assert forall a :: a in big ==> a in Region(store, source, d);
      SameWhenAsMany(big, all);
    }
  }

  lemma DecidedBy(store: Store, source: Commit, d: Commit, found: Commit)
    requires DefiniteIntroduction(store, source, d, found)
    ensures !Undecided(store, source, d) && !AbsentIn(store, source, d)
  {
    IntroductionReaches(store, source, d, found);
  }
}
