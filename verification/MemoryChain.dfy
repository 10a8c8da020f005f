/** Memories refer to the memory they replaced. A selection that follows an inherited memory is accepted only
    when the whole chain behind it verifies. */
module MemoryChain {
  import opened HistoryEvents

  /** `digest` is the hash the stored content really has. */
  datatype Memory = Memory(digest: Hash, snapshot: Hash, previous: Hash)

  type Memories = map<Hash, Memory>

  datatype WalkResult = Verified | NotFound | Broken

  /** One verified link: the stored memory has the content its hash names and belongs to the owner. */
  predicate Link(memories: Memories, owner: Hash, id: Hash) {
    && id.Hash? && id in memories
    && memories[id].digest == id && memories[id].snapshot == owner && !memories[id].previous.Malformed?
  }

  /** `path` lists every memory from `start` back to the first, all verified. */
  ghost predicate Chain(memories: Memories, owner: Hash, start: Hash, path: seq<Hash>)
    decreases |path|
  {
    if start == NoHash then path == []
    else
      && path != [] && path[0] == start && Link(memories, owner, start)
      && Chain(memories, owner, memories[start].previous, path[1..])
  }

  ghost predicate HasChain(memories: Memories, owner: Hash, start: Hash) {
    exists path :: Chain(memories, owner, start, path)
  }

  lemma {:induction false} ChainUnique(memories: Memories, owner: Hash, start: Hash, p: seq<Hash>, q: seq<Hash>)
    requires Chain(memories, owner, start, p) && Chain(memories, owner, start, q)
    ensures p == q
    decreases |p|
  {
    if p != [] {
      ChainUnique(memories, owner, memories[start].previous, p[1..], q[1..]);
      assert p == [p[0]] + p[1..] && q == [q[0]] + q[1..];
    }
  }

  lemma {:induction false} ChainSuffix(memories: Memories, owner: Hash, start: Hash, path: seq<Hash>, k: nat)
    requires Chain(memories, owner, start, path) && k < |path|
    ensures Chain(memories, owner, path[k], path[k..])
    decreases k
  {
    if k == 0 {
      assert path[0..] == path;
    } else {
      ChainSuffix(memories, owner, memories[start].previous, path[1..], k - 1);
      assert path[1..][k - 1..] == path[k..];
    }
  }

  /** A chain never comes back to a hash: from each hash there is only one way on, and it has one length. */
  lemma ChainDistinct(memories: Memories, owner: Hash, start: Hash, path: seq<Hash>, j: nat, k: nat)
    requires Chain(memories, owner, start, path) && j < k < |path|
    ensures path[j] != path[k]
  {
    ChainSuffix(memories, owner, start, path, j);
    ChainSuffix(memories, owner, start, path, k);
    if path[j] == path[k] {
      ChainUnique(memories, owner, path[j], path[j..], path[k..]);
    }
  }

  /** The chain from `start` goes through `path` and on from `id`. */
  ghost predicate Passed(memories: Memories, owner: Hash, start: Hash, path: seq<Hash>, id: Hash)
    decreases |path|
  {
    if path == [] then id == start
    else
      && start == path[0] && Link(memories, owner, start)
      && Passed(memories, owner, memories[start].previous, path[1..], id)
  }

  lemma {:induction false} PassedChain(
      memories: Memories, owner: Hash, start: Hash, path: seq<Hash>, id: Hash, rest: seq<Hash>)
    requires Passed(memories, owner, start, path, id)
    ensures Chain(memories, owner, start, path + rest) <==> Chain(memories, owner, id, rest)
    decreases |path|
  {
    if path == [] {
      assert path + rest == rest;
    } else {
      PassedChain(memories, owner, memories[start].previous, path[1..], id, rest);
      assert (path + rest)[1..] == path[1..] + rest;
    }
  }

  lemma {:induction false} PassedPrefix(
      memories: Memories, owner: Hash, start: Hash, path: seq<Hash>, id: Hash, whole: seq<Hash>)
    requires Passed(memories, owner, start, path, id) && Chain(memories, owner, start, whole)
    ensures path <= whole && Chain(memories, owner, id, whole[|path|..])
    decreases |path|
  {
    if path == [] {
      assert whole[0..] == whole;
    } else {
      PassedPrefix(memories, owner, memories[start].previous, path[1..], id, whole[1..]);
      assert whole[1..][|path[1..]|..] == whole[|path|..];
      assert path == [path[0]] + path[1..] && whole == [whole[0]] + whole[1..];
    }
  }

  lemma {:induction false} PassedStep(memories: Memories, owner: Hash, start: Hash, path: seq<Hash>, id: Hash)
    requires Passed(memories, owner, start, path, id) && Link(memories, owner, id)
    ensures Passed(memories, owner, start, path + [id], memories[id].previous)
    decreases |path|
  {
    if path != [] {
      PassedStep(memories, owner, memories[start].previous, path[1..], id);
      assert (path + [id])[1..] == path[1..] + [id];
    }
  }

  /** Nothing verifies beyond a memory that is broken, missing or already passed. */
  lemma NoChainBeyond(memories: Memories, owner: Hash, start: Hash, path: seq<Hash>, id: Hash)
    requires Passed(memories, owner, start, path, id) && id != NoHash
    requires id in path || !Link(memories, owner, id)
    ensures forall whole :: !Chain(memories, owner, start, whole)
  {
    forall whole
      ensures !Chain(memories, owner, start, whole)
    {
      if Chain(memories, owner, start, whole) {
        PassedPrefix(memories, owner, start, path, id, whole);
        if id in path {
          var j :| 0 <= j < |path| && path[j] == id;
          assert whole[|path|..][0] == whole[|path|];
          ChainDistinct(memories, owner, start, whole, j, |path|);
        }
      }
    }
  }

  /** Follows the chain. It ends because every step adds a stored hash it has not seen, and it succeeds exactly
      when a finite verified chain exists. */
  method Walk(memories: Memories, owner: Hash, start: Hash) returns (r: WalkResult)
    ensures r == Verified <==> HasChain(memories, owner, start)
  {
    var seen: set<Hash>, id := {}, start;
    ghost var path: seq<Hash> := [];
    while id != NoHash
      invariant seen <= memories.Keys && (forall h :: h in seen <==> h in path)
      invariant Passed(memories, owner, start, path, id)
      decreases memories.Keys - seen
    {
      if !Link(memories, owner, id) || id in seen {
        NoChainBeyond(memories, owner, start, path, id);
        return if id.Hash? && id !in seen && id !in memories then NotFound else Broken;
      }
      PassedStep(memories, owner, start, path, id);
      seen, path := seen + {id}, path + [id];
      id := memories[id].previous;
    }
    PassedChain(memories, owner, start, path, id, []);
    assert path + [] == path;
    r := Verified;
  }
}
