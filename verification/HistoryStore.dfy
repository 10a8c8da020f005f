/** What the recorder reads and writes: the log, the branch targets, the stored documents with their row
    versions, the memories and the repository's policy. */
module HistoryStore {
  import opened Basics
  import opened HistoryEvents
  import opened MemoryChain
  import opened Obligations

  /** A snapshot and the document it names. */
  datatype Snapshot = Snapshot(id: Hash, document: Hash)

  datatype Row = SnapshotRow(snapshot: Snapshot) | Descriptor(chunks: seq<Hash>) | Bytes(hash: Hash) | Granted

  datatype RowKey = SnapshotKey(id: Hash) | BlobKey(hash: Hash) | ChunkGrant(hash: Hash) | DocGrant(hash: Hash)

  /** A stored row with the version the database gave it when it was last written. */
  datatype Stored = Stored(version: nat, row: Row)

  type Rows = map<RowKey, Stored>

  datatype Policy = Policy(protectDefault: bool, defaultBranch: nat)

  datatype State = State(
    log: seq<Event>, branches: map<nat, Hash>, rows: Rows, clock: nat, memories: Memories, policy: Option<Policy>,
    scans: nat, wakes: nat)

  // ----- documents -----

  predicate HasSnapshot(rows: Rows, id: Hash) {
    SnapshotKey(id) in rows && rows[SnapshotKey(id)].row.SnapshotRow? && rows[SnapshotKey(id)].row.snapshot.id == id
  }

  function SnapshotAt(rows: Rows, id: Hash): Snapshot
    requires HasSnapshot(rows, id)
  {
    rows[SnapshotKey(id)].row.snapshot
  }

  predicate ChunkIntact(rows: Rows, chunk: Hash) {
    BlobKey(chunk) in rows && rows[BlobKey(chunk)].row == Bytes(chunk) && ChunkGrant(chunk) in rows
  }

  /** The document of a snapshot verifies: it is granted to the repository, and so is every chunk its descriptor
      names, each with the bytes its hash names. */
  predicate Intact(rows: Rows, snapshot: Snapshot) {
    && snapshot.id == snapshot.document && snapshot.id.Hash?
    && DocGrant(snapshot.document) in rows && BlobKey(snapshot.document) in rows
    && rows[BlobKey(snapshot.document)].row.Descriptor?
    && forall c :: c in rows[BlobKey(snapshot.document)].row.chunks ==> ChunkIntact(rows, c)
  }

  /** Every row the verification of a snapshot looked at. */
  function Closure(rows: Rows, snapshot: Snapshot): set<RowKey>
    requires Intact(rows, snapshot)
  {
    {SnapshotKey(snapshot.id), BlobKey(snapshot.document), DocGrant(snapshot.document)}
    + (set c | c in rows[BlobKey(snapshot.document)].row.chunks :: BlobKey(c))
    + (set c | c in rows[BlobKey(snapshot.document)].row.chunks :: ChunkGrant(c))
  }

  /** Rows that look the same on the closure verify the same. */
  lemma ClosureDecides(base: Rows, rows: Rows, snapshot: Snapshot)
    requires HasSnapshot(base, snapshot.id) && SnapshotAt(base, snapshot.id) == snapshot && Intact(base, snapshot)
    requires forall k :: k in Closure(base, snapshot) ==> k in rows && rows[k].row == base[k].row
    ensures HasSnapshot(rows, snapshot.id) && SnapshotAt(rows, snapshot.id) == snapshot && Intact(rows, snapshot)
  {
    assert SnapshotKey(snapshot.id) in Closure(base, snapshot) && BlobKey(snapshot.document) in Closure(base, snapshot);
    assert DocGrant(snapshot.document) in Closure(base, snapshot);
    forall c | c in rows[BlobKey(snapshot.document)].row.chunks
      ensures ChunkIntact(rows, c)
    {
      assert BlobKey(c) in Closure(base, snapshot) && ChunkGrant(c) in Closure(base, snapshot);
      assert ChunkIntact(base, c);
    }
  }

  // ----- the conditions of acceptance -----

  /** The snapshots an event rests on, and those its inherited predecessor rests on. */
  function Roots(e: Event, predecessor: Option<Event>): seq<Hash> {
    [e.source, e.target, e.sharedTarget, e.memorySource]
    + if predecessor.Some? && predecessor.value.memoryHash != NoHash
      then [predecessor.value.source, predecessor.value.target, predecessor.value.sharedTarget,
            predecessor.value.memorySource]
      else []
  }

  function Predecessor(log: seq<Event>, e: Event): Option<Event> {
    if e.selectionParent == 0 then None else Find(log, e.selectionParent)
  }

  /** Every root is a stored snapshot whose document verifies or was verified already. */
  ghost predicate DocumentsHold(rows: Rows, roots: seq<Hash>, verified: set<Snapshot>) {
    forall id :: id in roots && id != NoHash ==>
      HasSnapshot(rows, id) && (SnapshotAt(rows, id) in verified || Intact(rows, SnapshotAt(rows, id)))
  }

  ghost predicate MemoryHolds(memories: Memories, e: Event, predecessor: Option<Event>) {
    e.memoryHash != NoHash ==>
      && e.memoryHash in memories
      && (memories[e.memoryHash].snapshot == e.source || memories[e.memoryHash].snapshot == e.target
          || memories[e.memoryHash].snapshot == e.memorySource)
      && (e.selectionParent != 0 ==>
            && memories[e.memoryHash].digest == e.memoryHash && memories[e.memoryHash].snapshot == e.target
            && memories[e.memoryHash].previous == NoHash
            && predecessor.Some?
            && HasChain(memories, predecessor.value.memorySource, predecessor.value.memoryHash))
  }

  predicate Unprotected(policy: Policy, e: Event) {
    (e.kind == Advance || e.kind == Rename || e.kind == Archive) && policy.protectDefault ==>
      (if e.kind == Rename then e.previousBranch else e.branch) != policy.defaultBranch
  }

  /** An advance moves its branch from its source only. */
  predicate Movable(branches: map<nat, Hash>, e: Event) {
    e.kind == Advance ==> e.branch in branches && branches[e.branch] == e.source
  }

  ghost predicate Evidenced(log: seq<Event>, e: Event, receipt: bool) {
    Continues(log, e) && OriginKnown(log, e) && (e.kind == PrMerge ==> receipt) && Proven(log, e)
  }

  /** Evidence in the log and in the repository admits the event, given documents verified beforehand. */
  ghost predicate Admits(s: State, e: Event, receipt: bool, verified: set<Snapshot>) {
    Whole(&& Evidenced(s.log, e, receipt) && s.policy.Some? && Unprotected(s.policy.value, e)
          && DocumentsHold(s.rows, Roots(e, Predecessor(s.log, e)), verified)
          && MemoryHolds(s.memories, e, Predecessor(s.log, e)))
  }

  /** The event is new, admitted, and the store can take it. `projected` is the store's own decision about branch
      bindings and retained tags. */
  ghost predicate Accepts(s: State, e: Event, receipt: bool, verified: set<Snapshot>, projected: bool) {
    Find(s.log, e.id).None? && Admits(s, e, receipt, verified) && Movable(s.branches, e) && projected
  }

  /** Jobs woken by an acknowledged event, accepted now or before. */
  function Woken(s: State, e: Event): State {
    s.(scans := s.scans + 1, wakes := if e.kind == Publish then s.wakes + 1 else s.wakes)
  }

  function Applied(s: State, e: Event): State {
    Woken(s.(log := s.log + [e], branches := if e.kind == Advance then s.branches[e.branch := e.target]
             else s.branches), e)
  }
}
