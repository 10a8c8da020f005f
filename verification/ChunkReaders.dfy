/** Reading ranges of a document stream that is stored in chunks, keeping the last chunk at hand. */
module ChunkReaders {
  import opened Basics
  import opened Obligations

  type Bytes = seq<nat>

  const CHUNK_BYTES := 524288
  const VIEW_BYTES := 131072

  datatype Error = Validation | Integrity | LocateFailed | LoadFailed | EmptyPiece

  datatype Result<+T> = Ok(value: T) | Err(error: Error)

  /** The chunk `c` of a stream; empty behind its end. */
  function Chunk(stream: Bytes, c: nat): Bytes {
    stream[Min(|stream|, c * CHUNK_BYTES)..Min(|stream|, (c + 1) * CHUNK_BYTES)]
  }

  /** A piece of a chunk is the corresponding piece of the stream. */
  lemma PieceOfChunk(stream: Bytes, position: nat, count: nat)
    requires position + count <= |stream| && position % CHUNK_BYTES + count <= CHUNK_BYTES && position < |stream|
    ensures var chunk, start := Chunk(stream, position / CHUNK_BYTES), position % CHUNK_BYTES;
            start + count <= |chunk| && chunk[start..start + count] == stream[position..position + count]
  {
    var c, start := position / CHUNK_BYTES, position % CHUNK_BYTES;
    assert c * CHUNK_BYTES + start == position;
    SliceOfSlice(stream, c * CHUNK_BYTES, Min(|stream|, (c + 1) * CHUNK_BYTES), start, start + count);
  }

  // ----- ranges of a conversation stream -----

  /** What locating and loading a chunk of a conversation yields: it is not located, it is located with another
      length, its load fails, or it is loaded, rightly or wrongly. */
  datatype Answer = Unlocated | Misplaced | Failed | Loaded(bytes: Bytes)

  type Load = nat -> Answer

  /** The chunk at a position of the stream is loaded rightly. */
  ghost predicate Supplies(stream: Bytes, load: Load, position: nat)
    requires position < |stream|
  {
    load(position / CHUNK_BYTES) == Loaded(Chunk(stream, position / CHUNK_BYTES))
  }

  ghost predicate SuppliesAll(stream: Bytes, load: Load, from: nat, upto: nat)
    requires upto <= |stream|
  {
    forall p: nat :: from <= p < upto ==> Supplies(stream, load, p)
  }

  /** A chunk number and the bytes kept beside it; -1 before anything has been loaded. */
  datatype Cache = Cache(chunk: int, body: Bytes)

  const NOTHING_KEPT := Cache(-1, [])

  /** The ranges a reader answers for. */
  predicate InRange(stream: Bytes, offset: int, length: int) {
    offset >= 0 && 0 < length <= VIEW_BYTES && offset <= |stream| - length
  }

  /** The bytes at hand are those of the chunk they are kept for. */
  ghost predicate Coherent(stream: Bytes, cache: Cache) {
    cache.chunk != -1 ==> 0 <= cache.chunk && cache.body == Chunk(stream, cache.chunk)
  }

  /** The cache once the chunk at a position has been loaded rightly. */
  ghost function LoadedAt(stream: Bytes, position: nat): Cache {
    Cache(position / CHUNK_BYTES, Chunk(stream, position / CHUNK_BYTES))
  }

  /** The cache after a chunk was not loaded rightly: the bytes may be overwritten, the number never is. */
  function Missed(cache: Cache, answer: Answer): Cache {
    match answer
    case Unlocated => cache
    case Misplaced => cache
    case Failed => cache.(body := [])
    case Loaded(bytes) => cache.(body := bytes)
  }

  function MissedError(answer: Answer): Error {
    match answer
    case Unlocated => LocateFailed
    case Misplaced => Integrity
    case Failed => LoadFailed
    case Loaded(_) => Integrity
  }

  /** How many bytes of a range are taken from the cache as it stands. */
  function Held(cache: Cache, offset: nat, length: nat): nat {
    if offset / CHUNK_BYTES == cache.chunk && offset % CHUNK_BYTES < |cache.body| then
      Min(length, |cache.body| - offset % CHUNK_BYTES)
    else 0
  }

  /** The range begins in the cached chunk, and the bytes kept for it end inside the chunk and before the range does. */
  predicate Starved(cache: Cache, offset: nat, length: nat) {
    offset / CHUNK_BYTES == cache.chunk && |cache.body| < CHUNK_BYTES && |cache.body| < offset % CHUNK_BYTES + length
  }

  /** The bytes taken from the cache. */
  function HeldBytes(cache: Cache, offset: nat, length: nat): (r: Bytes)
    ensures |r| == Held(cache, offset, length)
  {
    if Held(cache, offset, length) == 0 then [] else
      cache.body[offset % CHUNK_BYTES..offset % CHUNK_BYTES + Held(cache, offset, length)]
  }

  /** What the reader has after it has read up to a position: the bytes held, then the stream's. */
  ghost predicate ReadUpTo(stream: Bytes, cache: Cache, offset: nat, length: nat, position: nat, result: Bytes)
    requires offset + length <= |stream|
  {
    var from := offset + Held(cache, offset, length);
    from <= position <= |stream| && result == HeldBytes(cache, offset, length) + stream[from..position]
  }

  /** The cache after reading up to a position. */
  ghost function CacheAt(stream: Bytes, cache: Cache, offset: nat, length: nat, position: nat): Cache {
    if position <= offset + Held(cache, offset, length) then cache else LoadedAt(stream, position - 1)
  }

  /** A read stopped at the first position whose chunk is not loaded rightly. */
  ghost predicate StoppedAt(
      stream: Bytes, cache: Cache, load: Load, offset: nat, length: nat, position: nat, error: Error, after: Cache)
    requires offset + length <= |stream|
  {
    var from := offset + Held(cache, offset, length);
    && from <= position < offset + length && SuppliesAll(stream, load, from, position)
    && !Supplies(stream, load, position)
    && error == MissedError(load(position / CHUNK_BYTES))
    && after == Missed(CacheAt(stream, cache, offset, length, position), load(position / CHUNK_BYTES))
  }

  /** What a read of a range returns and leaves at hand. */
  ghost predicate Outcome(
      stream: Bytes, cache: Cache, load: Load, offset: nat, length: nat, r: Result<Bytes>, after: Cache)
    requires offset + length <= |stream|
  {
    if Starved(cache, offset, length) then r == Err(EmptyPiece) && after == cache
    else
      match r
      case Ok(value) =>
        && ReadUpTo(stream, cache, offset, length, offset + length, value)
        && SuppliesAll(stream, load, offset + Held(cache, offset, length), offset + length)
        && after == CacheAt(stream, cache, offset, length, offset + length)
      case Err(error) => exists p: nat :: StoppedAt(stream, cache, load, offset, length, p, error, after)
  }

  /** The reader of a stream whose chunk lengths and hashes are known beforehand. A hash matches the bytes it was
      taken from and no others. */
  class DocChunkReader {
    const stream: Bytes
    var cachedChunk: int
    var body: Bytes

    function Kept(): Cache
      reads this
    {
      Cache(cachedChunk, body)
    }

    constructor (stream: Bytes)
      ensures this.stream == stream && Kept() == NOTHING_KEPT
    {
      this.stream, cachedChunk, body := stream, -1, [];
    }

    /** Brings a chunk to hand. The body is overwritten before it is checked, and the chunk number only after, so a
        failed load leaves the old number beside the new bytes. */
    method Fetch(position: nat, load: Load) returns (r: Option<Error>)
      requires position < |stream|
      modifies this
      ensures if old(cachedChunk) == position / CHUNK_BYTES then r == None && Kept() == old(Kept())
              else if Supplies(stream, load, position) then r == None && Kept() == LoadedAt(stream, position)
              else
                && r == Some(MissedError(load(position / CHUNK_BYTES)))
                && Kept() == Missed(old(Kept()), load(position / CHUNK_BYTES))
    {
      var chunk := position / CHUNK_BYTES;
      if cachedChunk == chunk {
        return None;
      }
      match load(chunk)
      case Unlocated => return Some(LocateFailed);
      case Misplaced => return Some(Integrity);
      case Failed =>
        body := [];
        return Some(LoadFailed);
      case Loaded(bytes) =>
        body := bytes;
        if body != Chunk(stream, chunk) {
          return Some(Integrity);
        }
        cachedChunk := chunk;
        return None;
    }

    /** As much of the range as the chunk at its beginning holds. */
    method Piece(position: nat, length: nat, load: Load) returns (r: Result<Bytes>)
      requires 0 < length && position + length <= |stream|
      modifies this
      ensures PieceOf(stream, old(Kept()), load, position, length, r, Kept())
    {
      var error := Fetch(position, load);
      if error.Some? {
        return Err(error.value);
      }
      var start := position % CHUNK_BYTES;
      var count := Min(length, |body| - start);
      if old(cachedChunk) != position / CHUNK_BYTES {
        FreshPiece(stream, position, length);
      }
      if count <= 0 {
        return Err(EmptyPiece);
      }
      r := Ok(body[start..start + count]);
    }

    /** A read in range takes what the cache holds of it, right or wrong, and the rest from the stream. It meets a
        chunk without the bytes it needs exactly when it is starved. Otherwise it succeeds exactly when every chunk
        behind the bytes held is loaded rightly, and then it returns the bytes asked for exactly when those held are
        the stream's. `Outcome` says what is left at hand. */
    method Read(offset: int, length: int, load: Load) returns (r: Result<Bytes>)
      modifies this
      ensures r == Err(Validation) <==> !InRange(stream, offset, length)
      ensures r == Err(Validation) ==> Kept() == old(Kept())
      ensures InRange(stream, offset, length) ==> Outcome(stream, old(Kept()), load, offset, length, r, Kept())
      ensures InRange(stream, offset, length) ==> (r == Err(EmptyPiece) <==> Starved(old(Kept()), offset, length))
      ensures InRange(stream, offset, length) && !Starved(old(Kept()), offset, length) ==>
                (r.Ok? <==> SuppliesAll(stream, load, offset + Held(old(Kept()), offset, length), offset + length))
      ensures r.Ok? ==>
                (r.value == stream[offset..offset + length] <==>
                 HeldBytes(old(Kept()), offset, length) == stream[offset..offset + Held(old(Kept()), offset, length)])
    {
      if !InRange(stream, offset, length) {
        return Err(Validation);
      }
      ghost var cache := Kept();
      r := ReadRange(offset, length, load);
      OutcomeMeans(stream, cache, load, offset, length, r, Kept());
    }

    method ReadRange(offset: nat, length: nat, load: Load) returns (r: Result<Bytes>)
      requires 0 < length && offset + length <= |stream|
      modifies this
      ensures Outcome(stream, old(Kept()), load, offset, length, r, Kept())
    {
      ghost var cache := Kept();
      var result: Bytes, position := [], offset;
      while position < offset + length
        invariant Reading(stream, cache, load, offset, length, position, result, Kept())
      {
        ghost var now := Kept();
        var piece := Piece(position, offset + length - position, load);
        PieceStep(stream, cache, load, offset, length, position, result, now, piece, Kept());
        if piece.Err? {
          return piece;
        }
        result, position := result + piece.value, position + |piece.value|;
      }
      ReadEnds(stream, cache, load, offset, length, position, result, Kept());
      r := Ok(result);
    }
  }

  /** What one piece of a range is, and what it leaves at hand. */
  ghost predicate PieceOf(
      stream: Bytes, cache: Cache, load: Load, position: nat, length: nat, r: Result<Bytes>, after: Cache)
    requires position + length <= |stream| && position < |stream|
  {
    if cache.chunk == position / CHUNK_BYTES then
      after == cache
        && r == if Held(cache, position, length) == 0 then Err(EmptyPiece) else Ok(HeldBytes(cache, position, length))
    else if Supplies(stream, load, position) then
      after == LoadedAt(stream, position) && r.Ok? && Fresh(stream, position, length, r.value)
    else
      after == Missed(cache, load(position / CHUNK_BYTES)) && r == Err(MissedError(load(position / CHUNK_BYTES)))
  }

  /** A piece of a chunk just loaded: the stream's bytes, up to the end of the range or of the chunk. */
  ghost predicate Fresh(stream: Bytes, position: nat, length: nat, piece: Bytes) {
    && position + length <= |stream| && 0 < |piece| <= length && piece == stream[position..position + |piece|]
    && (|piece| < length ==> (position + |piece|) % CHUNK_BYTES == 0)
    && position % CHUNK_BYTES + |piece| <= CHUNK_BYTES
  }

  lemma FreshPiece(stream: Bytes, position: nat, length: nat)
    requires 0 < length && position + length <= |stream|
    ensures var body, start := Chunk(stream, position / CHUNK_BYTES), position % CHUNK_BYTES;
            start < |body| && Fresh(stream, position, length, body[start..start + Min(length, |body| - start)])
  {
    var body, start := Chunk(stream, position / CHUNK_BYTES), position % CHUNK_BYTES;
    assert position / CHUNK_BYTES * CHUNK_BYTES + start == position;
    assert |body| == Min(|stream| - (position - start), CHUNK_BYTES);
    PieceOfChunk(stream, position, Min(length, |body| - start));
  }

  /** The state of a read at a position. */
  ghost predicate Progress(
      stream: Bytes, cache: Cache, load: Load, offset: nat, length: nat, position: nat, result: Bytes)
    requires offset + length <= |stream|
  {
    var from := offset + Held(cache, offset, length);
    && offset <= position <= offset + length && (position == offset ==> result == [])
    && (position > offset ==>
          ReadUpTo(stream, cache, offset, length, position, result) && SuppliesAll(stream, load, from, position))
    && (position > from ==>
          !Starved(cache, offset, length) && (position == offset + length || position % CHUNK_BYTES == 0))
  }

  /** The chunk at a position is at hand only for the bytes held, and behind them only when the read is starved. */
  lemma WhereFrom(stream: Bytes, cache: Cache, load: Load, offset: nat, length: nat, position: nat, result: Bytes)
    requires offset + length <= |stream| && position < offset + length
             && Progress(stream, cache, load, offset, length, position, result)
    ensures var now := CacheAt(stream, cache, offset, length, position);
            if now.chunk != position / CHUNK_BYTES then
              position >= offset + Held(cache, offset, length) && !Starved(cache, offset, length)
            else
              && now == cache
              && (Held(now, position, offset + length - position) == 0 ==> Starved(cache, offset, length))
              && (Held(now, position, offset + length - position) > 0 ==> position == offset)
  {
    var held := Held(cache, offset, length);
    if position > offset + held {
      assert (position - 1) / CHUNK_BYTES != position / CHUNK_BYTES;
    } else if position > offset {
      assert position == offset + held && held == |cache.body| - offset % CHUNK_BYTES;
    }
  }

  lemma TakeHeld(stream: Bytes, cache: Cache, load: Load, offset: nat, length: nat)
    requires offset + length <= |stream| && Held(cache, offset, length) > 0
    ensures var position := offset + Held(cache, offset, length);
            && Progress(stream, cache, load, offset, length, position, [] + HeldBytes(cache, offset, length))
            && CacheAt(stream, cache, offset, length, position) == cache
  {
    var position := offset + Held(cache, offset, length);
    assert stream[position..position] == [];
  }

  lemma TakeFresh(
      stream: Bytes, cache: Cache, load: Load, offset: nat, length: nat, position: nat, result: Bytes, piece: Bytes)
    requires offset + length <= |stream| && position < offset + length
             && Progress(stream, cache, load, offset, length, position, result)
    requires position >= offset + Held(cache, offset, length) && !Starved(cache, offset, length)
    requires Supplies(stream, load, position) && Fresh(stream, position, offset + length - position, piece)
    ensures Progress(stream, cache, load, offset, length, position + |piece|, result + piece)
    ensures CacheAt(stream, cache, offset, length, position + |piece|) == LoadedAt(stream, position)
  {
    var from, next := offset + Held(cache, offset, length), position + |piece|;
    SameChunk(position, next - 1);
    assert SuppliesAll(stream, load, from, next) by {
      forall p: nat | from <= p < next
        ensures Supplies(stream, load, p)
      {
        if p >= position {
          SameChunk(position, p);
        }
      }
    }
    JoinFresh(stream, HeldBytes(cache, offset, length), from, position, result, piece);
  }

  lemma SameChunk(position: nat, p: nat)
    requires position <= p && position % CHUNK_BYTES + p - position < CHUNK_BYTES
    ensures p / CHUNK_BYTES == position / CHUNK_BYTES
  {
  }

  lemma JoinFresh(stream: Bytes, held: Bytes, from: nat, position: nat, result: Bytes, piece: Bytes)
    requires from <= position && position + |piece| <= |stream| && piece == stream[position..position + |piece|]
    requires result == held + stream[from..position]
    ensures result + piece == held + stream[from..position + |piece|]
  {
    assert stream[from..position] + piece == stream[from..position + |piece|];
  }

  /** A read on its way. */
  ghost predicate Reading(
      stream: Bytes, cache: Cache, load: Load, offset: nat, length: nat, position: nat, result: Bytes, now: Cache)
    requires offset + length <= |stream|
  {
    Whole(position <= offset + length && Progress(stream, cache, load, offset, length, position, result)
          && now == CacheAt(stream, cache, offset, length, position))
  }

  lemma PieceStep(
      stream: Bytes, cache: Cache, load: Load, offset: nat, length: nat, position: nat, result: Bytes, now: Cache,
                  r: Result<Bytes>, after: Cache)
    requires offset + length <= |stream| && position < offset + length
    requires Reading(stream, cache, load, offset, length, position, result, now)
    requires PieceOf(stream, now, load, position, offset + length - position, r, after)
    ensures r.Err? ==> Outcome(stream, cache, load, offset, length, r, after)
    ensures r.Ok? ==>
              |r.value| > 0
                && Reading(stream, cache, load, offset, length, position + |r.value|, result + r.value, after)
  {
    WhereFrom(stream, cache, load, offset, length, position, result);
    if r.Err? {
      if !Starved(cache, offset, length) {
        assert StoppedAt(stream, cache, load, offset, length, position, r.error, after);
      }
    } else if now.chunk == position / CHUNK_BYTES {
      TakeHeld(stream, cache, load, offset, length);
    } else {
      TakeFresh(stream, cache, load, offset, length, position, result, r.value);
    }
  }

  lemma ReadEnds(
      stream: Bytes, cache: Cache, load: Load, offset: nat, length: nat, position: nat, result: Bytes, now: Cache)
    requires offset + length <= |stream| && 0 < length && position >= offset + length
    requires Reading(stream, cache, load, offset, length, position, result, now)
    ensures Outcome(stream, cache, load, offset, length, Ok(result), now)
  {
  }

  /** What an outcome says to a caller. */
  lemma OutcomeMeans(stream: Bytes, cache: Cache, load: Load, offset: nat, length: nat, r: Result<Bytes>, after: Cache)
    requires offset + length <= |stream| && Outcome(stream, cache, load, offset, length, r, after)
    ensures r != Err(Validation) && (r == Err(EmptyPiece) <==> Starved(cache, offset, length))
    ensures !Starved(cache, offset, length) ==>
              (r.Ok? <==> SuppliesAll(stream, load, offset + Held(cache, offset, length), offset + length))
    ensures r.Ok? ==>
              (r.value == stream[offset..offset + length] <==>
               HeldBytes(cache, offset, length) == stream[offset..offset + Held(cache, offset, length)])
  {
    if r.Ok? {
      PrefixDecides(stream, HeldBytes(cache, offset, length), offset, length);
    }
  }

  lemma PrefixDecides(stream: Bytes, held: Bytes, offset: nat, length: nat)
    requires |held| <= length && offset + length <= |stream|
    ensures held + stream[offset + |held|..offset + length] == stream[offset..offset + length] <==>
              held == stream[offset..offset + |held|]
  {
    var want, rest := stream[offset..offset + length], stream[offset + |held|..offset + length];
    assert want[..|held|] == stream[offset..offset + |held|] && want == want[..|held|] + rest;
    assert (held + rest)[..|held|] == held;
  }

  // ----- a row of reads -----

  datatype Request = Request(offset: int, length: int, load: Load)

  /** A read, its outcome, and the chunk that was at hand when it began. */
  datatype Call = Call(request: Request, cached: int, result: Result<Bytes>)

  ghost predicate BeginsOutside(call: Call) {
    call.request.offset / CHUNK_BYTES != call.cached
  }

  /** As far as the outcomes tell, the cache is right after these calls: it was right before the last of them or that
      one succeeded beginning outside the cached chunk, and the last one did not fail on a chunk's bytes. */
  ghost predicate Trusted(calls: seq<Call>) {
    calls == [] ||
    var front, last := calls[..|calls| - 1], calls[|calls| - 1];
    && last.result != Err(LoadFailed) && last.result != Err(Integrity)
    && (Trusted(front) || (last.result.Ok? && BeginsOutside(last)))
  }

  /** A call that succeeded returned the bytes asked for; it succeeds when its chunks are loaded rightly, and it does
      not come upon a chunk without the bytes it needs. */
  ghost predicate Right(stream: Bytes, call: Call) {
    var offset, length := call.request.offset, call.request.length;
    && call.result != Err(EmptyPiece)
    && (call.result.Ok? ==> InRange(stream, offset, length) && call.result.value == stream[offset..offset + length])
    && (InRange(stream, offset, length) && SuppliesAll(stream, call.request.load, offset, offset + length) ==>
          call.result.Ok?)
  }

  /** What one call does: it is refused when it is out of range, and has the outcome of a read otherwise. */
  ghost predicate Answers(stream: Bytes, cache: Cache, call: Call, after: Cache) {
    && call.cached == cache.chunk
    && if InRange(stream, call.request.offset, call.request.length)
       then Outcome(stream, cache, call.request.load, call.request.offset, call.request.length, call.result, after)
       else call.result == Err(Validation) && after == cache
  }

  /** A row of calls on a new reader, with the caches before, between and after them. */
  ghost predicate RowOfCalls(stream: Bytes, caches: seq<Cache>, calls: seq<Call>) {
    && |caches| == |calls| + 1 && caches[0] == NOTHING_KEPT
    && forall n: nat :: n < |calls| ==> Answers(stream, caches[n], calls[n], caches[n + 1])
  }

  ghost predicate Touches(call: Call, chunk: int) {
    call.request.length > 0
      && call.request.offset / CHUNK_BYTES <= chunk <= (call.request.offset + call.request.length - 1) / CHUNK_BYTES
  }

  /** Some call has touched the chunk, or none has been loaded. */
  ghost predicate Seen(calls: seq<Call>, chunk: int) {
    chunk == -1 || exists j: nat :: j < |calls| && Touches(calls[j], chunk)
  }

  lemma CacheAtKeeps(stream: Bytes, cache: Cache, offset: nat, length: nat, position: nat)
    requires 0 < length && offset <= position <= offset + length
    ensures var now := CacheAt(stream, cache, offset, length, position);
            && (now.chunk == cache.chunk || offset / CHUNK_BYTES <= now.chunk <= (offset + length - 1) / CHUNK_BYTES)
            && (Coherent(stream, cache) || position > offset + Held(cache, offset, length) ==> Coherent(stream, now))
  {
  }

  /** What one read does to a cache, from the outside. */
  lemma ReadKeeps(stream: Bytes, cache: Cache, request: Request, r: Result<Bytes>, after: Cache)
    requires 0 <= request.offset && 0 < request.length && request.offset + request.length <= |stream|
    requires Outcome(stream, cache, request.load, request.offset, request.length, r, after)
    ensures after.chunk == cache.chunk || Touches(Call(request, cache.chunk, r), after.chunk)
    ensures r != Err(LoadFailed) && r != Err(Integrity)
            && (Coherent(stream, cache) || (r.Ok? && request.offset / CHUNK_BYTES != cache.chunk)) ==>
              Coherent(stream, after)
  {
    var offset, length := request.offset, request.length;
    if r.Ok? {
      CacheAtKeeps(stream, cache, offset, length, offset + length);
    } else if !Starved(cache, offset, length) {
      var p: nat :| StoppedAt(stream, cache, request.load, offset, length, p, r.error, after);
      CacheAtKeeps(stream, cache, offset, length, p);
    }
  }

  /** With a right cache, or from outside the cached chunk, what is held is the stream's and nothing is missing. */
  lemma HeldIsRight(stream: Bytes, cache: Cache, offset: nat, length: nat)
    requires 0 < length && offset + length <= |stream|
             && (Coherent(stream, cache) || offset / CHUNK_BYTES != cache.chunk)
    ensures !Starved(cache, offset, length)
    ensures HeldBytes(cache, offset, length) == stream[offset..offset + Held(cache, offset, length)]
  {
    if offset / CHUNK_BYTES == cache.chunk {
      FreshPiece(stream, offset, length);
    }
  }

  /** The calls so far, and the cache they left. */
  ghost predicate Served(stream: Bytes, calls: seq<Call>, cache: Cache) {
    && (Trusted(calls) ==> Coherent(stream, cache)) && Seen(calls, cache.chunk)
    && forall n: nat :: n < |calls| ==>
      Seen(calls[..n], calls[n].cached) && (Trusted(calls[..n]) || BeginsOutside(calls[n]) ==> Right(stream, calls[n]))
  }

  lemma ServedStep(stream: Bytes, calls: seq<Call>, cache: Cache, call: Call, after: Cache)
    requires Served(stream, calls, cache) && call.cached == cache.chunk
    requires Trusted(calls) || BeginsOutside(call) ==> Right(stream, call)
    requires after.chunk == cache.chunk || Touches(call, after.chunk)
    requires Trusted(calls + [call]) ==> Coherent(stream, after)
    ensures Served(stream, calls + [call], after)
  {
    var all := calls + [call];
    forall n: nat | n < |all|
      ensures Seen(all[..n], all[n].cached) && (Trusted(all[..n]) || BeginsOutside(all[n]) ==> Right(stream, all[n]))
    {
      if n < |calls| {
        assert all[..n] == calls[..n] && all[n] == calls[n];
      } else {
        assert all[..n] == calls;
      }
    }
    if after.chunk == cache.chunk {
      if after.chunk != -1 {
        var j: nat :| j < |calls| && Touches(calls[j], after.chunk);
        assert Touches(all[j], after.chunk);
      }
    } else {
      assert Touches(all[|calls|], after.chunk);
    }
  }

  /** Calls none of which failed on a chunk's bytes leave the cache right. */
  lemma {:induction false} TrustedWithoutFailure(calls: seq<Call>)
    requires forall n: nat :: n < |calls| ==> calls[n].result != Err(LoadFailed) && calls[n].result != Err(Integrity)
    ensures Trusted(calls)
    decreases |calls|
  {
    if calls != [] {
      TrustedWithoutFailure(calls[..|calls| - 1]);
    }
  }

  lemma CallServed(stream: Bytes, calls: seq<Call>, cache: Cache, call: Call, after: Cache)
    requires Served(stream, calls, cache) && Answers(stream, cache, call, after)
    ensures Served(stream, calls + [call], after)
  {
    var offset, length := call.request.offset, call.request.length;
    assert (calls + [call])[..|calls|] == calls;
    if InRange(stream, offset, length) {
      if Coherent(stream, cache) || BeginsOutside(call) {
        HeldIsRight(stream, cache, offset, length);
      }
      OutcomeMeans(stream, cache, call.request.load, offset, length, call.result, after);
      ReadKeeps(stream, cache, call.request, call.result, after);
    }
    ServedStep(stream, calls, cache, call, after);
  }

  lemma {:induction false} RowIsServed(stream: Bytes, caches: seq<Cache>, calls: seq<Call>)
    requires RowOfCalls(stream, caches, calls)
    ensures Served(stream, calls, caches[|calls|])
    decreases |calls|
  {
    if calls != [] {
      var n := |calls| - 1;
      RowIsServed(stream, caches[..n + 1], calls[..n]);
      CallServed(stream, calls[..n], caches[n], calls[n], caches[n + 1]);
      assert calls[..n] + [calls[n]] == calls;
    }
  }

  /** Any row of calls on a new reader, whatever the store answers each time. Every answer is right as long as no
      chunk's bytes have failed; after that, a call that begins outside the chunk at hand is answered rightly, and when
      it succeeds so is every later one until the next failure. The chunk at hand is one that an earlier call
      touched. */
  lemma RowsAreRight(stream: Bytes, caches: seq<Cache>, calls: seq<Call>, n: nat)
    requires RowOfCalls(stream, caches, calls) && n < |calls|
    ensures Trusted(calls[..n]) || BeginsOutside(calls[n]) ==> Right(stream, calls[n])
    ensures Seen(calls[..n], calls[n].cached)
  {
    RowIsServed(stream, caches, calls);
  }

  /** Requests put to a new reader one after another are such a row. */
  method ReadAll(stream: Bytes, requests: seq<Request>) returns (calls: seq<Call>, ghost caches: seq<Cache>)
    ensures |calls| == |requests| && forall n: nat :: n < |calls| ==> calls[n].request == requests[n]
    ensures RowOfCalls(stream, caches, calls)
    ensures forall n: nat :: n < |calls| && (Trusted(calls[..n]) || BeginsOutside(calls[n])) ==> Right(stream, calls[n])
  {
    var reader := new DocChunkReader(stream);
    calls, caches := [], [reader.Kept()];
    while |calls| < |requests|
      invariant reader.stream == stream && |calls| <= |requests| && forall n: nat :: n < |calls| ==>
                  calls[n].request == requests[n]
      invariant RowOfCalls(stream, caches, calls) && caches[|calls|] == reader.Kept()
    {
      var request, cached := requests[|calls|], reader.cachedChunk;
      var result := reader.Read(request.offset, request.length, request.load);
      calls, caches := calls + [Call(request, cached, result)], caches + [reader.Kept()];
    }
    RowIsServed(stream, caches, calls);
  }

  // ----- what a failed load can do to later reads -----

  /** The store answers rightly. */
  function Honest(stream: Bytes): Load {
    (c: nat) => Loaded(Chunk(stream, c))
  }

  /** The outcome of a read of one byte outside the chunk at hand. */
  lemma OneByte(stream: Bytes, cache: Cache, load: Load, offset: nat, r: Result<Bytes>, after: Cache)
    requires offset < |stream| && offset / CHUNK_BYTES != cache.chunk
             && Outcome(stream, cache, load, offset, 1, r, after)
    ensures if Supplies(stream, load, offset) then r == Ok([stream[offset]]) && after == LoadedAt(stream, offset)
            else r == Err(MissedError(load(offset / CHUNK_BYTES))) && after == Missed(cache, load(offset / CHUNK_BYTES))
  {
    if r.Err? {
      var p: nat :| StoppedAt(stream, cache, load, offset, 1, p, r.error, after);
      assert p == offset;
    } else {
      assert r.value == [stream[offset]];
    }
  }

  /** A new reader that has read its first byte and then another one in the next chunk, which the store answered
      with something else. */
  method ReadBothSides(answer: Answer) returns (reader: DocChunkReader, first: Result<Bytes>, second: Result<Bytes>)
    requires answer != Loaded([0])
    ensures fresh(reader) && reader.stream == seq(CHUNK_BYTES + 1, i => 0)
    ensures first == Ok([0]) && second == Err(MissedError(answer))
    ensures reader.Kept() == Missed(Cache(0, Chunk(reader.stream, 0)), answer)
  {
    var stream := seq(CHUNK_BYTES + 1, i => 0);
    reader := new DocChunkReader(stream);
    ghost var cache := reader.Kept();
    first := reader.Read(0, 1, Honest(stream));
    OneByte(stream, cache, Honest(stream), 0, first, reader.Kept());
    assert Chunk(stream, 1) == [0];
    cache := reader.Kept();
    var load: Load := (c: nat) => answer;
    second := reader.Read(CHUNK_BYTES, 1, load);
    OneByte(stream, cache, load, CHUNK_BYTES, second, reader.Kept());
  }

  /** A load that failed its check is served as part of another chunk. */
  method StaleCacheIsServed()
    returns (reader: DocChunkReader, first: Result<Bytes>, second: Result<Bytes>, again: Result<Bytes>)
    ensures CHUNK_BYTES < |reader.stream| && reader.stream[0..1] == [0]
    ensures first == Ok([0]) && second == Err(Integrity) && again == Ok([7])
  {
    reader, first, second := ReadBothSides(Loaded([7]));
    again := reader.Read(0, 1, Honest(reader.stream));
    assert reader.stream[1..1] == [];
    assert SuppliesAll(reader.stream, Honest(reader.stream), 1, 1) && again.value == [7];
  }

  /** A read across the end of a chunk joins a wrong byte to a right one. */
  method StaleCacheIsSpliced()
    returns (reader: DocChunkReader, first: Result<Bytes>, second: Result<Bytes>, again: Result<Bytes>)
    ensures CHUNK_BYTES < |reader.stream| && reader.stream[CHUNK_BYTES - 1..CHUNK_BYTES + 1] == [0, 0]
    ensures first == Ok([0]) && second == Err(Integrity) && again == Ok([7, 0])
  {
    var wrong := seq(CHUNK_BYTES, i => 7);
    reader, first, second := ReadBothSides(Loaded(wrong));
    ghost var cache := reader.Kept();
    assert (CHUNK_BYTES - 1) / CHUNK_BYTES == 0 && (CHUNK_BYTES - 1) % CHUNK_BYTES == CHUNK_BYTES - 1;
    assert HeldBytes(cache, CHUNK_BYTES - 1, 2) == [7] by {
      assert Held(cache, CHUNK_BYTES - 1, 2) == 1 && wrong[CHUNK_BYTES - 1] == 7;
    }
    again := reader.Read(CHUNK_BYTES - 1, 2, Honest(reader.stream));
    assert reader.stream[CHUNK_BYTES..CHUNK_BYTES + 1] == [0];
    assert SuppliesAll(reader.stream, Honest(reader.stream), CHUNK_BYTES, CHUNK_BYTES + 1);
    assert again.value == [7, 0];
  }

  /** After a failed load, a read in the chunk at hand fails although the store answers rightly again. */
  method FailedLoadStarves()
    returns (reader: DocChunkReader, first: Result<Bytes>, second: Result<Bytes>, again: Result<Bytes>)
    ensures CHUNK_BYTES < |reader.stream| && first == Ok([0]) && second == Err(LoadFailed) && again == Err(EmptyPiece)
  {
    reader, first, second := ReadBothSides(Failed);
    again := reader.Read(0, 1, Honest(reader.stream));
  }

  // ----- ranges of an event stream -----

  /** What the store answers for a chunk of an event stream, right or wrong, or nothing when the read fails. */
  type Store = nat -> Option<Bytes>

  /** The chunks are what the stream yields when it is cut every `CHUNK_BYTES`. */
  ghost predicate Cut(stream: Bytes, chunks: seq<Bytes>) {
    && |stream| <= |chunks| * CHUNK_BYTES
    && forall j: nat :: j < |chunks| ==> chunks[j] == Chunk(stream, j)
  }

  function Joined(chunks: seq<Bytes>): Bytes {
    if chunks == [] then [] else Joined(chunks[..|chunks| - 1]) + chunks[|chunks| - 1]
  }

  /** Cut chunks joined again give the stream. */
  lemma {:induction false} CutJoined(stream: Bytes, chunks: seq<Bytes>)
    requires Cut(stream, chunks)
    ensures Joined(chunks) == stream
    decreases |chunks|
  {
    if chunks != [] {
      var n := |chunks| - 1;
      var front := stream[..Min(|stream|, n * CHUNK_BYTES)];
      forall j: nat | j < n
        ensures chunks[..n][j] == Chunk(front, j)
      {
        assert chunks[j] == Chunk(stream, j);
      }
      CutJoined(front, chunks[..n]);
      assert chunks[n] == Chunk(stream, n);
      assert stream == front + stream[|front|..];
    }
  }

  /** The reader of an event stream. It checks a chunk's hash before it keeps number and bytes together, so the
      cache is right after every call, failed or not. Chunk lengths are not checked. */
  class EventRangeReader {
    const chunks: seq<Bytes>
    var cached: int
    var cachedBody: Bytes

    ghost predicate Valid()
      reads this
    {
      cached != -1 ==> 0 <= cached < |chunks| && cachedBody == chunks[cached]
    }

    constructor (chunks: seq<Bytes>)
      ensures this.chunks == chunks && Valid()
    {
      this.chunks, cached, cachedBody := chunks, -1, [];
    }

    ghost predicate Answers(store: Store) {
      forall j: nat :: j < |chunks| ==> store(j) == Some(chunks[j])
    }

    method Fetch(j: nat, store: Store) returns (r: Option<Error>)
      requires Valid() && j < |chunks|
      modifies this
      ensures Valid()
      ensures r.None? ==> cached == j && cachedBody == chunks[j]
      ensures store(j) == Some(chunks[j]) ==> r.None?
    {
      if cached != j {
        var answer := store(j);
        if answer.None? {
          return Some(LoadFailed);
        }
        if answer.value != chunks[j] {
          return Some(Integrity);
        }
        cached, cachedBody := j, answer.value;
      }
      r := None;
    }

    /** A read gathers, from the chunks its range touches, what lies in the range when every chunk fills its place. */
    method Read(start: int, length: int, store: Store) returns (r: Result<Bytes>)
      requires Valid()
      modifies this
      ensures Valid()
      ensures r.Ok? ==> Placed(chunks, start, length) == Some(r.value)
      ensures Answers(store) && Placed(chunks, start, length).Some? ==> r.Ok?
    {
      if start < 0 || length <= 0 || start >= |chunks| * CHUNK_BYTES || length > |chunks| * CHUNK_BYTES - start {
        return Err(Integrity);
      }
      var end := start + length;
      var raw: Bytes, j := [], start / CHUNK_BYTES;
      while j <= (end - 1) / CHUNK_BYTES
        invariant start / CHUNK_BYTES <= j <= (end - 1) / CHUNK_BYTES + 1 <= |chunks| && Valid()
        invariant Gathered(chunks, start, end, j) == Some(raw)
      {
        var part := ReadPart(start, end, j, store);
        if part.Err? {
          if Part(chunks[j], start, end, j).None? {
            GatheredNothing(chunks, start, end, j + 1, (end - 1) / CHUNK_BYTES + 1);
          }
          return part;
        }
        raw, j := raw + part.value, j + 1;
      }
      if |raw| != length {
        return Err(Integrity);
      }
      r := Ok(raw);
    }

    method ReadPart(start: nat, end: nat, j: nat, store: Store) returns (r: Result<Bytes>)
      requires Valid() && j < |chunks| && start < end && j <= (end - 1) / CHUNK_BYTES
      modifies this
      ensures Valid()
      ensures r.Ok? ==> Part(chunks[j], start, end, j) == Some(r.value)
      ensures Answers(store) && Part(chunks[j], start, end, j).Some? ==> r.Ok?
    {
      var error := Fetch(j, store);
      if error.Some? {
        return Err(error.value);
      }
      var lo := if start - j * CHUNK_BYTES > 0 then start - j * CHUNK_BYTES else 0;
      var hi := Min(end - j * CHUNK_BYTES, |cachedBody|);
      if lo > hi {
        return Err(Integrity);
      }
      r := Ok(cachedBody[lo..hi]);
    }
  }

  /** What chunk `j`, laid at its multiple of the chunk size, contributes to a range; nothing when it falls short. */
  function Part(chunk: Bytes, start: nat, end: nat, j: nat): Option<Bytes>
    requires j * CHUNK_BYTES < end
  {
    var lo, hi := (if start - j * CHUNK_BYTES > 0 then start - j * CHUNK_BYTES else 0),
    Min(end - j * CHUNK_BYTES, |chunk|);
    if lo > hi then None else Some(chunk[lo..hi])
  }

  /** What the chunks before `j` contribute to a range. */
  ghost function Gathered(chunks: seq<Bytes>, start: nat, end: nat, j: nat): Option<Bytes>
    requires start < end && j <= |chunks| && j <= (end - 1) / CHUNK_BYTES + 1
  {
    if j <= start / CHUNK_BYTES then Some([])
    else
      match Gathered(chunks, start, end, j - 1)
      case None => None
      case Some(raw) =>
        match Part(chunks[j - 1], start, end, j - 1)
        case None => None
        case Some(part) => Some(raw + part)
  }

  lemma {:induction false} GatheredNothing(chunks: seq<Bytes>, start: nat, end: nat, i: nat, j: nat)
    requires start < end && i <= j <= |chunks| && j <= (end - 1) / CHUNK_BYTES + 1
             && Gathered(chunks, start, end, i).None?
    ensures Gathered(chunks, start, end, j).None?
    decreases j
  {
    if i < j {
      GatheredNothing(chunks, start, end, i, j - 1);
    }
  }

  /** The bytes a range has when they are all there. */
  ghost function Placed(chunks: seq<Bytes>, start: int, length: int): Option<Bytes> {
    if start < 0 || length <= 0 || start + length > |chunks| * CHUNK_BYTES then None
    else
      match Gathered(chunks, start, start + length, (start + length - 1) / CHUNK_BYTES + 1)
      case None => None
      case Some(raw) => if |raw| == length then Some(raw) else None
  }

  // ----- a properly cut stream -----

  /** What has been gathered before chunk `j` is the part of the range before it. */
  ghost predicate Prefix(stream: Bytes, start: nat, end: nat, j: nat, raw: Bytes) {
    var upto := Min(|stream|, if j * CHUNK_BYTES < start then start else Min(end, j * CHUNK_BYTES));
    if start <= upto then raw == stream[start..upto] else raw == []
  }

  lemma PrefixStep(stream: Bytes, chunks: seq<Bytes>, start: nat, end: nat, j: nat, raw: Bytes)
    requires Cut(stream, chunks) && j < |chunks| && start / CHUNK_BYTES <= j && j * CHUNK_BYTES < end && start < end
    requires Prefix(stream, start, end, j, raw)
    ensures end <= |stream| ==> Part(chunks[j], start, end, j).Some?
    ensures Part(chunks[j], start, end, j).Some? ==>
              Prefix(stream, start, end, j + 1, raw + Part(chunks[j], start, end, j).value)
  {
    assert chunks[j] == Chunk(stream, j);
    if j * CHUNK_BYTES <= |stream| {
      PartWithin(stream, start, end, j, raw);
    } else {
      PartBeyond(stream, start, end, j, raw);
    }
  }

  /** A chunk behind the end of the stream is empty. */
  lemma PartBeyond(stream: Bytes, start: nat, end: nat, j: nat, raw: Bytes)
    requires |stream| < j * CHUNK_BYTES < end && start < end && Prefix(stream, start, end, j, raw)
    ensures var part := Part(Chunk(stream, j), start, end, j);
            part.Some? ==> Prefix(stream, start, end, j + 1, raw + part.value)
  {
    assert Chunk(stream, j) == [] && raw + [] == raw;
  }

  lemma PartWithin(stream: Bytes, start: nat, end: nat, j: nat, raw: Bytes)
    requires start / CHUNK_BYTES <= j && j * CHUNK_BYTES < end && start < end && j * CHUNK_BYTES <= |stream|
    requires Prefix(stream, start, end, j, raw)
    ensures end <= |stream| ==> Part(Chunk(stream, j), start, end, j).Some?
    ensures var part := Part(Chunk(stream, j), start, end, j);
            part.Some? ==> Prefix(stream, start, end, j + 1, raw + part.value)
  {
    var base := j * CHUNK_BYTES;
    assert start < base + CHUNK_BYTES;
    JoinPart(stream, start, end, base, Min(|stream|, base + CHUNK_BYTES), raw);
  }

  /** What a stretch of the stream from `base` to `top` adds to what was gathered before it. */
  lemma JoinPart(stream: Bytes, start: nat, end: nat, base: nat, top: nat, raw: Bytes)
    requires base <= top <= |stream| && start < end && base < end
    requires raw == if start < base then stream[start..base] else []
    ensures var lo, hi := (if start > base then start - base else 0), Min(end - base, top - base);
            lo <= hi ==> raw + stream[base..top][lo..hi] == stream[if start < base then start else base + lo..base + hi]
  {
    var lo, hi := (if start > base then start - base else 0), Min(end - base, top - base);
    if lo <= hi {
      SliceOfSlice(stream, base, top, lo, hi);
      SliceJoin(stream, if start < base then start else base + lo, base + lo, base + hi);
    }
  }

  lemma SliceJoin(stream: Bytes, a: nat, b: nat, c: nat)
    requires a <= b <= c <= |stream|
    ensures stream[a..b] + stream[b..c] == stream[a..c]
  {
  }

  lemma {:induction false} GatheredCut(stream: Bytes, chunks: seq<Bytes>, start: nat, end: nat, j: nat)
    requires Cut(stream, chunks) && start < end && start / CHUNK_BYTES <= j <= |chunks|
             && j <= (end - 1) / CHUNK_BYTES + 1
    ensures end <= |stream| ==> Gathered(chunks, start, end, j).Some?
    ensures Gathered(chunks, start, end, j).Some? ==>
              Prefix(stream, start, end, j, Gathered(chunks, start, end, j).value)
    decreases j
  {
    if j > start / CHUNK_BYTES {
      GatheredCut(stream, chunks, start, end, j - 1);
      if Gathered(chunks, start, end, j - 1).Some? {
        PrefixStep(stream, chunks, start, end, j - 1, Gathered(chunks, start, end, j - 1).value);
      }
    }
  }

  /** In a properly cut stream a range is placed exactly when it lies in the stream, and it is the slice asked for. */
  lemma PlacedInCut(stream: Bytes, chunks: seq<Bytes>, start: int, length: int)
    requires Cut(stream, chunks)
    ensures Placed(chunks, start, length).Some? <==> start >= 0 && length > 0 && start + length <= |stream|
    ensures Placed(chunks, start, length).Some? ==> Placed(chunks, start, length).value == stream[start..start + length]
  {
    if start >= 0 && length > 0 && start + length <= |chunks| * CHUNK_BYTES {
      GatheredCut(stream, chunks, start, start + length, (start + length - 1) / CHUNK_BYTES + 1);
    }
  }

  /** Every range is placed exactly when it lies in the joined stream, and as its slice. */
  ghost predicate PlacedRightly(chunks: seq<Bytes>) {
    forall start: nat, length: nat :: length > 0 ==> RightAt(chunks, start, length)
  }

  ghost predicate RightAt(chunks: seq<Bytes>, start: nat, length: nat) {
    var stream := Joined(chunks);
    Placed(chunks, start, length) == if start + length <= |stream| then Some(stream[start..start + length]) else None
  }

  /** No chunk is longer than the chunk size, and one with bytes behind it is not shorter. */
  predicate Regular(chunks: seq<Bytes>) {
    && (forall j: nat :: j < |chunks| ==> |chunks[j]| <= CHUNK_BYTES)
    && forall j: nat, k: nat :: j < k < |chunks| && chunks[k] != [] ==> |chunks[j]| == CHUNK_BYTES
  }

  /** Regular chunks are a cut stream. */
  lemma {:induction false} RegularIsCut(chunks: seq<Bytes>)
    requires Regular(chunks)
    ensures Cut(Joined(chunks), chunks)
    decreases |chunks|
  {
    if chunks != [] {
      var n := |chunks| - 1;
      var front, last := chunks[..n], chunks[n];
      RegularIsCut(front);
      var before := Joined(front);
      if last == [] {
        assert Joined(chunks) == before;
      } else {
        FullLength(front);
      }
      forall j: nat | j < |chunks|
        ensures chunks[j] == Chunk(before + last, j)
      {
        if j < n {
          assert chunks[j] == front[j] == Chunk(before, j);
          if last != [] {
            assert |chunks[j]| == CHUNK_BYTES;
            SliceOfFront(before, last, j * CHUNK_BYTES, (j + 1) * CHUNK_BYTES);
          } else {
            assert before + last == before;
          }
        }
      }
    }
  }

  lemma SliceOfFront(before: Bytes, last: Bytes, lo: nat, hi: nat)
    requires lo <= hi <= |before|
    ensures (before + last)[lo..hi] == before[lo..hi]
  {
  }

  lemma {:induction false} FullLength(chunks: seq<Bytes>)
    requires forall j: nat :: j < |chunks| ==> |chunks[j]| == CHUNK_BYTES
    ensures |Joined(chunks)| == |chunks| * CHUNK_BYTES
    decreases |chunks|
  {
    if chunks != [] {
      FullLength(chunks[..|chunks| - 1]);
    }
  }

  /** Bytes of the joined stream are those of its chunks. */
  lemma {:induction false} JoinedAtLeast(chunks: seq<Bytes>, j: nat, k: nat)
    requires j < k < |chunks|
    ensures |Joined(chunks[..j])| + |chunks[j]| + |chunks[k]| <= |Joined(chunks)|
    decreases |chunks|
  {
    var n := |chunks| - 1;
    JoinedPrefix(chunks, j);
    if k < n {
      JoinedAtLeast(chunks[..n], j, k);
      assert chunks[..n][..j] == chunks[..j];
    } else {
      JoinedPrefix(chunks[..n], j);
      assert chunks[..n][..j] == chunks[..j];
    }
  }

  lemma {:induction false} JoinedPrefix(chunks: seq<Bytes>, j: nat)
    requires j < |chunks|
    ensures |Joined(chunks[..j])| + |chunks[j]| <= |Joined(chunks)|
    decreases |chunks|
  {
    var n := |chunks| - 1;
    if j < n {
      JoinedPrefix(chunks[..n], j);
      assert chunks[..n][..j] == chunks[..j];
    }
  }

  /** The contribution of one chunk, when a range lies in its place. */
  lemma PlacedInOne(chunks: seq<Bytes>, start: nat, j: nat)
    requires j < |chunks| && start / CHUNK_BYTES == j
    ensures Placed(chunks, start, 1) == if start % CHUNK_BYTES < |chunks[j]|
            then Some(chunks[j][start % CHUNK_BYTES..start % CHUNK_BYTES + 1]) else None
  {
    assert start + 1 <= |chunks| * CHUNK_BYTES;
    assert Gathered(chunks, start, start + 1, j) == Some([]);
    var part := Part(chunks[j], start, start + 1, j);
    assert Gathered(chunks, start, start + 1, j + 1) == match part case None => None case Some(p) => Some([] + p);
    if part.Some? {
      assert [] + part.value == part.value;
    }
  }

  /** A chunk that is too short for the bytes behind it leaves a byte of the stream unplaced. */
  lemma ShortChunkHides(chunks: seq<Bytes>, j: nat, k: nat)
    requires j < k < |chunks| && chunks[k] != [] && |chunks[j]| < CHUNK_BYTES
    requires forall i: nat :: i < j ==> |chunks[i]| == CHUNK_BYTES
    ensures !RightAt(chunks, j * CHUNK_BYTES + |chunks[j]|, 1)
  {
    FullLength(chunks[..j]);
    JoinedAtLeast(chunks, j, k);
    PlacedInOne(chunks, j * CHUNK_BYTES + |chunks[j]|, j);
  }

  /** A chunk that is too long is met where the next one has its place. */
  lemma LongChunkOverlaps(chunks: seq<Bytes>, j: nat)
    requires j < |chunks| && |chunks[j]| > CHUNK_BYTES
    requires forall i: nat :: i < j ==> |chunks[i]| == CHUNK_BYTES
    ensures !RightAt(chunks, (j + 1) * CHUNK_BYTES, 1) || !RightAt(chunks, j * CHUNK_BYTES, CHUNK_BYTES + 1)
  {
    FullLength(chunks[..j]);
    JoinedPrefix(chunks, j);
    if j + 1 < |chunks| {
      if chunks[j + 1] == [] {
        PlacedInOne(chunks, (j + 1) * CHUNK_BYTES, j + 1);
      } else {
        Doubled(chunks, j);
      }
    }
  }

  lemma Doubled(chunks: seq<Bytes>, j: nat)
    requires j + 1 < |chunks| && |chunks[j]| > CHUNK_BYTES && chunks[j + 1] != []
    ensures Placed(chunks, j * CHUNK_BYTES, CHUNK_BYTES + 1) == None
  {
    var start, end := j * CHUNK_BYTES, (j + 1) * CHUNK_BYTES + 1;
    assert Gathered(chunks, start, end, j) == Some([]);
    assert Part(chunks[j], start, end, j) == Some(chunks[j][0..CHUNK_BYTES + 1]);
    assert Gathered(chunks, start, end, j + 1) == Some([] + chunks[j][0..CHUNK_BYTES + 1]);
    assert Part(chunks[j + 1], start, end, j + 1) == Some(chunks[j + 1][0..1]);
  }

  /** The chunk `j` is the first that breaks regularity, by its own length or by the bytes of chunk `k` behind it. */
  ghost predicate BreaksAt(chunks: seq<Bytes>, j: nat, k: nat) {
    && j < |chunks| && (forall i: nat :: i < j ==> |chunks[i]| == CHUNK_BYTES)
    && (|chunks[j]| > CHUNK_BYTES || (|chunks[j]| < CHUNK_BYTES && j < k < |chunks| && chunks[k] != []))
  }

  lemma RegularOrBreaks(chunks: seq<Bytes>)
    ensures Regular(chunks) || exists j: nat, k: nat :: BreaksAt(chunks, j, k)
  {
    var j: nat := 0;
    while j < |chunks| && |chunks[j]| == CHUNK_BYTES
      invariant j <= |chunks| && forall i: nat :: i < j ==> |chunks[i]| == CHUNK_BYTES
    {
      j := j + 1;
    }
    if j < |chunks| && |chunks[j]| > CHUNK_BYTES {
      assert BreaksAt(chunks, j, 0);
    } else if k: nat :| j < k < |chunks| && chunks[k] != [] {
      assert BreaksAt(chunks, j, k);
    }
  }

  /** Ranges are placed as slices of the joined stream exactly when the chunks are regular, which their lengths tell.
      So every successful read of regular chunks is the slice asked for, whatever was read before and whether or not
      it failed, and of any other chunks some range is read wrongly or refused although it is there. */
  lemma PlacedIsSlice(chunks: seq<Bytes>)
    ensures PlacedRightly(chunks) <==> Regular(chunks)
  {
    if Regular(chunks) {
      RegularIsCut(chunks);
      forall start: nat, length: nat | length > 0
        ensures RightAt(chunks, start, length)
      {
        PlacedInCut(Joined(chunks), chunks, start, length);
      }
    } else {
      RegularOrBreaks(chunks);
      var j: nat, k: nat :| BreaksAt(chunks, j, k);
      if |chunks[j]| > CHUNK_BYTES {
        LongChunkOverlaps(chunks, j);
      } else {
        ShortChunkHides(chunks, j, k);
      }
    }
  }

  /** When chunks have other lengths, a read can succeed beyond the end of the stream they join to. */
  method UncutChunks() returns (reader: EventRangeReader, offset: nat, r: Result<Bytes>)
    ensures offset >= |Joined(reader.chunks)| && r == Ok([2]) && Placed(reader.chunks, offset, 1) == Some([2])
    ensures reader.chunks == [[1], [2]] && Joined(reader.chunks) == [1, 2]
  {
    var chunks: seq<Bytes> := [[1], [2]];
    assert Joined(chunks) == [1, 2] by {
      assert chunks[..1] == [[1]] && chunks[..1][..0] == [];
      assert Joined(chunks[..1]) == [1];
    }
    reader := new EventRangeReader(chunks);
    offset := CHUNK_BYTES;
    PlacedInOne(chunks, offset, 1);
    assert chunks[1][0..1] == [2];
    r := reader.Read(offset, 1, (j: nat) => if j < |chunks| then Some(chunks[j]) else None);
  }
}
