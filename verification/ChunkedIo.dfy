/** The guest's chunked buffer transfers, run against the worker through the frame limit. */
module ChunkedIo {
  import opened Bits
  import opened Collections
  import opened Protocol
  import opened Worker
  import opened WorkerInvariant
  import opened WorkerTheorems
  import MockBackend
  import opened Server
  import opened Wire

  const WRITE_BUFFER_CHUNK_BYTES: nat := 1024 * 1024

  /** Request payload bytes of the two buffer opcodes. */
  function RequestSize(req: Request): (n: nat)
    requires req.WriteBuffer? || req.ReadBuffer?
  {
    BUFFER_IO_HEADER + if req.WriteBuffer? then |req.data| else 0
  }

  /** One request through the connection loop: over the limit the connection is closed. */
  function Remote(w: Worker, req: Request): (r: Step)
    requires req.WriteBuffer? || req.ReadBuffer?
  {
    if RequestSize(req) > STORAGE_CAPACITY then Fail(w, STATUS_INTERNAL_FAILURE)
    else Dispatch(w, req, STORAGE_CAPACITY)
  }

  method Send(backend: MockBackend.Backend, req: Request) returns (out: Outcome)
    requires req.WriteBuffer? || req.ReadBuffer?
    modifies backend
    ensures Step(backend.State(), out) == Remote(old(backend.State()), req)
  {
    if RequestSize(req) > STORAGE_CAPACITY {
      return Err(STATUS_INTERNAL_FAILURE);
    }
    out := backend.Handle(req, STORAGE_CAPACITY);
  }

  /** That limit is the connection loop's: a request sent alone is served as `Remote` says, and
      one over the limit gets no reply at all. */
  lemma RemoteIsServed(w: Worker, c: Call, parse: Parse, render: Render)
    requires var req := parse(CallHeader(c), c.payload);
             (req.WriteBuffer? || req.ReadBuffer?) && |c.payload| == RequestSize(req) < TWO_32
    ensures var step := Remote(w, parse(CallHeader(c), c.payload));
            Serve(w, EncodeCall(c), parse, render)
            == if |c.payload| <= STORAGE_CAPACITY
               then Served(step.worker, EncodeAnswer(c, AnswerOf(step.outcome, render)))
               else Served(step.worker, [])
  {
    assert EncodeCall(c) + [] == EncodeCall(c);
    if |c.payload| <= STORAGE_CAPACITY {
      FirstIsServed(w, c, [], parse, render);
    } else {
      OversizedEndsConnection(c, c.payload);
    }
  }

  function ChunkAt(offset: nat, total: nat): (n: nat)
    requires offset < total
    ensures 0 < n <= WRITE_BUFFER_CHUNK_BYTES && offset + n <= total
  {
    if total - offset < WRITE_BUFFER_CHUNK_BYTES then total - offset else WRITE_BUFFER_CHUNK_BYTES
  }

  // ---------- writing ----------

  datatype Writing = Writing(worker: Worker, done: nat, failure: Option<u32>)

  function WriteChunk(id: nat, generation: nat, bytes: seq<byte>, offset: nat): (req: Request)
    requires offset < |bytes|
  {
    var n := ChunkAt(offset, |bytes|);
    WriteBuffer(id, generation, Wrap32(offset), n, bytes[offset..offset + n])
  }

  /** The rest of the write loop from `offset`; `done` counts the bytes accepted. */
  function WriteFrom(w: Worker, id: nat, generation: nat, bytes: seq<byte>, offset: nat): (r: Writing)
    requires offset <= |bytes|
    decreases |bytes| - offset
  {
    if offset == |bytes| then Writing(w, offset, None)
    else
      var step := Remote(w, WriteChunk(id, generation, bytes, offset));
      if step.outcome.Err? then Writing(step.worker, offset, Some(step.outcome.status))
      else WriteFrom(step.worker, id, generation, bytes, offset + ChunkAt(offset, |bytes|))
  }

  method WriteBufferLoop(backend: MockBackend.Backend, id: nat, generation: nat, bytes: seq<byte>)
    returns (done: nat, failure: Option<u32>)
    modifies backend
    ensures Writing(backend.State(), done, failure) == WriteFrom(old(backend.State()), id, generation, bytes, 0)
  {
    done := 0;
    while done < |bytes|
      invariant 0 <= done <= |bytes|
      invariant WriteFrom(backend.State(), id, generation, bytes, done)
        == WriteFrom(old(backend.State()), id, generation, bytes, 0)
    {
      var n := ChunkAt(done, |bytes|);
      var out := Send(backend, WriteChunk(id, generation, bytes, done));
      if out.Err? {
        return done, Some(out.status);
      }
      done := done + n;
    }
    return done, None;
  }

  /** One write of a whole prefix, as if it were a single request of any size. */
  function WritePrefix(w: Worker, id: nat, generation: nat, bytes: seq<byte>): (r: Step) {
    if |bytes| >= TWO_32 then Fail(w, STATUS_BOUNDS_VIOLATION)
    else DoWriteBuffer(w, id, generation, 0, |bytes|, bytes)
  }

  lemma SplicesJoin(dst: seq<byte>, at: nat, a: seq<byte>, b: seq<byte>)
    requires at + |a| + |b| <= |dst|
    ensures Splice(Splice(dst, at, a), at + |a|, b) == Splice(dst, at, a + b)
  {
  }

  /** Where an accepted write lands. */
  ghost predicate Target(w: Worker, id: nat, generation: nat, k: nat, start: nat, n: nat) {
    var i := FindBuffer(w, id);
    && i.Some? && w.buffers[i.value].generation == generation && w.buffers[i.value].state == GuestWritable
    && Located(w, i.value, k, start, n)
  }

  lemma WriteAt(w: Worker, id: nat, generation: nat, k: nat, start: nat, n: nat, offset: u32, data: seq<byte>)
    requires Target(w, id, generation, k, start, n) && |data| < TWO_32
    ensures var r := DoWriteBuffer(w, id, generation, offset, |data|, data);
            if offset + |data| <= n
            then r == Step(SetBacking(w, k, Splice(w.pools[k].backing, start + offset, data)), Ok(Empty))
            else r == Fail(w, STATUS_BOUNDS_VIOLATION)
  {
  }

  lemma TargetStays(w: Worker, id: nat, generation: nat, k: nat, start: nat, n: nat, bytes: seq<byte>)
    requires Target(w, id, generation, k, start, n) && |bytes| == |w.pools[k].backing|
    ensures Target(SetBacking(w, k, bytes), id, generation, k, start, n)
  {
    FindPoolRebacked(w, k, bytes, w.buffers[FindBuffer(w, id).value].poolId);
  }

  /** The state after the first `done` bytes went to the lease. */
  ghost function Filled(w: Worker, k: nat, start: nat, bytes: seq<byte>, done: nat): (r: Worker)
    requires k < |w.pools| && done <= |bytes| && start + done <= |w.pools[k].backing|
  {
    SetBacking(w, k, Splice(w.pools[k].backing, start, bytes[..done]))
  }

  lemma FilledMore(w: Worker, k: nat, start: nat, bytes: seq<byte>, done: nat, n: nat)
    requires k < |w.pools| && done + n <= |bytes| && start + done + n <= |w.pools[k].backing|
    ensures var w1 := Filled(w, k, start, bytes, done);
            SetBacking(w1, k, Splice(w1.pools[k].backing, start + done, bytes[done..done + n]))
              == Filled(w, k, start, bytes, done + n)
  {
    SplicesJoin(w.pools[k].backing, start, bytes[..done], bytes[done..done + n]);
    assert bytes[..done] + bytes[done..done + n] == bytes[..done + n];
  }

  /** How far a loop over `total` bytes gets when only `room` bytes may be written. */
  function StopAt(total: nat, room: nat, offset: nat): (done: nat)
    requires offset <= total && offset <= room
    ensures offset <= done <= total && done <= room
    decreases total - offset
  {
    if offset == total || offset + ChunkAt(offset, total) > room then offset
    else StopAt(total, room, offset + ChunkAt(offset, total))
  }

  /** It gets to the end exactly when all fits, and otherwise stops after the whole chunks that do. */
  lemma {:induction false} StopsAfterWholeChunks(total: nat, room: nat, offset: nat)
    requires offset <= total && offset <= room && offset % WRITE_BUFFER_CHUNK_BYTES == 0
    ensures var done := StopAt(total, room, offset);
            if total <= room then done == total
            else done < total && done == room / WRITE_BUFFER_CHUNK_BYTES * WRITE_BUFFER_CHUNK_BYTES
    decreases total - offset
  {
    if offset < total {
      var m := ChunkAt(offset, total);
      if offset + m <= room {
        if offset + m < total {
          StopsAfterWholeChunks(total, room, offset + m);
        }
      } else {
        WholeChunks(offset, room);
      }
    }
  }

  lemma WholeChunks(done: nat, n: nat)
    requires done % WRITE_BUFFER_CHUNK_BYTES == 0 && done <= n < done + WRITE_BUFFER_CHUNK_BYTES
    ensures done == n / WRITE_BUFFER_CHUNK_BYTES * WRITE_BUFFER_CHUNK_BYTES
  {
  }

  function Stopped(w: Worker, done: nat, total: nat): (r: Writing) {
    Writing(w, done, if done == total then None else Some(STATUS_BOUNDS_VIOLATION))
  }

  /** From any point of the loop: it delivers everything, or stops at the first chunk that would
      run past the lease, with all chunks before it in place and nothing else changed. */
  lemma {:induction false} WriteFromFills(
    w: Worker, id: nat, generation: nat, bytes: seq<byte>, offset: nat, k: nat, start: nat, n: nat)
    requires Target(w, id, generation, k, start, n) && n < TWO_32 && offset <= |bytes| && offset <= n
    ensures var done := StopAt(|bytes|, n, offset);
            WriteFrom(Filled(w, k, start, bytes, offset), id, generation, bytes, offset)
            == Stopped(Filled(w, k, start, bytes, done), done, |bytes|)
    decreases |bytes| - offset
  {
    if offset < |bytes| {
      var m := ChunkAt(offset, |bytes|);
      WriteFromStep(w, id, generation, bytes, offset, k, start, n);
      if offset + m <= n {
        WriteFromFills(w, id, generation, bytes, offset + m, k, start, n);
      }
    }
  }

  lemma WriteFromStep(w: Worker, id: nat, generation: nat, bytes: seq<byte>, offset: nat, k: nat, start: nat, n: nat)
    requires Target(w, id, generation, k, start, n) && n < TWO_32 && offset < |bytes| && offset <= n
    ensures var m := ChunkAt(offset, |bytes|);
            WriteFrom(Filled(w, k, start, bytes, offset), id, generation, bytes, offset)
            == if offset + m <= n
               then WriteFrom(Filled(w, k, start, bytes, offset + m), id, generation, bytes, offset + m)
               else Writing(Filled(w, k, start, bytes, offset), offset, Some(STATUS_BOUNDS_VIOLATION))
  {
    WriteChunkFills(w, id, generation, bytes, offset, k, start, n);
  }

  lemma WriteChunkFills(w: Worker, id: nat, generation: nat, bytes: seq<byte>, offset: nat, k: nat, start: nat, n: nat)
    requires Target(w, id, generation, k, start, n) && n < TWO_32 && offset < |bytes| && offset <= n
    ensures var m := ChunkAt(offset, |bytes|);
            var w1 := Filled(w, k, start, bytes, offset);
            Remote(w1, WriteChunk(id, generation, bytes, offset))
            == if offset + m <= n then Step(Filled(w, k, start, bytes, offset + m), Ok(Empty))
              else Fail(w1, STATUS_BOUNDS_VIOLATION)
  {
    var m := ChunkAt(offset, |bytes|);
    var w1 := Filled(w, k, start, bytes, offset);
    TargetStays(w, id, generation, k, start, n, w1.pools[k].backing);
    WriteAt(w1, id, generation, k, start, n, offset, bytes[offset..offset + m]);
    if offset + m <= n {
      FilledMore(w, k, start, bytes, offset, m);
    }
  }

  /** On a writable lease the chunked write of a string that fits has exactly the effect of
      one atomic write, and a string that does not fit is refused by both. */
  lemma ChunkedWriteIsAtomic(w: Worker, id: nat, generation: nat, bytes: seq<byte>)
    requires Valid(w) && WritePrefix(w, id, generation, []).outcome.Ok?
    ensures var r := WriteFrom(w, id, generation, bytes, 0);
            var atomic := WritePrefix(w, id, generation, bytes);
            && (r.failure.None? <==> atomic.outcome.Ok?)
            && (r.failure.None? ==> r.worker == atomic.worker)
            && (r.failure.Some? ==>
                  && r.failure == Some(STATUS_BOUNDS_VIOLATION)
                  && atomic.outcome == Err(STATUS_BOUNDS_VIOLATION))
  {
    var i := FindBuffer(w, id).value;
    BufferLocated(w, i);
    var b := w.buffers[i];
    LeaseIsTarget(w, id, generation);
    AtomicFrom(w, id, generation, bytes, FindPool(w, b.poolId).value, Start(b), b.totalSize);
  }

  lemma LeaseIsTarget(w: Worker, id: nat, generation: nat)
    requires Valid(w) && WritePrefix(w, id, generation, []).outcome.Ok?
    ensures FindBuffer(w, id).Some? && FindPool(w, w.buffers[FindBuffer(w, id).value].poolId).Some?
    ensures var b := w.buffers[FindBuffer(w, id).value];
            Target(w, id, generation, FindPool(w, b.poolId).value, Start(b), b.totalSize) && b.totalSize < TWO_32
  {
    var i := FindBuffer(w, id).value;
    BufferSlot(w, i);
  }

  lemma AtomicFrom(w: Worker, id: nat, generation: nat, bytes: seq<byte>, k: nat, start: nat, n: nat)
    requires Target(w, id, generation, k, start, n) && n < TWO_32
    ensures var r := WriteFrom(w, id, generation, bytes, 0);
            var atomic := WritePrefix(w, id, generation, bytes);
            && (r.failure.None? <==> atomic.outcome.Ok?)
            && (r.failure.None? ==> r.worker == atomic.worker)
            && (r.failure.Some? ==>
                  && r.failure == Some(STATUS_BOUNDS_VIOLATION)
                  && atomic.outcome == Err(STATUS_BOUNDS_VIOLATION))
  {
    FilledNone(w, k, start, bytes);
    WriteFromFills(w, id, generation, bytes, 0, k, start, n);
    StopsAfterWholeChunks(|bytes|, n, 0);
    if |bytes| < TWO_32 {
      WriteAt(w, id, generation, k, start, n, 0, bytes);
      assert bytes[..|bytes|] == bytes;
    }
  }

  lemma FilledNone(w: Worker, k: nat, start: nat, bytes: seq<byte>)
    requires k < |w.pools| && start <= |w.pools[k].backing|
    ensures Filled(w, k, start, bytes, 0) == w
  {
    assert Splice(w.pools[k].backing, start, []) == w.pools[k].backing;
    assert w.pools[k := w.pools[k]] == w.pools;
  }

  /** A string that does not fit leaves its whole chunks that do fit, and nothing else, behind:
      the failed write is not undone. */
  lemma RefusedWriteLeavesPrefix(w: Worker, id: nat, generation: nat, bytes: seq<byte>)
    requires Valid(w) && WritePrefix(w, id, generation, []).outcome.Ok?
    requires WritePrefix(w, id, generation, bytes).outcome.Err?
    ensures FindBuffer(w, id).Some?
    ensures var r, n := WriteFrom(w, id, generation, bytes, 0), w.buffers[FindBuffer(w, id).value].totalSize;
            && r.done == n / WRITE_BUFFER_CHUNK_BYTES * WRITE_BUFFER_CHUNK_BYTES && r.done < |bytes|
            && r.worker == WritePrefix(w, id, generation, bytes[..r.done]).worker
  {
    LeaseIsTarget(w, id, generation);
    var b := w.buffers[FindBuffer(w, id).value];
    ChunkedWriteIsAtomic(w, id, generation, bytes);
    PrefixFrom(w, id, generation, bytes, FindPool(w, b.poolId).value, Start(b), b.totalSize);
  }

  lemma PrefixFrom(w: Worker, id: nat, generation: nat, bytes: seq<byte>, k: nat, start: nat, n: nat)
    requires Target(w, id, generation, k, start, n) && n < TWO_32
    requires WriteFrom(w, id, generation, bytes, 0).failure.Some?
    ensures var r := WriteFrom(w, id, generation, bytes, 0);
            && r.done == n / WRITE_BUFFER_CHUNK_BYTES * WRITE_BUFFER_CHUNK_BYTES && r.done < |bytes|
            && r.worker == WritePrefix(w, id, generation, bytes[..r.done]).worker
  {
    FilledNone(w, k, start, bytes);
    WriteFromFills(w, id, generation, bytes, 0, k, start, n);
    StopsAfterWholeChunks(|bytes|, n, 0);
    var done := StopAt(|bytes|, n, 0);
    WriteAt(w, id, generation, k, start, n, 0, bytes[..done]);
  }

  /** Without a writable lease nothing changes: no bytes means success without a request,
      otherwise the first chunk is refused. */
  lemma ChunkedWriteNeedsLease(w: Worker, id: nat, generation: nat, bytes: seq<byte>)
    requires WritePrefix(w, id, generation, []).outcome.Err?
    ensures var r := WriteFrom(w, id, generation, bytes, 0);
            r.worker == w && r.done == 0 && (r.failure.None? <==> bytes == [])
  {
  }

  // ---------- reading ----------

  datatype Reading = Got(bytes: seq<byte>) | Refused(status: u32)

  function ReadFrom(w: Worker, id: nat, generation: nat, total: nat, offset: nat): (r: Reading)
    requires offset <= total
    decreases total - offset
  {
    if offset == total then Got([])
    else
      var n := ChunkAt(offset, total);
      match Remote(w, ReadBuffer(id, generation, Wrap32(offset), n)).outcome
      case Err(status) => Refused(status)
      case Ok(reply) =>
        if !reply.BufferBytes? || |reply.data| < n then Refused(STATUS_INTERNAL_FAILURE)
        else
          var rest := ReadFrom(w, id, generation, total, offset + n);
          if rest.Refused? then rest else Got(reply.data[..n] + rest.bytes)
  }

  method ReadBufferLoop(backend: MockBackend.Backend, id: nat, generation: nat, total: nat) returns (r: Reading)
    modifies backend
    ensures backend.State() == old(backend.State())
    ensures r == ReadFrom(old(backend.State()), id, generation, total, 0)
  {
    var bytes: seq<byte> := [];
    var offset := 0;
    while offset < total
      invariant 0 <= offset <= total
      invariant backend.State() == old(backend.State())
      invariant ReadFrom(backend.State(), id, generation, total, 0)
        == Prepend(bytes, ReadFrom(backend.State(), id, generation, total, offset))
    {
      var n := ChunkAt(offset, total);
      ghost var rest := ReadFrom(backend.State(), id, generation, total, offset);
      ReadingChangesNothing(backend.State(), id, generation, Wrap32(offset), n);
      var out := Send(backend, ReadBuffer(id, generation, Wrap32(offset), n));
      if out.Err? {
        return Refused(out.status);
      }
      if !out.reply.BufferBytes? || |out.reply.data| < n {
        return Refused(STATUS_INTERNAL_FAILURE);
      }
      PrependTwice(bytes, out.reply.data[..n], ReadFrom(backend.State(), id, generation, total, offset + n));
      bytes := bytes + out.reply.data[..n];
      offset := offset + n;
    }
    assert bytes + [] == bytes;
    return Got(bytes);
  }

  ghost function Prepend(head: seq<byte>, r: Reading): (s: Reading) {
    if r.Refused? then r else Got(head + r.bytes)
  }

  lemma PrependTwice(a: seq<byte>, b: seq<byte>, r: Reading)
    ensures Prepend(a, Prepend(b, r)) == Prepend(a + b, r)
  {
    if r.Got? {
      assert a + (b + r.bytes) == (a + b) + r.bytes;
    }
  }

  lemma ReadingChangesNothing(w: Worker, id: nat, generation: nat, offset: u32, length: u32)
    ensures Remote(w, ReadBuffer(id, generation, offset, length)).worker == w
  {
  }

  /** A chunked read of a readable lease returns the first `total` bytes of its slot, and is
      refused exactly when the slot is shorter. */
  lemma ChunkedReadIsExact(w: Worker, id: nat, generation: nat, total: nat)
    requires Valid(w) && DoReadBuffer(w, STORAGE_CAPACITY, id, generation, 0, 0).outcome.Ok?
    ensures FindBuffer(w, id).Some?
    ensures var bytes := Contents(w, FindBuffer(w, id).value);
            ReadFrom(w, id, generation, total, 0)
            == if total <= |bytes| then Got(bytes[..total]) else Refused(STATUS_BOUNDS_VIOLATION)
  {
    var i := FindBuffer(w, id).value;
    BufferLocated(w, i);
    BufferSlot(w, i);
    ReadFromExact(w, id, generation, total, 0, Contents(w, i));
  }

  ghost predicate Source(w: Worker, id: nat, generation: nat, bytes: seq<byte>) {
    var i := FindBuffer(w, id);
    && i.Some? && w.buffers[i.value].generation == generation && w.buffers[i.value].state != Recycled
    && bytes == Contents(w, i.value) && |bytes| < TWO_32
    && FindPool(w, w.buffers[i.value].poolId).Some?
    && Located(w, i.value, FindPool(w, w.buffers[i.value].poolId).value, Start(w.buffers[i.value]), |bytes|)
  }

  lemma ReadAt(w: Worker, id: nat, generation: nat, offset: u32, length: u32, bytes: seq<byte>)
    requires Source(w, id, generation, bytes) && BUFFER_IO_HEADER + length <= STORAGE_CAPACITY
    ensures DoReadBuffer(w, STORAGE_CAPACITY, id, generation, offset, length).outcome
         == if offset + length <= |bytes|
            then Ok(BufferBytes(id, generation, offset, length, bytes[offset..offset + length]))
            else Err(STATUS_BOUNDS_VIOLATION)
  {
  }

  lemma {:induction false} ReadFromExact(w: Worker, id: nat, generation: nat, total: nat, offset: nat, bytes: seq<byte>)
    requires Source(w, id, generation, bytes) && offset <= total && offset <= |bytes|
    ensures ReadFrom(w, id, generation, total, offset)
         == if total <= |bytes| then Got(bytes[offset..total]) else Refused(STATUS_BOUNDS_VIOLATION)
    decreases total - offset
  {
    if offset < total {
      var n := ChunkAt(offset, total);
      ReadChunkIs(w, id, generation, total, offset, bytes);
      if offset + n <= |bytes| {
        ReadFromExact(w, id, generation, total, offset + n, bytes);
        if total <= |bytes| {
          assert bytes[offset..offset + n] + bytes[offset + n..total] == bytes[offset..total];
        }
      }
    }
  }

  lemma ReadChunkIs(w: Worker, id: nat, generation: nat, total: nat, offset: nat, bytes: seq<byte>)
    requires Source(w, id, generation, bytes) && offset < total && offset <= |bytes|
    ensures var n := ChunkAt(offset, total);
            ReadFrom(w, id, generation, total, offset)
            == if offset + n <= |bytes|
               then Prepend(bytes[offset..offset + n], ReadFrom(w, id, generation, total, offset + n))
               else Refused(STATUS_BOUNDS_VIOLATION)
  {
    var n := ChunkAt(offset, total);
    ReadAt(w, id, generation, offset, n, bytes);
    if offset + n <= |bytes| {
      assert bytes[offset..offset + n][..n] == bytes[offset..offset + n];
    }
  }

  /** What was written is what is read back. */
  lemma WriteThenRead(w: Worker, id: nat, generation: nat, bytes: seq<byte>)
    requires Valid(w) && WritePrefix(w, id, generation, bytes).outcome.Ok?
    ensures var w' := WriteFrom(w, id, generation, bytes, 0).worker;
            ReadFrom(w', id, generation, |bytes|, 0) == Got(bytes)
  {
    var w' := WritePrefix(w, id, generation, bytes).worker;
    var i := FindBuffer(w, id).value;
    assert WritePrefix(w, id, generation, []).outcome.Ok?;
    ChunkedWriteIsAtomic(w, id, generation, bytes);
    WriteBufferKeeps(w, id, generation, 0, |bytes|, bytes);
    WriteIsExact(w, id, generation, 0, |bytes|, bytes, i);
    StillReadable(w, id, generation, bytes);
    ChunkedReadIsExact(w', id, generation, |bytes|);
    assert Splice(Contents(w, i), 0, bytes)[..|bytes|] == bytes;
  }

  lemma StillReadable(w: Worker, id: nat, generation: nat, bytes: seq<byte>)
    requires Valid(w) && WritePrefix(w, id, generation, bytes).outcome.Ok?
    ensures var w' := WritePrefix(w, id, generation, bytes).worker;
            && FindBuffer(w', id) == FindBuffer(w, id)
            && DoReadBuffer(w', STORAGE_CAPACITY, id, generation, 0, 0).outcome.Ok?
  {
    var w' := WritePrefix(w, id, generation, bytes).worker;
    WriteBufferKeeps(w, id, generation, 0, |bytes|, bytes);
    SameBuffers(w, id, generation, bytes);
    BufferSlot(w', FindBuffer(w', id).value);
    ReadNothing(w', id, generation);
  }

  lemma SameBuffers(w: Worker, id: nat, generation: nat, bytes: seq<byte>)
    requires WritePrefix(w, id, generation, bytes).outcome.Ok?
    ensures WritePrefix(w, id, generation, bytes).worker.buffers == w.buffers
    ensures FindBuffer(w, id).Some?
    ensures w.buffers[FindBuffer(w, id).value].generation == generation
    ensures w.buffers[FindBuffer(w, id).value].state == GuestWritable
  {
  }

  lemma ReadNothing(w: Worker, id: nat, generation: nat)
    requires FindBuffer(w, id).Some?
    requires var b := w.buffers[FindBuffer(w, id).value];
             && b.generation == generation && b.state == GuestWritable && FindPool(w, b.poolId).Some?
             && PoolSlot(w.pools[FindPool(w, b.poolId).value], b.slotIndex).Some?
    ensures DoReadBuffer(w, STORAGE_CAPACITY, id, generation, 0, 0).outcome.Ok?
  {
  }
}
