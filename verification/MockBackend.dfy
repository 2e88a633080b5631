/** The worker as it runs: one object whose fields the opcodes update in place. */
module MockBackend {
  import opened Bits
  import opened Collections
  import opened Layout
  import opened Protocol
  import opened Worker

  class Backend {
    var nextHostId: nat
    var nextOutputId: nat
    var maxOutputCount: nat
    var maxOutputBytes: nat
    var outputBytesTotal: nat
    var sessions: seq<Session>
    var pools: seq<Pool>
    var buffers: seq<Buffer>
    var outputs: seq<Output>

    function State(): (w: Worker)
      reads this
    {
      Worker(nextHostId, nextOutputId, maxOutputCount, maxOutputBytes, outputBytesTotal, sessions, pools, buffers,
        outputs)
    }

    constructor (maxOutputs: nat, maxBytes: nat)
      ensures State() == Fresh(maxOutputs, maxBytes)
    {
      nextHostId, nextOutputId := FIRST_HOST_ID, FIRST_OUTPUT_ID;
      maxOutputCount := if maxOutputs < MAX_OUTPUTS then maxOutputs else MAX_OUTPUTS;
      maxOutputBytes, outputBytesTotal := maxBytes, 0;
      sessions, pools, buffers, outputs := [], [], [], [];
    }

    // ---------- sessions and pools ----------

    method CreateSession(cap: nat, kind: u32, codec: u32, width: u32, height: u32, format: u32) returns (out: Outcome)
      modifies this
      ensures Step(State(), out) == DoCreateSession(old(State()), cap, kind, codec, width, height, format)
    {
      if |sessions| >= MAX_SESSIONS {
        return Err(STATUS_INTERNAL_FAILURE);
      }
      var session := Session(nextHostId, kind, codec, width, height, format, false, 0);
      nextHostId := nextHostId + 1;
      sessions := sessions + [session];
      out := WritePod(SessionCreated(session.id, width, height, format), cap);
    }

    method CreatePool(cap: nat, sessionId: nat, bufferCount: u32, format: u32, width: u32, height: u32)
      returns (out: Outcome)
      modifies this
      ensures Step(State(), out) == DoCreatePool(old(State()), cap, sessionId, bufferCount, format, width, height)
    {
      if |pools| >= MAX_POOLS {
        return Err(STATUS_INTERNAL_FAILURE);
      }
      var owner := Position(sessions, SessionIs(sessionId));
      if sessionId != 0 && owner.None? {
        return Err(STATUS_INVALID_HANDLE);
      }
      var layout := WorkerLayout(width, height, format);
      var maxBuffers := if bufferCount == 0 then DEFAULT_POOL_BUFFERS else bufferCount;
      var size := Times(maxBuffers, layout.totalSize);
      var pool := Pool(nextHostId, sessionId, width, height, format, maxBuffers, 0, layout.totalSize, Zeros(size));
      nextHostId := nextHostId + 1;
      pools := pools + [pool];
      out := WritePod(PoolCreated(pool.id, width, height, format, maxBuffers, Wrap32(size), layout), cap);
    }

    method PrepareSession(sessionId: nat) returns (out: Outcome)
      modifies this
      ensures Step(State(), out) == DoPrepareSession(old(State()), sessionId)
    {
      var i := Position(sessions, SessionIs(sessionId));
      if i.None? {
        return Err(STATUS_INVALID_HANDLE);
      }
      sessions := sessions[i.value := sessions[i.value].(prepared := true)];
      return Ok(Empty);
    }

    method SetProperty(sessionId: nat) returns (out: Outcome)
      ensures Step(State(), out) == DoSetProperty(State(), sessionId)
    {
      var i := Position(sessions, SessionIs(sessionId));
      return if i.None? then Err(STATUS_INVALID_HANDLE) else Ok(Empty);
    }

    // ---------- buffers ----------

    method AllocBuffer(cap: nat, poolId: nat) returns (out: Outcome)
      modifies this
      ensures Step(State(), out) == DoAllocBuffer(old(State()), cap, poolId)
    {
      var pool := Position(pools, PoolIs(poolId));
      if pool.None? {
        return Err(STATUS_INVALID_HANDLE);
      }
      var reuse := Position(buffers, Recyclable(poolId));
      if reuse.Some? {
        out := LeaseAgain(cap, pool.value, reuse.value);
      } else {
        out := LeaseFresh(cap, pool.value);
      }
    }

    method LeaseAgain(cap: nat, pool: nat, i: nat) returns (out: Outcome)
      requires pool < |pools| && i < |buffers|
      modifies this
      ensures Step(State(), out) == DoLeaseAgain(old(State()), cap, pool, i)
    {
      buffers := buffers[i := buffers[i].(generation := buffers[i].generation + 1, state := GuestWritable)];
      var range := PoolSlot(pools[pool], buffers[i].slotIndex);
      if range.None? {
        return Err(STATUS_INTERNAL_FAILURE);
      }
      pools := pools[pool := pools[pool].(backing := Zeroed(pools[pool], range.value))];
      out := WritePod(LeaseReply(buffers[i]), cap);
    }

    method LeaseFresh(cap: nat, pool: nat) returns (out: Outcome)
      requires pool < |pools|
      modifies this
      ensures Step(State(), out) == DoAllocFresh(old(State()), cap, pool)
    {
      if pools[pool].bufferCount >= pools[pool].maxBuffers || |buffers| >= MAX_BUFFERS {
        return Err(STATUS_RESOURCE_EXHAUSTED);
      }
      var p := pools[pool];
      var range := PoolSlot(p, p.bufferCount);
      if range.None? {
        return Err(STATUS_INTERNAL_FAILURE);
      }
      var b := Buffer(nextHostId, p.id, 1, p.bufferCount, p.width, p.height, p.format, GuestWritable, p.slotSize);
      nextHostId := nextHostId + 1;
      pools := pools[pool := p.(backing := Zeroed(p, range.value), bufferCount := p.bufferCount + 1)];
      buffers := buffers + [b];
      out := WritePod(LeaseReply(b), cap);
    }

    method ReadBuffer(cap: nat, bufferId: nat, generation: nat, offset: u32, length: u32) returns (out: Outcome)
      ensures Step(State(), out) == DoReadBuffer(State(), cap, bufferId, generation, offset, length)
    {
      var i := Position(buffers, BufferIs(bufferId));
      if i.None? {
        return Err(STATUS_INVALID_HANDLE);
      }
      var b := buffers[i.value];
      if b.generation != generation {
        return Err(STATUS_STALE_GENERATION);
      }
      if b.state == Recycled {
        return Err(STATUS_INVALID_STATE);
      }
      if offset > b.totalSize || length > b.totalSize - offset {
        return Err(STATUS_BOUNDS_VIOLATION);
      }
      var pool := Position(pools, PoolIs(b.poolId));
      if pool.None? {
        return Err(STATUS_INVALID_HANDLE);
      }
      var range := PoolSlot(pools[pool.value], b.slotIndex);
      if range.None? || length + offset > range.value.1 - range.value.0 {
        return Err(STATUS_INTERNAL_FAILURE);
      }
      var slot := pools[pool.value].backing[range.value.0..range.value.1];
      out := WritePod(BufferBytes(b.id, b.generation, offset, length, slot[offset..offset + length]), cap);
    }

    method WriteBuffer(bufferId: nat, generation: nat, offset: u32, length: u32, data: seq<byte>) returns (out: Outcome)
      modifies this
      ensures Step(State(), out) == DoWriteBuffer(old(State()), bufferId, generation, offset, length, data)
    {
      var i := Position(buffers, BufferIs(bufferId));
      if i.None? {
        return Err(STATUS_INVALID_HANDLE);
      }
      var b := buffers[i.value];
      if b.generation != generation {
        return Err(STATUS_STALE_GENERATION);
      }
      if b.state != GuestWritable {
        return Err(STATUS_INVALID_STATE);
      }
      if offset > b.totalSize || length > b.totalSize - offset || |data| != length {
        return Err(STATUS_BOUNDS_VIOLATION);
      }
      var pool := Position(pools, PoolIs(b.poolId));
      if pool.None? {
        return Err(STATUS_INVALID_HANDLE);
      }
      var p := pools[pool.value];
      var range := PoolSlot(p, b.slotIndex);
      if range.None? || offset + length > range.value.1 - range.value.0 {
        return Err(STATUS_INTERNAL_FAILURE);
      }
      pools := pools[pool.value := p.(backing := Splice(p.backing, range.value.0 + offset, data))];
      return Ok(Empty);
    }

    method RecycleBuffer(poolId: nat, bufferId: nat, generation: nat) returns (out: Outcome)
      modifies this
      ensures Step(State(), out) == DoRecycleBuffer(old(State()), poolId, bufferId, generation)
    {
      var pool := Position(pools, PoolIs(poolId));
      if pool.None? {
        return Err(STATUS_INVALID_HANDLE);
      }
      var i := Position(buffers, BufferIs(bufferId));
      if i.None? {
        return Err(STATUS_INVALID_HANDLE);
      }
      var b := buffers[i.value];
      if pools[pool.value].id != b.poolId {
        return Err(STATUS_INVALID_HANDLE);
      }
      if b.generation != generation {
        return Err(STATUS_STALE_GENERATION);
      }
      if b.state == Recycled {
        return Err(STATUS_INVALID_STATE);
      }
      buffers := buffers[i.value := b.(state := Recycled)];
      return Ok(Empty);
    }

    // ---------- encoding ----------

    method EncodeFrame(sessionId: nat, proxyId: nat, bufferId: nat, generation: nat, pts: Time, duration: Time)
      returns (out: Outcome)
      modifies this
      ensures Step(State(), out) == DoEncodeFrame(old(State()), sessionId, proxyId, bufferId, generation, pts, duration)
    {
      var si := Position(sessions, SessionIs(sessionId));
      if si.None? {
        return Err(STATUS_INVALID_HANDLE);
      }
      if !sessions[si.value].prepared {
        return Err(STATUS_INVALID_STATE);
      }
      if proxyId == 0 {
        return Err(STATUS_INVALID_HANDLE);
      }
      var i := Position(buffers, BufferIs(bufferId));
      if i.None? {
        return Err(STATUS_INVALID_HANDLE);
      }
      if buffers[i.value].generation != generation {
        return Err(STATUS_STALE_GENERATION);
      }
      if buffers[i.value].state != GuestWritable {
        return Err(STATUS_INVALID_STATE);
      }
      out := EncodeSlot(si.value, i.value, pts, duration);
    }

    method EncodeSlot(si: nat, bi: nat, pts: Time, duration: Time) returns (out: Outcome)
      requires si < |sessions| && bi < |buffers|
      modifies this
      ensures Step(State(), out) == EncodeFrom(old(State()), si, bi, pts, duration)
    {
      var b := buffers[bi];
      var pool := Position(pools, PoolIs(b.poolId));
      if pool.None? {
        return Err(STATUS_INVALID_HANDLE);
      }
      var range := PoolSlot(pools[pool.value], b.slotIndex);
      var n := if b.totalSize < 8 then b.totalSize else 8;
      if range.None? || n > range.value.1 - range.value.0 {
        return Err(STATUS_INTERNAL_FAILURE);
      }
      var prefix := pools[pool.value].backing[range.value.0..range.value.0 + n];
      assert PrefixOf(State(), b) == Found(prefix);
      out := QueueSample(si, bi, prefix, pts, duration);
    }

    method QueueSample(si: nat, bi: nat, prefix: seq<byte>, pts: Time, duration: Time) returns (out: Outcome)
      requires si < |sessions| && bi < |buffers| && |prefix| <= 8
      modifies this
      ensures Step(State(), out) == Accept(old(State()), si, bi, prefix, pts, duration)
    {
      var s, b := sessions[si], buffers[bi];
      var sync := s.framesEncoded == 0;
      var sample := BuildSample(sync, prefix, s.id, nextOutputId);
      if |outputs| >= maxOutputCount {
        return Err(STATUS_RESOURCE_EXHAUSTED);
      }
      if SAMPLE_SIZE > maxOutputBytes || outputBytesTotal > SaturatingSub(maxOutputBytes, SAMPLE_SIZE) {
        return Err(STATUS_RESOURCE_EXHAUSTED);
      }
      var info := OutputInfo(s.id, nextOutputId, s.codec, s.width, s.height, s.format, pts, duration,
                             SAMPLE_SIZE, sync);
      nextOutputId := nextOutputId + 1;
      outputBytesTotal := outputBytesTotal + SAMPLE_SIZE;
      outputs := outputs + [Output(info, b.id, b.generation, sample, false)];
      buffers := buffers[bi := b.(state := QueuedToHost)];
      sessions := sessions[si := s.(framesEncoded := s.framesEncoded + 1)];
      return Ok(Empty);
    }

    // ---------- outputs ----------

    /** `dequeue_output_idx`. */
    method TakeOutput(sessionId: nat) returns (info: Option<OutputInfo>)
      modifies this
      ensures (State(), info) == TakeReady(old(State()), sessionId)
    {
      var i := Position(outputs, Ready(sessionId));
      if i.None? {
        return None;
      }
      info := Some(outputs[i.value].info);
      outputs := outputs[i.value := outputs[i.value].(dequeued := true)];
    }

    method DequeueOutput(cap: nat, sessionId: nat) returns (out: Outcome)
      modifies this
      ensures Step(State(), out) == DoDequeueOutput(old(State()), cap, sessionId)
    {
      var info := TakeOutput(sessionId);
      if info.None? {
        return Err(STATUS_TIMEOUT);
      }
      out := WritePod(OutputReady(info.value), cap);
    }

    method DequeueOutputBatch(cap: nat, sessionId: nat, maxOutputs: u32) returns (out: Outcome)
      modifies this
      ensures Step(State(), out) == DoDequeueOutputBatch(old(State()), cap, sessionId, maxOutputs)
    {
      var limit := BatchLimit(maxOutputs);
      var infos := TakeOutputs(sessionId, limit);
      if |infos| == 0 {
        return Err(STATUS_TIMEOUT);
      }
      out := WritePod(OutputsReady(sessionId, infos), cap);
    }

    /** The batch loop: dequeue until the limit is reached or nothing waits. */
    method TakeOutputs(sessionId: nat, limit: nat) returns (infos: seq<OutputInfo>)
      modifies this
      ensures (State(), infos) == TakeMany(old(State()), sessionId, limit)
    {
      infos := [];
      while |infos| < limit
        invariant |infos| <= limit
        invariant TakeMany(State(), sessionId, limit - |infos|).0 == TakeMany(old(State()), sessionId, limit).0
        invariant infos + TakeMany(State(), sessionId, limit - |infos|).1 == TakeMany(old(State()), sessionId, limit).1
        decreases limit - |infos|
      {
        ghost var before := State();
        var info := TakeOutput(sessionId);
        if info.None? {
          assert infos + [] == infos;
          return;
        }
        TakeManyStep(before, sessionId, limit - |infos|, infos);
        infos := infos + [info.value];
      }
      assert infos + [] == infos;
    }

    method ReadOutput(cap: nat, outputId: nat) returns (out: Outcome)
      ensures Step(State(), out) == DoReadOutput(State(), cap, outputId)
    {
      var i := Position(outputs, Taken(outputId));
      if i.None? {
        return Err(STATUS_INVALID_HANDLE);
      }
      var o := outputs[i.value];
      out := WritePod(OutputBytes(o.info.outputId, o.info.sampleSize, o.sample), cap);
    }

    method ReleaseOutput(outputId: nat) returns (out: Outcome)
      modifies this
      ensures Step(State(), out) == DoReleaseOutput(old(State()), outputId)
    {
      var i := Position(outputs, OutputIs(outputId));
      if i.None? {
        return Err(STATUS_INVALID_HANDLE);
      }
      var o := outputs[i.value];
      var bi := Position(buffers, BufferIs(o.sourceId));
      if bi.Some? {
        var b := buffers[bi.value];
        if b.generation == o.sourceGeneration && b.state == QueuedToHost {
          buffers := buffers[bi.value := b.(state := GuestWritable)];
        }
      }
      outputs := RemoveAt(outputs, i.value);
      outputBytesTotal := SaturatingSub(outputBytesTotal, o.info.sampleSize);
      return Ok(Empty);
    }

    // ---------- teardown ----------

    method RemoveOutputsForSession(sessionId: nat)
      modifies this
      ensures State() == old(State()).(
                outputs := Keep(old(outputs), OutputNotOf(sessionId)),
                outputBytesTotal := SaturatingSub(old(outputBytesTotal),
                  SumBy(Keep(old(outputs), OutputOf(sessionId)), SampleBytes())))
    {
      var mine := Filter(outputs, OutputOf(sessionId));
      var removed := Total(mine, SampleBytes());
      outputs := Filter(outputs, OutputNotOf(sessionId));
      outputBytesTotal := SaturatingSub(outputBytesTotal, removed);
    }

    /** Collect the session's pool ids, drop the pools, then drop each pool's buffers in turn. */
    method RemovePoolsForSession(sessionId: nat)
      modifies this
      ensures State() == old(State()).(
                pools := Keep(old(pools), PoolNotOf(sessionId)),
                buffers := Keep(old(buffers), BufferNotIn(PoolIds(Keep(old(pools), PoolOf(sessionId))))))
    {
      var gone := Filter(pools, PoolOf(sessionId));
      pools := Filter(pools, PoolNotOf(sessionId));
      KeepAllBuffers(buffers);
      var i := 0;
      while i < |gone|
        invariant 0 <= i <= |gone|
        invariant State() == old(State()).(
                    pools := Keep(old(pools), PoolNotOf(sessionId)),
                    buffers := Keep(old(buffers), BufferNotIn(PoolIds(gone[..i]))))
      {
        buffers := Filter(buffers, BufferNotIn({gone[i].id}));
        KeepFewer(old(buffers), gone, i);
        i := i + 1;
      }
      assert gone[..i] == gone;
    }

    method DestroySession(sessionId: nat) returns (out: Outcome)
      modifies this
      ensures Step(State(), out) == DoDestroySession(old(State()), sessionId)
    {
      var i := Position(sessions, SessionIs(sessionId));
      if i.None? {
        return Err(STATUS_INVALID_HANDLE);
      }
      RemoveOutputsForSession(sessionId);
      RemovePoolsForSession(sessionId);
      sessions := Filter(sessions, SessionIsNot(sessionId));
      return Ok(Empty);
    }

    method Drain(cap: nat, sessionId: nat) returns (out: Outcome)
      ensures Step(State(), out) == DoDrain(State(), cap, sessionId)
    {
      var i := Position(sessions, SessionIs(sessionId));
      if i.None? {
        return Err(STATUS_INVALID_HANDLE);
      }
      var mine := Filter(outputs, OutputOf(sessionId));
      out := WritePod(Drained(sessionId, |mine|), cap);
    }

    /** Requests that set up or look at sessions and the connection. */
    method HandleControl(req: Request, cap: nat) returns (out: Outcome)
      requires !OnBuffers(req) && !OnQueue(req)
      modifies this
      ensures Step(State(), out) == Dispatch(old(State()), req, cap)
    {
      match req {
        case Hello => out := WritePod(HelloReply, cap);
        case Ping => out := Ok(Empty);
        case GetCaps => out := WritePod(Caps(maxOutputCount), cap);
        case CreateSession(kind, codec, width, height, format) =>
          out := CreateSession(cap, kind, codec, width, height, format);
        case SetProperty(sid) => out := SetProperty(sid);
        case PrepareSession(sid) => out := PrepareSession(sid);
        case Drain(sid) => out := Drain(cap, sid);
        case Truncated(write) => out := Err(if write then STATUS_BOUNDS_VIOLATION else STATUS_INTERNAL_FAILURE);
        case Unknown(_) => out := Err(STATUS_UNSUPPORTED_OPCODE);
        case WrongVersion => out := Err(STATUS_UNSUPPORTED_VERSION);
      }
    }

    method HandleBuffers(req: Request, cap: nat) returns (out: Outcome)
      requires OnBuffers(req)
      modifies this
      ensures Step(State(), out) == Dispatch(old(State()), req, cap)
    {
      match req {
        case CreatePool(sid, count, format, width, height) => out := CreatePool(cap, sid, count, format, width, height);
        case AllocBuffer(pool) => out := AllocBuffer(cap, pool);
        case ReadBuffer(id, generation, offset, length) => out := ReadBuffer(cap, id, generation, offset, length);
        case WriteBuffer(id, generation, offset, length, data) =>
          out := WriteBuffer(id, generation, offset, length, data);
        case RecycleBuffer(pool, id, generation) => out := RecycleBuffer(pool, id, generation);
      }
    }

    method HandleQueue(req: Request, cap: nat) returns (out: Outcome)
      requires OnQueue(req)
      modifies this
      ensures Step(State(), out) == Dispatch(old(State()), req, cap)
    {
      match req {
        case EncodeFrame(sid, proxy, id, generation, pts, duration) =>
          out := EncodeFrame(sid, proxy, id, generation, pts, duration);
        case DequeueOutput(sid) => out := DequeueOutput(cap, sid);
        case DequeueOutputBatch(sid, n) => out := DequeueOutputBatch(cap, sid, n);
        case ReadOutput(id) => out := ReadOutput(cap, id);
        case ReleaseOutput(id) => out := ReleaseOutput(id);
        case DestroySession(sid) => out := DestroySession(sid);
      }
    }

    /** Every opcode does to the object what the value-level step does to its state. */
    method Handle(req: Request, cap: nat) returns (out: Outcome)
      modifies this
      ensures Step(State(), out) == Dispatch(old(State()), req, cap)
    {
      if OnBuffers(req) {
        out := HandleBuffers(req, cap);
      } else if OnQueue(req) {
        out := HandleQueue(req, cap);
      } else {
        out := HandleControl(req, cap);
      }
    }
  }

  predicate OnBuffers(req: Request) {
    req.CreatePool? || req.AllocBuffer? || req.ReadBuffer? || req.WriteBuffer? || req.RecycleBuffer?
  }

  predicate OnQueue(req: Request) {
    req.EncodeFrame? || req.DequeueOutput? || req.DequeueOutputBatch? || req.ReadOutput? || req.ReleaseOutput?
    || req.DestroySession?
  }

  function WritePod(reply: Reply, cap: nat): (out: Outcome) {
    if ReplySize(reply) <= cap then Ok(reply) else Err(STATUS_OK)
  }

  /** The filler loop of the mock bitstream. */
  method BuildSample(sync: bool, prefix: seq<byte>, sessionId: nat, outputId: nat) returns (sample: seq<byte>)
    requires |prefix| <= 8
    ensures sample == MockSample(sync, prefix, sessionId, outputId)
  {
    var bytes: seq<byte> := [if sync then 0x65 else 0x41] + prefix;
    ghost var head := |bytes|;
    while |bytes| < 24
      invariant head <= |bytes| <= 24
      invariant bytes[..head] == [if sync then 0x65 else 0x41] + prefix
      invariant forall k :: head <= k < |bytes| ==> bytes[k] == SeedByte(sessionId, outputId, k)
      decreases 24 - |bytes|
    {
      bytes := bytes + [SeedByte(sessionId, outputId, |bytes|)];
    }
    sample := [0, 0, 0, 24] + bytes;
    SampleIs(sync, prefix, sessionId, outputId, bytes);
  }

  lemma SampleIs(sync: bool, prefix: seq<byte>, sessionId: nat, outputId: nat, bytes: seq<byte>)
    requires |prefix| <= 8 && |bytes| == 24
    requires bytes[..1 + |prefix|] == [if sync then 0x65 else 0x41] + prefix
    requires forall k :: 1 + |prefix| <= k < 24 ==> bytes[k] == SeedByte(sessionId, outputId, k)
    ensures [0, 0, 0, 24] + bytes == MockSample(sync, prefix, sessionId, outputId)
  {
    var m := MockSample(sync, prefix, sessionId, outputId);
    var all: seq<byte> := [0, 0, 0, 24] + bytes;
    forall k | 0 <= k < 28 ensures all[k] == m[k] {
      if 4 <= k < 5 + |prefix| {
        assert all[k] == bytes[..1 + |prefix|][k - 4];
      } else if 5 + |prefix| <= k {
        assert all[k] == SeedByte(sessionId, outputId, k - 4);
      }
    }
  }

  lemma TakeManyStep(w: Worker, sessionId: nat, n: nat, infos: seq<OutputInfo>)
    requires n > 0 && TakeReady(w, sessionId).1.Some?
    ensures var (w1, info) := TakeReady(w, sessionId);
            && TakeMany(w, sessionId, n).0 == TakeMany(w1, sessionId, n - 1).0
            && infos + TakeMany(w, sessionId, n).1 == (infos + [info.value]) + TakeMany(w1, sessionId, n - 1).1
  {
  }

  lemma {:induction false} KeepAllBuffers(bs: seq<Buffer>)
    ensures Keep(bs, BufferNotIn(PoolIds([]))) == bs
  {
    if |bs| > 0 {
      var n := |bs| - 1;
      KeepAllBuffers(bs[..n]);
      assert BufferNotIn(PoolIds([]))(bs[n]);
      assert bs == bs[..n] + [bs[n]];
    }
  }

  /** Dropping one more pool's buffers. */
  lemma KeepFewer(bs: seq<Buffer>, gone: seq<Pool>, i: nat)
    requires i < |gone|
    ensures Keep(Keep(bs, BufferNotIn(PoolIds(gone[..i]))), BufferNotIn({gone[i].id}))
         == Keep(bs, BufferNotIn(PoolIds(gone[..i + 1])))
  {
    PoolIdsGrow(gone, i);
    KeepBoth(bs, BufferNotIn(PoolIds(gone[..i])), BufferNotIn({gone[i].id}), BufferNotIn(PoolIds(gone[..i + 1])));
  }

  lemma PoolIdsGrow(gone: seq<Pool>, i: nat)
    requires i < |gone|
    ensures PoolIds(gone[..i + 1]) == PoolIds(gone[..i]) + {gone[i].id}
  {
    var all, some := gone[..i + 1], gone[..i];
    forall x | x in PoolIds(some) ensures x in PoolIds(all) {
      var k :| 0 <= k < |some| && some[k].id == x;
      assert all[k].id == x;
    }
    assert all[i].id == gone[i].id;
    forall x | x in PoolIds(all) ensures x in PoolIds(some) + {gone[i].id} {
      var k :| 0 <= k < |all| && all[k].id == x;
      if k < i {
        assert some[k].id == x;
      }
    }
  }
}
