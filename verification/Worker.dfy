/** The worker's resource state and what each opcode does to it, as functions on values.
    `MockBackend` holds this state in fields and is proved to follow these functions. */
module Worker {
  import opened Bits
  import opened Collections
  import opened Layout
  import opened Protocol

  const MAX_SESSIONS: nat := 32
  const MAX_POOLS: nat := 64
  const MAX_BUFFERS: nat := 256
  const MAX_OUTPUTS: nat := 128
  const DEFAULT_POOL_BUFFERS: u32 := 4
  const FIRST_HOST_ID: nat := 1000
  const FIRST_OUTPUT_ID: nat := 5000
  const SAMPLE_SIZE: nat := 28

  datatype BufferState = GuestWritable | QueuedToHost | Recycled

  datatype Session = Session(
    id: nat, kind: u32, codec: u32, width: u32, height: u32, format: u32, prepared: bool, framesEncoded: nat)

  datatype Pool = Pool(
    id: nat, sessionId: nat, width: u32, height: u32, format: u32,
    maxBuffers: u32, bufferCount: nat, slotSize: u32, backing: seq<byte>)

  datatype Buffer = Buffer(
    id: nat, poolId: nat, generation: nat, slotIndex: nat,
    width: u32, height: u32, format: u32, state: BufferState, totalSize: nat)

  datatype Output = Output(
    info: OutputInfo, sourceId: nat, sourceGeneration: nat, sample: seq<byte>, dequeued: bool)

  datatype Worker = Worker(
    nextHostId: nat, nextOutputId: nat, maxOutputCount: nat, maxOutputBytes: nat, outputBytesTotal: nat,
    sessions: seq<Session>, pools: seq<Pool>, buffers: seq<Buffer>, outputs: seq<Output>)

  datatype Step = Step(worker: Worker, outcome: Outcome)

  /** A connection's fresh worker; the limits come from the environment. */
  function Fresh(maxOutputs: nat, maxBytes: nat): (w: Worker) {
    Worker(FIRST_HOST_ID, FIRST_OUTPUT_ID, if maxOutputs < MAX_OUTPUTS then maxOutputs else MAX_OUTPUTS,
           maxBytes, 0, [], [], [], [])
  }

  // ---------- lookups ----------

  function SessionIs(id: nat): (p: Session -> bool) { (s: Session) => s.id == id }
  function SessionIsNot(id: nat): (p: Session -> bool) { (s: Session) => s.id != id }
  function PoolIs(id: nat): (p: Pool -> bool) { (x: Pool) => x.id == id }
  function PoolNotOf(sid: nat): (p: Pool -> bool) { (x: Pool) => x.sessionId != sid }
  function PoolOf(sid: nat): (p: Pool -> bool) { (x: Pool) => x.sessionId == sid }
  function BufferIs(id: nat): (p: Buffer -> bool) { (b: Buffer) => b.id == id }
  function Recyclable(pool: nat): (p: Buffer -> bool) { (b: Buffer) => b.poolId == pool && b.state == Recycled }
  function BufferNotIn(pools: set<nat>): (p: Buffer -> bool) { (b: Buffer) => b.poolId !in pools }
  function OutputIs(id: nat): (p: Output -> bool) { (o: Output) => o.info.outputId == id }
  function OutputOf(sid: nat): (p: Output -> bool) { (o: Output) => o.info.sessionId == sid }
  function OutputNotOf(sid: nat): (p: Output -> bool) { (o: Output) => o.info.sessionId != sid }
  function Ready(sid: nat): (p: Output -> bool) { (o: Output) => o.info.sessionId == sid && !o.dequeued }
  function Taken(id: nat): (p: Output -> bool) { (o: Output) => o.info.outputId == id && o.dequeued }
  function SampleBytes(): (f: Output -> nat) { (o: Output) => o.info.sampleSize }

  function FindSession(w: Worker, id: nat): (r: Option<nat>)
    ensures r.Some? ==> r.value < |w.sessions| && w.sessions[r.value].id == id
    ensures r.None? ==> forall k :: 0 <= k < |w.sessions| ==> w.sessions[k].id != id
  {
    var r := IndexWhere(w.sessions, SessionIs(id));
    assert forall k :: 0 <= k < |w.sessions| ==> SessionIs(id)(w.sessions[k]) == (w.sessions[k].id == id);
    r
  }

  function FindPool(w: Worker, id: nat): (r: Option<nat>)
    ensures r.Some? ==> r.value < |w.pools| && w.pools[r.value].id == id
    ensures r.None? ==> forall k :: 0 <= k < |w.pools| ==> w.pools[k].id != id
  {
    var r := IndexWhere(w.pools, PoolIs(id));
    assert forall k :: 0 <= k < |w.pools| ==> PoolIs(id)(w.pools[k]) == (w.pools[k].id == id);
    r
  }

  function FindBuffer(w: Worker, id: nat): (r: Option<nat>)
    ensures r.Some? ==> r.value < |w.buffers| && w.buffers[r.value].id == id
    ensures r.None? ==> forall k :: 0 <= k < |w.buffers| ==> w.buffers[k].id != id
  {
    var r := IndexWhere(w.buffers, BufferIs(id));
    assert forall k :: 0 <= k < |w.buffers| ==> BufferIs(id)(w.buffers[k]) == (w.buffers[k].id == id);
    r
  }

  function FindOutput(w: Worker, id: nat): (r: Option<nat>)
    ensures r.Some? ==> r.value < |w.outputs| && w.outputs[r.value].info.outputId == id
    ensures r.None? ==> forall k :: 0 <= k < |w.outputs| ==> w.outputs[k].info.outputId != id
  {
    var r := IndexWhere(w.outputs, OutputIs(id));
    assert forall k :: 0 <= k < |w.outputs| ==> OutputIs(id)(w.outputs[k]) == (w.outputs[k].info.outputId == id);
    r
  }

  // ---------- slots ----------

  /** Byte range of a slot inside its pool's backing, if it lies inside. Both factors
      are below 2^32, so the 64-bit checked product never fails. */
  function SlotRange(slotIndex: nat, slotSize: nat, backingLen: nat): (r: Option<(nat, nat)>)
    ensures r.Some? ==> r.value.0 + slotSize == r.value.1 <= backingLen
  {
    if slotSize == 0 then None
    else
      var start := Times(slotIndex, slotSize);
      if start + slotSize > backingLen then None else Some((start, start + slotSize))
  }

  function PoolSlot(p: Pool, slotIndex: nat): (r: Option<(nat, nat)>)
    ensures r.Some? ==> r.value.0 + p.slotSize == r.value.1 <= |p.backing|
  {
    SlotRange(slotIndex, p.slotSize, |p.backing|)
  }

  /** Overwrite `dst` from `at` with `src`. */
  function Splice(dst: seq<byte>, at: nat, src: seq<byte>): (r: seq<byte>)
    requires at + |src| <= |dst|
    ensures |r| == |dst|
    ensures forall k :: 0 <= k < |dst| ==> r[k] == if at <= k < at + |src| then src[k - at] else dst[k]
  {
    dst[..at] + src + dst[at + |src|..]
  }

  /** A splice inside a window is a splice of the window; one outside leaves it alone. */
  lemma SpliceWindow(dst: seq<byte>, at: nat, src: seq<byte>, lo: nat, hi: nat)
    requires at + |src| <= |dst| && lo <= hi <= |dst|
    requires (lo <= at && at + |src| <= hi) || hi <= at || at + |src| <= lo
    ensures lo <= at && at + |src| <= hi ==> Splice(dst, at, src)[lo..hi] == Splice(dst[lo..hi], at - lo, src)
    ensures hi <= at || at + |src| <= lo ==> Splice(dst, at, src)[lo..hi] == dst[lo..hi]
  {
  }

  function Zeros(n: nat): (r: seq<byte>)
    ensures |r| == n && forall k :: 0 <= k < n ==> r[k] == 0
  {
    seq(n, _ => 0)
  }

  /** The pool's bytes with one slot cleared. */
  function Zeroed(p: Pool, range: (nat, nat)): (r: seq<byte>)
    requires range.0 <= range.1 <= |p.backing|
    ensures |r| == |p.backing|
  {
    Splice(p.backing, range.0, Zeros(range.1 - range.0))
  }

  function SetBacking(w: Worker, k: nat, bytes: seq<byte>): (r: Worker)
    requires k < |w.pools|
  {
    w.(pools := w.pools[k := w.pools[k].(backing := bytes)])
  }

  function SetBuffer(w: Worker, i: nat, b: Buffer): (r: Worker)
    requires i < |w.buffers|
  {
    w.(buffers := w.buffers[i := b])
  }

  // ---------- opcodes ----------

  /** `write_pod` and `write_pod_and_bytes`: an oversized reply is an error with no status. */
  function Finish(w: Worker, reply: Reply, cap: nat): (r: Step) {
    Step(w, if ReplySize(reply) <= cap then Ok(reply) else Err(STATUS_OK))
  }

  function Fail(w: Worker, status: u32): (r: Step) {
    Step(w, Err(status))
  }

  function DoCreateSession(w: Worker, cap: nat, kind: u32, codec: u32, width: u32, height: u32, format: u32)
    : (r: Step)
  {
    if |w.sessions| >= MAX_SESSIONS then Fail(w, STATUS_INTERNAL_FAILURE)
    else
      var s := Session(w.nextHostId, kind, codec, width, height, format, false, 0);
      Finish(w.(nextHostId := w.nextHostId + 1, sessions := w.sessions + [s]),
             SessionCreated(s.id, width, height, format), cap)
  }

  function DoCreatePool(w: Worker, cap: nat, sessionId: nat, bufferCount: u32, format: u32, width: u32,
      height: u32): (r: Step) {
    if |w.pools| >= MAX_POOLS then Fail(w, STATUS_INTERNAL_FAILURE)
    else if sessionId != 0 && FindSession(w, sessionId).None? then Fail(w, STATUS_INVALID_HANDLE)
    else
      var layout := WorkerLayout(width, height, format);
      var maxBuffers := if bufferCount == 0 then DEFAULT_POOL_BUFFERS else bufferCount;
      var p := Pool(w.nextHostId, sessionId, width, height, format, maxBuffers, 0, layout.totalSize,
                    Zeros(Times(maxBuffers, layout.totalSize)));
      Finish(w.(nextHostId := w.nextHostId + 1, pools := w.pools + [p]),
             PoolCreated(p.id, width, height, format, maxBuffers, Wrap32(Times(maxBuffers, layout.totalSize)),
               layout), cap)
  }

  function LeaseReply(b: Buffer): (r: Reply) {
    var layout := WorkerLayout(b.width, b.height, b.format);
    Leased(b.id, b.generation, b.width, b.height, b.format, b.slotIndex,
           Wrap32(Times(b.slotIndex, layout.totalSize)), layout)
  }

  function Relet(b: Buffer): (r: Buffer) {
    b.(generation := b.generation + 1, state := GuestWritable)
  }

  /** Re-lease of a recycled buffer: the generation moves on before the slot is checked. */
  function DoLeaseAgain(w: Worker, cap: nat, pool: nat, buffer: nat): (r: Step)
    requires pool < |w.pools| && buffer < |w.buffers|
  {
    var b := Relet(w.buffers[buffer]);
    var w' := SetBuffer(w, buffer, b);
    var range := PoolSlot(w.pools[pool], b.slotIndex);
    if range.None? then Fail(w', STATUS_INTERNAL_FAILURE)
    else Finish(SetBacking(w', pool, Zeroed(w.pools[pool], range.value)), LeaseReply(b), cap)
  }

  function DoAllocFresh(w: Worker, cap: nat, pool: nat): (r: Step)
    requires pool < |w.pools|
  {
    var p := w.pools[pool];
    if p.bufferCount >= p.maxBuffers || |w.buffers| >= MAX_BUFFERS then Fail(w, STATUS_RESOURCE_EXHAUSTED)
    else
      var range := PoolSlot(p, p.bufferCount);
      if range.None? then Fail(w, STATUS_INTERNAL_FAILURE)
      else
        var b := Buffer(w.nextHostId, p.id, 1, p.bufferCount, p.width, p.height, p.format, GuestWritable, p.slotSize);
        var p' := p.(backing := Zeroed(p, range.value), bufferCount := p.bufferCount + 1);
        Finish(w.(nextHostId := w.nextHostId + 1, pools := w.pools[pool := p'], buffers := w.buffers + [b]),
               LeaseReply(b), cap)
  }

  function DoAllocBuffer(w: Worker, cap: nat, poolId: nat): (r: Step) {
    var pool := FindPool(w, poolId);
    if pool.None? then Fail(w, STATUS_INVALID_HANDLE)
    else
      var reuse := IndexWhere(w.buffers, Recyclable(poolId));
      if reuse.Some? then DoLeaseAgain(w, cap, pool.value, reuse.value)
      else DoAllocFresh(w, cap, pool.value)
  }

  // A buffer larger than its slot would make the next three operations panic while
  // slicing. The model fails there instead; `Valid` rules the case out.

  function DoReadBuffer(w: Worker, cap: nat, bufferId: nat, generation: nat, offset: u32, length: u32): (r: Step) {
    var i := FindBuffer(w, bufferId);
    if i.None? then Fail(w, STATUS_INVALID_HANDLE)
    else
      var b := w.buffers[i.value];
      if b.generation != generation then Fail(w, STATUS_STALE_GENERATION)
      else if b.state == Recycled then Fail(w, STATUS_INVALID_STATE)
      else if offset > b.totalSize || length > b.totalSize - offset then Fail(w, STATUS_BOUNDS_VIOLATION)
      else
        var pool := FindPool(w, b.poolId);
        if pool.None? then Fail(w, STATUS_INVALID_HANDLE)
        else
          var range := PoolSlot(w.pools[pool.value], b.slotIndex);
          if range.None? || length + offset > range.value.1 - range.value.0 then Fail(w, STATUS_INTERNAL_FAILURE)
          else
            var slot := w.pools[pool.value].backing[range.value.0..range.value.1];
            Finish(w, BufferBytes(b.id, b.generation, offset, length, slot[offset..offset + length]), cap)
  }

  function DoWriteBuffer(w: Worker, bufferId: nat, generation: nat, offset: u32, length: u32,
      data: seq<byte>): (r: Step) {
    var i := FindBuffer(w, bufferId);
    if i.None? then Fail(w, STATUS_INVALID_HANDLE)
    else
      var b := w.buffers[i.value];
      if b.generation != generation then Fail(w, STATUS_STALE_GENERATION)
      else if b.state != GuestWritable then Fail(w, STATUS_INVALID_STATE)
      else if offset > b.totalSize || length > b.totalSize - offset || |data| != length then
        Fail(w, STATUS_BOUNDS_VIOLATION)
      else
        var pool := FindPool(w, b.poolId);
        if pool.None? then Fail(w, STATUS_INVALID_HANDLE)
        else
          var p := w.pools[pool.value];
          var range := PoolSlot(p, b.slotIndex);
          if range.None? || offset + length > range.value.1 - range.value.0 then Fail(w, STATUS_INTERNAL_FAILURE)
          else
            Step(SetBacking(w, pool.value, Splice(p.backing, range.value.0 + offset, data)), Ok(Empty))
  }

  function DoRecycleBuffer(w: Worker, poolId: nat, bufferId: nat, generation: nat): (r: Step) {
    var pool := FindPool(w, poolId);
    var i := FindBuffer(w, bufferId);
    if pool.None? || i.None? then Fail(w, STATUS_INVALID_HANDLE)
    else
      var b := w.buffers[i.value];
      if w.pools[pool.value].id != b.poolId then Fail(w, STATUS_INVALID_HANDLE)
      else if b.generation != generation then Fail(w, STATUS_STALE_GENERATION)
      else if b.state == Recycled then Fail(w, STATUS_INVALID_STATE)
      else Step(SetBuffer(w, i.value, b.(state := Recycled)), Ok(Empty))
  }

  function DoSetProperty(w: Worker, sessionId: nat): (r: Step) {
    if FindSession(w, sessionId).None? then Fail(w, STATUS_INVALID_HANDLE) else Step(w, Ok(Empty))
  }

  function DoPrepareSession(w: Worker, sessionId: nat): (r: Step) {
    var i := FindSession(w, sessionId);
    if i.None? then Fail(w, STATUS_INVALID_HANDLE)
    else
      Step(w.(sessions := w.sessions[i.value := w.sessions[i.value].(prepared := true)]), Ok(Empty))
  }

  /** The filler byte at `index`: the low byte of the 64-bit `reply_seed`. */
  function SeedByte(sessionId: nat, outputId: nat, index: nat): (b: byte) {
    (sessionId * 131 + outputId * 17 + index * 29) % 256
  }

  /** The mock bitstream: a 4-byte length, a NAL type, up to eight bytes of the frame, filler. */
  function MockSample(sync: bool, prefix: seq<byte>, sessionId: nat, outputId: nat): (r: seq<byte>)
    requires |prefix| <= 8
    ensures |r| == SAMPLE_SIZE
    ensures r[..4] == [0, 0, 0, 24] && r[5..5 + |prefix|] == prefix
  {
    var start: seq<byte> := [0, 0, 0, 24] + [if sync then 0x65 else 0x41] + prefix;
    start + seq<byte>(SAMPLE_SIZE - |start|, i requires 0 <= i => SeedByte(sessionId, outputId, |start| - 4 + i))
  }

  function DoEncodeFrame(w: Worker, sessionId: nat, proxyId: nat, bufferId: nat, generation: nat, pts: Time,
      duration: Time): (r: Step) {
    var si := FindSession(w, sessionId);
    if si.None? then Fail(w, STATUS_INVALID_HANDLE)
    else if !w.sessions[si.value].prepared then Fail(w, STATUS_INVALID_STATE)
    else if proxyId == 0 then Fail(w, STATUS_INVALID_HANDLE)
    else
      var i := FindBuffer(w, bufferId);
      if i.None? then Fail(w, STATUS_INVALID_HANDLE)
      else
        var b := w.buffers[i.value];
        if b.generation != generation then Fail(w, STATUS_STALE_GENERATION)
        else if b.state != GuestWritable then Fail(w, STATUS_INVALID_STATE)
        else EncodeFrom(w, si.value, i.value, pts, duration)
  }

  datatype FramePrefix = Missing(status: u32) | Found(bytes: seq<byte>)

  /** The first bytes of the frame, read out of the buffer's slot. */
  function PrefixOf(w: Worker, b: Buffer): (r: FramePrefix)
    ensures r.Found? ==> |r.bytes| <= 8
  {
    var pool := FindPool(w, b.poolId);
    if pool.None? then Missing(STATUS_INVALID_HANDLE)
    else
      var range := PoolSlot(w.pools[pool.value], b.slotIndex);
      var n := if b.totalSize < 8 then b.totalSize else 8;
      if range.None? || n > range.value.1 - range.value.0 then Missing(STATUS_INTERNAL_FAILURE)
      else Found(w.pools[pool.value].backing[range.value.0..range.value.0 + n])
  }

  function EncodeFrom(w: Worker, si: nat, bi: nat, pts: Time, duration: Time): (r: Step)
    requires si < |w.sessions| && bi < |w.buffers|
  {
    match PrefixOf(w, w.buffers[bi])
    case Missing(status) => Fail(w, status)
    case Found(bytes) => Accept(w, si, bi, bytes, pts, duration)
  }

  function NewOutput(w: Worker, s: Session, b: Buffer, prefix: seq<byte>, pts: Time, duration: Time): (o: Output)
    requires |prefix| <= 8
    ensures o.info.sampleSize == |o.sample| == SAMPLE_SIZE
  {
    var sync := s.framesEncoded == 0;
    Output(OutputInfo(s.id, w.nextOutputId, s.codec, s.width, s.height, s.format, pts, duration, SAMPLE_SIZE, sync),
           b.id, b.generation, MockSample(sync, prefix, s.id, w.nextOutputId), false)
  }

  function Enqueue(w: Worker, bi: nat, o: Output): (r: Worker)
    requires bi < |w.buffers|
  {
    w.(nextOutputId := w.nextOutputId + 1,
       outputBytesTotal := w.outputBytesTotal + SAMPLE_SIZE,
       outputs := w.outputs + [o],
       buffers := w.buffers[bi := w.buffers[bi].(state := QueuedToHost)])
  }

  function CountFrame(w: Worker, si: nat): (r: Worker)
    requires si < |w.sessions|
  {
    w.(sessions := w.sessions[si := w.sessions[si].(framesEncoded := w.sessions[si].framesEncoded + 1)])
  }

  predicate HasRoom(w: Worker) {
    && |w.outputs| < w.maxOutputCount
    && SAMPLE_SIZE <= w.maxOutputBytes
    && w.outputBytesTotal <= w.maxOutputBytes - SAMPLE_SIZE
  }

  /** The tail of `OP_ENCODE_FRAME`: check the two limits, then queue the sample. */
  function Accept(w: Worker, si: nat, bi: nat, prefix: seq<byte>, pts: Time, duration: Time): (r: Step)
    requires si < |w.sessions| && bi < |w.buffers| && |prefix| <= 8
  {
    if !HasRoom(w) then Fail(w, STATUS_RESOURCE_EXHAUSTED)
    else
      var o := NewOutput(w, w.sessions[si], w.buffers[bi], prefix, pts, duration);
      Step(CountFrame(Enqueue(w, bi, o), si), Ok(Empty))
  }

  /** `dequeue_output_idx`: mark the session's first waiting output. */
  function TakeReady(w: Worker, sessionId: nat): (r: (Worker, Option<OutputInfo>)) {
    var i := IndexWhere(w.outputs, Ready(sessionId));
    if i.None? then (w, None)
    else (w.(outputs := w.outputs[i.value := w.outputs[i.value].(dequeued := true)]), Some(w.outputs[i.value].info))
  }

  function DoDequeueOutput(w: Worker, cap: nat, sessionId: nat): (r: Step) {
    var (w', info) := TakeReady(w, sessionId);
    if info.None? then Fail(w, STATUS_TIMEOUT) else Finish(w', OutputReady(info.value), cap)
  }

  function BatchLimit(maxOutputs: nat): (r: nat)
    ensures 1 <= r <= MAX_OUTPUT_BATCH
  {
    if maxOutputs == 0 then 1 else if maxOutputs > MAX_OUTPUT_BATCH then MAX_OUTPUT_BATCH else maxOutputs
  }

  /** Up to `n` single dequeues, stopping at the first empty one. */
  function TakeMany(w: Worker, sessionId: nat, n: nat): (r: (Worker, seq<OutputInfo>))
    ensures |r.1| <= n
    decreases n, |w.outputs|
  {
    if n == 0 then (w, [])
    else
      var (w', info) := TakeReady(w, sessionId);
      if info.None? then (w, [])
      else
        var (w'', rest) := TakeMany(w', sessionId, n - 1);
        (w'', [info.value] + rest)
  }

  function DoDequeueOutputBatch(w: Worker, cap: nat, sessionId: nat, maxOutputs: u32): (r: Step) {
    var (w', infos) := TakeMany(w, sessionId, BatchLimit(maxOutputs));
    if infos == [] then Fail(w', STATUS_TIMEOUT) else Finish(w', OutputsReady(sessionId, infos), cap)
  }

  function DoReadOutput(w: Worker, cap: nat, outputId: nat): (r: Step) {
    var i := IndexWhere(w.outputs, Taken(outputId));
    if i.None? then Fail(w, STATUS_INVALID_HANDLE)
    else
      var o := w.outputs[i.value];
      Finish(w, OutputBytes(o.info.outputId, o.info.sampleSize, o.sample), cap)
  }

  /** Give a queued buffer back, unless it has been leased again since. */
  function Unqueue(buffers: seq<Buffer>, i: Option<nat>, generation: nat): (r: seq<Buffer>)
    requires i.Some? ==> i.value < |buffers|
  {
    if i.Some? && buffers[i.value].generation == generation && buffers[i.value].state == QueuedToHost then
      buffers[i.value := buffers[i.value].(state := GuestWritable)]
    else buffers
  }

  function SaturatingSub(a: nat, b: nat): (r: nat) {
    if a < b then 0 else a - b
  }

  function DoReleaseOutput(w: Worker, outputId: nat): (r: Step) {
    var i := FindOutput(w, outputId);
    if i.None? then Fail(w, STATUS_INVALID_HANDLE)
    else
      var o := w.outputs[i.value];
      Step(w.(buffers := Unqueue(w.buffers, FindBuffer(w, o.sourceId), o.sourceGeneration),
              outputs := RemoveAt(w.outputs, i.value),
              outputBytesTotal := SaturatingSub(w.outputBytesTotal, o.info.sampleSize)),
           Ok(Empty))
  }

  function PoolIds(pools: seq<Pool>): (r: set<nat>) {
    set k | 0 <= k < |pools| :: pools[k].id
  }

  function DoDestroySession(w: Worker, sessionId: nat): (r: Step) {
    if FindSession(w, sessionId).None? then Fail(w, STATUS_INVALID_HANDLE)
    else
      var gone := PoolIds(Keep(w.pools, PoolOf(sessionId)));
      Step(w.(outputs := Keep(w.outputs, OutputNotOf(sessionId)),
              outputBytesTotal := SaturatingSub(w.outputBytesTotal,
                SumBy(Keep(w.outputs, OutputOf(sessionId)), SampleBytes())),
              pools := Keep(w.pools, PoolNotOf(sessionId)),
              buffers := Keep(w.buffers, BufferNotIn(gone)),
              sessions := Keep(w.sessions, SessionIsNot(sessionId))),
           Ok(Empty))
  }

  function DoDrain(w: Worker, cap: nat, sessionId: nat): (r: Step) {
    if FindSession(w, sessionId).None? then Fail(w, STATUS_INVALID_HANDLE)
    else Finish(w, Drained(sessionId, |Keep(w.outputs, OutputOf(sessionId))|), cap)
  }

  function Dispatch(w: Worker, req: Request, cap: nat): (r: Step) {
    match req
    case Hello => Finish(w, HelloReply, cap)
    case Ping => Step(w, Ok(Empty))
    case GetCaps => Finish(w, Caps(w.maxOutputCount), cap)
    case CreateSession(kind, codec, width, height, format) =>
      DoCreateSession(w, cap, kind, codec, width, height, format)
    case CreatePool(sid, count, format, width, height) => DoCreatePool(w, cap, sid, count, format, width, height)
    case AllocBuffer(pool) => DoAllocBuffer(w, cap, pool)
    case ReadBuffer(id, generation, offset, length) => DoReadBuffer(w, cap, id, generation, offset, length)
    case WriteBuffer(id, generation, offset, length, data) => DoWriteBuffer(w, id, generation, offset, length, data)
    case RecycleBuffer(pool, id, generation) => DoRecycleBuffer(w, pool, id, generation)
    case SetProperty(sid) => DoSetProperty(w, sid)
    case PrepareSession(sid) => DoPrepareSession(w, sid)
    case EncodeFrame(sid, proxy, id, generation, pts, duration) =>
      DoEncodeFrame(w, sid, proxy, id, generation, pts, duration)
    case DequeueOutput(sid) => DoDequeueOutput(w, cap, sid)
    case DequeueOutputBatch(sid, n) => DoDequeueOutputBatch(w, cap, sid, n)
    case ReadOutput(id) => DoReadOutput(w, cap, id)
    case ReleaseOutput(id) => DoReleaseOutput(w, id)
    case DestroySession(sid) => DoDestroySession(w, sid)
    case Drain(sid) => DoDrain(w, cap, sid)
    case Truncated(write) => Fail(w, if write then STATUS_BOUNDS_VIOLATION else STATUS_INTERNAL_FAILURE)
    case Unknown(_) => Fail(w, STATUS_UNSUPPORTED_OPCODE)
    case WrongVersion => Fail(w, STATUS_UNSUPPORTED_VERSION)
  }

  /** The worker after a whole request sequence. */
  function Run(w: Worker, reqs: seq<Request>, cap: nat): (r: Worker) {
    if |reqs| == 0 then w
    else Dispatch(Run(w, reqs[..|reqs| - 1], cap), reqs[|reqs| - 1], cap).worker
  }
}
