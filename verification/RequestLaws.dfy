/** What single requests do, said of the tables themselves: the record concerned is given by its
    place, and everything not mentioned stays. */
module RequestLaws {
  import opened Bits
  import opened Collections
  import opened Layout
  import opened Protocol
  import opened Worker
  import opened WorkerInvariant
  import opened WorkerTheorems

  // ---------- leasing ----------

  /** Buffer `i` is the first recycled one of pool `id`. */
  ghost predicate FirstRecycled(w: Worker, id: nat, i: nat) {
    && i < |w.buffers| && w.buffers[i].poolId == id && w.buffers[i].state == Recycled
    && forall j :: 0 <= j < i && w.buffers[j].poolId == id ==> w.buffers[j].state != Recycled
  }

  ghost predicate NoneRecycled(w: Worker, id: nat) {
    forall j :: 0 <= j < |w.buffers| && w.buffers[j].poolId == id ==> w.buffers[j].state != Recycled
  }

  /** A pool with recycled buffers always gives a lease: the first of them, in its own slot, with
      the next generation. No other buffer, session, output or counter changes. */
  lemma RecycledIsLeased(w: Worker, k: nat, i: nat, cap: nat)
    requires Valid(w) && MAX_FIXED_REPLY <= cap && k < |w.pools| && FirstRecycled(w, w.pools[k].id, i)
    ensures var b := w.buffers[i];
            var step := Dispatch(w, AllocBuffer(w.pools[k].id), cap);
            && step.outcome.Ok? && LeaseOf(step.outcome.reply, b.id, b.generation + 1, b.slotIndex, w.pools[k])
            && step.worker.buffers == w.buffers[i := b.(generation := b.generation + 1, state := GuestWritable)]
            && OnlyBytesOf(w, step.worker, k, w.pools[k].bufferCount) && step.worker.nextHostId == w.nextHostId
  {
    UniquePool(w, k);
    LeaseAgainFindsSlot(w, k, i);
    BufferSlot(w, i);
    ReusesFirst(w, w.pools[k].id, i);
    LeaseAgainIs(w, k, i, cap);
  }

  lemma ReusesFirst(w: Worker, id: nat, i: nat)
    requires FirstRecycled(w, id, i)
    ensures IndexWhere(w.buffers, Recyclable(id)) == Some(i)
  {
    IndexWhereIs(w.buffers, Recyclable(id), i);
  }

  lemma LeaseAgainIs(w: Worker, k: nat, i: nat, cap: nat)
    requires MAX_FIXED_REPLY <= cap && k < |w.pools| && i < |w.buffers| && FindPool(w, w.pools[k].id) == Some(k)
    requires IndexWhere(w.buffers, Recyclable(w.pools[k].id)) == Some(i)
    requires PoolSlot(w.pools[k], w.buffers[i].slotIndex).Some? && Fits(w.buffers[i], w.pools[k])
    ensures var b := w.buffers[i];
            var step := Dispatch(w, AllocBuffer(w.pools[k].id), cap);
            && step.outcome.Ok? && LeaseOf(step.outcome.reply, b.id, b.generation + 1, b.slotIndex, w.pools[k])
            && step.worker.buffers == w.buffers[i := b.(generation := b.generation + 1, state := GuestWritable)]
            && OnlyBytesOf(w, step.worker, k, w.pools[k].bufferCount) && step.worker.nextHostId == w.nextHostId
  {
  }

  /** The reply names the lease, the pool's frame shape, and where the slot starts. */
  ghost predicate LeaseOf(reply: Reply, id: nat, generation: nat, slot: nat, p: Pool) {
    && reply.Leased? && reply.bufferId == id && reply.generation == generation && reply.slotIndex == slot
    && reply.width == p.width && reply.height == p.height && reply.format == p.format
    && reply.layout == WorkerLayout(p.width, p.height, p.format)
    && reply.slotOffset == Wrap32(Times(slot, reply.layout.totalSize))
  }

  /** Nothing but the bytes and the buffer count of pool `k`, and the buffers, may differ. */
  ghost predicate OnlyBytesOf(w: Worker, w': Worker, k: nat, count: nat) {
    && w'.sessions == w.sessions && w'.outputs == w.outputs && w'.nextOutputId == w.nextOutputId
    && w'.outputBytesTotal == w.outputBytesTotal && w'.maxOutputCount == w.maxOutputCount
    && w'.maxOutputBytes == w.maxOutputBytes
    && k < |w.pools| == |w'.pools|
    && w'.pools == w.pools[k := w.pools[k].(backing := w'.pools[k].backing, bufferCount := count)]
  }

  /** Without one, a lease is given exactly when the pool has a slot left, the table has room and
      frames are not empty. It is a new buffer with a new id in the next slot. */
  lemma FreshIsLeased(w: Worker, k: nat, cap: nat)
    requires Valid(w) && MAX_FIXED_REPLY <= cap && k < |w.pools| && NoneRecycled(w, w.pools[k].id)
    ensures var p := w.pools[k];
            var step := Dispatch(w, AllocBuffer(p.id), cap);
            var b := Buffer(w.nextHostId, p.id, 1, p.bufferCount, p.width, p.height, p.format, GuestWritable,
                            p.slotSize);
            if p.bufferCount >= p.maxBuffers || |w.buffers| >= 256 then step == Fail(w, STATUS_RESOURCE_EXHAUSTED)
            else if p.slotSize == 0 then step == Fail(w, STATUS_INTERNAL_FAILURE)
            else
              && step.outcome.Ok? && LeaseOf(step.outcome.reply, w.nextHostId, 1, p.bufferCount, p)
              && step.worker.buffers == w.buffers + [b]
              && OnlyBytesOf(w, step.worker, k, p.bufferCount + 1) && step.worker.nextHostId == w.nextHostId + 1
  {
    var p := w.pools[k];
    UniquePool(w, k);
    assert PoolOk(p, w.sessions, w.nextHostId);
    if p.bufferCount < p.maxBuffers {
      SlotInside(p, p.bufferCount);
    }
    NothingToReuse(w, p.id);
    FreshLeaseIs(w, k, cap);
  }

  lemma NothingToReuse(w: Worker, id: nat)
    requires NoneRecycled(w, id)
    ensures IndexWhere(w.buffers, Recyclable(id)) == None
  {
    assert forall j :: 0 <= j < |w.buffers| ==> !Recyclable(id)(w.buffers[j]);
  }

  lemma FreshLeaseIs(w: Worker, k: nat, cap: nat)
    requires MAX_FIXED_REPLY <= cap && k < |w.pools| && FindPool(w, w.pools[k].id) == Some(k)
    requires IndexWhere(w.buffers, Recyclable(w.pools[k].id)) == None
    requires var p := w.pools[k];
             p.bufferCount < p.maxBuffers ==> (PoolSlot(p, p.bufferCount).Some? <==> p.slotSize > 0)
    ensures var p := w.pools[k];
            var step := Dispatch(w, AllocBuffer(p.id), cap);
            var b := Buffer(w.nextHostId, p.id, 1, p.bufferCount, p.width, p.height, p.format, GuestWritable,
                            p.slotSize);
            if p.bufferCount >= p.maxBuffers || |w.buffers| >= 256 then step == Fail(w, STATUS_RESOURCE_EXHAUSTED)
            else if p.slotSize == 0 then step == Fail(w, STATUS_INTERNAL_FAILURE)
            else
              && step.outcome.Ok? && LeaseOf(step.outcome.reply, w.nextHostId, 1, p.bufferCount, p)
              && step.worker.buffers == w.buffers + [b]
              && OnlyBytesOf(w, step.worker, k, p.bufferCount + 1) && step.worker.nextHostId == w.nextHostId + 1
  {
  }

  /** A lease takes nobody's buffer: whatever was not recycled is as it was. */
  lemma LeaseTakesOnlyRecycled(w: Worker, poolId: nat, cap: nat, j: nat)
    requires Valid(w) && MAX_FIXED_REPLY <= cap && j < |w.buffers| && w.buffers[j].state != Recycled
    ensures var w' := Dispatch(w, AllocBuffer(poolId), cap).worker;
            j < |w'.buffers| && w'.buffers[j] == w.buffers[j]
  {
    if HasPool(w.pools, poolId) {
      var k :| 0 <= k < |w.pools| && w.pools[k].id == poolId;
      if NoneRecycled(w, poolId) {
        FreshIsLeased(w, k, cap);
      } else {
        var i := FirstOne(w, poolId);
        RecycledIsLeased(w, k, i, cap);
      }
    } else {
      UnknownPool(w, poolId, cap);
    }
  }

  lemma FirstOne(w: Worker, id: nat) returns (i: nat)
    requires !NoneRecycled(w, id)
    ensures FirstRecycled(w, id, i)
  {
    var some :| 0 <= some < |w.buffers| && w.buffers[some].poolId == id && w.buffers[some].state == Recycled;
    assert Recyclable(id)(w.buffers[some]);
    i := IndexWhere(w.buffers, Recyclable(id)).value;
    assert forall j :: 0 <= j < i ==> !Recyclable(id)(w.buffers[j]);
  }

  lemma UnknownPool(w: Worker, poolId: nat, cap: nat)
    requires !HasPool(w.pools, poolId)
    ensures Dispatch(w, AllocBuffer(poolId), cap) == Fail(w, STATUS_INVALID_HANDLE)
  {
  }

  // ---------- a buffer's states ----------

  /** Recycling: refused with the status due for a foreign pool, an old generation or a buffer
      recycled already; otherwise only that buffer's state changes. */
  lemma RecycleLaw(w: Worker, i: nat, poolId: nat, generation: nat, cap: nat)
    requires Valid(w) && i < |w.buffers|
    ensures var b := w.buffers[i];
            Dispatch(w, RecycleBuffer(poolId, b.id, generation), cap)
            == if poolId != b.poolId then Fail(w, STATUS_INVALID_HANDLE)
               else if generation != b.generation then Fail(w, STATUS_STALE_GENERATION)
               else if b.state == Recycled then Fail(w, STATUS_INVALID_STATE)
               else Step(w.(buffers := w.buffers[i := b.(state := Recycled)]), Ok(Empty))
  {
    UniqueBuffer(w, i);
    BufferSlot(w, i);
  }

  /** Reading asks for the current generation of a lease that is not recycled, writing and
      encoding for one that is writable; the first condition broken gives the status. */
  lemma LeaseStatus(w: Worker, i: nat, generation: nat, offset: u32, length: u32, data: seq<byte>, cap: nat)
    requires Valid(w) && i < |w.buffers|
    ensures var b := w.buffers[i];
            var read := Dispatch(w, ReadBuffer(b.id, generation, offset, length), cap);
            var write := Dispatch(w, WriteBuffer(b.id, generation, offset, length, data), cap);
            && read.worker == w
            && (generation != b.generation ==>
                  read.outcome == Err(STATUS_STALE_GENERATION) && write == Fail(w, STATUS_STALE_GENERATION))
            && (generation == b.generation && b.state == Recycled ==> read.outcome == Err(STATUS_INVALID_STATE))
            && (generation == b.generation && b.state != GuestWritable ==> write == Fail(w, STATUS_INVALID_STATE))
            && (generation == b.generation && b.state != Recycled && offset + length > b.totalSize ==>
                  read.outcome == Err(STATUS_BOUNDS_VIOLATION))
            && (generation == b.generation && b.state == GuestWritable ==>
                  (write.outcome == Ok(Empty) <==> offset + length <= b.totalSize && |data| == length)
                  && (write.outcome == Ok(Empty) || write == Fail(w, STATUS_BOUNDS_VIOLATION)))
  {
    UniqueBuffer(w, i);
    BufferSlot(w, i);
  }

  lemma UnknownBuffer(w: Worker, id: nat, cap: nat)
    requires forall j :: 0 <= j < |w.buffers| ==> w.buffers[j].id != id
    ensures forall generation, offset, length ::
              Dispatch(w, ReadBuffer(id, generation, offset, length), cap) == Fail(w, STATUS_INVALID_HANDLE)
    ensures forall generation, offset, length, data ::
              Dispatch(w, WriteBuffer(id, generation, offset, length, data), cap) == Fail(w, STATUS_INVALID_HANDLE)
    ensures forall poolId, generation ::
              Dispatch(w, RecycleBuffer(poolId, id, generation), cap) == Fail(w, STATUS_INVALID_HANDLE)
  {
  }

  // ---------- frames ----------

  /** An output describes its frame: the session's codec and shape, the frame's times, its place
      in the id sequence, and whether it is the session's first. */
  lemma EncodedOutputIs(w: Worker, si: nat, bi: nat, proxy: nat, pts: Time, duration: Time, cap: nat)
    requires Valid(w) && si < |w.sessions| && bi < |w.buffers|
    requires var b := w.buffers[bi];
             Dispatch(w, EncodeFrame(w.sessions[si].id, proxy, b.id, b.generation, pts, duration), cap).outcome.Ok?
    ensures var s, b := w.sessions[si], w.buffers[bi];
            var w' := Dispatch(w, EncodeFrame(s.id, proxy, b.id, b.generation, pts, duration), cap).worker;
            && |w'.outputs| == |w.outputs| + 1 && w'.outputs[..|w.outputs|] == w.outputs
            && w'.outputs[|w.outputs|].info
               == OutputInfo(s.id, w.nextOutputId, s.codec, s.width, s.height, s.format, pts, duration,
                             28, s.framesEncoded == 0)
            && w'.outputs[|w.outputs|].sourceId == b.id && w'.outputs[|w.outputs|].sourceGeneration == b.generation
            && !w'.outputs[|w.outputs|].dequeued
            && w'.buffers == w.buffers[bi := b.(state := QueuedToHost)]
            && w'.sessions == w.sessions[si := s.(framesEncoded := s.framesEncoded + 1)]
            && w'.pools == w.pools && w'.nextHostId == w.nextHostId && w'.nextOutputId == w.nextOutputId + 1
            && w'.outputBytesTotal == w.outputBytesTotal + 28
  {
    UniqueSession(w, si);
    UniqueBuffer(w, bi);
    AcceptedIs(w, si, bi, proxy, pts, duration, cap);
  }

  lemma AcceptedIs(w: Worker, si: nat, bi: nat, proxy: nat, pts: Time, duration: Time, cap: nat)
    requires si < |w.sessions| && bi < |w.buffers|
    requires FindSession(w, w.sessions[si].id) == Some(si) && FindBuffer(w, w.buffers[bi].id) == Some(bi)
    requires var b := w.buffers[bi];
             Dispatch(w, EncodeFrame(w.sessions[si].id, proxy, b.id, b.generation, pts, duration), cap).outcome.Ok?
    ensures var s, b := w.sessions[si], w.buffers[bi];
            var w' := Dispatch(w, EncodeFrame(s.id, proxy, b.id, b.generation, pts, duration), cap).worker;
            && |w'.outputs| == |w.outputs| + 1 && w'.outputs[..|w.outputs|] == w.outputs
            && w'.outputs[|w.outputs|].info
               == OutputInfo(s.id, w.nextOutputId, s.codec, s.width, s.height, s.format, pts, duration,
                             28, s.framesEncoded == 0)
            && w'.outputs[|w.outputs|].sourceId == b.id && w'.outputs[|w.outputs|].sourceGeneration == b.generation
            && !w'.outputs[|w.outputs|].dequeued
            && w'.buffers == w.buffers[bi := b.(state := QueuedToHost)]
            && w'.sessions == w.sessions[si := s.(framesEncoded := s.framesEncoded + 1)]
            && w'.pools == w.pools && w'.nextHostId == w.nextHostId && w'.nextOutputId == w.nextOutputId + 1
            && w'.outputBytesTotal == w.outputBytesTotal + 28
  {
  }

  /** A 64-bit wrapping result. */
  function Wrapped(x: nat): (r: nat) {
    x % TWO_64
  }

  lemma WrappedLow(x: nat)
    ensures Wrapped(x) % 256 == x % 256
  {
    assert x == TWO_64 * (x / TWO_64) + Wrapped(x);
  }

  lemma SumLow(x: nat, x': nat, y: nat, y': nat)
    requires x % 256 == x' % 256 && y % 256 == y' % 256
    ensures Wrapped(x + y) % 256 == (x' + y') % 256
  {
    SameLow(x, x', y);
    SameLow(y, y', x');
    WrappedLow(x + y);
  }

  lemma SameLow(x: nat, y: nat, c: nat)
    requires x % 256 == y % 256
    ensures (x + c) % 256 == (y + c) % 256
  {
  }

  /** The seed of the filler in 64-bit arithmetic. */
  function ReplySeed(sessionId: nat, outputId: nat, index: nat): (seed: nat) {
    Wrapped(Wrapped(Wrapped(sessionId * 131) + Wrapped(outputId * 17)) + Wrapped(index * 29))
  }

  lemma SeedByteIsLow(sessionId: nat, outputId: nat, index: nat)
    ensures SeedByte(sessionId, outputId, index) == ReplySeed(sessionId, outputId, index) % 256
  {
    var a, b, c := sessionId * 131, outputId * 17, index * 29;
    WrappedLow(a);
    WrappedLow(b);
    WrappedLow(c);
    SumLow(Wrapped(a), a, Wrapped(b), b);
    SumLow(Wrapped(Wrapped(a) + Wrapped(b)), a + b, Wrapped(c), c);
  }

  /** Every byte of an encoded sample: the big-endian length of the rest, the unit type that says
      whether it is a session's first, the start of the frame, and filler to 28 bytes. */
  lemma SampleIs(sync: bool, prefix: seq<byte>, sessionId: nat, outputId: nat, k: nat)
    requires |prefix| <= 8 && k < 28
    ensures var sample := MockSample(sync, prefix, sessionId, outputId);
            && |sample| == 28
            && sample[k] == if k < 3 then 0 else if k == 3 then 28 - 4
                            else if k == 4 then (if sync then 0x65 else 0x41)
                            else if k < 5 + |prefix| then prefix[k - 5]
                            else ReplySeed(sessionId, outputId, k - 4) % 256
  {
    if k >= 5 + |prefix| {
      SeedByteIsLow(sessionId, outputId, k - 4);
    }
  }

  lemma UniqueSession(w: Worker, k: nat)
    requires Valid(w) && k < |w.sessions|
    ensures FindSession(w, w.sessions[k].id) == Some(k)
  {
    var r := FindSession(w, w.sessions[k].id);
    assert r.Some?;
  }

  /** The status of a refused frame is that of the first condition it breaks. */
  lemma FrameStatus(w: Worker, si: nat, bi: nat, proxy: nat, generation: nat, pts: Time, duration: Time, cap: nat)
    requires Valid(w) && si < |w.sessions| && bi < |w.buffers|
    ensures var s, b := w.sessions[si], w.buffers[bi];
            var step := Dispatch(w, EncodeFrame(s.id, proxy, b.id, generation, pts, duration), cap);
            if !s.prepared then step == Fail(w, STATUS_INVALID_STATE)
            else if proxy == 0 then step == Fail(w, STATUS_INVALID_HANDLE)
            else if generation != b.generation then step == Fail(w, STATUS_STALE_GENERATION)
            else if b.state != GuestWritable then step == Fail(w, STATUS_INVALID_STATE)
            else if |w.outputs| >= w.maxOutputCount || w.outputBytesTotal + 28 > w.maxOutputBytes
            then step == Fail(w, STATUS_RESOURCE_EXHAUSTED)
            else step.outcome == Ok(Empty)
  {
    UniqueSession(w, si);
    UniqueBuffer(w, bi);
    BufferSlot(w, bi);
  }

  /** Preparing marks one session and nothing else. */
  lemma PrepareLaw(w: Worker, si: nat, cap: nat)
    requires Valid(w) && si < |w.sessions|
    ensures Dispatch(w, PrepareSession(w.sessions[si].id), cap)
         == Step(w.(sessions := w.sessions[si := w.sessions[si].(prepared := true)]), Ok(Empty))
  {
    UniqueSession(w, si);
  }

  // ---------- outputs ----------

  /** A release takes the output out and makes its buffer writable again, but only if the buffer
      is still queued for that very lease. No other buffer changes. */
  lemma ReleaseLaw(w: Worker, i: nat, cap: nat)
    requires Valid(w) && i < |w.outputs|
    ensures var o := w.outputs[i];
            var step := Dispatch(w, ReleaseOutput(o.info.outputId), cap);
            var w' := step.worker;
            && step.outcome == Ok(Empty)
            && w'.outputs == w.outputs[..i] + w.outputs[i + 1..] && w'.outputBytesTotal + 28 == w.outputBytesTotal
            && w'.sessions == w.sessions && w'.pools == w.pools && |w'.buffers| == |w.buffers|
            && w'.nextHostId == w.nextHostId && w'.nextOutputId == w.nextOutputId
            && forall j :: 0 <= j < |w.buffers| ==>
                 var b := w.buffers[j];
                 w'.buffers[j] == if b.id == o.sourceId && b.generation == o.sourceGeneration && b.state == QueuedToHost
                                  then b.(state := GuestWritable) else b
  {
    UniqueOutput(w, i);
    SumByMember(w.outputs, i, SampleBytes());
    ReleasedBuffers(w, i);
  }

  lemma ReleasedBuffers(w: Worker, i: nat)
    requires Valid(w) && i < |w.outputs|
    ensures var o := w.outputs[i];
            var bs := Unqueue(w.buffers, FindBuffer(w, o.sourceId), o.sourceGeneration);
            && |bs| == |w.buffers|
            && forall j :: 0 <= j < |w.buffers| ==>
                 var b := w.buffers[j];
                 bs[j] == if b.id == o.sourceId && b.generation == o.sourceGeneration && b.state == QueuedToHost
                          then b.(state := GuestWritable) else b
  {
    var o := w.outputs[i];
    forall j | 0 <= j < |w.buffers| && w.buffers[j].id == o.sourceId ensures FindBuffer(w, o.sourceId) == Some(j) {
      UniqueBuffer(w, j);
    }
  }

  /** Where the session's outputs are. */
  ghost function PlacesOf(os: seq<Output>, sid: nat): (r: set<nat>) {
    set i: nat | i < |os| && os[i].info.sessionId == sid
  }

  /** Draining counts the session's outputs, dequeued or not, and changes nothing. */
  lemma DrainLaw(w: Worker, si: nat, cap: nat)
    requires Valid(w) && si < |w.sessions| && MAX_FIXED_REPLY <= cap
    ensures var id := w.sessions[si].id;
            Dispatch(w, Drain(id), cap) == Step(w, Ok(Drained(id, |PlacesOf(w.outputs, id)|)))
  {
    UniqueSession(w, si);
    KeptPlaces(w.outputs, w.sessions[si].id);
  }

  lemma {:induction false} KeptPlaces(os: seq<Output>, sid: nat)
    ensures |Keep(os, OutputOf(sid))| == |PlacesOf(os, sid)|
  {
    if |os| > 0 {
      var n := |os| - 1;
      KeptPlaces(os[..n], sid);
      LastPlace(os, sid);
    }
  }

  lemma LastPlace(os: seq<Output>, sid: nat)
    requires |os| > 0
    ensures var before := PlacesOf(os[..|os| - 1], sid);
            |PlacesOf(os, sid)| == if os[|os| - 1].info.sessionId == sid then |before| + 1 else |before|
  {
    var n := |os| - 1;
    var before := PlacesOf(os[..n], sid);
    assert n !in before;
    if os[n].info.sessionId == sid {
      assert PlacesOf(os, sid) == before + {n};
    } else {
      assert PlacesOf(os, sid) == before;
    }
  }

  /** An output can be read exactly while it is out of the queue and not released. */
  lemma ReadOutputLaw(w: Worker, i: nat, cap: nat)
    requires Valid(w) && i < |w.outputs| && MAX_FIXED_REPLY <= cap
    ensures var o := w.outputs[i];
            Dispatch(w, ReadOutput(o.info.outputId), cap)
            == if o.dequeued then Step(w, Ok(OutputBytes(o.info.outputId, 28, o.sample)))
               else Fail(w, STATUS_INVALID_HANDLE)
  {
    var id := w.outputs[i].info.outputId;
    var r := IndexWhere(w.outputs, Taken(id));
    assert r.Some? ==> w.outputs[r.value].info.outputId == id;
    assert w.outputs[i].dequeued ==> Taken(id)(w.outputs[i]);
  }

  lemma UnknownOutput(w: Worker, id: nat, cap: nat)
    requires forall j :: 0 <= j < |w.outputs| ==> w.outputs[j].info.outputId != id
    ensures Dispatch(w, ReadOutput(id), cap) == Fail(w, STATUS_INVALID_HANDLE)
    ensures Dispatch(w, ReleaseOutput(id), cap) == Fail(w, STATUS_INVALID_HANDLE)
  {
  }

  // ---------- opening sessions and pools ----------

  /** A session is opened while fewer than 32 are, under an id nothing else has. */
  lemma CreateSessionLaw(w: Worker, kind: u32, codec: u32, width: u32, height: u32, format: u32, cap: nat)
    requires Valid(w) && MAX_FIXED_REPLY <= cap
    ensures var step := Dispatch(w, CreateSession(kind, codec, width, height, format), cap);
            if |w.sessions| >= 32 then step == Fail(w, STATUS_INTERNAL_FAILURE)
            else
              && step.outcome == Ok(SessionCreated(w.nextHostId, width, height, format)) && IdIsNew(w, w.nextHostId)
              && step.worker == w.(nextHostId := w.nextHostId + 1, sessions := w.sessions
                                     + [Session(w.nextHostId, kind, codec, width, height, format, false, 0)])
  {
  }

  ghost predicate IdIsNew(w: Worker, id: nat) {
    && (forall k :: 0 <= k < |w.sessions| ==> w.sessions[k].id < id)
    && (forall k :: 0 <= k < |w.pools| ==> w.pools[k].id < id)
    && (forall k :: 0 <= k < |w.buffers| ==> w.buffers[k].id < id)
  }

  /** A pool belongs to a session that exists or to none, has as many slots as asked for or four,
      each the size of one frame, and starts cleared and empty. */
  lemma CreatePoolLaw(w: Worker, sid: nat, count: u32, format: u32, width: u32, height: u32, cap: nat)
    requires Valid(w) && MAX_FIXED_REPLY <= cap
    ensures var step := Dispatch(w, CreatePool(sid, count, format, width, height), cap);
            var slots := if count == 0 then 4 else count;
            var layout := WorkerLayout(width, height, format);
            if |w.pools| >= 64 then step == Fail(w, STATUS_INTERNAL_FAILURE)
            else if sid != 0 && !HasSession(w.sessions, sid) then step == Fail(w, STATUS_INVALID_HANDLE)
            else
              && IdIsNew(w, w.nextHostId)
              && step.outcome == Ok(PoolCreated(w.nextHostId, width, height, format, slots,
                                                slots * layout.totalSize % TWO_32, layout))
              && |step.worker.pools| == |w.pools| + 1
              && var p := step.worker.pools[|w.pools|];
                 && step.worker == w.(nextHostId := w.nextHostId + 1, pools := w.pools + [p])
                 && p == Pool(w.nextHostId, sid, width, height, format, slots, 0, layout.totalSize, p.backing)
                 && |p.backing| == slots * layout.totalSize
                 && forall k :: 0 <= k < |p.backing| ==> p.backing[k] == 0
  {
    var slots := if count == 0 then 4 else count;
    TimesIsProduct(slots, WorkerLayout(width, height, format).totalSize);
    NewIds(w);
  }

  lemma NewIds(w: Worker)
    requires Valid(w)
    ensures IdIsNew(w, w.nextHostId)
  {
    forall k | 0 <= k < |w.pools| ensures w.pools[k].id < w.nextHostId {
      assert PoolOk(w.pools[k], w.sessions, w.nextHostId);
    }
  }

  /** Requests about the connection itself. */
  lemma ControlLaw(w: Worker, write: bool, opcode: nat, cap: nat)
    requires MAX_FIXED_REPLY <= cap
    ensures Dispatch(w, Hello, cap) == Step(w, Ok(HelloReply)) && Dispatch(w, Ping, cap) == Step(w, Ok(Empty))
    ensures Dispatch(w, GetCaps, cap) == Step(w, Ok(Caps(w.maxOutputCount)))
    ensures Dispatch(w, Unknown(opcode), cap) == Fail(w, STATUS_UNSUPPORTED_OPCODE)
    ensures Dispatch(w, WrongVersion, cap) == Fail(w, STATUS_UNSUPPORTED_VERSION)
    ensures Dispatch(w, Truncated(write), cap)
         == Fail(w, if write then STATUS_BOUNDS_VIOLATION else STATUS_INTERNAL_FAILURE)
  {
  }
}
