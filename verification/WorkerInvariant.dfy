/** What every request sequence keeps true of the worker. */
module WorkerInvariant {
  import opened Bits
  import opened Collections
  import opened Layout
  import opened Protocol
  import opened Worker

  ghost predicate HasSession(ss: seq<Session>, id: nat) {
    exists k :: 0 <= k < |ss| && ss[k].id == id
  }

  ghost predicate HasPool(ps: seq<Pool>, id: nat) {
    exists k :: 0 <= k < |ps| && ps[k].id == id
  }

  ghost predicate SessionsOk(ss: seq<Session>, next: nat) {
    && (forall i, j :: 0 <= i < j < |ss| ==> ss[i].id < ss[j].id)
    && (forall i :: 0 <= i < |ss| ==> 0 < ss[i].id < next)
  }

  /** A pool's backing is its slots end to end, and its owner, if any, exists. */
  ghost predicate PoolOk(p: Pool, ss: seq<Session>, next: nat) {
    && 0 < p.id < next
    && p.bufferCount <= p.maxBuffers
    && p.slotSize == WorkerLayout(p.width, p.height, p.format).totalSize
    && |p.backing| == Times(p.maxBuffers, p.slotSize)
    && (p.sessionId == 0 || HasSession(ss, p.sessionId))
  }

  ghost predicate PoolsOk(ss: seq<Session>, ps: seq<Pool>, next: nat) {
    && (forall i, j :: 0 <= i < j < |ps| ==> ps[i].id < ps[j].id)
    && (forall i :: 0 <= i < |ps| ==> PoolOk(ps[i], ss, next))
  }

  ghost predicate Fits(b: Buffer, p: Pool) {
    && b.slotIndex < p.bufferCount
    && b.totalSize == p.slotSize > 0
    && b.width == p.width && b.height == p.height && b.format == p.format
  }

  ghost predicate SlotUsed(p: Pool, slot: nat, bs: seq<Buffer>) {
    exists i :: 0 <= i < |bs| && bs[i].poolId == p.id && bs[i].slotIndex == slot
  }

  /** The live buffers of a pool occupy exactly its slots 0..bufferCount, one each. */
  ghost predicate BuffersOk(ps: seq<Pool>, bs: seq<Buffer>, next: nat) {
    && (forall i, j :: 0 <= i < j < |bs| ==> bs[i].id < bs[j].id)
    && (forall i :: 0 <= i < |bs| ==> 0 < bs[i].id < next && 1 <= bs[i].generation && HasPool(ps, bs[i].poolId))
    && (forall i, k :: 0 <= i < |bs| && 0 <= k < |ps| && bs[i].poolId == ps[k].id ==> Fits(bs[i], ps[k]))
    && (forall i, j :: 0 <= i < j < |bs| && bs[i].poolId == bs[j].poolId ==> bs[i].slotIndex != bs[j].slotIndex)
    && (forall k, s :: 0 <= k < |ps| && 0 <= s < ps[k].bufferCount ==> SlotUsed(ps[k], s, bs))
  }

  /** Queue order, ownership and byte accounting of the outputs. */
  ghost predicate OutputsOk(ss: seq<Session>, os: seq<Output>, nextOutput: nat, total: nat, maxCount: nat,
      maxBytes: nat) {
    && (forall i, j :: 0 <= i < j < |os| ==> os[i].info.outputId < os[j].info.outputId)
    && (forall i :: 0 <= i < |os| ==>
          && os[i].info.outputId < nextOutput
          && HasSession(ss, os[i].info.sessionId)
          && os[i].info.sampleSize == |os[i].sample| == SAMPLE_SIZE)
    && (forall i, j :: 0 <= i < j < |os| && os[i].info.sessionId == os[j].info.sessionId && os[j].dequeued ==>
          os[i].dequeued)
    && total == SumBy(os, SampleBytes())
    && |os| <= maxCount <= MAX_OUTPUTS
    && (os != [] ==> total <= maxBytes)
  }

  /** An outstanding output pins its lease: while that lease is current the buffer is
      queued or recycled, and no other output refers to it. */
  ghost predicate LeasesOk(bs: seq<Buffer>, os: seq<Output>, next: nat) {
    && (forall i :: 0 <= i < |os| ==> os[i].sourceId < next)
    && (forall i, k :: 0 <= i < |os| && 0 <= k < |bs| && os[i].sourceId == bs[k].id ==>
          && os[i].sourceGeneration <= bs[k].generation
          && (os[i].sourceGeneration == bs[k].generation ==> bs[k].state != GuestWritable))
    && (forall i, j :: 0 <= i < j < |os| ==>
          os[i].sourceId != os[j].sourceId || os[i].sourceGeneration != os[j].sourceGeneration)
  }

  ghost predicate Valid(w: Worker) {
    && 0 < w.nextHostId
    && SessionsOk(w.sessions, w.nextHostId)
    && PoolsOk(w.sessions, w.pools, w.nextHostId)
    && BuffersOk(w.pools, w.buffers, w.nextHostId)
    && OutputsOk(w.sessions, w.outputs, w.nextOutputId, w.outputBytesTotal, w.maxOutputCount, w.maxOutputBytes)
    && LeasesOk(w.buffers, w.outputs, w.nextHostId)
    && |w.sessions| <= MAX_SESSIONS && |w.pools| <= MAX_POOLS && |w.buffers| <= MAX_BUFFERS
  }

  lemma FreshValid(maxOutputs: nat, maxBytes: nat)
    ensures Valid(Fresh(maxOutputs, maxBytes))
  {
  }

  // ---------- slots ----------

  /** Slot `s` of a pool lies inside the backing whenever `s` is below the slot count. */
  lemma SlotInside(p: Pool, s: nat)
    requires |p.backing| == Times(p.maxBuffers, p.slotSize) && s < p.maxBuffers
    ensures p.slotSize > 0 ==> PoolSlot(p, s) == Some((Times(s, p.slotSize), Times(s, p.slotSize) + p.slotSize))
  {
    TimesSteps(s, p.maxBuffers, p.slotSize);
  }

  /** Every live buffer's slot is found, whole, in its own pool. */
  lemma BufferSlot(w: Worker, i: nat)
    requires Valid(w) && i < |w.buffers|
    ensures var b := w.buffers[i];
            var k := FindPool(w, b.poolId);
            && k.Some? && Fits(b, w.pools[k.value])
            && PoolSlot(w.pools[k.value], b.slotIndex)
               == Some((Times(b.slotIndex, b.totalSize), Times(b.slotIndex, b.totalSize) + b.totalSize))
  {
    var b := w.buffers[i];
    var k := FindPool(w, b.poolId);
    assert HasPool(w.pools, b.poolId);
    assert k.Some?;
    assert Fits(b, w.pools[k.value]);
    assert PoolOk(w.pools[k.value], w.sessions, w.nextHostId);
    SlotInside(w.pools[k.value], b.slotIndex);
  }

  lemma UniquePool(w: Worker, k: nat)
    requires Valid(w) && k < |w.pools|
    ensures FindPool(w, w.pools[k].id) == Some(k)
  {
    var r := FindPool(w, w.pools[k].id);
    assert r.Some?;
  }

  lemma UniqueBuffer(w: Worker, k: nat)
    requires Valid(w) && k < |w.buffers|
    ensures FindBuffer(w, w.buffers[k].id) == Some(k)
  {
    var r := FindBuffer(w, w.buffers[k].id);
    assert r.Some?;
  }

  // ---------- creation ----------

  lemma CreateSessionKeeps(w: Worker, cap: nat, kind: u32, codec: u32, width: u32, height: u32, format: u32)
    requires Valid(w)
    ensures Valid(DoCreateSession(w, cap, kind, codec, width, height, format).worker)
  {
    if |w.sessions| < MAX_SESSIONS {
      var s := Session(w.nextHostId, kind, codec, width, height, format, false, 0);
      SessionAdded(w, s);
      assert DoCreateSession(w, cap, kind, codec, width, height, format).worker
          == w.(nextHostId := w.nextHostId + 1, sessions := w.sessions + [s]);
    }
  }

  lemma SessionAdded(w: Worker, s: Session)
    requires Valid(w) && |w.sessions| < MAX_SESSIONS && s.id == w.nextHostId
    ensures Valid(w.(nextHostId := w.nextHostId + 1, sessions := w.sessions + [s]))
  {
    PoolsOfMore(w.sessions, s, w.pools, w.nextHostId);
    OutputsOfMore(w.sessions, s, w.outputs, w.nextOutputId, w.outputBytesTotal, w.maxOutputCount, w.maxOutputBytes);
  }

  lemma SessionStill(ss: seq<Session>, s: Session, id: nat)
    requires HasSession(ss, id)
    ensures HasSession(ss + [s], id)
  {
    var k :| 0 <= k < |ss| && ss[k].id == id;
    assert (ss + [s])[k].id == id;
  }

  lemma PoolsOfMore(ss: seq<Session>, s: Session, ps: seq<Pool>, next: nat)
    requires PoolsOk(ss, ps, next)
    ensures PoolsOk(ss + [s], ps, next + 1)
  {
    forall i | 0 <= i < |ps| ensures PoolOk(ps[i], ss + [s], next + 1) {
      assert PoolOk(ps[i], ss, next);
      if ps[i].sessionId != 0 {
        SessionStill(ss, s, ps[i].sessionId);
      }
    }
  }

  lemma OutputsOfMore(ss: seq<Session>, s: Session, os: seq<Output>, nextOutput: nat, total: nat, maxCount: nat,
      maxBytes: nat)
    requires OutputsOk(ss, os, nextOutput, total, maxCount, maxBytes)
    ensures OutputsOk(ss + [s], os, nextOutput, total, maxCount, maxBytes)
  {
    forall i | 0 <= i < |os| ensures HasSession(ss + [s], os[i].info.sessionId) {
      SessionStill(ss, s, os[i].info.sessionId);
    }
  }

  lemma CreatePoolKeeps(w: Worker, cap: nat, sid: nat, count: u32, format: u32, width: u32, height: u32)
    requires Valid(w)
    ensures Valid(DoCreatePool(w, cap, sid, count, format, width, height).worker)
  {
    var r := DoCreatePool(w, cap, sid, count, format, width, height);
    if |w.pools| < MAX_POOLS && (sid == 0 || FindSession(w, sid).Some?) {
      var size := WorkerLayout(width, height, format).totalSize;
      var n := if count == 0 then DEFAULT_POOL_BUFFERS else count;
      var p := Pool(w.nextHostId, sid, width, height, format, n, 0, size, Zeros(Times(n, size)));
      assert r.worker == w.(pools := w.pools + [p], nextHostId := w.nextHostId + 1);
      assert sid == 0 || HasSession(w.sessions, sid);
      PoolAdded(w, p);
    }
  }

  lemma PoolAdded(w: Worker, p: Pool)
    requires Valid(w) && |w.pools| < MAX_POOLS
    requires p.id == w.nextHostId && p.bufferCount == 0 && PoolOk(p, w.sessions, w.nextHostId + 1)
    ensures Valid(w.(pools := w.pools + [p], nextHostId := w.nextHostId + 1))
  {
    PoolAppended(w.pools, p, w.buffers, w.nextHostId);
    PoolsAppended(w.sessions, w.pools, p, w.nextHostId);
  }

  lemma PoolsAppended(ss: seq<Session>, ps: seq<Pool>, p: Pool, next: nat)
    requires PoolsOk(ss, ps, next) && PoolOk(p, ss, next + 1) && p.id == next
    ensures PoolsOk(ss, ps + [p], next + 1)
  {
    forall i | 0 <= i < |ps| ensures PoolOk((ps + [p])[i], ss, next + 1) {
      assert PoolOk(ps[i], ss, next);
    }
  }

  lemma PoolAppended(ps: seq<Pool>, p: Pool, bs: seq<Buffer>, next: nat)
    requires BuffersOk(ps, bs, next) && p.id == next && p.bufferCount == 0
    requires forall k :: 0 <= k < |ps| ==> ps[k].id < next
    ensures BuffersOk(ps + [p], bs, next + 1)
  {
    var ps' := ps + [p];
    forall i | 0 <= i < |bs| ensures HasPool(ps', bs[i].poolId) && bs[i].poolId != next {
      var k :| 0 <= k < |ps| && ps[k].id == bs[i].poolId;
      assert ps'[k].id == bs[i].poolId;
    }
  }

  // ---------- pool contents ----------

  /** Pools that differ at most in their bytes. */
  ghost predicate SameShape(ps: seq<Pool>, ps': seq<Pool>) {
    && |ps| == |ps'|
    && forall k :: 0 <= k < |ps| ==> ps'[k] == ps[k].(backing := ps'[k].backing) && |ps'[k].backing| == |ps[k].backing|
  }

  lemma SameShapeKeeps(ss: seq<Session>, ps: seq<Pool>, ps': seq<Pool>, bs: seq<Buffer>, next: nat)
    requires PoolsOk(ss, ps, next) && BuffersOk(ps, bs, next) && SameShape(ps, ps')
    ensures PoolsOk(ss, ps', next) && BuffersOk(ps', bs, next)
  {
    forall id | HasPool(ps, id) ensures HasPool(ps', id) {
      var k :| 0 <= k < |ps| && ps[k].id == id;
      assert ps'[k].id == id;
    }
    forall k, s | 0 <= k < |ps'| && 0 <= s < ps'[k].bufferCount ensures SlotUsed(ps'[k], s, bs) {
      assert SlotUsed(ps[k], s, bs);
    }
    forall k | 0 <= k < |ps'| ensures PoolOk(ps'[k], ss, next) {
      assert PoolOk(ps[k], ss, next);
    }
    forall i, k | 0 <= i < |bs| && 0 <= k < |ps'| && bs[i].poolId == ps'[k].id ensures Fits(bs[i], ps'[k]) {
      assert Fits(bs[i], ps[k]);
    }
  }

  lemma WriteBufferKeeps(w: Worker, id: nat, generation: nat, offset: u32, length: u32, data: seq<byte>)
    requires Valid(w)
    ensures Valid(DoWriteBuffer(w, id, generation, offset, length, data).worker)
  {
    var r := DoWriteBuffer(w, id, generation, offset, length, data);
    if r.outcome.Ok? {
      var b := w.buffers[FindBuffer(w, id).value];
      var k := FindPool(w, b.poolId).value;
      var start := PoolSlot(w.pools[k], b.slotIndex).value.0;
      BackingReplaced(w, k, Splice(w.pools[k].backing, start + offset, data));
    }
  }

  lemma BackingReplaced(w: Worker, k: nat, bytes: seq<byte>)
    requires Valid(w) && k < |w.pools| && |bytes| == |w.pools[k].backing|
    ensures Valid(SetBacking(w, k, bytes))
  {
    var ps' := SetBacking(w, k, bytes).pools;
    assert SameShape(w.pools, ps');
    SameShapeKeeps(w.sessions, w.pools, ps', w.buffers, w.nextHostId);
  }

  // ---------- leases ----------

  /** Buffers that differ at most in generation and state, generations never falling. */
  ghost predicate SamePlaces(bs: seq<Buffer>, bs': seq<Buffer>) {
    && |bs| == |bs'|
    && forall k :: 0 <= k < |bs| ==>
         bs'[k] == bs[k].(generation := bs'[k].generation, state := bs'[k].state)
           && bs[k].generation <= bs'[k].generation
  }

  lemma SamePlacesKeeps(ps: seq<Pool>, bs: seq<Buffer>, bs': seq<Buffer>, next: nat)
    requires BuffersOk(ps, bs, next) && SamePlaces(bs, bs')
    ensures BuffersOk(ps, bs', next)
  {
    forall k, s | 0 <= k < |ps| && 0 <= s < ps[k].bufferCount ensures SlotUsed(ps[k], s, bs') {
      assert SlotUsed(ps[k], s, bs);
      var i :| 0 <= i < |bs| && bs[i].poolId == ps[k].id && bs[i].slotIndex == s;
      assert bs'[i].poolId == ps[k].id;
    }
    forall i, k | 0 <= i < |bs'| && 0 <= k < |ps| && bs'[i].poolId == ps[k].id ensures Fits(bs'[i], ps[k]) {
      assert Fits(bs[i], ps[k]);
    }
  }

  lemma RecycleBufferKeeps(w: Worker, poolId: nat, id: nat, generation: nat)
    requires Valid(w)
    ensures Valid(DoRecycleBuffer(w, poolId, id, generation).worker)
  {
    var r := DoRecycleBuffer(w, poolId, id, generation);
    if r.outcome.Ok? {
      var i := FindBuffer(w, id).value;
      BufferRestated(w, i, Recycled);
    }
  }

  /** Moving a buffer to a state that is not guest-writable disturbs nothing else. */
  lemma BufferRestated(w: Worker, i: nat, state: BufferState)
    requires Valid(w) && i < |w.buffers| && state != GuestWritable
    ensures Valid(SetBuffer(w, i, w.buffers[i].(state := state)))
  {
    var bs' := w.buffers[i := w.buffers[i].(state := state)];
    SamePlacesKeeps(w.pools, w.buffers, bs', w.nextHostId);
    assert LeasesOk(bs', w.outputs, w.nextHostId);
  }

  /** The failure branch after the generation bump is never taken in a valid state. */
  lemma LeaseAgainFindsSlot(w: Worker, k: nat, i: nat)
    requires Valid(w) && k < |w.pools| && i < |w.buffers| && w.buffers[i].poolId == w.pools[k].id
    ensures PoolSlot(w.pools[k], w.buffers[i].slotIndex).Some?
  {
    BufferSlot(w, i);
    UniquePool(w, k);
  }

  lemma LeaseAgainKeeps(w: Worker, cap: nat, k: nat, i: nat)
    requires Valid(w) && k < |w.pools| && i < |w.buffers| && w.buffers[i].poolId == w.pools[k].id
    ensures Valid(DoLeaseAgain(w, cap, k, i).worker)
  {
    LeaseAgainFindsSlot(w, k, i);
    LeaseBumped(w, i);
    var w1 := SetBuffer(w, i, Relet(w.buffers[i]));
    var bytes := Zeroed(w.pools[k], PoolSlot(w.pools[k], w.buffers[i].slotIndex).value);
    BackingReplaced(w1, k, bytes);
    assert DoLeaseAgain(w, cap, k, i).worker == SetBacking(w1, k, bytes);
  }

  /** Every outstanding output of the buffer belongs to an older lease afterwards. */
  lemma LeaseBumped(w: Worker, i: nat)
    requires Valid(w) && i < |w.buffers|
    ensures Valid(SetBuffer(w, i, Relet(w.buffers[i])))
  {
    var bs' := w.buffers[i := Relet(w.buffers[i])];
    SamePlacesKeeps(w.pools, w.buffers, bs', w.nextHostId);
    assert LeasesOk(bs', w.outputs, w.nextHostId);
  }

  lemma AllocFreshKeeps(w: Worker, cap: nat, k: nat)
    requires Valid(w) && k < |w.pools|
    ensures Valid(DoAllocFresh(w, cap, k).worker)
  {
    var w' := DoAllocFresh(w, cap, k).worker;
    if w' != w {
      var p, p' := w.pools[k], w'.pools[k];
      assert PoolOk(p, w.sessions, w.nextHostId);
      assert p' == p.(backing := p'.backing, bufferCount := p.bufferCount + 1) && |p'.backing| == |p.backing|;
      BufferAppended(w.pools, w.buffers, w.nextHostId, k, p', w'.buffers[|w.buffers|]);
      forall j | 0 <= j < |w'.pools| ensures PoolOk(w'.pools[j], w'.sessions, w'.nextHostId) {
        assert PoolOk(w.pools[j], w.sessions, w.nextHostId);
      }
      assert w'.buffers == w.buffers + [w'.buffers[|w.buffers|]];
      LeasesGrow(w.buffers, w'.buffers[|w.buffers|], w.outputs, w.nextHostId);
    }
  }

  /** A new buffer takes the pool's next slot. */
  lemma BufferAppended(ps: seq<Pool>, bs: seq<Buffer>, next: nat, k: nat, p': Pool, b: Buffer)
    requires BuffersOk(ps, bs, next) && k < |ps|
    requires forall i, j :: 0 <= i < j < |ps| ==> ps[i].id < ps[j].id
    requires p' == ps[k].(backing := p'.backing, bufferCount := ps[k].bufferCount + 1)
    requires b.id == next > 0 && b.poolId == p'.id && b.generation == 1 && b.slotIndex == ps[k].bufferCount
        && Fits(b, p')
    ensures BuffersOk(ps[k := p'], bs + [b], next + 1)
  {
    var ps', bs' := ps[k := p'], bs + [b];
    forall i | 0 <= i < |bs'| ensures HasPool(ps', bs'[i].poolId) {
      if i < |bs| {
        var j :| 0 <= j < |ps| && ps[j].id == bs[i].poolId;
        assert ps'[j].id == bs[i].poolId;
      } else {
        assert ps'[k].id == b.poolId;
      }
    }
    forall i, j | 0 <= i < |bs'| && 0 <= j < |ps'| && bs'[i].poolId == ps'[j].id ensures Fits(bs'[i], ps'[j]) {
      if i < |bs| {
        assert Fits(bs[i], ps[j]);
      } else {
        assert j < k || j == k || k < j;
      }
    }
    forall i | 0 <= i < |bs| && bs[i].poolId == b.poolId ensures bs[i].slotIndex != b.slotIndex {
      assert Fits(bs[i], ps[k]);
    }
    forall j, s | 0 <= j < |ps'| && 0 <= s < ps'[j].bufferCount ensures SlotUsed(ps'[j], s, bs') {
      if j == k && s == ps[k].bufferCount {
        assert bs'[|bs|].poolId == p'.id && bs'[|bs|].slotIndex == s;
      } else {
        assert SlotUsed(ps[j], s, bs);
        var i :| 0 <= i < |bs| && bs[i].poolId == ps[j].id && bs[i].slotIndex == s;
        assert bs'[i].poolId == ps'[j].id && bs'[i].slotIndex == s;
      }
    }
  }

  lemma LeasesGrow(bs: seq<Buffer>, b: Buffer, os: seq<Output>, next: nat)
    requires LeasesOk(bs, os, next) && b.id == next
    ensures LeasesOk(bs + [b], os, next + 1)
  {
  }

  lemma AllocBufferKeeps(w: Worker, cap: nat, poolId: nat)
    requires Valid(w)
    ensures Valid(DoAllocBuffer(w, cap, poolId).worker)
  {
    var k := FindPool(w, poolId);
    if k.Some? {
      var i := IndexWhere(w.buffers, Recyclable(poolId));
      if i.Some? {
        assert Recyclable(poolId)(w.buffers[i.value]);
        LeaseAgainKeeps(w, cap, k.value, i.value);
      } else {
        AllocFreshKeeps(w, cap, k.value);
      }
    }
  }

  // ---------- sessions and outputs ----------

  ghost predicate SameSessionIds(ss: seq<Session>, ss': seq<Session>) {
    |ss| == |ss'| && forall k :: 0 <= k < |ss| ==> ss'[k].id == ss[k].id
  }

  lemma SameSessionIdsKeeps(ss: seq<Session>, ss': seq<Session>, id: nat)
    requires SameSessionIds(ss, ss') && HasSession(ss, id)
    ensures HasSession(ss', id)
  {
    var k :| 0 <= k < |ss| && ss[k].id == id;
    assert ss'[k].id == id;
  }

  lemma SessionsRewritten(w: Worker, ss': seq<Session>)
    requires Valid(w) && SameSessionIds(w.sessions, ss')
    ensures Valid(w.(sessions := ss'))
  {
    forall id | HasSession(w.sessions, id) ensures HasSession(ss', id) {
      SameSessionIdsKeeps(w.sessions, ss', id);
    }
    forall i | 0 <= i < |w.pools| ensures PoolOk(w.pools[i], ss', w.nextHostId) {
      assert PoolOk(w.pools[i], w.sessions, w.nextHostId);
    }
  }

  lemma PrepareSessionKeeps(w: Worker, sid: nat)
    requires Valid(w)
    ensures Valid(DoPrepareSession(w, sid).worker)
  {
    SessionsRewritten(w, DoPrepareSession(w, sid).worker.sessions);
  }

  lemma CountFrameKeeps(w: Worker, si: nat)
    requires Valid(w) && si < |w.sessions|
    ensures Valid(CountFrame(w, si))
  {
    SessionsRewritten(w, CountFrame(w, si).sessions);
  }

  /** Queueing one sample from a guest-writable buffer. */
  lemma EnqueueKeeps(w: Worker, bi: nat, o: Output)
    requires Valid(w) && bi < |w.buffers| && w.buffers[bi].state == GuestWritable && HasRoom(w)
    requires o.info.outputId == w.nextOutputId && HasSession(w.sessions, o.info.sessionId) && !o.dequeued
    requires o.info.sampleSize == |o.sample| == SAMPLE_SIZE
    requires o.sourceId == w.buffers[bi].id && o.sourceGeneration == w.buffers[bi].generation
    ensures Valid(Enqueue(w, bi, o))
  {
    OutputAppended(w.sessions, w.outputs, o, w.nextOutputId, w.outputBytesTotal, w.maxOutputCount, w.maxOutputBytes);
    SamePlacesKeeps(w.pools, w.buffers, w.buffers[bi := w.buffers[bi].(state := QueuedToHost)], w.nextHostId);
    LeaseQueued(w.buffers, w.outputs, w.nextHostId, bi, o);
  }

  lemma AcceptKeeps(w: Worker, si: nat, bi: nat, prefix: seq<byte>, pts: Time, duration: Time)
    requires Valid(w) && si < |w.sessions| && bi < |w.buffers| && |prefix| <= 8
    requires w.buffers[bi].state == GuestWritable
    ensures Valid(Accept(w, si, bi, prefix, pts, duration).worker)
  {
    if HasRoom(w) {
      var o := NewOutput(w, w.sessions[si], w.buffers[bi], prefix, pts, duration);
      assert HasSession(w.sessions, w.sessions[si].id);
      EnqueueKeeps(w, bi, o);
      CountFrameKeeps(Enqueue(w, bi, o), si);
    }
  }

  lemma OutputAppended(ss: seq<Session>, os: seq<Output>, o: Output, nextOutput: nat, total: nat, maxCount: nat,
      maxBytes: nat)
    requires OutputsOk(ss, os, nextOutput, total, maxCount, maxBytes)
    requires |os| < maxCount && SAMPLE_SIZE <= maxBytes && total <= maxBytes - SAMPLE_SIZE
    requires o.info.outputId == nextOutput && HasSession(ss, o.info.sessionId) && !o.dequeued
    requires o.info.sampleSize == |o.sample| == SAMPLE_SIZE
    ensures OutputsOk(ss, os + [o], nextOutput + 1, total + SAMPLE_SIZE, maxCount, maxBytes)
  {
    SumByAppend(os, o, SampleBytes());
  }

  lemma LeaseQueued(bs: seq<Buffer>, os: seq<Output>, next: nat, bi: nat, o: Output)
    requires LeasesOk(bs, os, next) && bi < |bs| && bs[bi].state == GuestWritable && bs[bi].id < next
    requires forall i, j :: 0 <= i < j < |bs| ==> bs[i].id < bs[j].id
    requires o.sourceId == bs[bi].id && o.sourceGeneration == bs[bi].generation
    ensures LeasesOk(bs[bi := bs[bi].(state := QueuedToHost)], os + [o], next)
  {
    var bs' := bs[bi := bs[bi].(state := QueuedToHost)];
    forall k | 0 <= k < |bs'| && bs'[k].id == o.sourceId ensures k == bi {
      assert k < bi || k == bi || bi < k;
    }
    forall i | 0 <= i < |os|
      ensures os[i].sourceId != o.sourceId || os[i].sourceGeneration != o.sourceGeneration
    {
    }
  }

  lemma EncodeFrameKeeps(w: Worker, sid: nat, proxy: nat, id: nat, generation: nat, pts: Time, duration: Time)
    requires Valid(w)
    ensures Valid(DoEncodeFrame(w, sid, proxy, id, generation, pts, duration).worker)
  {
    var si, bi := FindSession(w, sid), FindBuffer(w, id);
    if si.Some? && bi.Some? && w.buffers[bi.value].state == GuestWritable {
      EncodeFromKeeps(w, si.value, bi.value, pts, duration);
    }
  }

  lemma EncodeFromKeeps(w: Worker, si: nat, bi: nat, pts: Time, duration: Time)
    requires Valid(w) && si < |w.sessions| && bi < |w.buffers| && w.buffers[bi].state == GuestWritable
    ensures Valid(EncodeFrom(w, si, bi, pts, duration).worker)
  {
    match PrefixOf(w, w.buffers[bi])
    case Missing(_) =>
    case Found(bytes) => AcceptKeeps(w, si, bi, bytes, pts, duration);
  }

  lemma TakeReadyKeeps(w: Worker, sid: nat)
    requires Valid(w)
    ensures Valid(TakeReady(w, sid).0)
  {
    var i := IndexWhere(w.outputs, Ready(sid));
    if i.Some? {
      assert Ready(sid)(w.outputs[i.value]);
      forall k | 0 <= k < i.value && w.outputs[k].info.sessionId == sid ensures w.outputs[k].dequeued {
        assert !Ready(sid)(w.outputs[k]);
      }
      OutputMarked(w.sessions, w.outputs, i.value, w.nextOutputId, w.outputBytesTotal, w.maxOutputCount,
        w.maxOutputBytes);
      LeasesMarked(w.buffers, w.outputs, i.value, w.nextHostId);
    }
  }

  lemma OutputMarked(ss: seq<Session>, os: seq<Output>, i: nat, nextOutput: nat, total: nat, maxCount: nat,
      maxBytes: nat)
    requires OutputsOk(ss, os, nextOutput, total, maxCount, maxBytes) && i < |os|
    requires forall k :: 0 <= k < i && os[k].info.sessionId == os[i].info.sessionId ==> os[k].dequeued
    ensures OutputsOk(ss, os[i := os[i].(dequeued := true)], nextOutput, total, maxCount, maxBytes)
  {
    SumByUpdate(os, i, os[i].(dequeued := true), SampleBytes());
  }

  lemma LeasesMarked(bs: seq<Buffer>, os: seq<Output>, i: nat, next: nat)
    requires LeasesOk(bs, os, next) && i < |os|
    ensures LeasesOk(bs, os[i := os[i].(dequeued := true)], next)
  {
  }

  lemma {:induction false} TakeManyKeeps(w: Worker, sid: nat, n: nat)
    requires Valid(w)
    ensures Valid(TakeMany(w, sid, n).0)
    decreases n, 1
  {
    if n > 0 {
      TakeReadyKeeps(w, sid);
      TakeRestKeeps(w, sid, n);
    }
  }

  lemma {:induction false} TakeRestKeeps(w: Worker, sid: nat, n: nat)
    requires n > 0 && Valid(TakeReady(w, sid).0)
    ensures Valid(TakeMany(w, sid, n).0)
    decreases n, 0
  {
    TakeManyKeeps(TakeReady(w, sid).0, sid, n - 1);
    TakeManyStep(w, sid, n);
  }

  lemma TakeManyStep(w: Worker, sid: nat, n: nat)
    requires n > 0
    ensures TakeMany(w, sid, n).0 == TakeMany(TakeReady(w, sid).0, sid, n - 1).0
  {
  }

  /** The byte total covers every queued output, so the saturating subtraction is exact. */
  lemma ReleaseOutputKeeps(w: Worker, id: nat)
    requires Valid(w)
    ensures Valid(DoReleaseOutput(w, id).worker)
    ensures FindOutput(w, id).Some? ==>
              DoReleaseOutput(w, id).worker.outputBytesTotal + SAMPLE_SIZE == w.outputBytesTotal
  {
    var i := FindOutput(w, id);
    if i.Some? {
      var o := w.outputs[i.value];
      OutputRemoved(w.sessions, w.outputs, i.value, w.nextOutputId, w.outputBytesTotal, w.maxOutputCount,
        w.maxOutputBytes);
      var bs' := Unqueue(w.buffers, FindBuffer(w, o.sourceId), o.sourceGeneration);
      SamePlacesKeeps(w.pools, w.buffers, bs', w.nextHostId);
      LeaseReleased(w, i.value);
    }
  }

  lemma OutputRemoved(ss: seq<Session>, os: seq<Output>, i: nat, nextOutput: nat, total: nat, maxCount: nat,
      maxBytes: nat)
    requires OutputsOk(ss, os, nextOutput, total, maxCount, maxBytes) && i < |os|
    ensures SAMPLE_SIZE <= total
    ensures OutputsOk(ss, RemoveAt(os, i), nextOutput, total - SAMPLE_SIZE, maxCount, maxBytes)
  {
    SumByMember(os, i, SampleBytes());
    SumByRemove(os, i, SampleBytes());
    RemovedInOrder(ss, os, i, nextOutput, total, maxCount, maxBytes);
  }

  lemma RemovedInOrder(ss: seq<Session>, os: seq<Output>, i: nat, nextOutput: nat, total: nat, maxCount: nat,
      maxBytes: nat)
    requires OutputsOk(ss, os, nextOutput, total, maxCount, maxBytes) && i < |os|
    ensures var os' := RemoveAt(os, i);
            && (forall j, k :: 0 <= j < k < |os'| ==> os'[j].info.outputId < os'[k].info.outputId)
            && (forall j, k ::
                  0 <= j < k < |os'| && os'[j].info.sessionId == os'[k].info.sessionId && os'[k].dequeued ==>
                    os'[j].dequeued)
  {
  }

  lemma LeaseReleased(w: Worker, i: nat)
    requires Valid(w) && i < |w.outputs|
    ensures var o := w.outputs[i];
            LeasesOk(Unqueue(w.buffers, FindBuffer(w, o.sourceId), o.sourceGeneration), RemoveAt(w.outputs, i),
              w.nextHostId)
  {
    var o := w.outputs[i];
    var bi := FindBuffer(w, o.sourceId);
    var bs', os' := Unqueue(w.buffers, bi, o.sourceGeneration), RemoveAt(w.outputs, i);
    forall j, k | 0 <= j < |os'| && 0 <= k < |bs'| && os'[j].sourceId == bs'[k].id
      ensures os'[j].sourceGeneration <= bs'[k].generation
      ensures os'[j].sourceGeneration == bs'[k].generation ==> bs'[k].state != GuestWritable
    {
      var j' := if j < i then j else j + 1;
      assert os'[j] == w.outputs[j'] && j' != i;
      if bi.Some? && k == bi.value {
        assert os'[j].sourceGeneration != o.sourceGeneration;
      }
    }
  }

  // ---------- teardown ----------

  lemma DestroySessionKeeps(w: Worker, sid: nat)
    requires Valid(w) && FindSession(w, sid).Some?
    ensures Valid(DoDestroySession(w, sid).worker)
  {
    SessionsKept(w.sessions, sid, w.nextHostId);
    PoolsKept(w.sessions, w.pools, sid, w.nextHostId);
    BuffersKept(w, sid);
    OutputsKept(w.sessions, w.outputs, sid, w.nextOutputId, w.outputBytesTotal, w.maxOutputCount, w.maxOutputBytes);
    LeasesKept(w.buffers, w.outputs, PoolIds(Keep(w.pools, PoolOf(sid))), sid, w.nextHostId);
  }

  lemma SessionsKept(ss: seq<Session>, sid: nat, next: nat)
    requires SessionsOk(ss, next)
    ensures var ss' := Keep(ss, SessionIsNot(sid));
            |ss'| <= |ss| && SessionsOk(ss', next)
  {
    var at := KeptAt(ss, SessionIsNot(sid));
    AscendingIsShort(at, |ss|);
  }

  lemma OtherSessionStays(ss: seq<Session>, sid: nat, id: nat)
    requires HasSession(ss, id) && id != sid
    ensures HasSession(Keep(ss, SessionIsNot(sid)), id)
  {
    var k :| 0 <= k < |ss| && ss[k].id == id;
    var i := KeptIndex(ss, SessionIsNot(sid), k);
    assert Keep(ss, SessionIsNot(sid))[i].id == id;
  }

  lemma {:induction false} AscendingIsShort(at: seq<nat>, n: nat)
    requires forall i :: 0 <= i < |at| ==> at[i] < n
    requires forall i, j :: 0 <= i < j < |at| ==> at[i] < at[j]
    ensures |at| <= n
  {
    if |at| > 0 {
      AscendingIsShort(at[..|at| - 1], at[|at| - 1]);
    }
  }

  lemma PoolsKept(ss: seq<Session>, ps: seq<Pool>, sid: nat, next: nat)
    requires PoolsOk(ss, ps, next)
    ensures var ps' := Keep(ps, PoolNotOf(sid));
            |ps'| <= |ps| && PoolsOk(Keep(ss, SessionIsNot(sid)), ps', next)
  {
    var ps' := Keep(ps, PoolNotOf(sid));
    var at := KeptAt(ps, PoolNotOf(sid));
    AscendingIsShort(at, |ps|);
    forall i | 0 <= i < |ps'| ensures PoolOk(ps'[i], Keep(ss, SessionIsNot(sid)), next) {
      assert PoolOk(ps[at[i]], ss, next);
      assert PoolNotOf(sid)(ps'[i]);
      if ps'[i].sessionId != 0 {
        OtherSessionStays(ss, sid, ps'[i].sessionId);
      }
    }
  }

  /** A pool id is gone exactly when no kept pool has it. */
  lemma GoneIsNotKept(ps: seq<Pool>, sid: nat, k: nat)
    requires forall i, j :: 0 <= i < j < |ps| ==> ps[i].id < ps[j].id
    requires k < |ps|
    ensures ps[k].id in PoolIds(Keep(ps, PoolOf(sid))) <==> ps[k].sessionId == sid
  {
    var gone := Keep(ps, PoolOf(sid));
    if ps[k].sessionId == sid {
      var i := KeptIndex(ps, PoolOf(sid), k);
      assert gone[i].id == ps[k].id;
    } else if ps[k].id in PoolIds(gone) {
      var i :| 0 <= i < |gone| && gone[i].id == ps[k].id;
      var j := KeptSource(ps, PoolOf(sid), i);
      assert false;
    }
  }

  lemma BuffersKept(w: Worker, sid: nat)
    requires Valid(w)
    ensures var ps' := Keep(w.pools, PoolNotOf(sid));
            var bs' := Keep(w.buffers, BufferNotIn(PoolIds(Keep(w.pools, PoolOf(sid)))));
            |bs'| <= |w.buffers| && BuffersOk(ps', bs', w.nextHostId)
  {
    KeptBuffersApart(w.pools, w.buffers, PoolIds(Keep(w.pools, PoolOf(sid))), w.nextHostId);
    KeptBuffersHavePools(w.pools, w.buffers, sid);
    KeptSlotsUsed(w.pools, w.buffers, sid);
    KeptBuffersFit(w.pools, w.buffers, sid);
  }

  lemma KeptBuffersHavePools(ps: seq<Pool>, bs: seq<Buffer>, sid: nat)
    requires forall i, j :: 0 <= i < j < |ps| ==> ps[i].id < ps[j].id
    requires forall i :: 0 <= i < |bs| ==> HasPool(ps, bs[i].poolId)
    ensures var ps' := Keep(ps, PoolNotOf(sid));
            var bs' := Keep(bs, BufferNotIn(PoolIds(Keep(ps, PoolOf(sid)))));
            forall i :: 0 <= i < |bs'| ==> HasPool(ps', bs'[i].poolId)
  {
    var gone := PoolIds(Keep(ps, PoolOf(sid)));
    var ps', bs' := Keep(ps, PoolNotOf(sid)), Keep(bs, BufferNotIn(gone));
    forall i | 0 <= i < |bs'| ensures HasPool(ps', bs'[i].poolId) {
      var b := KeptSource(bs, BufferNotIn(gone), i);
      KeptBufferHasPool(ps, sid, bs[b].poolId);
    }
  }

  lemma KeptSlotsUsed(ps: seq<Pool>, bs: seq<Buffer>, sid: nat)
    requires forall i, j :: 0 <= i < j < |ps| ==> ps[i].id < ps[j].id
    requires forall k, s :: 0 <= k < |ps| && 0 <= s < ps[k].bufferCount ==> SlotUsed(ps[k], s, bs)
    ensures var ps' := Keep(ps, PoolNotOf(sid));
            var bs' := Keep(bs, BufferNotIn(PoolIds(Keep(ps, PoolOf(sid)))));
            forall k, s :: 0 <= k < |ps'| && 0 <= s < ps'[k].bufferCount ==> SlotUsed(ps'[k], s, bs')
  {
    var ps' := Keep(ps, PoolNotOf(sid));
    var bs' := Keep(bs, BufferNotIn(PoolIds(Keep(ps, PoolOf(sid)))));
    forall k, s | 0 <= k < |ps'| && 0 <= s < ps'[k].bufferCount ensures SlotUsed(ps'[k], s, bs') {
      var j := KeptSource(ps, PoolNotOf(sid), k);
      KeptSlotUsed(ps, bs, sid, j, s);
    }
  }

  lemma KeptBuffersFit(ps: seq<Pool>, bs: seq<Buffer>, sid: nat)
    requires forall i, k :: 0 <= i < |bs| && 0 <= k < |ps| && bs[i].poolId == ps[k].id ==> Fits(bs[i], ps[k])
    ensures var ps' := Keep(ps, PoolNotOf(sid));
            var bs' := Keep(bs, BufferNotIn(PoolIds(Keep(ps, PoolOf(sid)))));
            forall i, k :: 0 <= i < |bs'| && 0 <= k < |ps'| && bs'[i].poolId == ps'[k].id ==> Fits(bs'[i], ps'[k])
  {
    var gone := PoolIds(Keep(ps, PoolOf(sid)));
    var ps', bs' := Keep(ps, PoolNotOf(sid)), Keep(bs, BufferNotIn(gone));
    forall i, k | 0 <= i < |bs'| && 0 <= k < |ps'| && bs'[i].poolId == ps'[k].id ensures Fits(bs'[i], ps'[k]) {
      var b := KeptSource(bs, BufferNotIn(gone), i);
      var p := KeptSource(ps, PoolNotOf(sid), k);
      assert Fits(bs[b], ps[p]);
    }
  }

  /** Removing buffers keeps the rest in order, in range and in distinct slots. */
  lemma KeptBuffersApart(ps: seq<Pool>, bs: seq<Buffer>, gone: set<nat>, next: nat)
    requires BuffersOk(ps, bs, next)
    ensures var bs' := Keep(bs, BufferNotIn(gone));
            && |bs'| <= |bs|
            && (forall i, j :: 0 <= i < j < |bs'| ==> bs'[i].id < bs'[j].id)
            && (forall i :: 0 <= i < |bs'| ==> 0 < bs'[i].id < next && 1 <= bs'[i].generation)
            && (forall i, j :: 0 <= i < j < |bs'| && bs'[i].poolId == bs'[j].poolId ==>
              bs'[i].slotIndex != bs'[j].slotIndex)
  {
    var at := KeptAt(bs, BufferNotIn(gone));
    AscendingIsShort(at, |bs|);
  }

  lemma KeptBufferHasPool(ps: seq<Pool>, sid: nat, id: nat)
    requires forall i, j :: 0 <= i < j < |ps| ==> ps[i].id < ps[j].id
    requires HasPool(ps, id) && id !in PoolIds(Keep(ps, PoolOf(sid)))
    ensures HasPool(Keep(ps, PoolNotOf(sid)), id)
  {
    var k :| 0 <= k < |ps| && ps[k].id == id;
    GoneIsNotKept(ps, sid, k);
    var j := KeptIndex(ps, PoolNotOf(sid), k);
    assert Keep(ps, PoolNotOf(sid))[j].id == id;
  }

  lemma KeptSlotUsed(ps: seq<Pool>, bs: seq<Buffer>, sid: nat, k: nat, s: nat)
    requires forall i, j :: 0 <= i < j < |ps| ==> ps[i].id < ps[j].id
    requires k < |ps| && ps[k].sessionId != sid && SlotUsed(ps[k], s, bs)
    ensures SlotUsed(ps[k], s, Keep(bs, BufferNotIn(PoolIds(Keep(ps, PoolOf(sid))))))
  {
    var gone := PoolIds(Keep(ps, PoolOf(sid)));
    var i :| 0 <= i < |bs| && bs[i].poolId == ps[k].id && bs[i].slotIndex == s;
    GoneIsNotKept(ps, sid, k);
    var j := KeptIndex(bs, BufferNotIn(gone), i);
    assert Keep(bs, BufferNotIn(gone))[j] == bs[i];
  }

  /** Dropping a session's outputs takes exactly their bytes off the total. */
  lemma OutputsKept(ss: seq<Session>, os: seq<Output>, sid: nat, nextOutput: nat, total: nat, maxCount: nat,
      maxBytes: nat)
    requires OutputsOk(ss, os, nextOutput, total, maxCount, maxBytes)
    ensures OutputsOk(Keep(ss, SessionIsNot(sid)), Keep(os, OutputNotOf(sid)), nextOutput,
                      SaturatingSub(total, SumBy(Keep(os, OutputOf(sid)), SampleBytes())), maxCount, maxBytes)
  {
    var os' := Keep(os, OutputNotOf(sid));
    KeptOutputsInOrder(ss, os, sid, nextOutput, total, maxCount, maxBytes);
    SumByPartition(os, OutputOf(sid), OutputNotOf(sid), SampleBytes());
    forall i | 0 <= i < |os'| ensures HasSession(Keep(ss, SessionIsNot(sid)), os'[i].info.sessionId) {
      var j := KeptSource(os, OutputNotOf(sid), i);
      OtherSessionStays(ss, sid, os'[i].info.sessionId);
    }
  }

  lemma KeptOutputsInOrder(ss: seq<Session>, os: seq<Output>, sid: nat, nextOutput: nat, total: nat, maxCount: nat,
      maxBytes: nat)
    requires OutputsOk(ss, os, nextOutput, total, maxCount, maxBytes)
    ensures var os' := Keep(os, OutputNotOf(sid));
            && |os'| <= |os|
            && (forall i, j :: 0 <= i < j < |os'| ==> os'[i].info.outputId < os'[j].info.outputId)
            && (forall i :: 0 <= i < |os'| ==>
                  && os'[i].info.outputId < nextOutput
                  && HasSession(ss, os'[i].info.sessionId)
                  && os'[i].info.sampleSize == |os'[i].sample| == SAMPLE_SIZE)
            && (forall i, j ::
                  0 <= i < j < |os'| && os'[i].info.sessionId == os'[j].info.sessionId && os'[j].dequeued ==>
                    os'[i].dequeued)
  {
    var at := KeptAt(os, OutputNotOf(sid));
    AscendingIsShort(at, |os|);
  }

  lemma LeasesKept(bs: seq<Buffer>, os: seq<Output>, gone: set<nat>, sid: nat, next: nat)
    requires LeasesOk(bs, os, next)
    ensures LeasesOk(Keep(bs, BufferNotIn(gone)), Keep(os, OutputNotOf(sid)), next)
  {
    var at := KeptAt(os, OutputNotOf(sid));
    var bs', os' := Keep(bs, BufferNotIn(gone)), Keep(os, OutputNotOf(sid));
    forall i, k | 0 <= i < |os'| && 0 <= k < |bs'| && os'[i].sourceId == bs'[k].id
      ensures os'[i].sourceGeneration <= bs'[k].generation
      ensures os'[i].sourceGeneration == bs'[k].generation ==> bs'[k].state != GuestWritable
    {
      var k' := KeptSource(bs, BufferNotIn(gone), k);
      assert os[at[i]].sourceId == bs[k'].id;
    }
  }

  // ---------- every request, every run ----------

  predicate ReadOnly(req: Request) {
    req.Hello? || req.Ping? || req.GetCaps? || req.ReadBuffer? || req.SetProperty? || req.ReadOutput? || req.Drain?
    || req.Truncated? || req.Unknown? || req.WrongVersion?
  }

  lemma ReadOnlyKeeps(w: Worker, req: Request, cap: nat)
    requires ReadOnly(req)
    ensures Dispatch(w, req, cap).worker == w
  {
  }

  lemma DispatchDequeueOutputKeeps(w: Worker, req: Request, cap: nat) returns (w': Worker)
    requires Valid(w) && req.DequeueOutput?
    ensures w' == Dispatch(w, req, cap).worker && Valid(w')
  {
    w' := TakeReady(w, req.sessionId).0;
    TakeReadyKeeps(w, req.sessionId);
    SingleWorker(w, req, cap);
  }

  lemma SingleWorker(w: Worker, req: Request, cap: nat)
    requires req.DequeueOutput?
    ensures Dispatch(w, req, cap).worker == TakeReady(w, req.sessionId).0
  {
  }

  lemma DispatchDequeueOutputBatchKeeps(w: Worker, req: Request, cap: nat) returns (w': Worker)
    requires Valid(w) && req.DequeueOutputBatch?
    ensures w' == Dispatch(w, req, cap).worker && Valid(w')
  {
    w' := TakeMany(w, req.sessionId, BatchLimit(req.maxOutputs)).0;
    TakeManyKeeps(w, req.sessionId, BatchLimit(req.maxOutputs));
    BatchWorker(w, req, cap);
  }

  lemma BatchWorker(w: Worker, req: Request, cap: nat)
    requires req.DequeueOutputBatch?
    ensures Dispatch(w, req, cap).worker == TakeMany(w, req.sessionId, BatchLimit(req.maxOutputs)).0
  {
  }

  lemma DispatchReleaseOutputKeeps(w: Worker, req: Request, cap: nat) returns (w': Worker)
    requires Valid(w) && req.ReleaseOutput?
    ensures w' == Dispatch(w, req, cap).worker && Valid(w')
  {
    w' := DoReleaseOutput(w, req.outputId).worker;
    ReleaseOutputKeeps(w, req.outputId);
  }

  lemma DispatchDestroySessionKeeps(w: Worker, req: Request, cap: nat) returns (w': Worker)
    requires Valid(w) && req.DestroySession?
    ensures w' == Dispatch(w, req, cap).worker && Valid(w')
  {
    w' := DoDestroySession(w, req.sessionId).worker;
    if FindSession(w, req.sessionId).Some? {
      DestroySessionKeeps(w, req.sessionId);
    }
  }

  lemma DispatchCreateSessionKeeps(w: Worker, req: Request, cap: nat) returns (w': Worker)
    requires Valid(w) && req.CreateSession?
    ensures w' == Dispatch(w, req, cap).worker && Valid(w')
  {
    w' := DoCreateSession(w, cap, req.kind, req.codec, req.width, req.height, req.format).worker;
    CreateSessionKeeps(w, cap, req.kind, req.codec, req.width, req.height, req.format);
  }

  lemma DispatchCreatePoolKeeps(w: Worker, req: Request, cap: nat) returns (w': Worker)
    requires Valid(w) && req.CreatePool?
    ensures w' == Dispatch(w, req, cap).worker && Valid(w')
  {
    w' := DoCreatePool(w, cap, req.sessionId, req.bufferCount, req.format, req.width, req.height).worker;
    CreatePoolKeeps(w, cap, req.sessionId, req.bufferCount, req.format, req.width, req.height);
  }

  lemma DispatchAllocBufferKeeps(w: Worker, req: Request, cap: nat) returns (w': Worker)
    requires Valid(w) && req.AllocBuffer?
    ensures w' == Dispatch(w, req, cap).worker && Valid(w')
  {
    w' := DoAllocBuffer(w, cap, req.poolId).worker;
    AllocBufferKeeps(w, cap, req.poolId);
  }

  lemma DispatchWriteBufferKeeps(w: Worker, req: Request, cap: nat) returns (w': Worker)
    requires Valid(w) && req.WriteBuffer?
    ensures w' == Dispatch(w, req, cap).worker && Valid(w')
  {
    w' := DoWriteBuffer(w, req.bufferId, req.generation, req.offset, req.length, req.data).worker;
    WriteBufferKeeps(w, req.bufferId, req.generation, req.offset, req.length, req.data);
  }

  lemma DispatchRecycleBufferKeeps(w: Worker, req: Request, cap: nat) returns (w': Worker)
    requires Valid(w) && req.RecycleBuffer?
    ensures w' == Dispatch(w, req, cap).worker && Valid(w')
  {
    w' := DoRecycleBuffer(w, req.poolId, req.bufferId, req.generation).worker;
    RecycleBufferKeeps(w, req.poolId, req.bufferId, req.generation);
  }

  lemma DispatchPrepareSessionKeeps(w: Worker, req: Request, cap: nat) returns (w': Worker)
    requires Valid(w) && req.PrepareSession?
    ensures w' == Dispatch(w, req, cap).worker && Valid(w')
  {
    w' := DoPrepareSession(w, req.sessionId).worker;
    PrepareSessionKeeps(w, req.sessionId);
  }

  lemma DispatchEncodeFrameKeeps(w: Worker, req: Request, cap: nat) returns (w': Worker)
    requires Valid(w) && req.EncodeFrame?
    ensures w' == Dispatch(w, req, cap).worker && Valid(w')
  {
    w' := DoEncodeFrame(w, req.sessionId, req.proxyId, req.bufferId, req.generation, req.pts, req.duration).worker;
    EncodeFrameKeeps(w, req.sessionId, req.proxyId, req.bufferId, req.generation, req.pts, req.duration);
  }

  lemma QueueRequestKeeps(w: Worker, req: Request, cap: nat)
    requires Valid(w)
    requires req.DequeueOutput? || req.DequeueOutputBatch? || req.ReleaseOutput? || req.DestroySession?
    ensures Valid(Dispatch(w, req, cap).worker)
  {
    match req
    case DequeueOutput(_) => var w' := DispatchDequeueOutputKeeps(w, req, cap);
    case DequeueOutputBatch(_, _) => var w' := DispatchDequeueOutputBatchKeeps(w, req, cap);
    case ReleaseOutput(_) => var w' := DispatchReleaseOutputKeeps(w, req, cap);
    case DestroySession(_) => var w' := DispatchDestroySessionKeeps(w, req, cap);
  }

  lemma BufferRequestKeeps(w: Worker, req: Request, cap: nat)
    requires Valid(w)
    requires req.CreateSession? || req.CreatePool? || req.AllocBuffer? || req.WriteBuffer? || req.RecycleBuffer?
          || req.PrepareSession? || req.EncodeFrame?
    ensures Valid(Dispatch(w, req, cap).worker)
  {
    match req
    case CreateSession(_, _, _, _, _) => var w' := DispatchCreateSessionKeeps(w, req, cap);
    case CreatePool(_, _, _, _, _) => var w' := DispatchCreatePoolKeeps(w, req, cap);
    case AllocBuffer(_) => var w' := DispatchAllocBufferKeeps(w, req, cap);
    case WriteBuffer(_, _, _, _, _) => var w' := DispatchWriteBufferKeeps(w, req, cap);
    case RecycleBuffer(_, _, _) => var w' := DispatchRecycleBufferKeeps(w, req, cap);
    case PrepareSession(_) => var w' := DispatchPrepareSessionKeeps(w, req, cap);
    case EncodeFrame(_, _, _, _, _, _) => var w' := DispatchEncodeFrameKeeps(w, req, cap);
  }

  lemma DispatchKeeps(w: Worker, req: Request, cap: nat)
    requires Valid(w)
    ensures Valid(Dispatch(w, req, cap).worker)
  {
    if ReadOnly(req) {
      ReadOnlyKeeps(w, req, cap);
    } else if req.DequeueOutput? || req.DequeueOutputBatch? || req.ReleaseOutput? || req.DestroySession? {
      QueueRequestKeeps(w, req, cap);
    } else {
      BufferRequestKeeps(w, req, cap);
    }
  }

  /** Every state reachable from a fresh connection is valid, whatever the requests and
      whatever the size of the reply buffer. */
  lemma {:induction false} RunValid(maxOutputs: nat, maxBytes: nat, reqs: seq<Request>, cap: nat)
    ensures Valid(Run(Fresh(maxOutputs, maxBytes), reqs, cap))
  {
    if |reqs| == 0 {
      FreshValid(maxOutputs, maxBytes);
    } else {
      RunValid(maxOutputs, maxBytes, reqs[..|reqs| - 1], cap);
      DispatchKeeps(Run(Fresh(maxOutputs, maxBytes), reqs[..|reqs| - 1], cap), reqs[|reqs| - 1], cap);
    }
  }
}
