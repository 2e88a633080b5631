/** What the worker promises its clients, proved of every reachable state. */
module WorkerTheorems {
  import opened Bits
  import opened Collections
  import opened Layout
  import opened Protocol
  import opened Worker
  import opened WorkerInvariant

  // ---------- failed requests ----------

  /** A request that ends in an error changes nothing, when fixed replies fit the buffer. */
  lemma ErrorChangesNothing(w: Worker, req: Request, cap: nat)
    requires Valid(w) && MAX_FIXED_REPLY <= cap
    ensures Dispatch(w, req, cap).outcome.Err? ==> Dispatch(w, req, cap).worker == w
  {
    if ReadOnly(req) {
      ReadOnlyKeeps(w, req, cap);
    } else if req.AllocBuffer? {
      AllocErrorChangesNothing(w, req, cap);
    } else if req.EncodeFrame? {
      EncodeErrorChangesNothing(w, req, cap);
    } else {
      OtherErrorChangesNothing(w, req, cap);
    }
  }

  lemma OtherErrorChangesNothing(w: Worker, req: Request, cap: nat)
    requires MAX_FIXED_REPLY <= cap && !ReadOnly(req) && !req.AllocBuffer? && !req.EncodeFrame?
    ensures Dispatch(w, req, cap).outcome.Err? ==> Dispatch(w, req, cap).worker == w
  {
    if req.CreateSession? || req.CreatePool? || req.DequeueOutput? || req.DequeueOutputBatch? {
      ReplyErrorChangesNothing(w, req, cap);
    }
  }

  lemma ReplyErrorChangesNothing(w: Worker, req: Request, cap: nat)
    requires MAX_FIXED_REPLY <= cap
    requires req.CreateSession? || req.CreatePool? || req.DequeueOutput? || req.DequeueOutputBatch?
    ensures Dispatch(w, req, cap).outcome.Err? ==> Dispatch(w, req, cap).worker == w
  {
    match req
    case CreateSession(_, _, _, _, _) => CreateSessionErrorChangesNothing(w, req, cap);
    case CreatePool(_, _, _, _, _) => CreatePoolErrorChangesNothing(w, req, cap);
    case DequeueOutput(_) => DequeueOutputErrorChangesNothing(w, req, cap);
    case DequeueOutputBatch(_, _) => DequeueOutputBatchErrorChangesNothing(w, req, cap);
  }

  lemma CreateSessionErrorChangesNothing(w: Worker, req: Request, cap: nat)
    requires MAX_FIXED_REPLY <= cap && req.CreateSession?
    ensures Dispatch(w, req, cap).outcome.Err? ==> Dispatch(w, req, cap).worker == w
  {
  }

  lemma CreatePoolErrorChangesNothing(w: Worker, req: Request, cap: nat)
    requires MAX_FIXED_REPLY <= cap && req.CreatePool?
    ensures Dispatch(w, req, cap).outcome.Err? ==> Dispatch(w, req, cap).worker == w
  {
  }

  lemma DequeueOutputErrorChangesNothing(w: Worker, req: Request, cap: nat)
    requires MAX_FIXED_REPLY <= cap && req.DequeueOutput?
    ensures Dispatch(w, req, cap).outcome.Err? ==> Dispatch(w, req, cap).worker == w
  {
  }

  lemma DequeueOutputBatchErrorChangesNothing(w: Worker, req: Request, cap: nat)
    requires MAX_FIXED_REPLY <= cap && req.DequeueOutputBatch?
    ensures Dispatch(w, req, cap).outcome.Err? ==> Dispatch(w, req, cap).worker == w
  {
  }

  lemma EncodeErrorChangesNothing(w: Worker, req: Request, cap: nat)
    requires req.EncodeFrame?
    ensures Dispatch(w, req, cap).outcome.Err? ==> Dispatch(w, req, cap).worker == w
  {
  }

  lemma AllocErrorChangesNothing(w: Worker, req: Request, cap: nat)
    requires Valid(w) && MAX_FIXED_REPLY <= cap && req.AllocBuffer?
    ensures Dispatch(w, req, cap).outcome.Err? ==> Dispatch(w, req, cap).worker == w
  {
    LeaseErrorChangesNothing(w, req.poolId, cap);
  }

  lemma LeaseErrorChangesNothing(w: Worker, poolId: nat, cap: nat)
    requires Valid(w) && MAX_FIXED_REPLY <= cap
    ensures DoAllocBuffer(w, cap, poolId).outcome.Err? ==> DoAllocBuffer(w, cap, poolId).worker == w
  {
    var k := FindPool(w, poolId);
    if k.Some? {
      var i := IndexWhere(w.buffers, Recyclable(poolId));
      if i.Some? {
        assert Recyclable(poolId)(w.buffers[i.value]);
        LeaseAgainFindsSlot(w, k.value, i.value);
      }
    }
  }

  ghost predicate ErrorsAreAtomic(cap: nat) {
    forall w: Worker, req: Request | Valid(w) && Dispatch(w, req, cap).outcome.Err? :: Dispatch(w, req, cap).worker == w
  }

  /** Failed requests are atomic exactly when the reply buffer holds the largest fixed reply. */
  lemma ErrorsAtomicIff(cap: nat)
    ensures ErrorsAreAtomic(cap) <==> MAX_FIXED_REPLY <= cap
  {
    if MAX_FIXED_REPLY <= cap {
      forall w: Worker, req: Request | Valid(w) && Dispatch(w, req, cap).outcome.Err?
        ensures Dispatch(w, req, cap).worker == w
      {
        ErrorChangesNothing(w, req, cap);
      }
    } else {
      var w := Fresh(MAX_OUTPUTS, 0);
      FreshValid(MAX_OUTPUTS, 0);
      SmallReplyLeaksPool(w, cap);
    }
  }

  lemma SmallReplyLeaksPool(w: Worker, cap: nat)
    requires cap < MAX_FIXED_REPLY && |w.pools| < MAX_POOLS
    ensures var r := Dispatch(w, CreatePool(0, 1, BGRA, 0, 0), cap);
            r.outcome.Err? && r.worker != w
  {
    assert |DoCreatePool(w, cap, 0, 1, BGRA, 0, 0).worker.pools| == |w.pools| + 1;
  }

  // ---------- slots ----------

  /** The bytes readable through buffer `i`. */
  function Contents(w: Worker, i: nat): (r: seq<byte>)
    requires i < |w.buffers|
  {
    var b := w.buffers[i];
    var k := FindPool(w, b.poolId);
    if k.None? then []
    else
      var range := PoolSlot(w.pools[k.value], b.slotIndex);
      if range.None? then [] else w.pools[k.value].backing[range.value.0..range.value.1]
  }

  /** Buffer `i` reads bytes start..start + n of pool `k`. */
  ghost predicate Located(w: Worker, i: nat, k: nat, start: nat, n: nat) {
    && i < |w.buffers| && k < |w.pools|
    && FindPool(w, w.buffers[i].poolId) == Some(k)
    && PoolSlot(w.pools[k], w.buffers[i].slotIndex) == Some((start, start + n))
    && start + n <= |w.pools[k].backing|
    && w.buffers[i].totalSize == n
  }

  function Start(b: Buffer): (r: nat) {
    Times(b.slotIndex, b.totalSize)
  }

  /** Every live buffer has its whole slot inside its pool's backing. */
  lemma BufferLocated(w: Worker, i: nat)
    requires Valid(w) && i < |w.buffers|
    ensures FindPool(w, w.buffers[i].poolId).Some?
    ensures Located(w, i, FindPool(w, w.buffers[i].poolId).value, Start(w.buffers[i]), w.buffers[i].totalSize)
  {
    BufferSlot(w, i);
  }

  /** Two live buffers of one pool occupy disjoint byte ranges of equal size. */
  lemma SlotsDisjoint(w: Worker, i: nat, j: nat)
    requires Valid(w) && i < |w.buffers| && j < |w.buffers| && i != j
    requires w.buffers[i].poolId == w.buffers[j].poolId
    ensures var a, b := w.buffers[i], w.buffers[j];
            && a.totalSize == b.totalSize
            && (Start(a) + a.totalSize <= Start(b) || Start(b) + b.totalSize <= Start(a))
  {
    var a, b := w.buffers[i], w.buffers[j];
    BufferSlot(w, i);
    BufferSlot(w, j);
    assert a.slotIndex != b.slotIndex by {
      if i < j {
      } else {
        assert j < i;
      }
    }
    if a.slotIndex < b.slotIndex {
      TimesSteps(a.slotIndex, b.slotIndex, a.totalSize);
    } else {
      TimesSteps(b.slotIndex, a.slotIndex, a.totalSize);
    }
  }

  /** Where two live buffers lie, and that they do not meet. */
  lemma PairLocated(w: Worker, i: nat, j: nat)
    requires Valid(w) && i < |w.buffers| && j < |w.buffers|
    ensures FindPool(w, w.buffers[i].poolId).Some? && FindPool(w, w.buffers[j].poolId).Some?
    ensures var a, b := w.buffers[i], w.buffers[j];
            var k, m := FindPool(w, a.poolId).value, FindPool(w, b.poolId).value;
            && Located(w, i, k, Start(a), a.totalSize) && Located(w, j, m, Start(b), b.totalSize)
            && (i != j && m == k ==> Start(a) + a.totalSize <= Start(b) || Start(b) + b.totalSize <= Start(a))
  {
    BufferLocated(w, i);
    BufferLocated(w, j);
    if i != j && w.buffers[i].poolId == w.buffers[j].poolId {
      SlotsDisjoint(w, i, j);
    }
  }

  lemma FindPoolRebacked(w: Worker, k: nat, bytes: seq<byte>, id: nat)
    requires k < |w.pools|
    ensures FindPool(SetBacking(w, k, bytes), id) == FindPool(w, id)
  {
    var w' := SetBacking(w, k, bytes);
    assert forall m :: 0 <= m < |w.pools| ==> w'.pools[m].id == w.pools[m].id;
    var r := FindPool(w, id);
    if r.Some? {
      forall m | 0 <= m < r.value ensures !PoolIs(id)(w'.pools[m]) {
        assert !PoolIs(id)(w.pools[m]);
      }
      IndexWhereIs(w'.pools, PoolIs(id), r.value);
    }
  }

  /** What a buffer reads after its pool's bytes, or another pool's, were replaced. */
  lemma ContentsRebacked(w: Worker, k: nat, bytes: seq<byte>, j: nat, m: nat, lo: nat, n: nat)
    requires k < |w.pools| && |bytes| == |w.pools[k].backing| && Located(w, j, m, lo, n)
    ensures Contents(w, j) == w.pools[m].backing[lo..lo + n]
    ensures Contents(SetBacking(w, k, bytes), j) == if m == k then bytes[lo..lo + n] else Contents(w, j)
  {
    FindPoolRebacked(w, k, bytes, w.buffers[j].poolId);
  }

  /** Overwriting inside one buffer's slot: what each buffer reads afterwards. */
  lemma SlotWritten(w: Worker, i: nat, k: nat, start: nat, n: nat, offset: nat, data: seq<byte>, j: nat, m: nat,
      lo: nat, n': nat)
    requires Located(w, i, k, start, n) && Located(w, j, m, lo, n') && offset + |data| <= n
    requires i != j && m == k ==> start + n <= lo || lo + n' <= start
    ensures |Contents(w, i)| == n
    ensures Contents(SetBacking(w, k, Splice(w.pools[k].backing, start + offset, data)), j)
         == if j == i then Splice(Contents(w, i), offset, data) else Contents(w, j)
  {
    if j == i {
      OwnSlotWritten(w, i, k, start, n, offset, data);
    } else {
      OtherSlotKept(w, k, start + offset, data, j, m, lo, n');
      OwnSlotWritten(w, i, k, start, n, offset, data);
    }
  }

  /** Bytes written outside a buffer's slot do not show in it. */
  lemma OtherSlotKept(w: Worker, k: nat, at: nat, data: seq<byte>, j: nat, m: nat, lo: nat, n': nat)
    requires Located(w, j, m, lo, n') && k < |w.pools| && at + |data| <= |w.pools[k].backing|
    requires m == k ==> at + |data| <= lo || lo + n' <= at
    ensures Contents(SetBacking(w, k, Splice(w.pools[k].backing, at, data)), j) == Contents(w, j)
  {
    ContentsRebacked(w, k, Splice(w.pools[k].backing, at, data), j, m, lo, n');
    if m == k {
      SpliceWindow(w.pools[k].backing, at, data, lo, lo + n');
    }
  }

  lemma OwnSlotWritten(w: Worker, i: nat, k: nat, start: nat, n: nat, offset: nat, data: seq<byte>)
    requires Located(w, i, k, start, n) && offset + |data| <= n
    ensures |Contents(w, i)| == n
    ensures Contents(SetBacking(w, k, Splice(w.pools[k].backing, start + offset, data)), i)
         == Splice(Contents(w, i), offset, data)
  {
    ContentsRebacked(w, k, Splice(w.pools[k].backing, start + offset, data), i, k, start, n);
    SpliceWindow(w.pools[k].backing, start + offset, data, start, start + n);
  }

  /** An accepted write changes exactly the addressed bytes of the addressed buffer, and
      nothing that any other buffer reads. */
  lemma WriteIsExact(w: Worker, id: nat, generation: nat, offset: u32, length: u32, data: seq<byte>, j: nat)
    requires Valid(w) && j < |w.buffers|
    requires DoWriteBuffer(w, id, generation, offset, length, data).outcome.Ok?
    ensures var w' := DoWriteBuffer(w, id, generation, offset, length, data).worker;
            var i := FindBuffer(w, id);
            && i.Some? && w'.buffers == w.buffers && |data| == length
            && offset + length <= |Contents(w, i.value)|
            && Contents(w', j) == if j == i.value then Splice(Contents(w, j), offset, data) else Contents(w, j)
  {
    var i := FindBuffer(w, id).value;
    PairLocated(w, i, j);
    var a, b := w.buffers[i], w.buffers[j];
    WriteApplies(w, id, generation, offset, length, data, FindPool(w, a.poolId).value, Start(a), a.totalSize,
                 j, FindPool(w, b.poolId).value, Start(b), b.totalSize);
  }

  lemma WriteApplies(w: Worker, id: nat, generation: nat, offset: u32, length: u32, data: seq<byte>,
                     k: nat, start: nat, n: nat, j: nat, m: nat, lo: nat, n': nat)
    requires FindBuffer(w, id).Some?
    requires Located(w, FindBuffer(w, id).value, k, start, n) && Located(w, j, m, lo, n')
    requires FindBuffer(w, id).value != j && m == k ==> start + n <= lo || lo + n' <= start
    requires DoWriteBuffer(w, id, generation, offset, length, data).outcome.Ok?
    ensures var w' := DoWriteBuffer(w, id, generation, offset, length, data).worker;
            var i := FindBuffer(w, id).value;
            && w'.buffers == w.buffers && |data| == length && offset + length <= |Contents(w, i)|
            && Contents(w', j) == if j == i then Splice(Contents(w, j), offset, data) else Contents(w, j)
  {
    SlotWritten(w, FindBuffer(w, id).value, k, start, n, offset, data, j, m, lo, n');
  }

  /** A read returns the addressed bytes of the lease, if the reply fits. */
  lemma ReadIsExact(w: Worker, id: nat, generation: nat, offset: u32, length: u32, cap: nat)
    requires Valid(w) && FindBuffer(w, id).Some?
    requires var b := w.buffers[FindBuffer(w, id).value];
             b.generation == generation && b.state != Recycled && offset + length <= b.totalSize
    requires BUFFER_IO_HEADER + length <= cap
    ensures |Contents(w, FindBuffer(w, id).value)| == w.buffers[FindBuffer(w, id).value].totalSize
    ensures DoReadBuffer(w, cap, id, generation, offset, length)
         == Step(w, Ok(BufferBytes(id, generation, offset, length,
           Contents(w, FindBuffer(w, id).value)[offset..offset + length])))
  {
    BufferLocated(w, FindBuffer(w, id).value);
  }

  /** A lease granted by the worker, new or reused, reads as all zeros; no other lease's
      bytes change. */
  lemma LeaseStartsZeroed(w: Worker, cap: nat, poolId: nat, j: nat)
    requires Valid(w) && DoAllocBuffer(w, cap, poolId).outcome.Ok?
    ensures var r := DoAllocBuffer(w, cap, poolId);
            && r.outcome.reply.Leased?
            && var i := FindBuffer(r.worker, r.outcome.reply.bufferId);
               && i.Some?
               && var b := r.worker.buffers[i.value];
                  && b.generation == r.outcome.reply.generation && b.poolId == poolId && b.state == GuestWritable
                  && Contents(r.worker, i.value) == Zeros(b.totalSize)
                  && (j < |w.buffers| && j != i.value ==> Contents(r.worker, j) == Contents(w, j))
  {
    var k := FindPool(w, poolId).value;
    var i := IndexWhere(w.buffers, Recyclable(poolId));
    if i.Some? {
      assert Recyclable(poolId)(w.buffers[i.value]);
      LeaseAgainZeroes(w, cap, k, i.value, j);
    } else {
      AllocFreshZeroes(w, cap, k, j);
    }
  }

  lemma LeaseAgainZeroes(w: Worker, cap: nat, k: nat, i: nat, j: nat)
    requires Valid(w) && k < |w.pools| && i < |w.buffers| && w.buffers[i].poolId == w.pools[k].id
    requires DoLeaseAgain(w, cap, k, i).outcome.Ok?
    ensures var r := DoLeaseAgain(w, cap, k, i);
            && r.outcome.reply == LeaseReply(Relet(w.buffers[i]))
            && FindBuffer(r.worker, w.buffers[i].id) == Some(i)
            && r.worker.buffers == w.buffers[i := Relet(w.buffers[i])]
            && Contents(r.worker, i) == Zeros(w.buffers[i].totalSize)
            && (j < |w.buffers| && j != i ==> Contents(r.worker, j) == Contents(w, j))
  {
    UniquePool(w, k);
    PairLocated(w, i, i);
    LeaseAgainKeeps(w, cap, k, i);
    UniqueBuffer(DoLeaseAgain(w, cap, k, i).worker, i);
    var a := w.buffers[i];
    ClearedSlot(w, cap, i, k, Start(a), a.totalSize, i, k, Start(a), a.totalSize);
    if j < |w.buffers| && j != i {
      PairLocated(w, i, j);
      var b := w.buffers[j];
      ClearedSlot(w, cap, i, k, Start(a), a.totalSize, j, FindPool(w, b.poolId).value, Start(b), b.totalSize);
    }
  }

  /** Clearing the slot of a buffer whose lease moves on. */
  lemma ClearedSlot(w: Worker, cap: nat, i: nat, k: nat, start: nat, n: nat, j: nat, m: nat, lo: nat, n': nat)
    requires Located(w, i, k, start, n) && Located(w, j, m, lo, n')
    requires i != j && m == k ==> start + n <= lo || lo + n' <= start
    ensures Contents(DoLeaseAgain(w, cap, k, i).worker, j) == if j == i then Zeros(n) else Contents(w, j)
  {
    ReletShape(w, cap, i, k, start, n);
    ClearedContents(w, i, k, start, n, j, m, lo, n');
  }

  lemma ClearedContents(w: Worker, i: nat, k: nat, start: nat, n: nat, j: nat, m: nat, lo: nat, n': nat)
    requires Located(w, i, k, start, n) && Located(w, j, m, lo, n')
    requires i != j && m == k ==> start + n <= lo || lo + n' <= start
    ensures var w1 := SetBacking(w, k, Splice(w.pools[k].backing, start, Zeros(n)));
            Contents(SetBuffer(w1, i, Relet(w.buffers[i])), j) == if j == i then Zeros(n) else Contents(w, j)
  {
    ClearedBacking(w, i, k, start, n, j, m, lo, n');
    ContentsRelet(SetBacking(w, k, Splice(w.pools[k].backing, start, Zeros(n))), i, j);
  }

  lemma ClearedBacking(w: Worker, i: nat, k: nat, start: nat, n: nat, j: nat, m: nat, lo: nat, n': nat)
    requires Located(w, i, k, start, n) && Located(w, j, m, lo, n')
    requires i != j && m == k ==> start + n <= lo || lo + n' <= start
    ensures Contents(SetBacking(w, k, Splice(w.pools[k].backing, start, Zeros(n))), j)
         == if j == i then Zeros(n) else Contents(w, j)
  {
    if j == i {
      ClearedOwn(w, i, k, start, n);
    } else {
      OtherSlotKept(w, k, start, Zeros(n), j, m, lo, n');
    }
  }

  lemma ClearedOwn(w: Worker, i: nat, k: nat, start: nat, n: nat)
    requires Located(w, i, k, start, n)
    ensures Contents(SetBacking(w, k, Splice(w.pools[k].backing, start, Zeros(n))), i) == Zeros(n)
  {
    OwnSlotWritten(w, i, k, start, n, 0, Zeros(n));
    AllZeroed(Contents(w, i), n);
  }

  lemma AllZeroed(bytes: seq<byte>, n: nat)
    requires |bytes| == n
    ensures Splice(bytes, 0, Zeros(n)) == Zeros(n)
  {
  }

  lemma ReletShape(w: Worker, cap: nat, i: nat, k: nat, start: nat, n: nat)
    requires Located(w, i, k, start, n)
    ensures DoLeaseAgain(w, cap, k, i).worker
         == SetBuffer(SetBacking(w, k, Splice(w.pools[k].backing, start, Zeros(n))), i, Relet(w.buffers[i]))
  {
  }

  /** A new lease does not move or change bytes by itself. */
  lemma ContentsRelet(w: Worker, i: nat, j: nat)
    requires i < |w.buffers| && j < |w.buffers|
    ensures Contents(SetBuffer(w, i, Relet(w.buffers[i])), j) == Contents(w, j)
  {
  }

  lemma AllocFreshZeroes(w: Worker, cap: nat, k: nat, j: nat)
    requires Valid(w) && k < |w.pools| && DoAllocFresh(w, cap, k).outcome.Ok?
    ensures var r := DoAllocFresh(w, cap, k);
            var i := |w.buffers|;
            && |r.worker.buffers| == i + 1 && r.worker.buffers[..i] == w.buffers
            && r.outcome.reply == LeaseReply(r.worker.buffers[i])
            && FindBuffer(r.worker, r.worker.buffers[i].id) == Some(i)
            && r.worker.buffers[i].poolId == w.pools[k].id && r.worker.buffers[i].state == GuestWritable
            && Contents(r.worker, i) == Zeros(r.worker.buffers[i].totalSize)
            && (j < i ==> Contents(r.worker, j) == Contents(w, j))
  {
    var w' := DoAllocFresh(w, cap, k).worker;
    var i := |w.buffers|;
    AllocFreshKeeps(w, cap, k);
    UniqueBuffer(w', i);
    UniquePool(w', k);
    FreshSlotZero(w, cap, k);
    if j < i {
      FreshSlotApart(w, cap, k, j);
    }
  }

  lemma FreshSlotZero(w: Worker, cap: nat, k: nat)
    requires k < |w.pools| && DoAllocFresh(w, cap, k).outcome.Ok?
    requires FindPool(DoAllocFresh(w, cap, k).worker, w.pools[k].id) == Some(k)
    ensures var w' := DoAllocFresh(w, cap, k).worker;
            Contents(w', |w.buffers|) == Zeros(w'.buffers[|w.buffers|].totalSize)
  {
  }

  lemma FreshSlotApart(w: Worker, cap: nat, k: nat, j: nat)
    requires Valid(w) && k < |w.pools| && DoAllocFresh(w, cap, k).outcome.Ok? && j < |w.buffers|
    ensures Contents(DoAllocFresh(w, cap, k).worker, j) == Contents(w, j)
  {
    var m := PlaceFound(w, j);
    AllocFreshKeeps(w, cap, k);
    FreshSlotClear(w, cap, k, j, m);
  }

  lemma PlaceFound(w: Worker, i: nat) returns (k: nat)
    requires Valid(w) && i < |w.buffers|
    ensures Located(w, i, k, Start(w.buffers[i]), w.buffers[i].totalSize)
  {
    BufferLocated(w, i);
    k := FindPool(w, w.buffers[i].poolId).value;
  }

  lemma FreshSlotClear(w: Worker, cap: nat, k: nat, j: nat, m: nat)
    requires k < |w.pools| && DoAllocFresh(w, cap, k).outcome.Ok? && Valid(DoAllocFresh(w, cap, k).worker)
    requires j < |w.buffers| && Located(w, j, m, Start(w.buffers[j]), w.buffers[j].totalSize)
    ensures Contents(DoAllocFresh(w, cap, k).worker, j) == Contents(w, j)
  {
    var b, c := w.buffers[j], DoAllocFresh(w, cap, k).worker.buffers[|w.buffers|];
    FreshOldPlace(w, cap, k, j, m);
    FreshNewPlace(w, cap, k);
    if m == k {
      FreshApart(w, cap, k, j);
    }
    FreshSlotElsewhere(w, cap, k, j, m, Start(b), b.totalSize, Start(c), c.totalSize);
  }

  /** After a fresh lease every older buffer is where it was. */
  lemma FreshOldPlace(w: Worker, cap: nat, k: nat, j: nat, m: nat)
    requires k < |w.pools| && DoAllocFresh(w, cap, k).outcome.Ok? && Valid(DoAllocFresh(w, cap, k).worker)
    requires j < |w.buffers| && m < |w.pools| && w.pools[m].id == w.buffers[j].poolId
    ensures Located(DoAllocFresh(w, cap, k).worker, j, m, Start(w.buffers[j]), w.buffers[j].totalSize)
  {
    FreshShape(w, cap, k);
    PlaceOf(DoAllocFresh(w, cap, k).worker, j, m);
  }

  /** The new buffer has the pool's next slot. */
  lemma FreshNewPlace(w: Worker, cap: nat, k: nat)
    requires k < |w.pools| && DoAllocFresh(w, cap, k).outcome.Ok? && Valid(DoAllocFresh(w, cap, k).worker)
    ensures var c := DoAllocFresh(w, cap, k).worker.buffers[|w.buffers|];
            PoolSlot(w.pools[k], w.pools[k].bufferCount) == Some((Start(c), Start(c) + c.totalSize))
  {
    FreshShape(w, cap, k);
    PlaceOf(DoAllocFresh(w, cap, k).worker, |w.buffers|, k);
  }

  /** Older buffers of the same pool are clear of it. */
  lemma FreshApart(w: Worker, cap: nat, k: nat, j: nat)
    requires k < |w.pools| && DoAllocFresh(w, cap, k).outcome.Ok? && Valid(DoAllocFresh(w, cap, k).worker)
    requires j < |w.buffers| && w.pools[k].id == w.buffers[j].poolId
    ensures var b, c := w.buffers[j], DoAllocFresh(w, cap, k).worker.buffers[|w.buffers|];
            Start(c) + c.totalSize <= Start(b) || Start(b) + b.totalSize <= Start(c)
  {
    FreshShape(w, cap, k);
    SlotsDisjoint(DoAllocFresh(w, cap, k).worker, |w.buffers|, j);
  }

  lemma PlaceOf(w: Worker, i: nat, k: nat)
    requires Valid(w) && i < |w.buffers| && k < |w.pools| && w.pools[k].id == w.buffers[i].poolId
    ensures Located(w, i, k, Start(w.buffers[i]), w.buffers[i].totalSize)
  {
    UniquePool(w, k);
    BufferLocated(w, i);
  }

  lemma FreshShape(w: Worker, cap: nat, k: nat)
    requires k < |w.pools| && DoAllocFresh(w, cap, k).outcome.Ok?
    ensures var w' := DoAllocFresh(w, cap, k).worker;
            var p := w.pools[k];
            && |w'.pools| == |w.pools| && |w'.buffers| == |w.buffers| + 1
            && (forall m :: 0 <= m < |w.pools| ==> w'.pools[m].id == w.pools[m].id)
            && (forall j :: 0 <= j < |w.buffers| ==> w'.buffers[j] == w.buffers[j])
            && w'.buffers[|w.buffers|].poolId == p.id
            && PoolSlot(w'.pools[k], w'.buffers[|w.buffers|].slotIndex) == PoolSlot(p, p.bufferCount)
  {
  }

  lemma FreshSlotElsewhere(w: Worker, cap: nat, k: nat, j: nat, m: nat, lo: nat, n: nat, start: nat, n': nat)
    requires k < |w.pools| && DoAllocFresh(w, cap, k).outcome.Ok?
    requires Located(w, j, m, lo, n) && Located(DoAllocFresh(w, cap, k).worker, j, m, lo, n)
    requires PoolSlot(w.pools[k], w.pools[k].bufferCount) == Some((start, start + n'))
    requires m == k ==> start + n' <= lo || lo + n <= start
    ensures Contents(DoAllocFresh(w, cap, k).worker, j) == Contents(w, j)
  {
    if m == k {
      SpliceWindow(w.pools[k].backing, start, Zeros(n'), lo, lo + n);
    }
  }

  // ---------- leases ----------

  /** While an output is outstanding for the current lease, that lease can be neither
      written nor encoded again, and no second output refers to it. */
  lemma OutputPinsLease(w: Worker, i: nat, k: nat, req: Request, cap: nat)
    requires Valid(w) && i < |w.outputs| && k < |w.buffers|
    requires w.outputs[i].sourceId == w.buffers[k].id && w.outputs[i].sourceGeneration == w.buffers[k].generation
    requires (req.WriteBuffer? || req.EncodeFrame?) && req.bufferId == w.buffers[k].id
    ensures w.buffers[k].state == QueuedToHost || w.buffers[k].state == Recycled
    ensures Dispatch(w, req, cap).outcome.Err? && Dispatch(w, req, cap).worker == w
    ensures forall j :: 0 <= j < |w.outputs| && j != i ==>
              w.outputs[j].sourceId != w.outputs[i].sourceId
                || w.outputs[j].sourceGeneration != w.outputs[i].sourceGeneration
  {
    UniqueBuffer(w, k);
    forall j | 0 <= j < |w.outputs| && j != i
      ensures w.outputs[j].sourceId != w.outputs[i].sourceId
          || w.outputs[j].sourceGeneration != w.outputs[i].sourceGeneration
    {
      if j < i {
      } else {
      }
    }
  }

  /** Releasing an output of an older lease leaves every buffer as it is. */
  lemma StaleReleaseTouchesNothing(w: Worker, i: nat)
    requires Valid(w) && i < |w.outputs|
    requires forall k :: 0 <= k < |w.buffers| && w.buffers[k].id == w.outputs[i].sourceId ==>
               w.buffers[k].generation != w.outputs[i].sourceGeneration
    ensures DoReleaseOutput(w, w.outputs[i].info.outputId).outcome.Ok?
    ensures DoReleaseOutput(w, w.outputs[i].info.outputId).worker.buffers == w.buffers
  {
    UniqueOutput(w, i);
  }

  lemma UniqueOutput(w: Worker, i: nat)
    requires Valid(w) && i < |w.outputs|
    ensures FindOutput(w, w.outputs[i].info.outputId) == Some(i)
  {
    var r := FindOutput(w, w.outputs[i].info.outputId);
    assert r.Some?;
  }

  /** The byte total always covers what a release or a teardown takes off it, so neither
      subtraction ever saturates. */
  lemma SubtractionNeverSaturates(w: Worker, i: nat, sid: nat)
    requires Valid(w)
    ensures i < |w.outputs| ==> w.outputs[i].info.sampleSize <= w.outputBytesTotal
    ensures SumBy(Keep(w.outputs, OutputOf(sid)), SampleBytes()) <= w.outputBytesTotal
  {
    if i < |w.outputs| {
      SumByMember(w.outputs, i, SampleBytes());
    }
    SumByPartition(w.outputs, OutputOf(sid), OutputNotOf(sid), SampleBytes());
  }

  // ---------- teardown ----------

  /** Destroying a session leaves every other session's record, pools and outputs as they were. */
  lemma DestroyIsLocal(w: Worker, sid: nat, other: nat)
    requires Valid(w) && FindSession(w, sid).Some? && other != sid
    ensures var w' := DoDestroySession(w, sid).worker;
            && Keep(w'.outputs, OutputOf(other)) == Keep(w.outputs, OutputOf(other))
            && Keep(w'.pools, PoolOf(other)) == Keep(w.pools, PoolOf(other))
            && Keep(w'.sessions, SessionIs(other)) == Keep(w.sessions, SessionIs(other))
  {
    KeepTwice(w.outputs, OutputNotOf(sid), OutputOf(other));
    KeepTwice(w.pools, PoolNotOf(sid), PoolOf(other));
    KeepTwice(w.sessions, SessionIsNot(sid), SessionIs(other));
  }

  /** Buffers go exactly with the pools of the destroyed session. */
  lemma DestroyKeepsBuffer(w: Worker, sid: nat, i: nat)
    requires Valid(w) && FindSession(w, sid).Some? && i < |w.buffers|
    ensures FindPool(w, w.buffers[i].poolId).Some?
    ensures w.buffers[i] in DoDestroySession(w, sid).worker.buffers
       <==> w.pools[FindPool(w, w.buffers[i].poolId).value].sessionId != sid
  {
    BufferSlot(w, i);
    GoneIsNotKept(w.pools, sid, FindPool(w, w.buffers[i].poolId).value);
    BufferKeptIff(w.buffers, PoolIds(Keep(w.pools, PoolOf(sid))), i);
  }

  lemma BufferKeptIff(bs: seq<Buffer>, gone: set<nat>, i: nat)
    requires i < |bs|
    ensures bs[i] in Keep(bs, BufferNotIn(gone)) <==> bs[i].poolId !in gone
  {
    var kept := Keep(bs, BufferNotIn(gone));
    if bs[i].poolId !in gone {
      var j := KeptIndex(bs, BufferNotIn(gone), i);
    } else if bs[i] in kept {
      var j :| 0 <= j < |kept| && kept[j] == bs[i];
      var k := KeptSource(bs, BufferNotIn(gone), j);
      assert false;
    }
  }

  // ---------- counters ----------

  /** After n requests no id counter has moved by more than n, so the 64-bit counters of
      the source cannot wrap in any run of fewer than 2^63 requests. */
  lemma {:induction false} CountersBounded(maxOutputs: nat, maxBytes: nat, reqs: seq<Request>, cap: nat)
    ensures var w := Run(Fresh(maxOutputs, maxBytes), reqs, cap);
            w.nextHostId <= FIRST_HOST_ID + |reqs| && w.nextOutputId <= FIRST_OUTPUT_ID + |reqs|
  {
    if |reqs| > 0 {
      var before := reqs[..|reqs| - 1];
      CountersBounded(maxOutputs, maxBytes, before, cap);
      StepCounters(Run(Fresh(maxOutputs, maxBytes), before, cap), reqs[|reqs| - 1], cap);
    }
  }

  lemma StepCounters(w: Worker, req: Request, cap: nat)
    ensures var w' := Dispatch(w, req, cap).worker;
            && w.nextHostId <= w'.nextHostId <= w.nextHostId + 1
            && w.nextOutputId <= w'.nextOutputId <= w.nextOutputId + 1
  {
    if req.DequeueOutputBatch? {
      TakeManyCounters(w, req.sessionId, BatchLimit(req.maxOutputs));
    }
  }

  lemma {:induction false} TakeManyCounters(w: Worker, sid: nat, n: nat)
    ensures var w' := TakeMany(w, sid, n).0;
            w'.nextHostId == w.nextHostId && w'.nextOutputId == w.nextOutputId && w'.buffers == w.buffers
            && w'.pools == w.pools && w'.sessions == w.sessions && |w'.outputs| == |w.outputs|
    decreases n
  {
    if n > 0 {
      TakeManyCounters(TakeReady(w, sid).0, sid, n - 1);
    }
  }
}
