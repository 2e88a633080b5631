/** The bytes of an encoded frame: what they are made of, and that they stay the same for as long
    as the worker has the output. */
module SampleHistory {
  import opened Bits
  import opened Collections
  import opened Protocol
  import opened Worker
  import opened WorkerInvariant
  import opened WorkerTheorems
  import opened WorkerHistory

  function FirstBytes(bytes: seq<byte>): (r: seq<byte>)
    ensures |r| <= 8
  {
    if |bytes| < 8 then bytes else bytes[..8]
  }

  /** The sample due for a frame submitted now: made from what can be read through its buffer. */
  function FrameSample(w: Worker, sid: nat, bufferId: nat): (r: seq<byte>) {
    var si, bi := FindSession(w, sid), FindBuffer(w, bufferId);
    if si.None? || bi.None? then []
    else
      MockSample(w.sessions[si.value].framesEncoded == 0, FirstBytes(Contents(w, bi.value)), sid, w.nextOutputId)
  }

  /** Any output with this id has these bytes. */
  ghost predicate Stored(w: Worker, id: nat, sample: seq<byte>) {
    id < w.nextOutputId && SameBytes(w.outputs, id, sample)
  }

  ghost predicate SameBytes(os: seq<Output>, id: nat, sample: seq<byte>) {
    forall i :: 0 <= i < |os| && os[i].info.outputId == id ==> os[i].sample == sample
  }

  // ---------- the bytes of a new output ----------

  /** The prefix the worker takes is the start of the buffer's contents. */
  lemma PrefixIsStart(w: Worker, i: nat)
    requires Valid(w) && i < |w.buffers|
    ensures PrefixOf(w, w.buffers[i]) == Found(FirstBytes(Contents(w, i)))
  {
    BufferLocated(w, i);
    var b := w.buffers[i];
    LocatedStart(w, i, FindPool(w, b.poolId).value, Start(b), b.totalSize);
  }

  lemma LocatedStart(w: Worker, i: nat, k: nat, start: nat, n: nat)
    requires Located(w, i, k, start, n)
    ensures PrefixOf(w, w.buffers[i]) == Found(FirstBytes(Contents(w, i)))
  {
    var bytes := w.pools[k].backing[start..start + n];
    assert Contents(w, i) == bytes;
    assert FirstBytes(bytes) == w.pools[k].backing[start..start + if n < 8 then n else 8];
  }

  lemma AcceptedSample(w: Worker, req: Request)
    requires Valid(w) && req.EncodeFrame? && Dispatch(w, req, STORAGE_CAPACITY).outcome.Ok?
    ensures Stored(Dispatch(w, req, STORAGE_CAPACITY).worker, w.nextOutputId,
                   FrameSample(w, req.sessionId, req.bufferId))
  {
    var bi := FindBuffer(w, req.bufferId).value;
    PrefixIsStart(w, bi);
    var si := FindSession(w, req.sessionId).value;
    var o := NewOutput(w, w.sessions[si], w.buffers[bi], FirstBytes(Contents(w, bi)), req.pts, req.duration);
    AcceptedIs(w, req, si, bi, FirstBytes(Contents(w, bi)));
    OlderIds(w);
    NewBytes(w.outputs, o, w.nextOutputId);
  }

  lemma AcceptedIs(w: Worker, req: Request, si: nat, bi: nat, prefix: seq<byte>)
    requires req.EncodeFrame? && Dispatch(w, req, STORAGE_CAPACITY).outcome.Ok?
    requires FindSession(w, req.sessionId) == Some(si) && FindBuffer(w, req.bufferId) == Some(bi)
    requires |prefix| <= 8 && PrefixOf(w, w.buffers[bi]) == Found(prefix)
    ensures var w', s := Dispatch(w, req, STORAGE_CAPACITY).worker, w.sessions[si];
            && w'.outputs == w.outputs + [NewOutput(w, s, w.buffers[bi], prefix, req.pts, req.duration)]
            && w'.nextOutputId == w.nextOutputId + 1 && s.id == req.sessionId
  {
  }

  lemma OlderIds(w: Worker)
    requires Valid(w)
    ensures forall i :: 0 <= i < |w.outputs| ==> w.outputs[i].info.outputId < w.nextOutputId
  {
  }

  lemma NewBytes(os: seq<Output>, o: Output, next: nat)
    requires o.info.outputId == next && forall i :: 0 <= i < |os| ==> os[i].info.outputId < next
    ensures SameBytes(os + [o], next, o.sample)
  {
  }

  // ---------- and they stay ----------

  /** No request changes the bytes of an output the worker already has. */
  lemma StoredStays(w: Worker, req: Request, id: nat, sample: seq<byte>)
    requires Stored(w, id, sample)
    ensures Stored(Dispatch(w, req, STORAGE_CAPACITY).worker, id, sample)
  {
    EncodedIsNext(w, req, STORAGE_CAPACITY);
    if !TouchesQueue(req) {
      QueueUntouched(w, req, STORAGE_CAPACITY);
    } else if req.EncodeFrame? {
      EncodeStores(w, req, id, sample);
    } else if req.ReleaseOutput? {
      ReleaseStores(w, req, id, sample);
    } else if req.DestroySession? {
      DestroyStores(w, req, id, sample);
    } else if req.DequeueOutput? {
      SingleHands(w, req.sessionId, STORAGE_CAPACITY);
      TakeStores(w, req.sessionId, id, sample);
    } else {
      BatchHands(w, req.sessionId, req.maxOutputs, STORAGE_CAPACITY);
      TakeManyStores(w, req.sessionId, BatchLimit(req.maxOutputs), id, sample);
    }
  }

  lemma EncodeStores(w: Worker, req: Request, id: nat, sample: seq<byte>)
    requires req.EncodeFrame? && Stored(w, id, sample)
    ensures SameBytes(Dispatch(w, req, STORAGE_CAPACITY).worker.outputs, id, sample)
  {
    if Dispatch(w, req, STORAGE_CAPACITY).outcome.Ok? {
      var o := AcceptedOutput(w, req, STORAGE_CAPACITY);
    } else {
      RefusedFrame(w, req, STORAGE_CAPACITY);
    }
  }

  lemma ReleaseStores(w: Worker, req: Request, id: nat, sample: seq<byte>)
    requires req.ReleaseOutput? && Stored(w, id, sample)
    ensures SameBytes(Dispatch(w, req, STORAGE_CAPACITY).worker.outputs, id, sample)
  {
  }

  lemma DestroyStores(w: Worker, req: Request, id: nat, sample: seq<byte>)
    requires req.DestroySession? && Stored(w, id, sample)
    ensures SameBytes(Dispatch(w, req, STORAGE_CAPACITY).worker.outputs, id, sample)
  {
    if FindSession(w, req.sessionId).Some? {
      KeptBytes(w.outputs, OutputNotOf(req.sessionId), id, sample);
    }
  }

  lemma KeptBytes(os: seq<Output>, p: Output -> bool, id: nat, sample: seq<byte>)
    requires SameBytes(os, id, sample)
    ensures SameBytes(Keep(os, p), id, sample)
  {
    var kept := Keep(os, p);
    forall j | 0 <= j < |kept| && kept[j].info.outputId == id ensures kept[j].sample == sample {
      var i := KeptSource(os, p, j);
    }
  }

  lemma TakeStores(w: Worker, s: nat, id: nat, sample: seq<byte>)
    requires SameBytes(w.outputs, id, sample)
    ensures SameBytes(TakeReady(w, s).0.outputs, id, sample)
  {
  }

  lemma {:induction false} TakeManyStores(w: Worker, s: nat, n: nat, id: nat, sample: seq<byte>)
    requires SameBytes(w.outputs, id, sample)
    ensures SameBytes(TakeMany(w, s, n).0.outputs, id, sample)
    decreases n
  {
    if n > 0 {
      TakeStores(w, s, id, sample);
      TakeManyStep(w, s, n);
      TakeManyStores(TakeReady(w, s).0, s, n - 1, id, sample);
    }
  }

  /** What is read is what was stored. */
  lemma ReadIsStored(w: Worker, id: nat, sample: seq<byte>)
    requires Stored(w, id, sample)
    ensures match Dispatch(w, ReadOutput(id), STORAGE_CAPACITY).outcome
            case Ok(OutputBytes(_, _, data)) => data == sample
            case _ => true
  {
  }
}
