/** The guest's compression session against the worker: frames go in, callbacks come out.
    Steps are those of the guest's encode and delivery code; anything else may happen at the
    worker between any two of them, short of taking this session's outputs away. */
module EncodePipeline {
  import opened Bits
  import opened Collections
  import opened Protocol
  import opened Worker
  import opened WorkerInvariant
  import opened WorkerHistory
  import opened PendingQueue
  import opened SampleHistory

  /** A submitted frame: its pending entry and its presentation time. */
  datatype Frame = Frame(entry: Entry, pts: Time)

  /** An output paired with a pending entry; `made` says whether the callback could be made. */
  datatype Callback = Callback(entry: Option<Entry>, info: OutputInfo, sample: seq<byte>, made: bool)

  /** `queued` are the images the guest itself marks as submitted. `frames` are all submissions,
      `accepted` the indices of those the worker took and `samples` the bytes due for them.
      `handed` are the outputs dequeued so far and `next` the first still in hand. `callbacks`
      are the outputs paired and `taken` says which output each of them is; an output that `next`
      has passed and `taken` skips was lost. */
  datatype Guest = Guest(
    worker: Worker, pending: seq<Entry>, queued: set<Lease>, frames: seq<Frame>, accepted: seq<nat>,
    samples: seq<seq<byte>>, handed: seq<OutputInfo>, next: nat, taken: seq<nat>, callbacks: seq<Callback>)

  datatype Action =
    | Encode(entry: Entry, pts: Time, duration: Time)
    | Dequeue(batch: u32, known: bool)
    | Deliver(built: bool)
    | Other(req: Request)

  function Begin(maxOutputs: nat, maxBytes: nat): (g: Guest) {
    Guest(Fresh(maxOutputs, maxBytes), [], {}, [], [], [], [], 0, [], [])
  }

  /** The request for a frame: a leased buffer's proxy id is its host id. */
  function FrameRequest(sid: nat, entry: Entry, pts: Time, duration: Time): (req: Request)
    ensures req.EncodeFrame?
  {
    EncodeFrame(sid, entry.image.id, entry.image.id, entry.image.generation, pts, duration)
  }

  /** An image already submitted is refused before anything is queued. Otherwise the pending
      entry is pushed before the request and stays there if the request fails. */
  function EncodeStep(g: Guest, sid: nat, entry: Entry, pts: Time, duration: Time): (g': Guest) {
    if entry.image in g.queued then g
    else
      var step := Dispatch(g.worker, FrameRequest(sid, entry, pts, duration), STORAGE_CAPACITY);
      g.(worker := step.worker, pending := g.pending + [entry], queued := g.queued + {entry.image},
         frames := g.frames + [Frame(entry, pts)],
         accepted := if step.outcome.Ok? then g.accepted + [|g.frames|] else g.accepted,
         samples := if step.outcome.Ok? then g.samples + [FrameSample(g.worker, sid, entry.image.id)] else g.samples)
  }

  /** A batch size of at most one, or a worker that does not know the batch opcode, means the
      single opcode. */
  function DequeueRequest(sid: nat, batch: u32, known: bool): (req: Request) {
    if batch > 1 && known then DequeueOutputBatch(sid, batch) else DequeueOutput(sid)
  }

  function DequeueStep(g: Guest, sid: nat, batch: u32, known: bool): (g': Guest) {
    var req := DequeueRequest(sid, batch, known);
    g.(worker := Dispatch(g.worker, req, STORAGE_CAPACITY).worker,
       handed := g.handed + HandedBy(g.worker, req, STORAGE_CAPACITY))
  }

  /** The bytes of a dequeued output, if the worker still gives them out. */
  function SampleOf(w: Worker, outputId: nat): (r: Option<seq<byte>>) {
    match Dispatch(w, ReadOutput(outputId), STORAGE_CAPACITY).outcome
    case Ok(OutputBytes(_, _, data)) => Some(data)
    case _ => None
  }

  function NextSample(g: Guest): (r: Option<seq<byte>>)
    requires g.next < |g.handed|
  {
    SampleOf(g.worker, g.handed[g.next].outputId)
  }

  /** The oldest entry is taken off and paired with the output. */
  function Paired(g: Guest, sample: seq<byte>, made: bool): (g': Guest)
    requires g.next < |g.handed|
  {
    var entry := if g.pending == [] then None else Some(g.pending[0]);
    g.(pending := if g.pending == [] then [] else g.pending[1..],
       queued := if made && entry.Some? then g.queued - {entry.value.image} else g.queued,
       next := g.next + 1, taken := g.taken + [g.next],
       callbacks := g.callbacks + [Callback(entry, g.handed[g.next], sample, made)])
  }

  /** A failed delivery ends the loop: what is still in hand is never looked at again. */
  function Abandoned(g: Guest): (g': Guest) {
    g.(next := |g.handed|)
  }

  /** The next dequeued output is read, paired with the oldest pending entry, and passed on.
      `built` says whether the sample objects for the callback could be made. */
  function DeliverStep(g: Guest, built: bool): (g': Guest) {
    if g.next >= |g.handed| then g
    else
      var sample := NextSample(g);
      if sample.None? then Abandoned(g)
      else if built then Paired(g, sample.value, true)
      else Abandoned(Paired(g, sample.value, false))
  }

  function Act(g: Guest, sid: nat, a: Action): (g': Guest) {
    match a
    case Encode(entry, pts, duration) => EncodeStep(g, sid, entry, pts, duration)
    case Dequeue(batch, known) => DequeueStep(g, sid, batch, known)
    case Deliver(built) => DeliverStep(g, built)
    case Other(req) => g.(worker := Dispatch(g.worker, req, STORAGE_CAPACITY).worker)
  }

  function Play(g: Guest, sid: nat, actions: seq<Action>): (g': Guest) {
    if |actions| == 0 then g
    else Act(Play(g, sid, actions[..|actions| - 1]), sid, actions[|actions| - 1])
  }

  // ---------- what others may do ----------

  ghost predicate InHand(g: Guest, id: nat) {
    exists k :: g.next <= k < |g.handed| && g.handed[k].outputId == id
  }

  /** Other requests neither encode on, dequeue from nor destroy this session, and release
      only outputs whose callback has run. */
  ghost predicate Polite(g: Guest, sid: nat, a: Action) {
    a.Other? ==>
      && !(a.req.EncodeFrame? && a.req.sessionId == sid)
      && !(a.req.DequeueOutput? && a.req.sessionId == sid)
      && !(a.req.DequeueOutputBatch? && a.req.sessionId == sid)
      && !Discards(g.worker, a.req, sid)
      && !(a.req.ReleaseOutput? && InHand(g, a.req.outputId))
  }

  ghost predicate AllPolite(g: Guest, sid: nat, actions: seq<Action>) {
    |actions| > 0 ==>
      var before := actions[..|actions| - 1];
      AllPolite(g, sid, before) && Polite(Play(g, sid, before), sid, actions[|actions| - 1])
  }

  // ---------- invariant ----------

  /** The k-th output, handed out or waiting, is for the k-th accepted frame. */
  ghost predicate InOrder(g: Guest, sid: nat) {
    var all := g.handed + Waiting(g.worker, sid);
    && |all| == |g.accepted|
    && (forall k :: 0 <= k < |g.accepted| ==> g.accepted[k] < |g.frames|)
    && (forall k :: 0 <= k < |g.accepted| ==> all[k].pts == g.frames[g.accepted[k]].pts)
    && (forall j, k :: 0 <= j < k < |g.accepted| ==> g.accepted[j] < g.accepted[k])
  }

  /** The queue holds the submissions no callback has consumed. */
  ghost predicate QueueIsRest(g: Guest) {
    && |g.callbacks| <= g.next <= |g.handed|
    && |g.pending| + |g.callbacks| == |g.frames|
    && (forall k :: 0 <= k < |g.pending| ==> g.pending[k] == g.frames[|g.callbacks| + k].entry)
  }

  ghost predicate CallbacksRight(g: Guest) {
    && |g.taken| == |g.callbacks| <= |g.frames| && g.next <= |g.handed| <= |g.samples|
    && (forall k :: 0 <= k < |g.taken| ==> g.taken[k] < g.next)
    && (forall j, k :: 0 <= j < k < |g.taken| ==> g.taken[j] < g.taken[k])
    && (forall k :: 0 <= k < |g.callbacks| ==>
          && g.callbacks[k].entry == Some(g.frames[k].entry)
          && g.callbacks[k].info == g.handed[g.taken[k]] && g.callbacks[k].sample == g.samples[g.taken[k]])
  }

  /** The bytes due for each accepted frame are those its output has. */
  ghost predicate Sampled(g: Guest, sid: nat) {
    var all := g.handed + Waiting(g.worker, sid);
    |g.samples| == |all| && forall k :: 0 <= k < |all| ==> Stored(g.worker, all[k].outputId, g.samples[k])
  }

  /** The worker still has the dequeued output `id` of session `sid`. */
  ghost predicate Readable(w: Worker, sid: nat, id: nat) {
    exists i: nat :: HeldAt(w, sid, id, i)
  }

  ghost predicate HeldAt(w: Worker, sid: nat, id: nat, i: nat) {
    i < |w.outputs| && w.outputs[i].info.outputId == id && w.outputs[i].info.sessionId == sid && w.outputs[i].dequeued
  }

  ghost predicate HandReadable(g: Guest, sid: nat) {
    forall k :: g.next <= k < |g.handed| ==> Readable(g.worker, sid, g.handed[k].outputId)
  }

  ghost predicate Aligned(g: Guest, sid: nat) {
    InOrder(g, sid) && Sampled(g, sid) && QueueIsRest(g) && CallbacksRight(g) && HandReadable(g, sid)
  }

  ghost predicate Inv(g: Guest, sid: nat) {
    Valid(g.worker) && Aligned(g, sid)
  }

  // ---------- outputs stay readable ----------

  lemma TakenStays(w: Worker, req: Request, sid: nat, id: nat)
    requires Readable(w, sid, id)
    requires !(req.DestroySession? && req.sessionId == sid) && !(req.ReleaseOutput? && req.outputId == id)
    ensures Readable(Dispatch(w, req, STORAGE_CAPACITY).worker, sid, id)
  {
    var i: nat :| HeldAt(w, sid, id, i);
    if !TouchesQueue(req) {
      QueueUntouched(w, req, STORAGE_CAPACITY);
      assert HeldAt(Dispatch(w, req, STORAGE_CAPACITY).worker, sid, id, i);
    } else if req.EncodeFrame? {
      TakenStaysEncode(w, req, sid, id, i);
    } else if req.ReleaseOutput? {
      TakenStaysRelease(w, req.outputId, sid, id, i);
    } else if req.DestroySession? {
      TakenStaysDestroy(w, req.sessionId, sid, id, i);
    } else if req.DequeueOutput? {
      TakeReadyTaken(w, req.sessionId, sid, id);
    } else {
      TakeManyTaken(w, req.sessionId, BatchLimit(req.maxOutputs), sid, id);
    }
  }

  lemma TakenStaysEncode(w: Worker, req: Request, sid: nat, id: nat, i: nat)
    requires req.EncodeFrame? && HeldAt(w, sid, id, i)
    ensures Readable(Dispatch(w, req, STORAGE_CAPACITY).worker, sid, id)
  {
    var w' := Dispatch(w, req, STORAGE_CAPACITY).worker;
    if Dispatch(w, req, STORAGE_CAPACITY).outcome.Ok? {
      var si, bi, prefix := AcceptedFrom(w, req, STORAGE_CAPACITY);
    } else {
      RefusedFrame(w, req, STORAGE_CAPACITY);
    }
    assert HeldAt(w', sid, id, i);
  }

  lemma TakenStaysRelease(w: Worker, gone: nat, sid: nat, id: nat, i: nat)
    requires gone != id && HeldAt(w, sid, id, i)
    ensures Readable(DoReleaseOutput(w, gone).worker, sid, id)
  {
    var at := FindOutput(w, gone);
    assert HeldAt(DoReleaseOutput(w, gone).worker, sid, id, if at.None? || i < at.value then i else i - 1);
  }

  lemma TakenStaysDestroy(w: Worker, gone: nat, sid: nat, id: nat, i: nat)
    requires gone != sid && HeldAt(w, sid, id, i)
    ensures Readable(DoDestroySession(w, gone).worker, sid, id)
  {
    var w' := DoDestroySession(w, gone).worker;
    if FindSession(w, gone).Some? {
      var j := KeptIndex(w.outputs, OutputNotOf(gone), i);
      assert HeldAt(w', sid, id, j);
    } else {
      assert HeldAt(w', sid, id, i);
    }
  }

  lemma TakeReadyTaken(w: Worker, s: nat, sid: nat, id: nat)
    requires Readable(w, sid, id)
    ensures Readable(TakeReady(w, s).0, sid, id)
  {
    var i: nat :| HeldAt(w, sid, id, i);
    assert HeldAt(TakeReady(w, s).0, sid, id, i);
  }

  /** What a dequeue hands out can be read afterwards. */
  lemma TakenIsReadable(w: Worker, sid: nat)
    requires TakeReady(w, sid).1.Some?
    ensures Readable(TakeReady(w, sid).0, sid, TakeReady(w, sid).1.value.outputId)
  {
    var i := IndexWhere(w.outputs, Ready(sid)).value;
    assert HeldAt(TakeReady(w, sid).0, sid, w.outputs[i].info.outputId, i);
  }

  lemma {:induction false} TakeManyTaken(w: Worker, s: nat, n: nat, sid: nat, id: nat)
    requires Readable(w, sid, id)
    ensures Readable(TakeMany(w, s, n).0, sid, id)
    decreases n
  {
    if n > 0 && TakeReady(w, s).1.Some? {
      TakeReadyTaken(w, s, sid, id);
      TakeManyTaken(TakeReady(w, s).0, s, n - 1, sid, id);
    }
  }

  lemma {:induction false} TakeManyReadable(w: Worker, sid: nat, n: nat, k: nat)
    requires k < |TakeMany(w, sid, n).1|
    ensures Readable(TakeMany(w, sid, n).0, sid, TakeMany(w, sid, n).1[k].outputId)
    decreases n
  {
    var w1 := TakeReady(w, sid).0;
    if k == 0 {
      TakenIsReadable(w, sid);
      TakeManyTaken(w1, sid, n - 1, sid, TakeReady(w, sid).1.value.outputId);
    } else {
      TakeManyReadable(w1, sid, n - 1, k - 1);
    }
  }

  lemma DequeuedReadable(w: Worker, sid: nat, batch: u32, known: bool, k: nat)
    requires k < |HandedBy(w, DequeueRequest(sid, batch, known), STORAGE_CAPACITY)|
    ensures Readable(Dispatch(w, DequeueRequest(sid, batch, known), STORAGE_CAPACITY).worker, sid,
                     HandedBy(w, DequeueRequest(sid, batch, known), STORAGE_CAPACITY)[k].outputId)
  {
    if batch > 1 && known {
      BatchHands(w, sid, batch, STORAGE_CAPACITY);
      TakeManyReadable(w, sid, BatchLimit(batch), k);
    } else {
      TakenIsReadable(w, sid);
    }
  }

  /** A readable output is read in full. */
  lemma ReadSucceeds(w: Worker, sid: nat, id: nat)
    requires Valid(w) && Readable(w, sid, id)
    ensures var i := IndexWhere(w.outputs, Taken(id));
            && i.Some?
            && Dispatch(w, ReadOutput(id), STORAGE_CAPACITY).outcome
              == Ok(OutputBytes(id, SAMPLE_SIZE, w.outputs[i.value].sample))
  {
    var i: nat :| HeldAt(w, sid, id, i);
    var found := IndexWhere(w.outputs, Taken(id));
    assert Taken(id)(w.outputs[i]);
    assert found.Some? && w.outputs[found.value].info.sampleSize == |w.outputs[found.value].sample| == SAMPLE_SIZE;
  }

  // ---------- each step keeps the invariant ----------

  lemma DequeueOnlyMine(w: Worker, sid: nat, batch: u32, known: bool)
    ensures var req := DequeueRequest(sid, batch, known);
            Keep(HandedBy(w, req, STORAGE_CAPACITY), InfoOf(sid)) == HandedBy(w, req, STORAGE_CAPACITY)
  {
    if batch > 1 && known {
      BatchHands(w, sid, batch, STORAGE_CAPACITY);
      TakeManyIsPrefix(w, sid, BatchLimit(batch));
    } else {
      TakeReadyIsHead(w, sid);
    }
    KeepMine(HandedBy(w, DequeueRequest(sid, batch, known), STORAGE_CAPACITY), sid, sid);
  }

  lemma DequeueMovesOn(w: Worker, sid: nat, batch: u32, known: bool)
    ensures var req := DequeueRequest(sid, batch, known);
            HandedBy(w, req, STORAGE_CAPACITY) + Waiting(Dispatch(w, req, STORAGE_CAPACITY).worker, sid)
              == Waiting(w, sid)
  {
    DequeueOnlyMine(w, sid, batch, known);
    DequeueMoves(w, DequeueRequest(sid, batch, known), STORAGE_CAPACITY, sid);
  }

  lemma DequeueKeeps(g: Guest, sid: nat, batch: u32, known: bool)
    requires Inv(g, sid)
    ensures Inv(DequeueStep(g, sid, batch, known), sid)
  {
    DispatchKeeps(g.worker, DequeueRequest(sid, batch, known), STORAGE_CAPACITY);
    DequeueAligned(g, sid, batch, known);
  }

  lemma DequeueAligned(g: Guest, sid: nat, batch: u32, known: bool)
    requires Aligned(g, sid)
    ensures Aligned(DequeueStep(g, sid, batch, known), sid)
  {
    DequeueMovesOn(g.worker, sid, batch, known);
    DequeueInOrder(g, sid, batch, known);
    DequeueHandReadable(g, sid, batch, known);
    SamplesStay(g, sid, DequeueRequest(sid, batch, known), DequeueStep(g, sid, batch, known));
  }

  /** The same outputs, wherever they are now, still have their bytes. */
  lemma SamplesStay(g: Guest, sid: nat, req: Request, g': Guest)
    requires Sampled(g, sid) && g'.samples == g.samples
    requires g'.worker == Dispatch(g.worker, req, STORAGE_CAPACITY).worker
    requires g'.handed + Waiting(g'.worker, sid) == g.handed + Waiting(g.worker, sid)
    ensures Sampled(g', sid)
  {
    var all := g.handed + Waiting(g.worker, sid);
    forall k | 0 <= k < |all| ensures Stored(g'.worker, all[k].outputId, g.samples[k]) {
      StoredStays(g.worker, req, all[k].outputId, g.samples[k]);
    }
  }

  lemma DequeueInOrder(g: Guest, sid: nat, batch: u32, known: bool)
    requires InOrder(g, sid) && Sampled(g, sid) && QueueIsRest(g) && CallbacksRight(g)
    requires var req := DequeueRequest(sid, batch, known);
             HandedBy(g.worker, req, STORAGE_CAPACITY) + Waiting(Dispatch(g.worker, req, STORAGE_CAPACITY).worker, sid)
             == Waiting(g.worker, sid)
    ensures var g' := DequeueStep(g, sid, batch, known);
            && g'.handed + Waiting(g'.worker, sid) == g.handed + Waiting(g.worker, sid)
            && InOrder(g', sid) && QueueIsRest(g') && CallbacksRight(g')
  {
    var req := DequeueRequest(sid, batch, known);
    HandedOver(g, sid, Dispatch(g.worker, req, STORAGE_CAPACITY).worker, HandedBy(g.worker, req, STORAGE_CAPACITY));
  }

  /** Outputs that go from waiting to handed out keep their place. */
  lemma HandedOver(g: Guest, sid: nat, w: Worker, more: seq<OutputInfo>)
    requires InOrder(g, sid) && Sampled(g, sid) && QueueIsRest(g) && CallbacksRight(g)
    requires more + Waiting(w, sid) == Waiting(g.worker, sid)
    ensures var g' := g.(worker := w, handed := g.handed + more);
            && g'.handed + Waiting(g'.worker, sid) == g.handed + Waiting(g.worker, sid)
            && InOrder(g', sid) && QueueIsRest(g') && CallbacksRight(g')
  {
    assert (g.handed + more) + Waiting(w, sid) == g.handed + (more + Waiting(w, sid));
  }

  lemma DequeueHandReadable(g: Guest, sid: nat, batch: u32, known: bool)
    requires HandReadable(g, sid)
    ensures HandReadable(DequeueStep(g, sid, batch, known), sid)
  {
    var g' := DequeueStep(g, sid, batch, known);
    var req := DequeueRequest(sid, batch, known);
    forall k | g'.next <= k < |g'.handed| ensures Readable(g'.worker, sid, g'.handed[k].outputId) {
      if k < |g.handed| {
        TakenStays(g.worker, req, sid, g.handed[k].outputId);
      } else {
        DequeuedReadable(g.worker, sid, batch, known, k - |g.handed|);
      }
    }
  }

  lemma OtherKeeps(g: Guest, sid: nat, req: Request)
    requires Inv(g, sid) && Polite(g, sid, Other(req))
    ensures Inv(g.(worker := Dispatch(g.worker, req, STORAGE_CAPACITY).worker), sid)
  {
    DispatchKeeps(g.worker, req, STORAGE_CAPACITY);
    OtherAligned(g, sid, req);
  }

  lemma OtherAligned(g: Guest, sid: nat, req: Request)
    requires Aligned(g, sid) && Polite(g, sid, Other(req))
    ensures Aligned(g.(worker := Dispatch(g.worker, req, STORAGE_CAPACITY).worker), sid)
  {
    var w' := Dispatch(g.worker, req, STORAGE_CAPACITY).worker;
    OtherWaits(g.worker, sid, req);
    SameWaiting(g, sid, w');
    OtherHandReadable(g, sid, req);
    SamplesStay(g, sid, req, g.(worker := w'));
  }

  lemma SameWaiting(g: Guest, sid: nat, w: Worker)
    requires InOrder(g, sid) && QueueIsRest(g) && CallbacksRight(g) && Waiting(w, sid) == Waiting(g.worker, sid)
    ensures var g' := g.(worker := w);
            InOrder(g', sid) && QueueIsRest(g') && CallbacksRight(g')
  {
  }

  lemma OtherHandReadable(g: Guest, sid: nat, req: Request)
    requires HandReadable(g, sid) && Polite(g, sid, Other(req))
    ensures HandReadable(g.(worker := Dispatch(g.worker, req, STORAGE_CAPACITY).worker), sid)
  {
    var w' := Dispatch(g.worker, req, STORAGE_CAPACITY).worker;
    forall k | g.next <= k < |g.handed| ensures Readable(w', sid, g.handed[k].outputId) {
      assert InHand(g, g.handed[k].outputId);
      TakenStays(g.worker, req, sid, g.handed[k].outputId);
    }
  }

  /** Requests that do not concern the session leave its waiting outputs alone. */
  lemma OtherWaits(w: Worker, sid: nat, req: Request)
    requires !(req.EncodeFrame? && req.sessionId == sid) && !Discards(w, req, sid)
    requires !(req.DequeueOutput? && req.sessionId == sid) && !(req.DequeueOutputBatch? && req.sessionId == sid)
    ensures Waiting(Dispatch(w, req, STORAGE_CAPACITY).worker, sid) == Waiting(w, sid)
  {
    if !TouchesQueue(req) {
      QueueUntouched(w, req, STORAGE_CAPACITY);
    } else if req.EncodeFrame? {
      OtherEncodeWaits(w, sid, req);
    } else if req.ReleaseOutput? || req.DestroySession? {
      RemovalKeepsWaiting(w, req, STORAGE_CAPACITY, sid);
    } else if req.DequeueOutput? {
      OtherTakeWaits(w, sid, req);
    } else {
      OtherBatchWaits(w, sid, req);
    }
  }

  lemma OtherTakeWaits(w: Worker, sid: nat, req: Request)
    requires req.DequeueOutput? && req.sessionId != sid
    ensures Waiting(Dispatch(w, req, STORAGE_CAPACITY).worker, sid) == Waiting(w, sid)
  {
    TakeReadyIsLocal(w, req.sessionId, sid);
  }

  lemma OtherBatchWaits(w: Worker, sid: nat, req: Request)
    requires req.DequeueOutputBatch? && req.sessionId != sid
    ensures Waiting(Dispatch(w, req, STORAGE_CAPACITY).worker, sid) == Waiting(w, sid)
  {
    BatchHands(w, req.sessionId, req.maxOutputs, STORAGE_CAPACITY);
    TakeManyIsLocal(w, req.sessionId, BatchLimit(req.maxOutputs), sid);
  }

  lemma OtherEncodeWaits(w: Worker, sid: nat, req: Request)
    requires req.EncodeFrame? && req.sessionId != sid
    ensures Waiting(Dispatch(w, req, STORAGE_CAPACITY).worker, sid) == Waiting(w, sid)
  {
    EncodeAppends(w, req, STORAGE_CAPACITY, sid);
    EncodedIs(w, req);
    if Dispatch(w, req, STORAGE_CAPACITY).outcome.Ok? {
      SingleKeep(EncodedBy(w, req, STORAGE_CAPACITY)[0], InfoOf(sid));
    }
    assert Waiting(w, sid) + [] == Waiting(w, sid);
  }

  /** An accepted frame yields one output of its session with its own time, a refused one none. */
  lemma EncodedIs(w: Worker, req: Request)
    requires req.EncodeFrame?
    ensures var e := EncodedBy(w, req, STORAGE_CAPACITY);
            if Dispatch(w, req, STORAGE_CAPACITY).outcome.Ok?
            then |e| == 1 && e[0].pts == req.pts && e[0].sessionId == req.sessionId && e[0].outputId == w.nextOutputId
            else e == []
  {
    if Dispatch(w, req, STORAGE_CAPACITY).outcome.Ok? {
      var o := AcceptedOutput(w, req, STORAGE_CAPACITY);
    } else {
      RefusedFrame(w, req, STORAGE_CAPACITY);
    }
  }

  lemma EncodeKeeps(g: Guest, sid: nat, entry: Entry, pts: Time, duration: Time)
    requires Inv(g, sid)
    ensures Inv(EncodeStep(g, sid, entry, pts, duration), sid)
  {
    if entry.image !in g.queued {
      var req := FrameRequest(sid, entry, pts, duration);
      DispatchKeeps(g.worker, req, STORAGE_CAPACITY);
      if Dispatch(g.worker, req, STORAGE_CAPACITY).outcome.Ok? {
        AcceptedSample(g.worker, req);
      }
      EncodeAligned(g, sid, entry, pts, duration);
    }
  }

  lemma EncodeAligned(g: Guest, sid: nat, entry: Entry, pts: Time, duration: Time)
    requires Aligned(g, sid) && entry.image !in g.queued
    requires var step := Dispatch(g.worker, FrameRequest(sid, entry, pts, duration), STORAGE_CAPACITY);
             step.outcome.Ok? ==> Stored(step.worker, g.worker.nextOutputId, FrameSample(g.worker, sid, entry.image.id))
    ensures Aligned(EncodeStep(g, sid, entry, pts, duration), sid)
  {
    EncodeHandReadable(g, sid, entry, pts, duration);
    EncodeWaits(g.worker, sid, entry, pts, duration);
    EncodeInOrder(g, sid, entry, pts, duration);
    EncodeSampled(g, sid, entry, pts, duration);
    EncodeQueue(g, sid, entry, pts, duration);
  }

  lemma EncodeSampled(g: Guest, sid: nat, entry: Entry, pts: Time, duration: Time)
    requires Sampled(g, sid) && entry.image !in g.queued
    requires Grown(g.worker, sid, entry, pts, duration)
    requires var step := Dispatch(g.worker, FrameRequest(sid, entry, pts, duration), STORAGE_CAPACITY);
             step.outcome.Ok? ==> Stored(step.worker, g.worker.nextOutputId, FrameSample(g.worker, sid, entry.image.id))
    ensures Sampled(EncodeStep(g, sid, entry, pts, duration), sid)
  {
    var req := FrameRequest(sid, entry, pts, duration);
    var step := Dispatch(g.worker, req, STORAGE_CAPACITY);
    SamplesOfOld(g, sid, req);
    if step.outcome.Ok? {
      SamplesGrow(g, sid, step.worker, FrameSample(g.worker, sid, entry.image.id));
    }
  }

  lemma SamplesGrow(g: Guest, sid: nat, w: Worker, sample: seq<byte>)
    requires var before, waiting := Waiting(g.worker, sid), Waiting(w, sid);
             && |waiting| == |before| + 1 && waiting[..|before|] == before
             && Stored(w, waiting[|before|].outputId, sample)
    requires var all := g.handed + Waiting(g.worker, sid);
             |g.samples| == |all| && forall k :: 0 <= k < |all| ==> Stored(w, all[k].outputId, g.samples[k])
    ensures Sampled(g.(worker := w, samples := g.samples + [sample]), sid)
  {
    var before, waiting := Waiting(g.worker, sid), Waiting(w, sid);
    var last := waiting[|before|];
    assert waiting == before + [last];
    assert g.handed + waiting == (g.handed + before) + [last];
  }

  lemma SamplesOfOld(g: Guest, sid: nat, req: Request)
    requires Sampled(g, sid)
    ensures var all, w' := g.handed + Waiting(g.worker, sid), Dispatch(g.worker, req, STORAGE_CAPACITY).worker;
            forall k :: 0 <= k < |all| ==> Stored(w', all[k].outputId, g.samples[k])
  {
    var all, w' := g.handed + Waiting(g.worker, sid), Dispatch(g.worker, req, STORAGE_CAPACITY).worker;
    forall k | 0 <= k < |all| ensures Stored(w', all[k].outputId, g.samples[k]) {
      StoredStays(g.worker, req, all[k].outputId, g.samples[k]);
    }
  }

  /** What a submission does to the session's waiting outputs: one more, or nothing. */
  ghost predicate Grown(w: Worker, sid: nat, entry: Entry, pts: Time, duration: Time) {
    var step := Dispatch(w, FrameRequest(sid, entry, pts, duration), STORAGE_CAPACITY);
    var before, waiting := Waiting(w, sid), Waiting(step.worker, sid);
    if step.outcome.Ok?
    then
      && |waiting| == |before| + 1 && waiting[..|before|] == before
      && waiting[|before|].pts == pts && waiting[|before|].outputId == w.nextOutputId
    else waiting == before
  }

  lemma EncodeWaits(w: Worker, sid: nat, entry: Entry, pts: Time, duration: Time)
    ensures Grown(w, sid, entry, pts, duration)
  {
    var req := FrameRequest(sid, entry, pts, duration);
    EncodedIs(w, req);
    if Dispatch(w, req, STORAGE_CAPACITY).outcome.Ok? {
      EncodeAppends(w, req, STORAGE_CAPACITY, sid);
      var e := EncodedBy(w, req, STORAGE_CAPACITY);
      assert e == [e[0]];
      SingleKeep(e[0], InfoOf(sid));
    } else {
      RefusedFrame(w, req, STORAGE_CAPACITY);
    }
  }

  lemma EncodeInOrder(g: Guest, sid: nat, entry: Entry, pts: Time, duration: Time)
    requires InOrder(g, sid) && entry.image !in g.queued && Grown(g.worker, sid, entry, pts, duration)
    ensures InOrder(EncodeStep(g, sid, entry, pts, duration), sid)
  {
    var step := Dispatch(g.worker, FrameRequest(sid, entry, pts, duration), STORAGE_CAPACITY);
    if step.outcome.Ok? {
      OrderGrows(g, sid, step.worker, Frame(entry, pts));
    }
  }

  lemma OrderGrows(g: Guest, sid: nat, w: Worker, f: Frame)
    requires InOrder(g, sid)
    requires var before, waiting := Waiting(g.worker, sid), Waiting(w, sid);
             |waiting| == |before| + 1 && waiting[..|before|] == before && waiting[|before|].pts == f.pts
    ensures InOrder(g.(worker := w, frames := g.frames + [f], accepted := g.accepted + [|g.frames|]), sid)
  {
    var before, waiting := Waiting(g.worker, sid), Waiting(w, sid);
    var n := |g.accepted|;
    assert waiting == before + [waiting[|before|]];
    assert g.handed + waiting == (g.handed + before) + [waiting[|before|]];
    forall k | 0 <= k < n ensures (g.handed + waiting)[k].pts == g.frames[g.accepted[k]].pts {
      assert (g.handed + waiting)[k] == (g.handed + before)[k];
    }
  }

  lemma EncodeQueue(g: Guest, sid: nat, entry: Entry, pts: Time, duration: Time)
    requires QueueIsRest(g) && CallbacksRight(g)
    ensures var g' := EncodeStep(g, sid, entry, pts, duration);
            QueueIsRest(g') && CallbacksRight(g')
  {
  }

  lemma EncodeHandReadable(g: Guest, sid: nat, entry: Entry, pts: Time, duration: Time)
    requires HandReadable(g, sid)
    ensures HandReadable(EncodeStep(g, sid, entry, pts, duration), sid)
  {
    if entry.image !in g.queued {
      var w' := Dispatch(g.worker, FrameRequest(sid, entry, pts, duration), STORAGE_CAPACITY).worker;
      forall k | g.next <= k < |g.handed| ensures Readable(w', sid, g.handed[k].outputId) {
        TakenStays(g.worker, FrameRequest(sid, entry, pts, duration), sid, g.handed[k].outputId);
      }
    }
  }

  /** There is always an entry to pair a dequeued output with. */
  lemma PendingCovers(g: Guest, sid: nat)
    requires InOrder(g, sid) && QueueIsRest(g)
    ensures |g.handed| <= |g.accepted| <= |g.frames|
    ensures g.next < |g.handed| ==> |g.pending| > 0
  {
    AscendingIsShort(g.accepted, |g.frames|);
  }

  /** A delivery never fails for want of the output. */
  lemma SampleIsThere(g: Guest, sid: nat)
    requires Valid(g.worker) && HandReadable(g, sid) && g.next < |g.handed|
    ensures NextSample(g).Some?
  {
    ReadSucceeds(g.worker, sid, g.handed[g.next].outputId);
  }

  /** And it reads the bytes due for that frame. */
  lemma SampleIsDue(g: Guest, sid: nat)
    requires Sampled(g, sid) && g.next < |g.handed| && NextSample(g).Some?
    ensures g.next < |g.samples| && NextSample(g).value == g.samples[g.next]
  {
    assert (g.handed + Waiting(g.worker, sid))[g.next] == g.handed[g.next];
    ReadIsStored(g.worker, g.handed[g.next].outputId, g.samples[g.next]);
  }

  lemma DeliverKeeps(g: Guest, sid: nat, built: bool)
    requires Inv(g, sid)
    ensures Inv(DeliverStep(g, built), sid)
  {
    DeliverTouchesNoWorker(g, built);
    if g.next < |g.handed| {
      SampleIsThere(g, sid);
      DeliverAligned(g, sid, built);
    }
  }

  lemma DeliverTouchesNoWorker(g: Guest, built: bool)
    ensures DeliverStep(g, built).worker == g.worker
    ensures g.next >= |g.handed| ==> DeliverStep(g, built) == g
  {
  }

  lemma DeliverAligned(g: Guest, sid: nat, built: bool)
    requires Aligned(g, sid) && g.next < |g.handed| && NextSample(g).Some?
    ensures Aligned(DeliverStep(g, built), sid)
  {
    var g' := Paired(g, NextSample(g).value, built);
    PendingCovers(g, sid);
    SampleIsDue(g, sid);
    PairedKeeps(g, sid, NextSample(g).value, built);
    AbandonedKeeps(g', sid);
    assert DeliverStep(g, built) == if built then g' else Abandoned(g');
  }

  /** Outputs that are dropped take no entry with them. */
  lemma AbandonedKeeps(g: Guest, sid: nat)
    requires Aligned(g, sid)
    ensures Aligned(Abandoned(g), sid)
  {
  }

  lemma PairedKeeps(g: Guest, sid: nat, sample: seq<byte>, made: bool)
    requires Aligned(g, sid) && g.next < |g.handed| && |g.pending| > 0
    requires g.next < |g.samples| && sample == g.samples[g.next]
    ensures Aligned(Paired(g, sample, made), sid)
  {
    PairedQueue(g, sample, made);
    PairedCallbacks(g, sample, made);
  }

  lemma PairedQueue(g: Guest, sample: seq<byte>, made: bool)
    requires QueueIsRest(g) && g.next < |g.handed| && |g.pending| > 0
    ensures QueueIsRest(Paired(g, sample, made))
  {
    var g' := Paired(g, sample, made);
    forall k | 0 <= k < |g'.pending| ensures g'.pending[k] == g.frames[|g'.callbacks| + k].entry {
      assert g'.pending[k] == g.pending[k + 1];
    }
  }

  lemma PairedCallbacks(g: Guest, sample: seq<byte>, made: bool)
    requires QueueIsRest(g) && CallbacksRight(g) && g.next < |g.handed| && |g.pending| > 0
    requires sample == g.samples[g.next]
    ensures CallbacksRight(Paired(g, sample, made))
  {
    var n := |g.callbacks|;
    var last := Paired(g, sample, made).callbacks[n];
    assert g.pending[0] == g.frames[n + 0].entry;
    assert last.entry == Some(g.frames[n].entry) && last.info == g.handed[g.next];
  }

  lemma ActKeeps(g: Guest, sid: nat, a: Action)
    requires Inv(g, sid) && Polite(g, sid, a)
    ensures Inv(Act(g, sid, a), sid)
  {
    if a.Encode? || a.Other? {
      RequestKeeps(g, sid, a);
    } else {
      DeliveryKeeps(g, sid, a);
    }
  }

  lemma RequestKeeps(g: Guest, sid: nat, a: Action)
    requires Inv(g, sid) && Polite(g, sid, a) && (a.Encode? || a.Other?)
    ensures Inv(Act(g, sid, a), sid)
  {
    if a.Encode? {
      EncodeKeeps(g, sid, a.entry, a.pts, a.duration);
    } else {
      OtherKeeps(g, sid, a.req);
    }
  }

  lemma DeliveryKeeps(g: Guest, sid: nat, a: Action)
    requires Inv(g, sid) && (a.Dequeue? || a.Deliver?)
    ensures Inv(Act(g, sid, a), sid)
  {
    if a.Dequeue? {
      DequeueKeeps(g, sid, a.batch, a.known);
    } else {
      DeliverKeeps(g, sid, a.built);
    }
  }

  lemma BeginKeeps(maxOutputs: nat, maxBytes: nat, sid: nat)
    ensures Inv(Begin(maxOutputs, maxBytes), sid)
  {
    FreshValid(maxOutputs, maxBytes);
    NothingYet(Begin(maxOutputs, maxBytes), sid);
  }

  lemma NothingYet(g: Guest, sid: nat)
    requires g.worker.outputs == [] && g.pending == [] && g.handed == []
    requires g.frames == [] && g.accepted == [] && g.samples == [] && g.callbacks == [] && g.taken == [] && g.next == 0
    ensures Aligned(g, sid)
  {
  }

  lemma {:induction false} PlayKeeps(maxOutputs: nat, maxBytes: nat, sid: nat, actions: seq<Action>)
    requires AllPolite(Begin(maxOutputs, maxBytes), sid, actions)
    ensures Inv(Play(Begin(maxOutputs, maxBytes), sid, actions), sid)
  {
    var g := Begin(maxOutputs, maxBytes);
    if |actions| == 0 {
      BeginKeeps(maxOutputs, maxBytes, sid);
    } else {
      var before := actions[..|actions| - 1];
      PlayKeeps(maxOutputs, maxBytes, sid, before);
      ActKeeps(Play(g, sid, before), sid, actions[|actions| - 1]);
    }
  }

  // ---------- whole runs ----------

  /** Every callback's objects could be built. */
  predicate AllBuilt(actions: seq<Action>) {
    forall i :: 0 <= i < |actions| && actions[i].Deliver? ==> actions[i].built
  }

  /** Outputs are lost only where a callback's objects could not be built: otherwise the k-th
      callback is for the k-th output. */
  lemma BuiltLosesNothing(maxOutputs: nat, maxBytes: nat, sid: nat, actions: seq<Action>)
    requires AllPolite(Begin(maxOutputs, maxBytes), sid, actions) && AllBuilt(actions)
    ensures var g := Play(Begin(maxOutputs, maxBytes), sid, actions);
            g.next == |g.taken| == |g.callbacks| && forall k :: 0 <= k < |g.taken| ==> g.taken[k] == k
  {
    var g := Play(Begin(maxOutputs, maxBytes), sid, actions);
    PlayKeeps(maxOutputs, maxBytes, sid, actions);
    BuiltPairsAll(maxOutputs, maxBytes, sid, actions);
    if |g.taken| > 0 {
      DenseIsPlain(g.taken);
    }
  }

  lemma {:induction false} BuiltPairsAll(maxOutputs: nat, maxBytes: nat, sid: nat, actions: seq<Action>)
    requires AllPolite(Begin(maxOutputs, maxBytes), sid, actions) && AllBuilt(actions)
    ensures var g := Play(Begin(maxOutputs, maxBytes), sid, actions);
            g.next == |g.callbacks|
  {
    if |actions| > 0 {
      var before, a := actions[..|actions| - 1], actions[|actions| - 1];
      var g := Play(Begin(maxOutputs, maxBytes), sid, before);
      BuiltPairsAll(maxOutputs, maxBytes, sid, before);
      PlayKeeps(maxOutputs, maxBytes, sid, before);
      if a.Deliver? && g.next < |g.handed| {
        SampleIsThere(g, sid);
      }
    }
  }

  /** n different numbers below n, in ascending order, are 0 to n - 1. */
  lemma DenseIsPlain(at: seq<nat>)
    requires |at| > 0 && (forall i, j :: 0 <= i < j < |at| ==> at[i] < at[j]) && at[|at| - 1] < |at|
    ensures forall k :: 0 <= k < |at| ==> at[k] == k
  {
    AscendingGrows(at, |at| - 1);
    AscendingStarts(at, |at| - 1);
  }

  /** The k-th callback has the entry of the k-th submitted frame, and the time and bytes of the
      accepted frame whose output it is. */
  ghost predicate Follows(g: Guest) {
    && |g.taken| == |g.callbacks| <= |g.accepted| == |g.samples| <= |g.frames|
    && (forall j, k :: 0 <= j < k < |g.taken| ==> g.taken[j] < g.taken[k])
    && (forall k :: 0 <= k < |g.callbacks| ==> k <= g.taken[k] < |g.accepted|)
    && (forall k :: 0 <= k < |g.callbacks| ==> g.accepted[g.taken[k]] < |g.frames|)
    && (forall k :: 0 <= k < |g.callbacks| ==>
          && g.callbacks[k].entry == Some(g.frames[k].entry)
          && g.callbacks[k].info.pts == g.frames[g.accepted[g.taken[k]]].pts
          && g.callbacks[k].sample == g.samples[g.taken[k]])
  }

  /** In every run the callbacks follow the submissions, whatever outputs were lost. A callback's
      output is the k-th after leaving out those lost before it. */
  lemma CallbacksFollowFrames(maxOutputs: nat, maxBytes: nat, sid: nat, actions: seq<Action>)
    requires AllPolite(Begin(maxOutputs, maxBytes), sid, actions)
    ensures Follows(Play(Begin(maxOutputs, maxBytes), sid, actions))
  {
    PlayKeeps(maxOutputs, maxBytes, sid, actions);
    AlignedFollows(Play(Begin(maxOutputs, maxBytes), sid, actions), sid);
  }

  lemma AlignedFollows(g: Guest, sid: nat)
    requires Aligned(g, sid)
    ensures Follows(g)
  {
    PendingCovers(g, sid);
    var all := g.handed + Waiting(g.worker, sid);
    forall k | 0 <= k < |g.callbacks|
      ensures k <= g.taken[k] && g.callbacks[k].info.pts == g.frames[g.accepted[g.taken[k]]].pts
    {
      AscendingGrows(g.taken, k);
      assert g.callbacks[k].info == all[g.taken[k]];
    }
  }

  // ---------- which frames are accepted ----------

  /** What a caller can check before submitting: the session is prepared, the image's lease is
      current and writable, and the worker has room for one more output. */
  predicate Admits(w: Worker, sid: nat, image: Lease) {
    var si, bi := FindSession(w, sid), FindBuffer(w, image.id);
    && si.Some? && w.sessions[si.value].prepared
    && image.id != 0 && bi.Some? && w.buffers[bi.value].generation == image.generation
    && w.buffers[bi.value].state == GuestWritable
    && HasRoom(w)
  }

  /** A reachable worker accepts a frame exactly when it admits it. */
  lemma AcceptedIff(w: Worker, sid: nat, entry: Entry, pts: Time, duration: Time)
    requires Valid(w)
    ensures Dispatch(w, FrameRequest(sid, entry, pts, duration), STORAGE_CAPACITY).outcome.Ok?
        <==> Admits(w, sid, entry.image)
  {
    var bi := FindBuffer(w, entry.image.id);
    if bi.Some? {
      BufferSlot(w, bi.value);
      SlotGivesPrefix(w, bi.value);
    }
  }

  lemma SlotGivesPrefix(w: Worker, i: nat)
    requires i < |w.buffers| && FindPool(w, w.buffers[i].poolId).Some?
    requires var b := w.buffers[i];
             var range := PoolSlot(w.pools[FindPool(w, b.poolId).value], b.slotIndex);
             range.Some? && range.value.1 == range.value.0 + b.totalSize
    ensures PrefixOf(w, w.buffers[i]).Found?
  {
  }

  /** For each submission of a run, in order, whether the worker admitted it at that moment. */
  function Admissions(g: Guest, sid: nat, actions: seq<Action>): (r: seq<bool>) {
    if |actions| == 0 then []
    else
      var before, a := actions[..|actions| - 1], actions[|actions| - 1];
      var mid := Play(g, sid, before);
      if a.Encode? && a.entry.image !in mid.queued
      then Admissions(g, sid, before) + [Admits(mid.worker, sid, a.entry.image)]
      else Admissions(g, sid, before)
  }

  ghost predicate Recorded(g: Guest, admissions: seq<bool>) {
    && |admissions| == |g.frames|
    && (forall j :: 0 <= j < |admissions| ==> (admissions[j] <==> j in g.accepted))
    && (forall k :: 0 <= k < |g.accepted| ==> g.accepted[k] < |g.frames|)
  }

  lemma {:induction false} AdmittedIsAccepted(maxOutputs: nat, maxBytes: nat, sid: nat, actions: seq<Action>)
    requires AllPolite(Begin(maxOutputs, maxBytes), sid, actions)
    ensures Recorded(Play(Begin(maxOutputs, maxBytes), sid, actions),
        Admissions(Begin(maxOutputs, maxBytes), sid, actions))
  {
    if |actions| > 0 {
      var before, a := actions[..|actions| - 1], actions[|actions| - 1];
      var g := Play(Begin(maxOutputs, maxBytes), sid, before);
      AdmittedIsAccepted(maxOutputs, maxBytes, sid, before);
      PlayKeeps(maxOutputs, maxBytes, sid, before);
      ActRecorded(g, sid, a, Admissions(Begin(maxOutputs, maxBytes), sid, before));
    }
  }

  lemma ActRecorded(g: Guest, sid: nat, a: Action, admissions: seq<bool>)
    requires Valid(g.worker) && Recorded(g, admissions)
    ensures Recorded(Act(g, sid, a), if a.Encode? && a.entry.image !in g.queued
                                     then admissions + [Admits(g.worker, sid, a.entry.image)] else admissions)
  {
    if a.Encode? && a.entry.image !in g.queued {
      AcceptedIff(g.worker, sid, a.entry, a.pts, a.duration);
      RecordGrows(g, admissions, Frame(a.entry, a.pts), Admits(g.worker, sid, a.entry.image));
    }
  }

  lemma RecordGrows(g: Guest, admissions: seq<bool>, f: Frame, admitted: bool)
    requires Recorded(g, admissions)
    ensures var accepted := if admitted then g.accepted + [|g.frames|] else g.accepted;
            Recorded(g.(frames := g.frames + [f], accepted := accepted), admissions + [admitted])
  {
    var accepted := if admitted then g.accepted + [|g.frames|] else g.accepted;
    forall j | 0 <= j <= |admissions| ensures (admissions + [admitted])[j] <==> j in accepted {
      if j < |admissions| {
        assert j in accepted <==> j in g.accepted;
      }
    }
  }

  /** What the caller sees, for frames with different times: the k-th callback has the entry of
      the k-th submission always, and its time exactly when no output was lost before it and the
      worker admitted every submission up to that one. */
  lemma PairedIffNoneRefused(maxOutputs: nat, maxBytes: nat, sid: nat, actions: seq<Action>, k: nat)
    requires AllPolite(Begin(maxOutputs, maxBytes), sid, actions)
    requires var g := Play(Begin(maxOutputs, maxBytes), sid, actions);
             k < |g.callbacks| && forall i, j :: 0 <= i < j < |g.frames| ==> g.frames[i].pts != g.frames[j].pts
    ensures var g := Play(Begin(maxOutputs, maxBytes), sid, actions);
            var admissions := Admissions(Begin(maxOutputs, maxBytes), sid, actions);
            && k < |g.frames| == |admissions| && k < |g.taken|
            && g.callbacks[k].entry == Some(g.frames[k].entry)
            && (g.callbacks[k].info.pts == g.frames[k].pts
                <==> g.taken[k] == k && forall j :: 0 <= j <= k ==> admissions[j])
  {
    var g := Play(Begin(maxOutputs, maxBytes), sid, actions);
    PlayKeeps(maxOutputs, maxBytes, sid, actions);
    CallbacksFollowFrames(maxOutputs, maxBytes, sid, actions);
    AdmittedIsAccepted(maxOutputs, maxBytes, sid, actions);
    TimeIffAdmitted(g, Admissions(Begin(maxOutputs, maxBytes), sid, actions), k, g.taken[k]);
  }

  lemma TimeIffAdmitted(g: Guest, admissions: seq<bool>, k: nat, at: nat)
    requires k <= at < |g.accepted| <= |g.frames| && Recorded(g, admissions)
    requires forall i, j :: 0 <= i < j < |g.accepted| ==> g.accepted[i] < g.accepted[j]
    requires forall i, j :: 0 <= i < j < |g.frames| ==> g.frames[i].pts != g.frames[j].pts
    ensures g.frames[g.accepted[at]].pts == g.frames[k].pts <==> at == k && forall j :: 0 <= j <= k ==> admissions[j]
  {
    AscendingGrows(g.accepted, at);
    FirstAccepted(g.accepted, k);
    SameTimeSameFrame(g, k, g.accepted[at]);
    assert forall j :: 0 <= j <= k ==> (admissions[j] <==> j in g.accepted);
  }

  lemma SameTimeSameFrame(g: Guest, k: nat, f: nat)
    requires f < |g.frames| && k < |g.frames|
    requires forall i, j :: 0 <= i < j < |g.frames| ==> g.frames[i].pts != g.frames[j].pts
    ensures g.frames[f].pts == g.frames[k].pts <==> f == k
  {
    if f < k {
    } else if k < f {
    }
  }

  lemma {:induction false} AscendingGrows(at: seq<nat>, k: nat)
    requires k < |at| && forall i, j :: 0 <= i < j < |at| ==> at[i] < at[j]
    ensures at[k] >= k
  {
    if k > 0 {
      AscendingGrows(at, k - 1);
    }
  }

  lemma {:induction false} AscendingStarts(at: seq<nat>, k: nat)
    requires k < |at| && at[k] == k && forall i, j :: 0 <= i < j < |at| ==> at[i] < at[j]
    ensures forall j :: 0 <= j <= k ==> at[j] == j
  {
    if k > 0 {
      AscendingGrows(at, k - 1);
      AscendingStarts(at, k - 1);
    }
  }

  lemma FirstAccepted(at: seq<nat>, k: nat)
    requires k < |at| && forall i, j :: 0 <= i < j < |at| ==> at[i] < at[j]
    ensures at[k] == k <==> forall j :: 0 <= j <= k ==> j in at
  {
    if at[k] == k {
      AscendingStarts(at, k);
      forall j | 0 <= j <= k ensures j in at {
        assert at[j] == j;
      }
    } else if forall j :: 0 <= j <= k ==> j in at {
      AllInPlace(at, k);
    }
  }

  lemma {:induction false} AllInPlace(at: seq<nat>, k: nat)
    requires k < |at| && (forall i, j :: 0 <= i < j < |at| ==> at[i] < at[j]) && forall j :: 0 <= j <= k ==> j in at
    ensures at[k] == k
  {
    AscendingGrows(at, k);
    assert k in at;
    var i :| 0 <= i < |at| && at[i] == k;
    AscendingGrows(at, i);
    if k > 0 {
      AllInPlace(at, k - 1);
    }
  }

  /** A complete delivery: once everything handed out has had its callback and a dequeue times
      out, every accepted frame has had its callback, and the queue is empty exactly when none
      was refused. */
  lemma CompleteDelivery(maxOutputs: nat, maxBytes: nat, sid: nat, actions: seq<Action>, batch: u32, known: bool)
    requires AllPolite(Begin(maxOutputs, maxBytes), sid, actions)
    requires var g := Play(Begin(maxOutputs, maxBytes), sid, actions);
             && |g.callbacks| == |g.handed|
             && HandedBy(g.worker, DequeueRequest(sid, batch, known), STORAGE_CAPACITY) == []
    ensures var g := Play(Begin(maxOutputs, maxBytes), sid, actions);
            && |g.callbacks| == |g.accepted|
            && |g.pending| == |g.frames| - |g.accepted|
            && (g.pending == [] <==> |g.accepted| == |g.frames|)
  {
    var g := Play(Begin(maxOutputs, maxBytes), sid, actions);
    PlayKeeps(maxOutputs, maxBytes, sid, actions);
    NothingWaits(g.worker, sid, batch, known);
  }

  lemma NothingWaits(w: Worker, sid: nat, batch: u32, known: bool)
    requires HandedBy(w, DequeueRequest(sid, batch, known), STORAGE_CAPACITY) == []
    ensures Waiting(w, sid) == []
  {
    if batch > 1 && known {
      BatchHands(w, sid, batch, STORAGE_CAPACITY);
      TakeManyIsPrefix(w, sid, BatchLimit(batch));
      assert Waiting(w, sid) == Waiting(TakeMany(w, sid, BatchLimit(batch)).0, sid);
    } else {
      TakeReadyIsHead(w, sid);
    }
  }
}
