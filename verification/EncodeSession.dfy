/** The compression session object: submitting a frame and the delivery loop. */
module EncodeSession {
  import opened Bits
  import opened Collections
  import opened Protocol
  import opened Worker
  import opened WorkerHistory
  import opened PendingQueue
  import opened EncodePipeline
  import opened SampleHistory
  import MockBackend

  /** `OP_DEQUEUE_OUTPUT_BATCH`. */
  const BATCH_OPCODE: nat := 0x56

  lemma BatchIsServed(w: Worker, sid: nat, batch: u32)
    ensures Dispatch(w, DequeueOutputBatch(sid, batch), STORAGE_CAPACITY).outcome != Err(STATUS_UNSUPPORTED_OPCODE)
  {
  }

  /** Whether the callback for the next output can be built; `fault` is the output it fails for. */
  predicate Builds(g: Guest, fault: Option<nat>) {
    fault != Some(|g.callbacks|)
  }

  predicate Delivers(g: Guest, fault: Option<nat>)
    requires g.next < |g.handed|
  {
    NextSample(g).Some? && Builds(g, fault)
  }

  /** Deliver what is in hand, oldest first, until done or a delivery fails. */
  function DeliverMany(g: Guest, fault: Option<nat>): (r: (Guest, bool))
    requires g.next <= |g.handed|
    ensures r.0.worker == g.worker && r.0.next == |r.0.handed|
    decreases |g.handed| - g.next
  {
    if g.next == |g.handed| then (g, true)
    else if Delivers(g, fault) then DeliverMany(DeliverStep(g, true), fault)
    else (DeliverStep(g, Builds(g, fault)), false)
  }

  /** One turn of the loop: dequeue, then deliver what came. */
  function Round(g: Guest, sid: nat, batch: u32, known: bool, fault: Option<nat>): (r: (Guest, bool))
    requires g.next == |g.handed|
    ensures r.0.next == |r.0.handed|
    ensures r.0.worker == DequeueStep(g, sid, batch, known).worker
  {
    DeliverMany(DequeueStep(g, sid, batch, known), fault)
  }

  /** The delivery loop: dequeue, deliver, again, until nothing is ready or a delivery fails. */
  function DeliverAll(g: Guest, sid: nat, batch: u32, known: bool, fault: Option<nat>): (r: (Guest, bool))
    requires g.next == |g.handed|
    ensures r.0.next == |r.0.handed|
    decreases |Waiting(g.worker, sid)|
  {
    DequeueMovesOn(g.worker, sid, batch, known);
    if |DequeueStep(g, sid, batch, known).handed| == |g.handed| then (DequeueStep(g, sid, batch, known), true)
    else
      var (g2, ok) := Round(g, sid, batch, known, fault);
      if ok then DeliverAll(g2, sid, batch, known, fault) else (g2, false)
  }

  class CompressionSession {
    const id: nat
    const backend: MockBackend.Backend
    const queue: Queue
    var queued: set<Lease>
    var callbacks: seq<Callback>
    ghost var frames: seq<Frame>
    ghost var accepted: seq<nat>
    ghost var handed: seq<OutputInfo>
    ghost var samples: seq<seq<byte>>
    ghost var next: nat
    ghost var taken: seq<nat>

    ghost function State(): (g: Guest)
      requires queue.Valid()
      reads this, backend, queue, queue.images, queue.refcons
    {
      Guest(backend.State(), queue.Entries(), queued, frames, accepted, samples, handed, next, taken, callbacks)
    }

    constructor (id: nat, backend: MockBackend.Backend)
      ensures queue.Valid() && fresh(queue) && fresh(queue.images) && fresh(queue.refcons)
      ensures this.id == id && this.backend == backend
      ensures State() == Guest(backend.State(), [], {}, [], [], [], [], 0, [], [])
    {
      this.id, this.backend := id, backend;
      queue := new Queue();
      queued, callbacks, frames, accepted, samples, handed, next, taken := {}, [], [], [], [], [], 0, [];
    }

    method SendFrame(entry: Entry, pts: Time, duration: Time) returns (ok: bool)
      modifies this, backend
      ensures var step := Dispatch(old(backend.State()), FrameRequest(id, entry, pts, duration), STORAGE_CAPACITY);
              && backend.State() == step.worker && ok == step.outcome.Ok?
      ensures queued == old(queued) + {entry.image}
      ensures frames == old(frames) + [Frame(entry, pts)]
      ensures accepted == if ok then old(accepted) + [|old(frames)|] else old(accepted)
      ensures samples == old(samples) + if ok then [FrameSample(old(backend.State()), id, entry.image.id)] else []
      ensures handed == old(handed) && next == old(next) && taken == old(taken) && callbacks == old(callbacks)
    {
      ghost var due := FrameSample(backend.State(), id, entry.image.id);
      queued := queued + {entry.image};
      var out := backend.Handle(FrameRequest(id, entry, pts, duration), STORAGE_CAPACITY);
      ok := out.Ok?;
      if ok {
        accepted, samples := accepted + [|frames|], samples + [due];
      }
      frames := frames + [Frame(entry, pts)];
    }

    /** Refuses an image that is already submitted; otherwise queues the entry, then sends the
        frame. Without memory for the entry nothing is sent. */
    method EncodeFrame(entry: Entry, pts: Time, duration: Time, memory: bool) returns (ok: bool)
      requires queue.Valid()
      modifies this, backend, queue, queue.images, queue.refcons
      ensures queue.Valid()
      ensures State() == if memory || old(queue.count) < old(queue.images.Length)
                         then EncodeStep(old(State()), id, entry, pts, duration) else old(State())
      ensures ok <==> |accepted| == |old(accepted)| + 1
    {
      if entry.image in queued {
        return false;
      }
      var pushed := queue.Push(entry.image, entry.refcon, memory);
      if !pushed {
        return false;
      }
      ghost var entries := queue.Entries();
      ok := SendFrame(entry, pts, duration);
      assert queue.Entries() == entries;
    }

    /** The oldest entry goes with the output, whether or not the callback can be made. */
    method Pair(info: OutputInfo, sample: seq<byte>, made: bool)
      requires queue.Valid() && next < |handed| && info == handed[next]
      modifies this, queue, queue.images, queue.refcons
      ensures queue.Valid() && queue.images == old(queue.images) && queue.refcons == old(queue.refcons)
      ensures State() == Paired(old(State()), sample, made)
    {
      var entry := queue.Pop();
      callbacks := callbacks + [Callback(entry, info, sample, made)];
      next, taken := next + 1, taken + [next];
      if made && entry.Some? {
        queued := queued - {entry.value.image};
      }
    }

    /** The rest of the batch is dropped with the error return. */
    ghost method Abandon()
      requires queue.Valid()
      modifies this
      ensures queue.Valid() && State() == Abandoned(old(State()))
    {
      next := |handed|;
    }

    method ReadSample(outputId: nat) returns (sample: Option<seq<byte>>)
      ensures sample == SampleOf(backend.State(), outputId)
    {
      var out := backend.ReadOutput(STORAGE_CAPACITY, outputId);
      if out.Err? || !out.reply.OutputBytes? {
        return None;
      }
      return Some(out.reply.data);
    }

    /** One dequeued output: read it, take the oldest pending entry, call back. If the objects
        for the callback cannot be built the entry is gone all the same. */
    method DeliverOne(info: OutputInfo, built: bool) returns (ok: bool)
      requires queue.Valid() && next < |handed| && info == handed[next]
      modifies this, queue, queue.images, queue.refcons
      ensures queue.Valid() && queue.images == old(queue.images) && queue.refcons == old(queue.refcons)
      ensures State() == DeliverStep(old(State()), built)
      ensures ok <==> old(NextSample(State())).Some? && built
    {
      var sample := ReadSample(info.outputId);
      if sample.None? {
        Abandon();
        return false;
      }
      Pair(info, sample.value, built);
      if !built {
        Abandon();
      }
      return built;
    }

    /** The batched dequeue if one is asked for and the worker knows it, otherwise the single one. */
    method DequeueReady(batch: u32, known: bool) returns (infos: seq<OutputInfo>)
      requires queue.Valid()
      modifies this, backend
      ensures queue.Valid() && next == old(next)
      ensures State() == DequeueStep(old(State()), id, batch, known)
      ensures handed == old(handed) + infos
    {
      infos := [];
      var out := Ask(batch, known);
      if out.Ok? {
        if out.reply.OutputReady? {
          infos := [out.reply.info];
        } else if out.reply.OutputsReady? {
          infos := out.reply.infos;
        }
      }
      handed := handed + infos;
    }

    /** A worker without the batch opcode refuses it as unsupported and is asked again. */
    method Ask(batch: u32, known: bool) returns (out: Outcome)
      modifies backend
      ensures var step := Dispatch(old(backend.State()), DequeueRequest(id, batch, known), STORAGE_CAPACITY);
              backend.State() == step.worker && out == step.outcome
    {
      if batch > 1 {
        out := AskBatch(batch, known);
        if out != Err(STATUS_UNSUPPORTED_OPCODE) {
          return;
        }
      }
      out := backend.Handle(DequeueOutput(id), STORAGE_CAPACITY);
    }

    method AskBatch(batch: u32, known: bool) returns (out: Outcome)
      modifies backend
      ensures known ==>
          Step(backend.State(), out)
          == Dispatch(old(backend.State()), DequeueOutputBatch(id, batch), STORAGE_CAPACITY)
      ensures !known ==> backend.State() == old(backend.State())
      ensures known <==> out != Err(STATUS_UNSUPPORTED_OPCODE)
    {
      if known {
        BatchIsServed(backend.State(), id, batch);
        out := backend.Handle(DequeueOutputBatch(id, batch), STORAGE_CAPACITY);
      } else {
        out := backend.Handle(Unknown(BATCH_OPCODE), STORAGE_CAPACITY);
      }
    }

    method DeliverBatch(infos: seq<OutputInfo>, fault: Option<nat>) returns (ok: bool)
      requires queue.Valid() && next + |infos| == |handed| && handed[next..] == infos
      modifies this, queue, queue.images, queue.refcons
      ensures queue.Valid() && queue.images == old(queue.images) && queue.refcons == old(queue.refcons)
      ensures (State(), ok) == DeliverMany(old(State()), fault)
    {
      var i := 0;
      while i < |infos|
        invariant 0 <= i <= |infos| && queue.Valid()
        invariant queue.images == old(queue.images) && queue.refcons == old(queue.refcons)
        invariant handed == old(handed) && next == old(next) + i
        invariant DeliverMany(State(), fault) == DeliverMany(old(State()), fault)
      {
        assert infos[i] == handed[next];
        var delivered := DeliverOne(infos[i], fault != Some(|callbacks|));
        if !delivered {
          return false;
        }
        i := i + 1;
      }
      return true;
    }

    /** One turn of the loop. */
    method DeliverRound(batch: u32, known: bool, fault: Option<nat>) returns (some: bool, ok: bool)
      requires queue.Valid() && next == |handed|
      modifies this, backend, queue, queue.images, queue.refcons
      ensures queue.Valid() && queue.images == old(queue.images) && queue.refcons == old(queue.refcons)
      ensures (State(), ok) == Round(old(State()), id, batch, known, fault)
      ensures some <==> |DequeueStep(old(State()), id, batch, known).handed| > |old(handed)|
    {
      var infos := DequeueReady(batch, known);
      if |infos| == 0 {
        return false, true;
      }
      some := true;
      ok := DeliverBatch(infos, fault);
    }

    method DeliverOutputs(batch: u32, known: bool, fault: Option<nat>) returns (ok: bool)
      requires queue.Valid() && next == |handed|
      modifies this, backend, queue, queue.images, queue.refcons
      ensures queue.Valid() && next == |handed|
      ensures (State(), ok) == DeliverAll(old(State()), id, batch, known, fault)
    {
      ghost var goal := DeliverAll(State(), id, batch, known, fault);
      while true
        invariant queue.Valid() && next == |handed|
        invariant queue.images == old(queue.images) && queue.refcons == old(queue.refcons)
        invariant DeliverAll(State(), id, batch, known, fault) == goal
        decreases |Waiting(State().worker, id)|
      {
        RoundThenRest(State(), id, batch, known, fault);
        var some, delivered := DeliverRound(batch, known, fault);
        if !some || !delivered {
          return delivered;
        }
      }
    }
  }

  lemma RoundThenRest(g: Guest, sid: nat, batch: u32, known: bool, fault: Option<nat>)
    requires g.next == |g.handed|
    ensures var (g2, ok) := Round(g, sid, batch, known, fault);
            var some := |DequeueStep(g, sid, batch, known).handed| > |g.handed|;
            && DeliverAll(g, sid, batch, known, fault)
               == (if some && ok then DeliverAll(g2, sid, batch, known, fault) else (g2, ok))
            && (some ==> |Waiting(g2.worker, sid)| < |Waiting(g.worker, sid)|)
  {
    DequeueMovesOn(g.worker, sid, batch, known);
  }

  // ---------- what the loop achieves ----------

  lemma OneDelivered(g: Guest, fault: Option<nat>)
    requires g.next < |g.handed|
    ensures var g' := DeliverStep(g, Builds(g, fault));
            && g'.accepted == g.accepted && g'.frames == g.frames && g'.handed == g.handed && g'.next <= |g'.handed|
            && (Delivers(g, fault) ==> g'.next == g.next + 1 && |g'.callbacks| == |g.callbacks| + 1)
  {
  }

  lemma ManyStep(g: Guest, fault: Option<nat>)
    requires g.next < |g.handed|
    ensures var g' := DeliverStep(g, Builds(g, fault));
            DeliverMany(g, fault)
            == if Delivers(g, fault) then OneDelivered(g, fault); DeliverMany(g', fault) else (g', false)
  {
  }

  lemma {:induction false} DeliverManyKeeps(g: Guest, sid: nat, fault: Option<nat>)
    requires Inv(g, sid) && g.next <= |g.handed|
    ensures var (g', ok) := DeliverMany(g, fault);
            Inv(g', sid) && g'.accepted == g.accepted && g'.frames == g.frames
    decreases |g.handed| - g.next
  {
    if g.next < |g.handed| {
      var g' := DeliverStep(g, Builds(g, fault));
      DeliverKeeps(g, sid, Builds(g, fault));
      OneDelivered(g, fault);
      ManyStep(g, fault);
      if Delivers(g, fault) {
        DeliverManyKeeps(g', sid, fault);
      }
    }
  }

  /** Where every callback can be built, the batch goes through and loses nothing. */
  lemma {:induction false} DeliverManySucceeds(g: Guest, sid: nat)
    requires Inv(g, sid) && g.next <= |g.handed|
    ensures var (g', ok) := DeliverMany(g, None);
            ok && g'.handed == g.handed && |g'.callbacks| - |g.callbacks| == g'.next - g.next
    decreases |g.handed| - g.next
  {
    if g.next < |g.handed| {
      SampleIsThere(g, sid);
      DeliverKeeps(g, sid, Builds(g, None));
      OneDelivered(g, None);
      ManyStep(g, None);
      DeliverManySucceeds(DeliverStep(g, Builds(g, None)), sid);
    }
  }

  lemma OneCallback(g: Guest, fault: Option<nat>)
    requires g.next < |g.handed| && NextSample(g).Some?
    ensures var g' := DeliverStep(g, Builds(g, fault));
            && |g'.callbacks| == |g.callbacks| + 1 && g.callbacks == g'.callbacks[..|g.callbacks|]
            && (g'.callbacks[|g.callbacks|].made <==> Builds(g, fault))
            && (!Builds(g, fault) ==> g'.next == |g.handed|)
  {
  }

  /** The callbacks `after` adds to `before` are built, but for number `f`. */
  ghost predicate BuiltBut(before: seq<Callback>, after: seq<Callback>, f: nat) {
    && |before| <= |after| && before == after[..|before|]
    && forall j :: |before| <= j < |after| ==> (after[j].made <==> j != f)
  }

  lemma BuiltOn(a: seq<Callback>, b: seq<Callback>, c: seq<Callback>, f: nat)
    requires BuiltBut(a, b, f) && BuiltBut(b, c, f)
    ensures BuiltBut(a, c, f)
  {
    assert c[..|a|] == c[..|b|][..|a|];
    forall j | |a| <= j < |c| ensures c[j].made <==> j != f {
      if j < |b| {
        assert c[j] == c[..|b|][j];
      }
    }
  }

  lemma FirstOfBatch(g: Guest, sid: nat, f: nat) returns (g1: Guest)
    requires Inv(g, sid) && g.next < |g.handed| && |g.callbacks| <= f
    ensures Inv(g1, sid) && g1.handed == g.handed && g1.next <= |g1.handed|
    ensures |g1.callbacks| == |g.callbacks| + 1 && BuiltBut(g.callbacks, g1.callbacks, f)
    ensures if f == |g.callbacks| then g1.next == |g.handed| && DeliverMany(g, Some(f)) == (g1, false)
            else g1.next == g.next + 1 && DeliverMany(g, Some(f)) == DeliverMany(g1, Some(f))
  {
    SampleIsThere(g, sid);
    g1 := FirstStep(g, f);
    DeliverKeeps(g, sid, Builds(g, Some(f)));
  }

  lemma FirstStep(g: Guest, f: nat) returns (g1: Guest)
    requires g.next < |g.handed| && |g.callbacks| <= f && NextSample(g).Some?
    ensures g1 == DeliverStep(g, Builds(g, Some(f))) && g1.handed == g.handed && g1.next <= |g1.handed|
    ensures |g1.callbacks| == |g.callbacks| + 1 && BuiltBut(g.callbacks, g1.callbacks, f)
    ensures if f == |g.callbacks| then g1.next == |g.handed| && DeliverMany(g, Some(f)) == (g1, false)
            else g1.next == g.next + 1 && DeliverMany(g, Some(f)) == DeliverMany(g1, Some(f))
  {
    g1 := DeliverStep(g, Builds(g, Some(f)));
    OneDelivered(g, Some(f));
    OneCallback(g, Some(f));
    ManyStep(g, Some(f));
  }

  /** What a batch comes to if the callback numbered `f` cannot be built. */
  ghost predicate EndsAt(g: Guest, g': Guest, ok: bool, f: nat)
    requires g.next <= |g.handed| && |g.callbacks| <= f
  {
    var left, before := |g.handed| - g.next, f - |g.callbacks|;
    && (ok <==> left <= before) && g'.handed == g.handed && g'.next == |g.handed|
    && |g'.callbacks| - |g.callbacks| == (if ok then left else before + 1)
    && BuiltBut(g.callbacks, g'.callbacks, f)
  }

  /** If the callback numbered `f` cannot be built, the batch delivers those before it, gives up with
      that one, and what is behind it in the batch is never delivered. */
  lemma {:induction false} FaultEndsBatch(g: Guest, sid: nat, f: nat)
    requires Inv(g, sid) && g.next <= |g.handed| && |g.callbacks| <= f
    ensures var (g', ok) := DeliverMany(g, Some(f));
            EndsAt(g, g', ok, f)
    decreases |g.handed| - g.next, 1
  {
    if g.next < |g.handed| {
      var g1 := FirstOfBatch(g, sid, f);
      if f != |g.callbacks| {
        RestOfBatch(g, g1, sid, f);
      }
    } else {
      NothingLeft(g, f);
    }
  }

  lemma NothingLeft(g: Guest, f: nat)
    requires g.next == |g.handed| && |g.callbacks| <= f
    ensures DeliverMany(g, Some(f)) == (g, true) && EndsAt(g, g, true, f)
  {
  }

  lemma {:induction false} RestOfBatch(g: Guest, g1: Guest, sid: nat, f: nat)
    requires Inv(g1, sid) && g1.handed == g.handed && g1.next == g.next + 1 <= |g.handed|
    requires |g1.callbacks| == |g.callbacks| + 1 <= f && BuiltBut(g.callbacks, g1.callbacks, f)
    ensures var (g', ok) := DeliverMany(g1, Some(f));
            EndsAt(g, g', ok, f)
    decreases |g.handed| - g.next, 0
  {
    FaultEndsBatch(g1, sid, f);
    BuiltOn(g.callbacks, g1.callbacks, DeliverMany(g1, Some(f)).0.callbacks, f);
  }

  /** From a consistent state the loop never fails for want of an output: if callbacks can be
      built it passes on every output that was left, so without earlier losses every accepted
      frame has its callback and the queue is empty exactly when no frame was refused. */
  lemma {:induction false} DeliverAllCompletes(g: Guest, sid: nat, batch: u32, known: bool)
    requires Inv(g, sid) && g.next == |g.handed|
    ensures var (g', ok) := DeliverAll(g, sid, batch, known, None);
            && ok && Inv(g', sid) && Waiting(g'.worker, sid) == []
            && g'.next == |g'.handed| == |g'.accepted| && g'.next - |g'.callbacks| == g.next - |g.callbacks|
            && g'.accepted == g.accepted && g'.frames == g.frames
            && (g.next == |g.callbacks| ==>
                  |g'.callbacks| == |g'.accepted| && (g'.pending == [] <==> |g'.accepted| == |g'.frames|))
    decreases |Waiting(g.worker, sid)|
  {
    var g1 := DequeueStep(g, sid, batch, known);
    DequeueKeeps(g, sid, batch, known);
    DequeueMovesOn(g.worker, sid, batch, known);
    if |g1.handed| == |g.handed| {
      NothingWaits(g.worker, sid, batch, known);
      AllTaken(g1, sid);
    } else {
      DeliverManyKeeps(g1, sid, None);
      DeliverManySucceeds(g1, sid);
      DeliverAllCompletes(DeliverMany(g1, None).0, sid, batch, known);
    }
  }

  /** With nothing waiting, what was handed out is what was accepted. */
  lemma AllTaken(g: Guest, sid: nat)
    requires InOrder(g, sid) && QueueIsRest(g) && Waiting(g.worker, sid) == [] && g.next == |g.handed|
    ensures g.next == |g.handed| == |g.accepted|
    ensures g.next == |g.callbacks| ==> (g.pending == [] <==> |g.accepted| == |g.frames|)
  {
  }
}
