/** A run of a worker with room for one output, in which one refused frame shifts every later
    pairing. */
module RefusedFrameExample {
  import opened Bits
  import opened Collections
  import opened Layout
  import opened Protocol
  import opened Worker
  import opened WorkerHistory
  import opened PendingQueue
  import opened EncodePipeline
  import opened SampleHistory

  const A := Entry(Lease(1002, 1), 1)
  const B := Entry(Lease(1003, 1), 2)
  const C := Entry(Lease(1004, 1), 3)
  const FIRST := Time(10, 1)
  const SECOND := Time(20, 1)
  const THIRD := Time(30, 1)

  // ---------- the states the run goes through ----------

  function TheSession(prepared: bool, frames: nat): (s: Session) {
    Session(1000, 0, 0, 16, 1, BGRA, prepared, frames)
  }

  function ThePool(count: nat): (p: Pool) {
    Pool(1001, 1000, 16, 1, BGRA, 3, count, 64, Zeros(192))
  }

  function TheBuffer(slot: nat, state: BufferState): (b: Buffer) {
    Buffer(1002 + slot, 1001, 1, slot, 16, 1, BGRA, state, 64)
  }

  function Opened(prepared: bool): (w: Worker) {
    Worker(1001, 5000, 1, 1000, 0, [TheSession(prepared, 0)], [], [], [])
  }

  function Leased(buffers: seq<Buffer>): (w: Worker) {
    Worker(1002 + |buffers|, 5000, 1, 1000, 0, [TheSession(true, 0)], [ThePool(|buffers|)], buffers, [])
  }

  function Stock(first: BufferState, third: BufferState): (buffers: seq<Buffer>) {
    [TheBuffer(0, first), TheBuffer(1, GuestWritable), TheBuffer(2, third)]
  }

  /** After `frames` frames, with the outputs and buffers given. */
  function Midway(frames: nat, buffers: seq<Buffer>, outputs: seq<Output>): (w: Worker) {
    Worker(1005, 5000 + frames, 1, 1000, if outputs == [] then 0 else 28, [TheSession(true, frames)], [ThePool(3)],
           buffers, outputs)
  }

  function FirstOutput(dequeued: bool): (o: Output) {
    NewOutput(Midway(0, Stock(GuestWritable, GuestWritable), []), TheSession(true, 0), TheBuffer(0, GuestWritable),
              Zeros(8), FIRST, FIRST).(dequeued := dequeued)
  }

  function SecondOutput(dequeued: bool): (o: Output) {
    NewOutput(Midway(1, Stock(Recycled, GuestWritable), []), TheSession(true, 1), TheBuffer(2, GuestWritable),
              Zeros(8), THIRD, THIRD).(dequeued := dequeued)
  }

  lemma FindFirst<T>(s: seq<T>, p: T -> bool)
    requires |s| > 0 && p(s[0])
    ensures IndexWhere(s, p) == Some(0)
  {
    IndexWhereIs(s, p, 0);
  }

  lemma FindThird<T>(s: seq<T>, p: T -> bool)
    requires |s| > 2 && !p(s[0]) && !p(s[1]) && p(s[2])
    ensures IndexWhere(s, p) == Some(2)
  {
    IndexWhereIs(s, p, 2);
  }

  // ---------- setting up ----------

  lemma OpenStep()
    ensures Dispatch(Fresh(1, 1000), CreateSession(0, 0, 16, 1, BGRA), STORAGE_CAPACITY).worker == Opened(false)
  {
  }

  lemma PrepareStep()
    ensures Dispatch(Opened(false), PrepareSession(1000), STORAGE_CAPACITY).worker == Opened(true)
  {
    FindFirst([TheSession(false, 0)], SessionIs(1000));
  }

  lemma SmallLayout()
    ensures WorkerLayout(16, 1, BGRA).totalSize == 64
  {
  }

  lemma PoolStep()
    ensures Dispatch(Opened(true), CreatePool(1000, 3, BGRA, 16, 1), STORAGE_CAPACITY).worker == Leased([])
  {
    FindFirst([TheSession(true, 0)], SessionIs(1000));
    SmallLayout();
    TimesIsProduct(3, 64);
  }

  lemma SlotIs(count: nat, slot: nat)
    requires slot < 3
    ensures PoolSlot(ThePool(count), slot) == Some((64 * slot, 64 * slot + 64))
  {
    TimesIsProduct(slot, 64);
  }

  lemma LeaseStep(buffers: seq<Buffer>)
    requires |buffers| < 3 && forall i :: 0 <= i < |buffers| ==> buffers[i].state == GuestWritable
    ensures Dispatch(Leased(buffers), AllocBuffer(1001), STORAGE_CAPACITY).worker
         == Leased(buffers + [TheBuffer(|buffers|, GuestWritable)])
  {
    var n := |buffers|;
    FindFirst([ThePool(n)], PoolIs(1001));
    SlotIs(n, n);
    assert Zeroed(ThePool(n), (64 * n, 64 * n + 64)) == Zeros(192);
    assert IndexWhere(buffers, Recyclable(1001)) == None;
    assert DoAllocFresh(Leased(buffers), STORAGE_CAPACITY, 0).worker == Leased(buffers + [TheBuffer(n, GuestWritable)]);
  }

  // ---------- the frames ----------

  lemma PrefixIs(w: Worker, slot: nat)
    requires w.pools == [ThePool(3)] && slot < 3
    ensures PrefixOf(w, TheBuffer(slot, GuestWritable)) == Found(Zeros(8))
  {
    FindFirst(w.pools, PoolIs(1001));
    SlotIs(3, slot);
    assert ThePool(3).backing[64 * slot..64 * slot + 8] == Zeros(8);
  }

  lemma FirstAccepts()
    ensures Dispatch(Midway(0, Stock(GuestWritable, GuestWritable), []), FrameRequest(1000, A, FIRST, FIRST),
        STORAGE_CAPACITY)
         == Step(Midway(1, Stock(QueuedToHost, GuestWritable), [FirstOutput(false)]), Ok(Empty))
  {
    var w := Midway(0, Stock(GuestWritable, GuestWritable), []);
    FindFirst(w.sessions, SessionIs(1000));
    FindFirst(w.buffers, BufferIs(1002));
    PrefixIs(w, 0);
    FirstQueued();
  }

  lemma FirstQueued()
    ensures Accept(Midway(0, Stock(GuestWritable, GuestWritable), []), 0, 0, Zeros(8), FIRST, FIRST)
         == Step(Midway(1, Stock(QueuedToHost, GuestWritable), [FirstOutput(false)]), Ok(Empty))
  {
    assert Stock(GuestWritable, GuestWritable)[0 := TheBuffer(0, QueuedToHost)] == Stock(QueuedToHost, GuestWritable);
  }

  /** The second frame finds the queue full. */
  lemma SecondRefused()
    ensures var w := Midway(1, Stock(QueuedToHost, GuestWritable), [FirstOutput(false)]);
            Dispatch(w, FrameRequest(1000, B, SECOND, SECOND), STORAGE_CAPACITY) == Fail(w, STATUS_RESOURCE_EXHAUSTED)
  {
    var w := Midway(1, Stock(QueuedToHost, GuestWritable), [FirstOutput(false)]);
    FindFirst(w.sessions, SessionIs(1000));
    assert FindBuffer(w, 1003) == Some(1) by { IndexWhereIs(w.buffers, BufferIs(1003), 1); }
    PrefixIs(w, 1);
  }

  lemma TakeStep(w: Worker, o: Output)
    requires w.outputs == [o] && o.info.sessionId == 1000 && !o.dequeued
    ensures HandedBy(w, DequeueOutput(1000), STORAGE_CAPACITY) == [o.info]
    ensures Dispatch(w, DequeueOutput(1000), STORAGE_CAPACITY).worker == w.(outputs := [o.(dequeued := true)])
  {
    FindFirst(w.outputs, Ready(1000));
  }

  lemma ReadStep(w: Worker, o: Output)
    requires w.outputs == [o] && o.dequeued && |o.sample| < 100
    ensures Dispatch(w, ReadOutput(o.info.outputId), STORAGE_CAPACITY).outcome
         == Ok(OutputBytes(o.info.outputId, o.info.sampleSize, o.sample))
  {
    FindFirst(w.outputs, Taken(o.info.outputId));
  }

  lemma RecycleStep()
    ensures Dispatch(Midway(1, Stock(QueuedToHost, GuestWritable), [FirstOutput(true)]), RecycleBuffer(1001, 1002, 1),
                     STORAGE_CAPACITY).worker
         == Midway(1, Stock(Recycled, GuestWritable), [FirstOutput(true)])
  {
    var w := Midway(1, Stock(QueuedToHost, GuestWritable), [FirstOutput(true)]);
    FindFirst(w.pools, PoolIs(1001));
    FindFirst(w.buffers, BufferIs(1002));
  }

  lemma ReleaseStep()
    ensures Dispatch(Midway(1, Stock(Recycled, GuestWritable), [FirstOutput(true)]), ReleaseOutput(5000),
        STORAGE_CAPACITY).worker
         == Midway(1, Stock(Recycled, GuestWritable), [])
  {
    FindFirst([FirstOutput(true)], OutputIs(5000));
  }

  lemma ThirdAccepts()
    ensures Dispatch(Midway(1, Stock(Recycled, GuestWritable), []), FrameRequest(1000, C, THIRD, THIRD),
        STORAGE_CAPACITY)
         == Step(Midway(2, Stock(Recycled, QueuedToHost), [SecondOutput(false)]), Ok(Empty))
  {
    var w := Midway(1, Stock(Recycled, GuestWritable), []);
    FindFirst(w.sessions, SessionIs(1000));
    FindThird(w.buffers, BufferIs(1004));
    PrefixIs(w, 2);
    assert Accept(w, 0, 2, Zeros(8), THIRD, THIRD).worker
      == Midway(2, Stock(Recycled, QueuedToHost), [SecondOutput(false)]);
  }

  // ---------- the run ----------

  ghost predicate Reaches(actions: seq<Action>, g: Guest) {
    AllPolite(Begin(1, 1000), 1000, actions) && Play(Begin(1, 1000), 1000, actions) == g
  }

  lemma Next(actions: seq<Action>, g: Guest, a: Action)
    requires Reaches(actions, g) && Polite(g, 1000, a)
    ensures Reaches(actions + [a], Act(g, 1000, a))
  {
    assert (actions + [a])[..|actions|] == actions;
  }

  function Setup(): (actions: seq<Action>) {
    [] + [Other(CreateSession(0, 0, 16, 1, BGRA))] + [Other(PrepareSession(1000))]
    + [Other(CreatePool(1000, 3, BGRA, 16, 1))] + [Other(AllocBuffer(1001))] + [Other(AllocBuffer(1001))]
    + [Other(AllocBuffer(1001))]
  }

  function Before(w: Worker): (g: Guest) {
    Begin(1, 1000).(worker := w)
  }

  lemma Later(actions: seq<Action>, w: Worker, req: Request)
    requires Reaches(actions, Before(w)) && Polite(Before(w), 1000, Other(req))
    ensures Reaches(actions + [Other(req)], Before(Dispatch(w, req, STORAGE_CAPACITY).worker))
  {
    Next(actions, Before(w), Other(req));
  }

  lemma Prepared()
    ensures Reaches([] + [Other(CreateSession(0, 0, 16, 1, BGRA))] + [Other(PrepareSession(1000))]
                    + [Other(CreatePool(1000, 3, BGRA, 16, 1))], Before(Leased([])))
  {
    OpenStep();
    PrepareStep();
    PoolStep();
    assert Reaches([], Before(Fresh(1, 1000)));
    var a := Other(CreateSession(0, 0, 16, 1, BGRA));
    Later([], Fresh(1, 1000), a.req);
    Later([] + [a], Opened(false), PrepareSession(1000));
    Later([] + [a] + [Other(PrepareSession(1000))], Opened(true), CreatePool(1000, 3, BGRA, 16, 1));
  }

  lemma LeasedOut()
    ensures Reaches(Setup(), Before(Midway(0, Stock(GuestWritable, GuestWritable), [])))
  {
    Prepared();
    var s := [] + [Other(CreateSession(0, 0, 16, 1, BGRA))] + [Other(PrepareSession(1000))]
             + [Other(CreatePool(1000, 3, BGRA, 16, 1))];
    var a := Other(AllocBuffer(1001));
    var one := [] + [TheBuffer(0, GuestWritable)];
    var two := one + [TheBuffer(1, GuestWritable)];
    LeaseStep([]);
    Later(s, Leased([]), a.req);
    LeaseStep(one);
    Later(s + [a], Leased(one), a.req);
    LeaseStep(two);
    Later(s + [a] + [a], Leased(two), a.req);
    assert two + [TheBuffer(2, GuestWritable)] == Stock(GuestWritable, GuestWritable);
  }

  /** Three frames are submitted; the second finds the worker full. */
  function Shifted(): (actions: seq<Action>) {
    FirstHalf() + [Other(RecycleBuffer(1001, 1002, 1))] + [Other(ReleaseOutput(5000))] + [Encode(C, THIRD, THIRD)]
    + [Dequeue(1, true)] + [Deliver(true)]
  }

  function FirstHalf(): (actions: seq<Action>) {
    Setup() + [Encode(A, FIRST, FIRST)] + [Encode(B, SECOND, SECOND)] + [Dequeue(1, true)] + [Deliver(true)]
  }

  const SUBMITTED := [Frame(A, FIRST)] + [Frame(B, SECOND)]

  function FirstCallback(): (c: Callback) {
    Callback(Some(A), FirstOutput(true).info, FirstOutput(true).sample, true)
  }

  function FirstDue(): (sample: seq<byte>) {
    FrameSample(Midway(0, Stock(GuestWritable, GuestWritable), []), 1000, A.image.id)
  }

  function SecondDue(): (sample: seq<byte>) {
    FrameSample(Midway(1, Stock(Recycled, GuestWritable), []), 1000, C.image.id)
  }

  function Halfway(w: Worker): (g: Guest) {
    Guest(w, [B], {B.image}, SUBMITTED, [0], [FirstDue()], [FirstOutput(true).info], 1, [0], [FirstCallback()])
  }

  lemma Submitted()
    ensures Reaches(Setup() + [Encode(A, FIRST, FIRST)] + [Encode(B, SECOND, SECOND)],
                    Guest(Midway(1, Stock(QueuedToHost, GuestWritable), [FirstOutput(false)]), [A, B],
                      {A.image, B.image},
                          SUBMITTED, [0], [FirstDue()], [], 0, [], []))
  {
    LeasedOut();
    var g := Before(Midway(0, Stock(GuestWritable, GuestWritable), []));
    Next(Setup(), g, Encode(A, FIRST, FIRST));
    FirstAccepts();
    var g1 := Act(g, 1000, Encode(A, FIRST, FIRST));
    Next(Setup() + [Encode(A, FIRST, FIRST)], g1, Encode(B, SECOND, SECOND));
    SecondRefused();
    assert g1.pending == [A] && g1.accepted == [0] && g1.samples == [FirstDue()];
  }

  lemma FirstDelivered()
    ensures Reaches(FirstHalf(), Halfway(Midway(1, Stock(QueuedToHost, GuestWritable), [FirstOutput(true)])))
  {
    Submitted();
    var w := Midway(1, Stock(QueuedToHost, GuestWritable), [FirstOutput(false)]);
    var w' := Midway(1, Stock(QueuedToHost, GuestWritable), [FirstOutput(true)]);
    var g := Guest(w, [A, B], {A.image, B.image}, SUBMITTED, [0], [FirstDue()], [], 0, [], []);
    var s := Setup() + [Encode(A, FIRST, FIRST)] + [Encode(B, SECOND, SECOND)];
    Next(s, g, Dequeue(1, true));
    TakeStep(w, FirstOutput(false));
    var g1 := g.(worker := w', handed := [FirstOutput(true).info]);
    assert Act(g, 1000, Dequeue(1, true)) == g1;
    Next(s + [Dequeue(1, true)], g1, Deliver(true));
    ReadStep(w', FirstOutput(true));
    assert {A.image, B.image} - {A.image} == {B.image};
    assert Act(g1, 1000, Deliver(true)) == Halfway(w');
  }

  lemma RoomAgain()
    ensures Reaches(FirstHalf() + [Other(RecycleBuffer(1001, 1002, 1))] + [Other(ReleaseOutput(5000))],
                    Halfway(Midway(1, Stock(Recycled, GuestWritable), [])))
  {
    FirstDelivered();
    var g := Halfway(Midway(1, Stock(QueuedToHost, GuestWritable), [FirstOutput(true)]));
    Next(FirstHalf(), g, Other(RecycleBuffer(1001, 1002, 1)));
    RecycleStep();
    var g1 := Halfway(Midway(1, Stock(Recycled, GuestWritable), [FirstOutput(true)]));
    assert !InHand(g1, 5000);
    Next(FirstHalf() + [Other(RecycleBuffer(1001, 1002, 1))], g1, Other(ReleaseOutput(5000)));
    ReleaseStep();
  }

  function Resubmitted(w: Worker, handed: seq<OutputInfo>): (g: Guest) {
    Guest(w, [B, C], {B.image, C.image}, SUBMITTED + [Frame(C, THIRD)], [0, 2], [FirstDue(), SecondDue()],
          handed, 1, [0], [FirstCallback()])
  }

  lemma ThirdSent()
    ensures Reaches(FirstHalf() + [Other(RecycleBuffer(1001, 1002, 1))] + [Other(ReleaseOutput(5000))]
                    + [Encode(C, THIRD, THIRD)],
                    Resubmitted(Midway(2, Stock(Recycled, QueuedToHost), [SecondOutput(false)]),
                                [FirstOutput(true).info]))
  {
    RoomAgain();
    var s := FirstHalf() + [Other(RecycleBuffer(1001, 1002, 1))] + [Other(ReleaseOutput(5000))];
    var g := Halfway(Midway(1, Stock(Recycled, GuestWritable), []));
    Next(s, g, Encode(C, THIRD, THIRD));
    ThirdAccepts();
    assert [B] + [C] == [B, C] && [0] + [2] == [0, 2] && [FirstDue()] + [SecondDue()] == [FirstDue(), SecondDue()];
  }

  lemma ThirdTaken()
    ensures Reaches(FirstHalf() + [Other(RecycleBuffer(1001, 1002, 1))] + [Other(ReleaseOutput(5000))]
                    + [Encode(C, THIRD, THIRD)] + [Dequeue(1, true)],
                    Resubmitted(Midway(2, Stock(Recycled, QueuedToHost), [SecondOutput(true)]),
                                [FirstOutput(true).info, SecondOutput(true).info]))
  {
    ThirdSent();
    var s := FirstHalf() + [Other(RecycleBuffer(1001, 1002, 1))] + [Other(ReleaseOutput(5000))]
             + [Encode(C, THIRD, THIRD)];
    var w := Midway(2, Stock(Recycled, QueuedToHost), [SecondOutput(false)]);
    Next(s, Resubmitted(w, [FirstOutput(true).info]), Dequeue(1, true));
    TakeStep(w, SecondOutput(false));
    assert [FirstOutput(true).info] + [SecondOutput(true).info] == [FirstOutput(true).info, SecondOutput(true).info];
  }

  /** Every request but the second frame is accepted, yet the third frame's callback carries the
      refused frame's entry, and the third frame's own entry is left in the queue. */
  lemma RefusedFrameShiftsPairing()
    ensures AllPolite(Begin(1, 1000), 1000, Shifted()) && AllBuilt(Shifted())
    ensures var g := Play(Begin(1, 1000), 1000, Shifted());
            && g.frames == [Frame(A, FIRST), Frame(B, SECOND), Frame(C, THIRD)] && g.accepted == [0, 2]
            && g.taken == [0, 1]
            && |g.callbacks| == 2
            && g.callbacks[0].entry == Some(A) && g.callbacks[0].info.pts == FIRST
            && g.callbacks[1].entry == Some(B) && g.callbacks[1].info.pts == THIRD
            && g.pending == [C]
  {
    ThirdTaken();
    var w := Midway(2, Stock(Recycled, QueuedToHost), [SecondOutput(true)]);
    var g := Resubmitted(w, [FirstOutput(true).info, SecondOutput(true).info]);
    var s := FirstHalf() + [Other(RecycleBuffer(1001, 1002, 1))] + [Other(ReleaseOutput(5000))]
             + [Encode(C, THIRD, THIRD)] + [Dequeue(1, true)];
    Next(s, g, Deliver(true));
    ReadStep(w, SecondOutput(true));
    LastDelivery(g);
    ShiftedIsBuilt();
  }

  lemma ShiftedIsBuilt()
    ensures AllBuilt(Shifted())
  {
  }

  lemma LastDelivery(g: Guest)
    requires |g.callbacks| == 1 && g.next == 1 && g.taken == [0] && |g.handed| == 2 && g.pending == [B, C]
    requires NextSample(g).Some?
    ensures var g' := Act(g, 1000, Deliver(true));
            && g'.taken == [0, 1] && g'.frames == g.frames && g'.accepted == g.accepted && g'.pending == [C]
            && |g'.callbacks| == 2 && g'.callbacks[0] == g.callbacks[0]
            && g'.callbacks[1].entry == Some(B) && g'.callbacks[1].info == g.handed[1]
  {
  }
}
