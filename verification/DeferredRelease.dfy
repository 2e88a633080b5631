/** Deferred output releases: queued by the guest, flushed in batches, with a one-by-one
    fallback for workers that do not know the batch opcode. */
module DeferredRelease {
  import opened Bits
  import opened Collections
  import opened Protocol
  import opened Worker
  import opened WorkerInvariant
  import MockBackend

  /** `OP_RELEASE_OUTPUT_BATCH`, which the mock worker does not serve. */
  const BATCH_OPCODE: nat := 0x58

  // ---------- the guest's single requests ----------

  /** One request per id, until one is refused. */
  function Singly(w: Worker, ids: seq<nat>): (r: Step)
    ensures r.outcome == Ok(Empty) || r.outcome == Err(STATUS_INVALID_HANDLE)
    decreases |ids|
  {
    if |ids| == 0 then Step(w, Ok(Empty))
    else
      var step := Dispatch(w, ReleaseOutput(ids[0]), STORAGE_CAPACITY);
      if step.outcome.Err? then step else Singly(step.worker, ids[1..])
  }

  // ---------- the batch request ----------

  /** A count and a fixed array of ids, of which only the first `count` mean anything. */
  datatype Payload = Payload(count: nat, slots: seq<nat>)

  function MakePayload(ids: seq<nat>): (p: Payload)
    requires |ids| <= MAX_OUTPUT_BATCH
    ensures p.count == |ids| && |p.slots| == MAX_OUTPUT_BATCH
    ensures forall k :: 0 <= k < MAX_OUTPUT_BATCH ==> p.slots[k] == if k < |ids| then ids[k] else 0
  {
    Payload(|ids|, ids + seq(MAX_OUTPUT_BATCH - |ids|, _ => 0))
  }

  /** The worker's loop over the slots `i` to `n`, which stops at the first release it refuses. */
  function SlotsFrom(w: Worker, slots: seq<nat>, i: nat, n: nat): (r: Step)
    requires i <= n <= |slots|
    decreases n - i
  {
    if i == n then Step(w, Ok(Empty))
    else
      var step := DoReleaseOutput(w, slots[i]);
      if step.outcome.Err? then step else SlotsFrom(step.worker, slots, i + 1, n)
  }

  /** The worker trusts the count only up to the size of the array. */
  function ServeBatch(w: Worker, p: Payload): (r: Step)
    requires |p.slots| == MAX_OUTPUT_BATCH
  {
    SlotsFrom(w, p.slots, 0, if p.count < MAX_OUTPUT_BATCH then p.count else MAX_OUTPUT_BATCH)
  }

  /** The answer to the batch opcode, by a worker that serves it or one that does not. */
  function BatchRequest(w: Worker, p: Payload, known: bool): (r: Step)
    requires |p.slots| == MAX_OUTPUT_BATCH
  {
    if known then ServeBatch(w, p) else Dispatch(w, Unknown(BATCH_OPCODE), STORAGE_CAPACITY)
  }

  function BatchNow(w: Worker, ids: seq<nat>, known: bool): (r: Step)
    requires |ids| <= MAX_OUTPUT_BATCH
  {
    if |ids| == 0 then Step(w, Ok(Empty))
    else
      var r := BatchRequest(w, MakePayload(ids), known);
      if r.outcome == Err(STATUS_UNSUPPORTED_OPCODE) then Singly(r.worker, ids) else r
  }

  function Flushed(w: Worker, ids: seq<nat>, known: bool): (r: Step)
    decreases |ids|
  {
    if |ids| == 0 then Step(w, Ok(Empty))
    else
      var n := if |ids| < MAX_OUTPUT_BATCH then |ids| else MAX_OUTPUT_BATCH;
      var r := BatchNow(w, ids[..n], known);
      if r.outcome.Err? then r else Flushed(r.worker, ids[n..], known)
  }

  // ---------- as the two sides run it ----------

  /** The worker's handler for the batch opcode. */
  method HandleBatch(backend: MockBackend.Backend, count: nat, slots: array<nat>) returns (out: Outcome)
    requires slots.Length == MAX_OUTPUT_BATCH
    modifies backend
    ensures Step(backend.State(), out) == ServeBatch(old(backend.State()), Payload(count, slots[..]))
  {
    out := HandleSlots(backend, if count < slots.Length then count else slots.Length, slots);
  }

  method HandleSlots(backend: MockBackend.Backend, n: nat, slots: array<nat>) returns (out: Outcome)
    requires n <= slots.Length
    modifies backend
    ensures Step(backend.State(), out) == SlotsFrom(old(backend.State()), slots[..], 0, n)
  {
    var i := 0;
    ghost var ids, goal := slots[..], SlotsFrom(backend.State(), slots[..], i, n);
    while i < n
      invariant 0 <= i <= n && SlotsFrom(backend.State(), ids, i, n) == goal
    {
      out := backend.ReleaseOutput(slots[i]);
      if out.Err? {
        return;
      }
      i := i + 1;
    }
    return Ok(Empty);
  }

  /** The queue and its flush, as the guest runs them. */
  class Releaser {
    const backend: MockBackend.Backend
    const batchSize: nat
    const deferring: bool
    const known: bool
    var queue: seq<nat>

    constructor (backend: MockBackend.Backend, configured: nat, deferring: bool, known: bool)
      ensures queue == [] && this.backend == backend && this.deferring == deferring && this.known == known
      ensures 1 <= batchSize <= MAX_OUTPUT_BATCH
    {
      this.backend := backend;
      this.batchSize := BatchLimit(configured);
      this.deferring, this.known := deferring, known;
      queue := [];
    }

    method ReleaseSingly(ids: seq<nat>) returns (out: Outcome)
      modifies backend
      ensures Step(backend.State(), out) == Singly(old(backend.State()), ids)
    {
      var i := 0;
      while i < |ids|
        invariant 0 <= i <= |ids|
        invariant Singly(old(backend.State()), ids) == Singly(backend.State(), ids[i..])
      {
        assert ids[i..][1..] == ids[i + 1..];
        out := backend.Handle(Request.ReleaseOutput(ids[i]), STORAGE_CAPACITY);
        if out.Err? {
          return;
        }
        i := i + 1;
      }
      return Ok(Empty);
    }

    /** The payload is filled slot by slot and sent; an unknown opcode means the fallback. */
    method ReleaseBatch(ids: seq<nat>) returns (out: Outcome)
      requires |ids| <= MAX_OUTPUT_BATCH
      modifies backend
      ensures Step(backend.State(), out) == BatchNow(old(backend.State()), ids, known)
    {
      if |ids| == 0 {
        return Ok(Empty);
      }
      var slots := new nat[MAX_OUTPUT_BATCH](_ => 0);
      var i := 0;
      while i < |ids|
        invariant 0 <= i <= |ids|
        invariant forall k :: 0 <= k < MAX_OUTPUT_BATCH ==> slots[k] == if k < i then ids[k] else 0
        modifies slots
      {
        slots[i] := ids[i];
        i := i + 1;
      }
      assert slots[..] == MakePayload(ids).slots;
      if known {
        out := HandleBatch(backend, |ids|, slots);
      } else {
        out := backend.Handle(Unknown(BATCH_OPCODE), STORAGE_CAPACITY);
      }
      assert Step(backend.State(), out) == BatchRequest(old(backend.State()), MakePayload(ids), known);
      if out == Err(STATUS_UNSUPPORTED_OPCODE) {
        out := ReleaseSingly(ids);
      }
    }

    /** The queue is emptied before anything is sent. */
    method Flush() returns (out: Outcome)
      modifies this, backend
      ensures queue == []
      ensures Step(backend.State(), out) == Flushed(old(backend.State()), old(queue), known)
    {
      var ids := queue;
      queue := [];
      var i := 0;
      while i < |ids|
        invariant 0 <= i <= |ids| && queue == []
        invariant Flushed(old(backend.State()), ids, known) == Flushed(backend.State(), ids[i..], known)
      {
        var n := if |ids| - i < MAX_OUTPUT_BATCH then |ids| - i else MAX_OUTPUT_BATCH;
        FlushedFrom(backend.State(), ids, i, n, known);
        out := ReleaseBatch(ids[i..i + n]);
        if out.Err? {
          return;
        }
        i := i + n;
      }
      return Ok(Empty);
    }

    method ReleaseOutput(id: nat) returns (out: Outcome)
      modifies this, backend
      ensures var all, w := old(queue) + [id], old(backend.State());
              if !deferring then queue == old(queue) && Step(backend.State(), out) == DoReleaseOutput(w, id)
              else if |all| >= batchSize then queue == [] && Step(backend.State(), out) == Flushed(w, all, known)
              else queue == all && Step(backend.State(), out) == Step(w, Ok(Empty))
    {
      if !deferring {
        out := backend.ReleaseOutput(id);
        return;
      }
      queue := queue + [id];
      if |queue| >= batchSize {
        out := Flush();
      } else {
        out := Ok(Empty);
      }
    }
  }

  lemma FlushedFrom(w: Worker, ids: seq<nat>, at: nat, n: nat, known: bool)
    requires at < |ids| && n == if |ids| - at < MAX_OUTPUT_BATCH then |ids| - at else MAX_OUTPUT_BATCH
    ensures Flushed(w, ids[at..], known)
         == var r := BatchNow(w, ids[at..at + n], known);
            if r.outcome.Err? then r else Flushed(r.worker, ids[at + n..], known)
  {
    assert ids[at..][..n] == ids[at..at + n] && ids[at..][n..] == ids[at + n..];
  }

  // ---------- the two paths agree ----------

  /** The worker's loop over its slots does what single requests for the same ids do. */
  lemma {:induction false} SlotsAreSingles(w: Worker, slots: seq<nat>, i: nat, n: nat)
    requires i <= n <= |slots|
    ensures SlotsFrom(w, slots, i, n) == Singly(w, slots[i..n])
    decreases n - i
  {
    if i < n {
      assert slots[i..n][1..] == slots[i + 1..n];
      SlotsAreSingles(DoReleaseOutput(w, slots[i]).worker, slots, i + 1, n);
    }
  }

  /** A payload carries its ids to the worker: no slot is dropped, added or swapped. */
  lemma PayloadIsServed(w: Worker, ids: seq<nat>)
    requires |ids| <= MAX_OUTPUT_BATCH
    ensures ServeBatch(w, MakePayload(ids)) == Singly(w, ids)
  {
    SlotsAreSingles(w, MakePayload(ids).slots, 0, |ids|);
    assert MakePayload(ids).slots[0..|ids|] == ids;
  }

  /** The batch opcode and the fallback leave the same worker and report the same result. */
  lemma BatchAndFallbackAgree(w: Worker, ids: seq<nat>)
    requires |ids| <= MAX_OUTPUT_BATCH
    ensures BatchNow(w, ids, true) == BatchNow(w, ids, false) == Singly(w, ids)
  {
    PayloadIsServed(w, ids);
  }

  lemma {:induction false} SinglySplits(w: Worker, a: seq<nat>, b: seq<nat>)
    ensures Singly(w, a + b) == var r := Singly(w, a); if r.outcome.Err? then r else Singly(r.worker, b)
    decreases |a|
  {
    if |a| == 0 {
      assert a + b == b;
    } else {
      assert (a + b)[1..] == a[1..] + b;
      var step := Dispatch(w, ReleaseOutput(a[0]), STORAGE_CAPACITY);
      if step.outcome.Ok? {
        SinglySplits(step.worker, a[1..], b);
      }
    }
  }

  /** Flushing in batches, with or without the batch opcode, is releasing one by one. */
  lemma {:induction false} FlushIsSingly(w: Worker, ids: seq<nat>, known: bool)
    ensures Flushed(w, ids, known) == Singly(w, ids)
    decreases |ids|
  {
    if |ids| > 0 {
      var n := if |ids| < MAX_OUTPUT_BATCH then |ids| else MAX_OUTPUT_BATCH;
      BatchAndFallbackAgree(w, ids[..n]);
      assert ids == ids[..n] + ids[n..];
      SinglySplits(w, ids[..n], ids[n..]);
      var r := Singly(w, ids[..n]);
      if r.outcome.Ok? {
        FlushIsSingly(r.worker, ids[n..], known);
      }
    }
  }

  // ---------- when a flush succeeds ----------

  ghost predicate Outstanding(w: Worker, id: nat) {
    FindOutput(w, id).Some?
  }

  ghost predicate Distinct(ids: seq<nat>) {
    forall i, j :: 0 <= i < j < |ids| ==> ids[i] != ids[j]
  }

  /** A release ends exactly the output it names. */
  lemma ReleaseEndsOne(w: Worker, id: nat, other: nat)
    requires Valid(w) && Outstanding(w, id)
    ensures Outstanding(DoReleaseOutput(w, id).worker, other) <==> Outstanding(w, other) && other != id
  {
    IdsAscend(w);
    EndsOne(w, DoReleaseOutput(w, id).worker, id, FindOutput(w, id).value, other);
  }

  lemma IdsAscend(w: Worker)
    requires Valid(w)
    ensures forall i, j :: 0 <= i < j < |w.outputs| ==> w.outputs[i].info.outputId < w.outputs[j].info.outputId
  {
  }

  lemma EndsOne(w: Worker, w': Worker, id: nat, i: nat, other: nat)
    requires forall j, k :: 0 <= j < k < |w.outputs| ==> w.outputs[j].info.outputId < w.outputs[k].info.outputId
    requires i < |w.outputs| && w.outputs[i].info.outputId == id && w'.outputs == RemoveAt(w.outputs, i)
    ensures Outstanding(w', other) <==> Outstanding(w, other) && other != id
  {
    if Outstanding(w, other) && other != id {
      var j := FindOutput(w, other).value;
      assert w'.outputs[if j < i then j else j - 1] == w.outputs[j];
    }
    if Outstanding(w', other) {
      var j := FindOutput(w', other).value;
      var k := if j < i then j else j + 1;
      assert w.outputs[k].info.outputId == other;
    }
  }

  /** A flush succeeds exactly when the queued ids are distinct and all still outstanding. */
  lemma FlushSucceedsIff(w: Worker, ids: seq<nat>, known: bool)
    requires Valid(w)
    ensures Flushed(w, ids, known).outcome.Ok?
       <==> Distinct(ids) && forall i :: 0 <= i < |ids| ==> Outstanding(w, ids[i])
  {
    FlushIsSingly(w, ids, known);
    SinglySucceedsIff(w, ids);
  }

  lemma {:induction false} SinglySucceedsIff(w: Worker, ids: seq<nat>)
    requires Valid(w)
    ensures Singly(w, ids).outcome.Ok? <==> Distinct(ids) && forall i :: 0 <= i < |ids| ==> Outstanding(w, ids[i])
    decreases |ids|
  {
    if |ids| > 0 {
      SinglyStep(w, ids);
      if Outstanding(w, ids[0]) {
        var w' := DoReleaseOutput(w, ids[0]).worker;
        ReleaseOutputKeeps(w, ids[0]);
        SinglySucceedsIff(w', ids[1..]);
        ReleaseEndsFirst(w, ids);
        RestOutstanding(w, w', ids);
      }
    }
  }

  lemma SinglyStep(w: Worker, ids: seq<nat>)
    requires |ids| > 0
    ensures if Outstanding(w, ids[0]) then Singly(w, ids) == Singly(DoReleaseOutput(w, ids[0]).worker, ids[1..])
            else Singly(w, ids).outcome.Err?
  {
  }

  lemma ReleaseEndsFirst(w: Worker, ids: seq<nat>)
    requires Valid(w) && |ids| > 0 && Outstanding(w, ids[0])
    ensures forall i :: 0 <= i < |ids| ==>
              (Outstanding(DoReleaseOutput(w, ids[0]).worker, ids[i]) <==> Outstanding(w, ids[i]) && ids[i] != ids[0])
  {
    forall i | 0 <= i < |ids|
      ensures Outstanding(DoReleaseOutput(w, ids[0]).worker, ids[i]) <==> Outstanding(w, ids[i]) && ids[i] != ids[0]
    {
      ReleaseEndsOne(w, ids[0], ids[i]);
    }
  }

  lemma RestOutstanding(w: Worker, w': Worker, ids: seq<nat>)
    requires |ids| > 0 && Outstanding(w, ids[0])
    requires forall i :: 0 <= i < |ids| ==> (Outstanding(w', ids[i]) <==> Outstanding(w, ids[i]) && ids[i] != ids[0])
    ensures (Distinct(ids) && forall i :: 0 <= i < |ids| ==> Outstanding(w, ids[i]))
       <==> (Distinct(ids[1..]) && forall i :: 0 <= i < |ids[1..]| ==> Outstanding(w', ids[1..][i]))
  {
    var rest := ids[1..];
    if Distinct(rest) && forall i :: 0 <= i < |rest| ==> Outstanding(w', rest[i]) {
      forall i | 0 < i < |ids| ensures Outstanding(w, ids[i]) && ids[i] != ids[0] {
        assert Outstanding(w', rest[i - 1]);
      }
      forall i, j | 0 <= i < j < |ids| ensures ids[i] != ids[j] {
        if i > 0 {
          assert rest[i - 1] != rest[j - 1];
        }
      }
    }
  }

  // ---------- which outputs go ----------

  function NotIn(ids: seq<nat>): (p: Output -> bool) {
    (o: Output) => o.info.outputId !in ids
  }

  lemma {:induction false} KeepAll(os: seq<Output>, p: Output -> bool)
    requires forall k :: 0 <= k < |os| ==> p(os[k])
    ensures Keep(os, p) == os
  {
    if |os| > 0 {
      KeepAll(os[..|os| - 1], p);
    }
  }

  lemma KeepRest(os: seq<Output>, i: nat, p: Output -> bool)
    requires i < |os| && !p(os[i]) && forall k :: 0 <= k < |os| && k != i ==> p(os[k])
    ensures Keep(os, p) == RemoveAt(os, i)
  {
    var a, b := os[..i], os[i + 1..];
    forall k | 0 <= k < |b| ensures p(b[k]) {
      assert b[k] == os[i + 1 + k];
    }
    Rejoined(os, i);
    KeepSides(a, os[i], b, p);
  }

  lemma KeepSides(a: seq<Output>, x: Output, b: seq<Output>, p: Output -> bool)
    requires !p(x) && (forall k :: 0 <= k < |a| ==> p(a[k])) && forall k :: 0 <= k < |b| ==> p(b[k])
    ensures Keep(a + [x] + b, p) == a + b
  {
    KeepSplit(a + [x] + b, a, x, b, p);
    KeepAll(a, p);
    KeepAll(b, p);
    assert a + [] == a;
  }

  lemma ReleaseRemoves(w: Worker, id: nat)
    requires Valid(w) && Outstanding(w, id)
    ensures DoReleaseOutput(w, id).worker.outputs == Keep(w.outputs, NotIn([id]))
  {
    KeepRest(w.outputs, FindOutput(w, id).value, NotIn([id]));
  }

  lemma NotInBoth(os: seq<Output>, id: nat, ids: seq<nat>)
    ensures Keep(Keep(os, NotIn([id])), NotIn(ids)) == Keep(os, NotIn([id] + ids))
  {
    KeepBoth(os, NotIn([id]), NotIn(ids), NotIn([id] + ids));
  }

  /** As far as a run of releases gets, exactly the outputs it names go, and the others keep
      their order. */
  lemma {:induction false} SinglyRemoves(w: Worker, ids: seq<nat>) returns (n: nat)
    requires Valid(w)
    ensures n <= |ids| && (Singly(w, ids).outcome.Ok? <==> n == |ids|)
    ensures |w.outputs| - |Singly(w, ids).worker.outputs| == n
    ensures Singly(w, ids).worker.outputs == Keep(w.outputs, NotIn(ids[..n]))
    decreases |ids|, 1
  {
    if |ids| > 0 && Outstanding(w, ids[0]) {
      ReleaseOutputKeeps(w, ids[0]);
      ReleaseRemoves(w, ids[0]);
      n := RestRemoves(w, ids);
    } else {
      n := 0;
      StuckAtOnce(w, ids);
      KeepAll(w.outputs, NotIn(ids[..0]));
    }
  }

  lemma {:induction false} RestRemoves(w: Worker, ids: seq<nat>) returns (n: nat)
    requires |ids| > 0 && Outstanding(w, ids[0]) && Valid(DoReleaseOutput(w, ids[0]).worker)
    requires DoReleaseOutput(w, ids[0]).worker.outputs == Keep(w.outputs, NotIn([ids[0]]))
    ensures n <= |ids| && (Singly(w, ids).outcome.Ok? <==> n == |ids|)
    ensures |w.outputs| - |Singly(w, ids).worker.outputs| == n
    ensures Singly(w, ids).worker.outputs == Keep(w.outputs, NotIn(ids[..n]))
    decreases |ids|, 0
  {
    var m := SinglyRemoves(DoReleaseOutput(w, ids[0]).worker, ids[1..]);
    n := m + 1;
    SinglyStep(w, ids);
    OneShorter(w, ids[0]);
    RemovesMore(w.outputs, DoReleaseOutput(w, ids[0]).worker.outputs, Singly(w, ids).worker.outputs, ids, m);
  }

  lemma RemovesMore(os: seq<Output>, os1: seq<Output>, os2: seq<Output>, ids: seq<nat>, m: nat)
    requires m < |ids| && os1 == Keep(os, NotIn([ids[0]])) && os2 == Keep(os1, NotIn(ids[1..][..m]))
    ensures os2 == Keep(os, NotIn(ids[..m + 1]))
  {
    NotInBoth(os, ids[0], ids[1..][..m]);
    assert ids[..m + 1] == [ids[0]] + ids[1..][..m];
  }

  lemma OneShorter(w: Worker, id: nat)
    requires Outstanding(w, id)
    ensures |DoReleaseOutput(w, id).worker.outputs| == |w.outputs| - 1
  {
  }

  lemma StuckAtOnce(w: Worker, ids: seq<nat>)
    requires |ids| == 0 || !Outstanding(w, ids[0])
    ensures Singly(w, ids).worker == w && (Singly(w, ids).outcome.Ok? <==> |ids| == 0)
  {
  }

  /** `after` is `before` without the outputs of the first `n` ids. */
  ghost predicate Without(before: seq<Output>, after: seq<Output>, ids: seq<nat>, n: nat) {
    n <= |ids| && |before| - |after| == n && after == Keep(before, NotIn(ids[..n]))
  }

  lemma SinglyLeaves(w: Worker, ids: seq<nat>) returns (n: nat)
    requires Valid(w)
    ensures Without(w.outputs, Singly(w, ids).worker.outputs, ids, n) && (Singly(w, ids).outcome.Ok? <==> n == |ids|)
  {
    n := SinglyRemoves(w, ids);
  }

  /** A flush ends exactly the outputs it got to, in order, and touches no other output. */
  lemma FlushRemovesExactly(w: Worker, ids: seq<nat>, known: bool) returns (n: nat)
    requires Valid(w)
    ensures Without(w.outputs, Flushed(w, ids, known).worker.outputs, ids, n)
    ensures Flushed(w, ids, known).outcome.Ok? <==> n == |ids|
  {
    FlushIsSingly(w, ids, known);
    n := SinglyLeaves(w, ids);
  }

  // ---------- the Apple worker's table ----------

  /** The Apple worker keeps its outputs in a table by id. */
  type Table = map<nat, OutputInfo>

  function TableRelease(t: Table, id: nat): (r: (Table, u32)) {
    if id in t then (t - {id}, STATUS_OK) else (t, STATUS_INVALID_HANDLE)
  }

  function TableSlots(t: Table, slots: seq<nat>, i: nat, n: nat): (r: (Table, u32))
    requires i <= n <= |slots|
    decreases n - i
  {
    if i == n then (t, STATUS_OK)
    else
      var (t', status) := TableRelease(t, slots[i]);
      if status != STATUS_OK then (t', status) else TableSlots(t', slots, i + 1, n)
  }

  class AppleOutputs {
    var queued: Table

    method ReleaseId(id: nat) returns (status: u32)
      modifies this
      ensures (queued, status) == TableRelease(old(queued), id)
    {
      if id !in queued {
        return STATUS_INVALID_HANDLE;
      }
      queued := queued - {id};
      return STATUS_OK;
    }

    /** The handler of the batch opcode. */
    method ReleaseBatch(count: nat, slots: array<nat>) returns (status: u32)
      requires slots.Length == MAX_OUTPUT_BATCH
      modifies this
      ensures (queued, status)
           == TableSlots(old(queued), slots[..], 0, if count < MAX_OUTPUT_BATCH then count else MAX_OUTPUT_BATCH)
    {
      var n := if count < MAX_OUTPUT_BATCH then count else MAX_OUTPUT_BATCH;
      ghost var ids := slots[..];
      ghost var goal := TableSlots(queued, ids, 0, n);
      var i := 0;
      while i < n
        invariant 0 <= i <= n && TableSlots(queued, ids, i, n) == goal
      {
        status := ReleaseId(slots[i]);
        if status != STATUS_OK {
          return;
        }
        i := i + 1;
      }
      return STATUS_OK;
    }
  }

  ghost function OutputIds(w: Worker): (ids: set<nat>) {
    set i | 0 <= i < |w.outputs| :: w.outputs[i].info.outputId
  }

  lemma OutstandingIsId(w: Worker, id: nat)
    ensures Outstanding(w, id) <==> id in OutputIds(w)
  {
    if id in OutputIds(w) {
      var i :| 0 <= i < |w.outputs| && w.outputs[i].info.outputId == id;
    }
  }

  function StatusOf(out: Outcome): (status: u32) {
    if out.Ok? then STATUS_OK else out.status
  }

  lemma TableFollowsOne(w: Worker, t: Table, id: nat)
    requires Valid(w) && t.Keys == OutputIds(w)
    ensures var (t', status) := TableRelease(t, id);
            var step := DoReleaseOutput(w, id);
            t'.Keys == OutputIds(step.worker) && status == StatusOf(step.outcome)
  {
    OutstandingIsId(w, id);
    if Outstanding(w, id) {
      var w' := DoReleaseOutput(w, id).worker;
      forall other ensures other in OutputIds(w') <==> other in OutputIds(w) - {id} {
        ReleaseEndsOne(w, id, other);
        OutstandingIsId(w, other);
        OutstandingIsId(w', other);
      }
    }
  }

  /** Seen by ids and statuses, the Apple worker's handler on its table does what the same loop
      does on the mock worker's queue. */
  lemma {:induction false} TableFollowsWorker(w: Worker, t: Table, slots: seq<nat>, i: nat, n: nat)
    requires Valid(w) && t.Keys == OutputIds(w) && i <= n <= |slots|
    ensures var (t', status) := TableSlots(t, slots, i, n);
            var step := SlotsFrom(w, slots, i, n);
            t'.Keys == OutputIds(step.worker) && status == StatusOf(step.outcome)
    decreases n - i, 1
  {
    if i < n {
      TableFollowsOne(w, t, slots[i]);
      ReleaseOutputKeeps(w, slots[i]);
      TableFollowsRest(w, t, slots, i, n);
    }
  }

  lemma {:induction false} TableFollowsRest(w: Worker, t: Table, slots: seq<nat>, i: nat, n: nat)
    requires i < n <= |slots| && Valid(DoReleaseOutput(w, slots[i]).worker)
    requires var (t', status) := TableRelease(t, slots[i]);
             var step := DoReleaseOutput(w, slots[i]);
             t'.Keys == OutputIds(step.worker) && status == StatusOf(step.outcome)
    ensures var (t', status) := TableSlots(t, slots, i, n);
            var step := SlotsFrom(w, slots, i, n);
            t'.Keys == OutputIds(step.worker) && status == StatusOf(step.outcome)
    decreases n - i, 0
  {
    var (t', status) := TableRelease(t, slots[i]);
    var step := DoReleaseOutput(w, slots[i]);
    SlotStep(w, t, slots, i, n);
    if status == STATUS_OK {
      TableFollowsWorker(step.worker, t', slots, i + 1, n);
    }
  }

  lemma SlotStep(w: Worker, t: Table, slots: seq<nat>, i: nat, n: nat)
    requires i < n <= |slots|
    ensures var (t', status) := TableRelease(t, slots[i]);
            TableSlots(t, slots, i, n) == if status == STATUS_OK then TableSlots(t', slots, i + 1, n) else (t', status)
    ensures var step := DoReleaseOutput(w, slots[i]);
            && SlotsFrom(w, slots, i, n) == (if step.outcome.Ok? then SlotsFrom(step.worker, slots, i + 1, n) else step)
            && (StatusOf(step.outcome) == STATUS_OK <==> step.outcome.Ok?)
  {
  }

  // ---------- whole runs ----------

  datatype Action = Release(id: nat) | FlushNow | Other(req: Request)

  /** `asked` are the ids handed over so far, `sent` those the worker has released. */
  datatype Deferred = Deferred(worker: Worker, queue: seq<nat>, asked: seq<nat>, sent: seq<nat>, failed: bool)

  /** Every release ends one output, so the outputs that went say how far a refused run came. */
  lemma {:induction false} SinglyCounts(w: Worker, ids: seq<nat>)
    ensures var r := Singly(w, ids);
            && 0 <= |w.outputs| - |r.worker.outputs| <= |ids|
            && (r.outcome.Ok? <==> |w.outputs| - |r.worker.outputs| == |ids|)
    decreases |ids|
  {
    if |ids| > 0 {
      var step := Dispatch(w, ReleaseOutput(ids[0]), STORAGE_CAPACITY);
      if step.outcome.Ok? {
        SinglyCounts(step.worker, ids[1..]);
      }
    }
  }

  function FlushQueue(d: Deferred, known: bool): (r: Deferred) {
    var f := Flushed(d.worker, d.queue, known);
    FlushIsSingly(d.worker, d.queue, known);
    SinglyCounts(d.worker, d.queue);
    var ended := |d.worker.outputs| - |f.worker.outputs|;
    d.(worker := f.worker, queue := [], sent := d.sent + d.queue[..ended], failed := d.failed || f.outcome.Err?)
  }

  function Act(d: Deferred, a: Action, batchSize: nat, known: bool): (r: Deferred) {
    match a
    case Release(id) =>
      var d1 := d.(queue := d.queue + [id], asked := d.asked + [id]);
      if |d1.queue| >= batchSize then FlushQueue(d1, known) else d1
    case FlushNow => FlushQueue(d, known)
    case Other(req) => d.(worker := Dispatch(d.worker, req, STORAGE_CAPACITY).worker)
  }

  function Play(d: Deferred, actions: seq<Action>, batchSize: nat, known: bool): (r: Deferred) {
    if |actions| == 0 then d
    else Act(Play(d, actions[..|actions| - 1], batchSize, known), actions[|actions| - 1], batchSize, known)
  }

  /** Nothing is lost or reordered unless a flush failed, and then something was lost for good. */
  ghost predicate Conserved(d: Deferred, batchSize: nat) {
    && |d.queue| < batchSize
    && (if d.failed then |d.sent| + |d.queue| < |d.asked| else d.sent + d.queue == d.asked)
  }

  lemma FlushConserves(d: Deferred, known: bool)
    requires if d.failed then |d.sent| + |d.queue| < |d.asked| else d.sent + d.queue == d.asked
    ensures var r := FlushQueue(d, known);
            && r.queue == []
            && if r.failed then |r.sent| + |r.queue| < |r.asked| else r.sent + r.queue == r.asked
  {
    FlushIsSingly(d.worker, d.queue, known);
    SinglyCounts(d.worker, d.queue);
    assert d.queue[..|d.queue|] == d.queue;
  }

  lemma ActConserves(d: Deferred, a: Action, batchSize: nat, known: bool)
    requires batchSize >= 1 && Conserved(d, batchSize)
    ensures Conserved(Act(d, a, batchSize, known), batchSize)
  {
    match a
    case Release(id) =>
      var d1 := d.(queue := d.queue + [id], asked := d.asked + [id]);
      assert d.sent + (d.queue + [id]) == (d.sent + d.queue) + [id];
      if |d1.queue| >= batchSize {
        FlushConserves(d1, known);
      }
    case FlushNow => FlushConserves(d, known);
    case Other(_) =>
  }

  /** A release below the batch size only joins the queue; the one that fills it sends all of it. */
  lemma ReleaseWaits(d: Deferred, id: nat, batchSize: nat, known: bool)
    ensures var d', ids := Act(d, Release(id), batchSize, known), d.queue + [id];
            && d'.asked == d.asked + [id]
            && if |ids| < batchSize then d' == d.(queue := ids, asked := d'.asked)
               else d'.queue == [] && d'.worker == Singly(d.worker, ids).worker
  {
    FlushIsSingly(d.worker, d.queue + [id], known);
  }

  /** In every run, whatever else the worker is asked meanwhile: the queue stays below the
      batch size, and the ids sent followed by the ids queued are all the ids asked for, in
      order, exactly when no flush has failed. */
  lemma {:induction false} SentThenQueuedIsAsked(w: Worker, actions: seq<Action>, batchSize: nat, known: bool)
    requires batchSize >= 1
    ensures var d := Play(Deferred(w, [], [], [], false), actions, batchSize, known);
            && Conserved(d, batchSize)
            && (d.sent + d.queue == d.asked <==> !d.failed)
  {
    if |actions| > 0 {
      SentThenQueuedIsAsked(w, actions[..|actions| - 1], batchSize, known);
      var d := Play(Deferred(w, [], [], [], false), actions[..|actions| - 1], batchSize, known);
      ActConserves(d, actions[|actions| - 1], batchSize, known);
    }
  }

  /** The batch opcode is invisible: the same actions lead to the same state with or without it. */
  lemma {:induction false} SupportIsInvisible(d: Deferred, actions: seq<Action>, batchSize: nat)
    ensures Play(d, actions, batchSize, true) == Play(d, actions, batchSize, false)
  {
    if |actions| > 0 {
      SupportIsInvisible(d, actions[..|actions| - 1], batchSize);
      var mid := Play(d, actions[..|actions| - 1], batchSize, true);
      FlushSame(mid);
      var a := actions[|actions| - 1];
      if a.Release? {
        FlushSame(mid.(queue := mid.queue + [a.id], asked := mid.asked + [a.id]));
      }
    }
  }

  lemma FlushedSame(w: Worker, ids: seq<nat>)
    ensures Flushed(w, ids, true) == Flushed(w, ids, false)
  {
    FlushIsSingly(w, ids, true);
    FlushIsSingly(w, ids, false);
  }

  lemma FlushSame(d: Deferred)
    ensures FlushQueue(d, true) == FlushQueue(d, false)
  {
    FlushedSame(d.worker, d.queue);
  }
}
