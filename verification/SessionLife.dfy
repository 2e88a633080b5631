/** Sessions from creation to destruction: a destroyed one never comes back, and what the tables
    say of a session, its outputs and a pool is what was asked for when they were made. */
module SessionLife {
  import opened Bits
  import opened Collections
  import opened Protocol
  import opened Worker
  import opened WorkerInvariant
  import opened WorkerHistory
  import opened RequestLaws

  // ---------- the end ----------

  /** The id has been used, and nothing is left of the session. */
  ghost predicate Gone(w: Worker, sid: nat) {
    && 0 < sid < w.nextHostId
    && (forall k :: 0 <= k < |w.sessions| ==> w.sessions[k].id != sid)
    && (forall k :: 0 <= k < |w.pools| ==> w.pools[k].sessionId != sid)
    && (forall k :: 0 <= k < |w.outputs| ==> w.outputs[k].info.sessionId != sid)
  }

  /** Destroying takes out exactly the session's record, and with it everything that was its own. */
  lemma DestroyEnds(w: Worker, si: nat, cap: nat)
    requires Valid(w) && si < |w.sessions|
    ensures var id := w.sessions[si].id;
            var step := Dispatch(w, DestroySession(id), cap);
            && step.outcome == Ok(Empty) && Gone(step.worker, id)
            && step.worker.sessions == w.sessions[..si] + w.sessions[si + 1..]
            && forall j :: 0 <= j < |step.worker.buffers| ==>
                 HasPool(step.worker.pools, step.worker.buffers[j].poolId)
  {
    var id := w.sessions[si].id;
    UniqueSession(w, si);
    SessionIds(w, si);
    var w' := DestroyResult(w, id, cap);
    KeptNot(w, id);
    OnlyOneGoes(w.sessions, si);
    DestroyedHoused(w, id);
  }

  lemma DestroyResult(w: Worker, id: nat, cap: nat) returns (w': Worker)
    requires FindSession(w, id).Some?
    ensures Dispatch(w, DestroySession(id), cap) == Step(w', Ok(Empty)) && w' == DoDestroySession(w, id).worker
    ensures w'.nextHostId == w.nextHostId && w'.sessions == Keep(w.sessions, SessionIsNot(id))
    ensures w'.pools == Keep(w.pools, PoolNotOf(id)) && w'.outputs == Keep(w.outputs, OutputNotOf(id))
  {
    w' := DoDestroySession(w, id).worker;
  }

  lemma DestroyedHoused(w: Worker, id: nat)
    requires Valid(w) && FindSession(w, id).Some?
    ensures var w' := DoDestroySession(w, id).worker;
            forall j :: 0 <= j < |w'.buffers| ==> HasPool(w'.pools, w'.buffers[j].poolId)
  {
    DestroySessionKeeps(w, id);
    StillHoused(DoDestroySession(w, id).worker);
  }

  lemma SessionIds(w: Worker, si: nat)
    requires Valid(w) && si < |w.sessions|
    ensures 0 < w.sessions[si].id < w.nextHostId
    ensures forall j :: 0 <= j < |w.sessions| && j != si ==> w.sessions[j].id != w.sessions[si].id
  {
  }

  lemma StillHoused(w: Worker)
    requires Valid(w)
    ensures forall j :: 0 <= j < |w.buffers| ==> HasPool(w.pools, w.buffers[j].poolId)
  {
  }

  lemma KeptNot(w: Worker, sid: nat)
    ensures forall k :: 0 <= k < |Keep(w.sessions, SessionIsNot(sid))| ==>
              Keep(w.sessions, SessionIsNot(sid))[k].id != sid
    ensures forall k :: 0 <= k < |Keep(w.pools, PoolNotOf(sid))| ==> Keep(w.pools, PoolNotOf(sid))[k].sessionId != sid
    ensures forall k :: 0 <= k < |Keep(w.outputs, OutputNotOf(sid))| ==>
              Keep(w.outputs, OutputNotOf(sid))[k].info.sessionId != sid
  {
    forall k | 0 <= k < |Keep(w.sessions, SessionIsNot(sid))|
      ensures Keep(w.sessions, SessionIsNot(sid))[k].id != sid
    {
      var i := KeptSource(w.sessions, SessionIsNot(sid), k);
    }
    forall k | 0 <= k < |Keep(w.pools, PoolNotOf(sid))| ensures Keep(w.pools, PoolNotOf(sid))[k].sessionId != sid {
      var i := KeptSource(w.pools, PoolNotOf(sid), k);
    }
    forall k | 0 <= k < |Keep(w.outputs, OutputNotOf(sid))|
      ensures Keep(w.outputs, OutputNotOf(sid))[k].info.sessionId != sid
    {
      var i := KeptSource(w.outputs, OutputNotOf(sid), k);
    }
  }

  lemma {:induction false} AllKept(ss: seq<Session>, id: nat)
    requires forall k :: 0 <= k < |ss| ==> ss[k].id != id
    ensures Keep(ss, SessionIsNot(id)) == ss
  {
    if |ss| > 0 {
      AllKept(ss[..|ss| - 1], id);
    }
  }

  lemma OnlyOneGoes(ss: seq<Session>, i: nat)
    requires i < |ss| && forall j :: 0 <= j < |ss| && j != i ==> ss[j].id != ss[i].id
    ensures Keep(ss, SessionIsNot(ss[i].id)) == ss[..i] + ss[i + 1..]
  {
    var id := ss[i].id;
    var rest := ss[i + 1..];
    forall k | 0 <= k < |rest| ensures rest[k].id != id {
      assert rest[k] == ss[i + 1 + k];
    }
    AllKept(ss[..i], id);
    AllKept(rest, id);
    KeepAround(ss, i, SessionIsNot(id));
    assert ss[..i] + [] == ss[..i];
  }

  // ---------- and nothing after it ----------

  lemma GoneStays(w: Worker, req: Request, cap: nat, sid: nat)
    requires Gone(w, sid)
    ensures Gone(Dispatch(w, req, cap).worker, sid)
  {
    if ReadOnly(req) {
      ReadOnlyKeeps(w, req, cap);
    } else if req.EncodeFrame? {
      GoneAfterEncode(w, req, cap, sid);
    } else if req.DequeueOutputBatch? {
      BatchWorker(w, req, cap);
      GoneAfterMany(w, req.sessionId, BatchLimit(req.maxOutputs), sid);
    } else if req.DestroySession? {
      GoneAfterDestroy(w, req, cap, sid);
    } else if req.AllocBuffer? {
      GoneAfterLease(w, req, cap, sid);
    } else if req.CreatePool? {
      GoneAfterPool(w, req, cap, sid);
    } else {
      GoneAfterOther(w, req, cap, sid);
    }
  }

  lemma GoneAfterEncode(w: Worker, req: Request, cap: nat, sid: nat)
    requires Gone(w, sid) && req.EncodeFrame?
    ensures Gone(Dispatch(w, req, cap).worker, sid)
  {
    if Dispatch(w, req, cap).outcome.Ok? {
      var si, bi, prefix := AcceptedFrom(w, req, cap);
    } else {
      RefusedFrame(w, req, cap);
    }
  }

  lemma {:induction false} GoneAfterMany(w: Worker, s: nat, n: nat, sid: nat)
    requires Gone(w, sid)
    ensures Gone(TakeMany(w, s, n).0, sid)
    decreases n
  {
    if n > 0 {
      TakeManyStep(w, s, n);
      GoneAfterMany(TakeReady(w, s).0, s, n - 1, sid);
    }
  }

  lemma GoneAfterDestroy(w: Worker, req: Request, cap: nat, sid: nat)
    requires Gone(w, sid) && req.DestroySession?
    ensures Gone(Dispatch(w, req, cap).worker, sid)
  {
    var w' := Dispatch(w, req, cap).worker;
    if FindSession(w, req.sessionId).Some? {
      forall k | 0 <= k < |w'.sessions| ensures w'.sessions[k].id != sid {
        var i := KeptSource(w.sessions, SessionIsNot(req.sessionId), k);
      }
      forall k | 0 <= k < |w'.pools| ensures w'.pools[k].sessionId != sid {
        var i := KeptSource(w.pools, PoolNotOf(req.sessionId), k);
      }
      forall k | 0 <= k < |w'.outputs| ensures w'.outputs[k].info.sessionId != sid {
        var i := KeptSource(w.outputs, OutputNotOf(req.sessionId), k);
      }
    }
  }

  lemma GoneAfterLease(w: Worker, req: Request, cap: nat, sid: nat)
    requires Gone(w, sid) && req.AllocBuffer?
    ensures Gone(Dispatch(w, req, cap).worker, sid)
  {
  }

  lemma GoneAfterPool(w: Worker, req: Request, cap: nat, sid: nat)
    requires Gone(w, sid) && req.CreatePool?
    ensures Gone(Dispatch(w, req, cap).worker, sid)
  {
  }

  lemma GoneAfterOther(w: Worker, req: Request, cap: nat, sid: nat)
    requires Gone(w, sid) && !ReadOnly(req) && !req.EncodeFrame? && !req.DequeueOutputBatch? && !req.DestroySession?
    requires !req.AllocBuffer? && !req.CreatePool?
    ensures Gone(Dispatch(w, req, cap).worker, sid)
  {
  }

  lemma {:induction false} GoneForever(w: Worker, reqs: seq<Request>, cap: nat, sid: nat)
    requires Gone(w, sid)
    ensures Gone(Run(w, reqs, cap), sid)
  {
    if |reqs| > 0 {
      var before := reqs[..|reqs| - 1];
      GoneForever(w, before, cap, sid);
      GoneStays(Run(w, before, cap), reqs[|reqs| - 1], cap, sid);
    }
  }

  predicate Names(req: Request, sid: nat) {
    match req
    case CreatePool(s, _, _, _, _) => s == sid
    case SetProperty(s) => s == sid
    case PrepareSession(s) => s == sid
    case EncodeFrame(s, _, _, _, _, _) => s == sid
    case DequeueOutput(s) => s == sid
    case DequeueOutputBatch(s, _) => s == sid
    case DestroySession(s) => s == sid
    case Drain(s) => s == sid
    case _ => false
  }

  /** A dequeue finds nothing; anything else has an invalid handle, unless the pool table is full. */
  function RefusalDue(w: Worker, req: Request): (status: u32) {
    if req.DequeueOutput? || req.DequeueOutputBatch? then STATUS_TIMEOUT
    else if req.CreatePool? && |w.pools| >= 64 then STATUS_INTERNAL_FAILURE
    else STATUS_INVALID_HANDLE
  }

  lemma GoneIsRefused(w: Worker, req: Request, cap: nat, sid: nat)
    requires Gone(w, sid) && Names(req, sid)
    ensures Dispatch(w, req, cap) == Fail(w, RefusalDue(w, req))
  {
    if req.DequeueOutput? || req.DequeueOutputBatch? {
      NothingReady(w, sid);
    }
  }

  lemma NothingReady(w: Worker, sid: nat)
    requires Gone(w, sid)
    ensures TakeReady(w, sid) == (w, None)
    ensures forall n: nat :: n > 0 ==> TakeMany(w, sid, n) == (w, [])
  {
    assert forall k :: 0 <= k < |w.outputs| ==> !Ready(sid)(w.outputs[k]);
    assert IndexWhere(w.outputs, Ready(sid)) == None;
  }

  /** Once destroyed, a session is refused for good: whatever is asked afterwards, new sessions
      included, its id never means anything again. */
  lemma DestroyedForever(w: Worker, si: nat, reqs: seq<Request>, req: Request, cap: nat)
    requires Valid(w) && si < |w.sessions| && Names(req, w.sessions[si].id)
    ensures var id := w.sessions[si].id;
            var later := Run(Dispatch(w, DestroySession(id), cap).worker, reqs, cap);
            Dispatch(later, req, cap) == Fail(later, RefusalDue(later, req))
  {
    var id := w.sessions[si].id;
    var w' := Dispatch(w, DestroySession(id), cap).worker;
    DestroyEnds(w, si, cap);
    GoneForever(w', reqs, cap, id);
    GoneIsRefused(Run(w', reqs, cap), req, cap, id);
  }

  // ---------- what was asked for ----------

  datatype Shape = Shape(codec: u32, width: u32, height: u32, format: u32)

  /** The shape each session was created with, by the id its reply gave. */
  ghost function Asked(w: Worker, reqs: seq<Request>, cap: nat): (log: map<nat, Shape>) {
    if |reqs| == 0 then map[]
    else
      var before, req := reqs[..|reqs| - 1], reqs[|reqs| - 1];
      match Dispatch(Run(w, before, cap), req, cap).outcome
      case Ok(SessionCreated(id, _, _, _)) =>
        if req.CreateSession? then Asked(w, before, cap)[id := Shape(req.codec, req.width, req.height, req.format)]
        else Asked(w, before, cap)
      case _ => Asked(w, before, cap)
  }

  ghost predicate Described(w: Worker, log: map<nat, Shape>) {
    && (forall id :: id in log ==> id < w.nextHostId)
    && (forall k :: 0 <= k < |w.sessions| ==> SessionAs(w.sessions[k], log))
    && (forall k :: 0 <= k < |w.outputs| ==> OutputAs(w.outputs[k], log))
  }

  ghost predicate SessionAs(s: Session, log: map<nat, Shape>) {
    s.id in log && log[s.id] == Shape(s.codec, s.width, s.height, s.format)
  }

  ghost predicate OutputAs(o: Output, log: map<nat, Shape>) {
    && o.info.sessionId in log
    && log[o.info.sessionId] == Shape(o.info.codec, o.info.width, o.info.height, o.info.format)
  }

  lemma DescribedStays(w: Worker, req: Request, cap: nat, log: map<nat, Shape>)
    requires Described(w, log) && !req.CreateSession?
    ensures Described(Dispatch(w, req, cap).worker, log)
  {
    if ReadOnly(req) {
      ReadOnlyKeeps(w, req, cap);
    } else if req.EncodeFrame? {
      DescribedEncode(w, req, cap, log);
    } else if req.DequeueOutputBatch? {
      BatchWorker(w, req, cap);
      DescribedMany(w, req.sessionId, BatchLimit(req.maxOutputs), log);
    } else if req.DestroySession? {
      DescribedDestroy(w, req, cap, log);
    } else {
      DescribedOther(w, req, cap, log);
    }
  }

  lemma DescribedEncode(w: Worker, req: Request, cap: nat, log: map<nat, Shape>)
    requires Described(w, log) && req.EncodeFrame?
    ensures Described(Dispatch(w, req, cap).worker, log)
  {
    if Dispatch(w, req, cap).outcome.Ok? {
      var si, bi, prefix := AcceptedFrom(w, req, cap);
      assert SessionAs(w.sessions[si], log);
    } else {
      RefusedFrame(w, req, cap);
    }
  }

  lemma {:induction false} DescribedMany(w: Worker, s: nat, n: nat, log: map<nat, Shape>)
    requires Described(w, log)
    ensures Described(TakeMany(w, s, n).0, log)
    decreases n
  {
    if n > 0 {
      TakeManyStep(w, s, n);
      DescribedMany(TakeReady(w, s).0, s, n - 1, log);
    }
  }

  lemma DescribedDestroy(w: Worker, req: Request, cap: nat, log: map<nat, Shape>)
    requires Described(w, log) && req.DestroySession?
    ensures Described(Dispatch(w, req, cap).worker, log)
  {
    var w' := Dispatch(w, req, cap).worker;
    if FindSession(w, req.sessionId).Some? {
      forall k | 0 <= k < |w'.sessions| ensures SessionAs(w'.sessions[k], log) {
        var i := KeptSource(w.sessions, SessionIsNot(req.sessionId), k);
      }
      forall k | 0 <= k < |w'.outputs| ensures OutputAs(w'.outputs[k], log) {
        var i := KeptSource(w.outputs, OutputNotOf(req.sessionId), k);
      }
    }
  }

  lemma DescribedOther(w: Worker, req: Request, cap: nat, log: map<nat, Shape>)
    requires Described(w, log) && !ReadOnly(req) && !req.CreateSession? && !req.EncodeFrame?
    requires !req.DequeueOutputBatch? && !req.DestroySession?
    ensures Described(Dispatch(w, req, cap).worker, log)
  {
  }

  lemma DescribedCreate(w: Worker, req: Request, cap: nat, log: map<nat, Shape>)
    requires Described(w, log) && req.CreateSession? && MAX_FIXED_REPLY <= cap
    ensures var step := Dispatch(w, req, cap);
            match step.outcome
            case Ok(SessionCreated(id, _, _, _)) =>
              Described(step.worker, log[id := Shape(req.codec, req.width, req.height, req.format)])
            case _ => Described(step.worker, log)
  {
    if |w.sessions| < 32 {
      NewSessionDescribed(w, req, cap, log);
    }
  }

  lemma NewSessionDescribed(w: Worker, req: Request, cap: nat, log: map<nat, Shape>)
    requires Described(w, log) && req.CreateSession? && MAX_FIXED_REPLY <= cap && |w.sessions| < 32
    ensures var log' := log[w.nextHostId := Shape(req.codec, req.width, req.height, req.format)];
            Described(Dispatch(w, req, cap).worker, log')
  {
    var log' := log[w.nextHostId := Shape(req.codec, req.width, req.height, req.format)];
    var w' := Dispatch(w, req, cap).worker;
    forall k | 0 <= k < |w'.sessions| ensures SessionAs(w'.sessions[k], log') {
      if k < |w.sessions| {
        assert SessionAs(w.sessions[k], log);
      }
    }
    forall k | 0 <= k < |w'.outputs| ensures OutputAs(w'.outputs[k], log') {
      assert OutputAs(w.outputs[k], log);
    }
  }

  /** In every run each output has the codec, size and format that its session was asked for. */
  lemma {:induction false} OutputsAreAsAsked(maxOutputs: nat, maxBytes: nat, reqs: seq<Request>, cap: nat)
    requires MAX_FIXED_REPLY <= cap
    ensures var w := Fresh(maxOutputs, maxBytes);
            Described(Run(w, reqs, cap), Asked(w, reqs, cap))
  {
    if |reqs| > 0 {
      var w, before, req := Fresh(maxOutputs, maxBytes), reqs[..|reqs| - 1], reqs[|reqs| - 1];
      OutputsAreAsAsked(maxOutputs, maxBytes, before, cap);
      if req.CreateSession? {
        DescribedCreate(Run(w, before, cap), req, cap, Asked(w, before, cap));
      } else {
        DescribedStays(Run(w, before, cap), req, cap, Asked(w, before, cap));
      }
    }
  }
}
