/** The output queue over whole runs: what was accepted, what was handed out, in which order. */
module WorkerHistory {
  import opened Bits
  import opened Collections
  import opened Protocol
  import opened Worker
  import opened WorkerInvariant

  function InfoOf(sid: nat): (p: OutputInfo -> bool) { (x: OutputInfo) => x.sessionId == sid }

  function Infos(os: seq<Output>): (r: seq<OutputInfo>)
    ensures |r| == |os| && forall i :: 0 <= i < |os| ==> r[i] == os[i].info
  {
    seq(|os|, i requires 0 <= i < |os| => os[i].info)
  }

  /** A session's accepted outputs not yet handed out, oldest first. */
  function Waiting(w: Worker, sid: nat): (r: seq<OutputInfo>) {
    Infos(Keep(w.outputs, Ready(sid)))
  }

  /** The output a request accepted, if any. */
  function EncodedBy(w: Worker, req: Request, cap: nat): (r: seq<OutputInfo>) {
    var w' := Dispatch(w, req, cap).worker;
    if req.EncodeFrame? && |w'.outputs| > |w.outputs| then [w'.outputs[|w.outputs|].info] else []
  }

  /** The outputs a reply handed to the guest. */
  function HandedBy(w: Worker, req: Request, cap: nat): (r: seq<OutputInfo>) {
    match Dispatch(w, req, cap).outcome
    case Ok(OutputReady(info)) => [info]
    case Ok(OutputsReady(_, infos)) => infos
    case _ => []
  }

  /** Requests that throw away one of the session's waiting outputs. */
  predicate Discards(w: Worker, req: Request, sid: nat) {
    || (req.DestroySession? && req.sessionId == sid)
    || (req.ReleaseOutput? && FindOutput(w, req.outputId).Some?
        && Ready(sid)(w.outputs[FindOutput(w, req.outputId).value]))
  }

  predicate TouchesQueue(req: Request) {
    req.EncodeFrame? || req.DequeueOutput? || req.DequeueOutputBatch? || req.ReleaseOutput? || req.DestroySession?
  }

  // ---------- one step ----------

  lemma QueueUntouched(w: Worker, req: Request, cap: nat)
    requires !TouchesQueue(req)
    ensures Dispatch(w, req, cap).worker.outputs == w.outputs
    ensures EncodedBy(w, req, cap) == [] && HandedBy(w, req, cap) == []
  {
    HandsNothing(w, req, cap);
    if ReadOnly(req) {
      ReadOnlyKeeps(w, req, cap);
    } else {
      BuffersOnly(w, req, cap);
    }
  }

  lemma HandsNothing(w: Worker, req: Request, cap: nat)
    requires !TouchesQueue(req)
    ensures HandedBy(w, req, cap) == []
  {
  }

  lemma BuffersOnly(w: Worker, req: Request, cap: nat)
    requires !TouchesQueue(req) && !ReadOnly(req)
    ensures Dispatch(w, req, cap).worker.outputs == w.outputs
  {
  }

  lemma InfosConcat(a: seq<Output>, b: seq<Output>)
    ensures Infos(a + b) == Infos(a) + Infos(b)
  {
  }

  /** A dequeue takes the session's oldest waiting output, or finds none. */
  lemma TakeReadyIsHead(w: Worker, sid: nat)
    ensures var (w', info) := TakeReady(w, sid);
            && (info.None? <==> Waiting(w, sid) == [])
            && (info.Some? ==> Waiting(w, sid) == [info.value] + Waiting(w', sid) && info.value.sessionId == sid)
            && (info.None? ==> w' == w)
  {
    var i := IndexWhere(w.outputs, Ready(sid));
    if i.None? {
      KeepNone(w.outputs, Ready(sid));
    } else {
      HeadTaken(w.outputs, i.value, sid);
    }
  }

  lemma HeadTaken(os: seq<Output>, i: nat, sid: nat)
    requires i < |os| && Ready(sid)(os[i]) && forall k :: 0 <= k < i ==> !Ready(sid)(os[k])
    ensures Infos(Keep(os, Ready(sid))) == [os[i].info] + Infos(Keep(os[i := os[i].(dequeued := true)], Ready(sid)))
  {
    KeepNone(os[..i], Ready(sid));
    KeepAround(os, i, Ready(sid));
    KeepUpdate(os, i, os[i].(dequeued := true), Ready(sid));
    InfosConcat([os[i]], Keep(os[i + 1..], Ready(sid)));
  }

  /** A dequeue on one session leaves the other sessions' queues alone. */
  lemma TakeReadyIsLocal(w: Worker, sid: nat, other: nat)
    requires other != sid
    ensures Waiting(TakeReady(w, sid).0, other) == Waiting(w, other)
  {
    var i := IndexWhere(w.outputs, Ready(sid));
    if i.Some? {
      var o := w.outputs[i.value];
      assert Ready(sid)(o);
      KeepAround(w.outputs, i.value, Ready(other));
      KeepUpdate(w.outputs, i.value, o.(dequeued := true), Ready(other));
    }
  }

  /** A batch takes the oldest waiting outputs, as many as asked for or as there are. */
  lemma {:induction false} TakeManyIsPrefix(w: Worker, sid: nat, n: nat)
    ensures var (w', infos) := TakeMany(w, sid, n);
            && Waiting(w, sid) == infos + Waiting(w', sid)
            && (|infos| < n ==> Waiting(w', sid) == [])
            && (forall k :: 0 <= k < |infos| ==> infos[k].sessionId == sid)
    decreases n
  {
    if n > 0 {
      TakeReadyIsHead(w, sid);
      var (w1, info) := TakeReady(w, sid);
      if info.Some? {
        TakeManyIsPrefix(w1, sid, n - 1);
        var (w', rest) := TakeMany(w1, sid, n - 1);
        assert [info.value] + (rest + Waiting(w', sid)) == ([info.value] + rest) + Waiting(w', sid);
      }
    }
  }

  lemma {:induction false} TakeManyOnlyMarks(w: Worker, sid: nat, n: nat)
    ensures var w' := TakeMany(w, sid, n).0;
            w'.(outputs := w.outputs) == w && |w'.outputs| == |w.outputs|
    decreases n
  {
    if n > 0 && TakeReady(w, sid).1.Some? {
      TakeManyOnlyMarks(TakeReady(w, sid).0, sid, n - 1);
    }
  }

  /** What a dequeue hands out: the oldest waiting output, or as many as asked for, at least one and
      at most 24; with none waiting it times out. Nothing but the outputs' marks changes. */
  lemma DequeueLaw(w: Worker, sid: nat, n: u32, cap: nat)
    requires MAX_FIXED_REPLY <= cap
    ensures var waiting := Waiting(w, sid);
            var single, batch := Dispatch(w, DequeueOutput(sid), cap), Dispatch(w, DequeueOutputBatch(sid, n), cap);
            var limit := if n == 0 then 1 else if n < 24 then n else 24;
            var k := if |waiting| < limit then |waiting| else limit;
            if waiting == [] then single == batch == Fail(w, STATUS_TIMEOUT)
            else
              && single.outcome == Ok(OutputReady(waiting[0])) && Waiting(single.worker, sid) == waiting[1..]
              && batch.outcome == Ok(OutputsReady(sid, waiting[..k])) && Waiting(batch.worker, sid) == waiting[k..]
              && batch.worker.(outputs := w.outputs) == w && |batch.worker.outputs| == |w.outputs|
  {
    SingleLaw(w, sid, cap);
    BatchLaw(w, sid, n, if n == 0 then 1 else if n < 24 then n else 24, cap);
  }

  lemma SingleLaw(w: Worker, sid: nat, cap: nat)
    requires MAX_FIXED_REPLY <= cap
    ensures var waiting, single := Waiting(w, sid), Dispatch(w, DequeueOutput(sid), cap);
            if waiting == [] then single == Fail(w, STATUS_TIMEOUT)
            else single.outcome == Ok(OutputReady(waiting[0])) && Waiting(single.worker, sid) == waiting[1..]
  {
    TakeReadyIsHead(w, sid);
  }

  lemma BatchLaw(w: Worker, sid: nat, n: u32, limit: nat, cap: nat)
    requires MAX_FIXED_REPLY <= cap && limit == BatchLimit(n)
    ensures var waiting, batch := Waiting(w, sid), Dispatch(w, DequeueOutputBatch(sid, n), cap);
            var k := if |waiting| < limit then |waiting| else limit;
            if waiting == [] then batch == Fail(w, STATUS_TIMEOUT)
            else
              && batch.outcome == Ok(OutputsReady(sid, waiting[..k])) && Waiting(batch.worker, sid) == waiting[k..]
              && batch.worker.(outputs := w.outputs) == w && |batch.worker.outputs| == |w.outputs|
  {
    var (w', infos) := TakeMany(w, sid, limit);
    BatchStep(w, sid, n, limit, cap);
    TakeReadyIsHead(w, sid);
    TakeManyIsPrefix(w, sid, limit);
    TakeManyOnlyMarks(w, sid, limit);
    PrefixThenRest(Waiting(w, sid), infos, Waiting(w', sid), limit);
  }

  lemma BatchStep(w: Worker, sid: nat, n: u32, limit: nat, cap: nat)
    requires MAX_FIXED_REPLY <= cap && limit == BatchLimit(n)
    ensures var batch, taken := Dispatch(w, DequeueOutputBatch(sid, n), cap), TakeMany(w, sid, limit);
            && batch.worker == taken.0
            && batch.outcome == (if taken.1 == [] then Err(STATUS_TIMEOUT) else Ok(OutputsReady(sid, taken.1)))
            && (TakeReady(w, sid).1.None? ==> taken == (w, []))
  {
  }

  lemma PrefixThenRest(all: seq<OutputInfo>, front: seq<OutputInfo>, rest: seq<OutputInfo>, limit: nat)
    requires all == front + rest && |front| <= limit && (|front| < limit ==> rest == [])
    ensures var k := if |all| < limit then |all| else limit;
            front == all[..k] && rest == all[k..]
  {
  }

  lemma LimitsStay(w: Worker, req: Request, cap: nat)
    ensures var w' := Dispatch(w, req, cap).worker;
            w'.maxOutputCount == w.maxOutputCount && w'.maxOutputBytes == w.maxOutputBytes
  {
    if req.DequeueOutputBatch? {
      TakeManyOnlyMarks(w, req.sessionId, BatchLimit(req.maxOutputs));
    }
  }

  lemma {:induction false} RunLimits(w: Worker, reqs: seq<Request>, cap: nat)
    ensures var w' := Run(w, reqs, cap);
            w'.maxOutputCount == w.maxOutputCount && w'.maxOutputBytes == w.maxOutputBytes
  {
    if |reqs| > 0 {
      RunLimits(w, reqs[..|reqs| - 1], cap);
      LimitsStay(Run(w, reqs[..|reqs| - 1], cap), reqs[|reqs| - 1], cap);
    }
  }

  lemma {:induction false} BytesOf(os: seq<Output>)
    requires forall i :: 0 <= i < |os| ==> os[i].info.sampleSize == 28
    ensures SumBy(os, SampleBytes()) == 28 * |os|
  {
    if |os| > 0 {
      BytesOf(os[..|os| - 1]);
    }
  }

  lemma ValidBytes(w: Worker)
    requires Valid(w)
    ensures w.outputBytesTotal == 28 * |w.outputs| && |w.outputs| <= w.maxOutputCount
    ensures |w.outputs| > 0 ==> w.outputBytesTotal <= w.maxOutputBytes
  {
    BytesOf(w.outputs);
  }

  /** In every run the outputs held, dequeued or not, stay within the configured number, the fixed
      one of 128, and the configured bytes at 28 apiece. */
  lemma QuotaHolds(maxOutputs: nat, maxBytes: nat, reqs: seq<Request>, cap: nat)
    ensures var w := Run(Fresh(maxOutputs, maxBytes), reqs, cap);
            |w.outputs| <= maxOutputs && |w.outputs| <= 128 && 28 * |w.outputs| <= maxBytes
    ensures var w := Run(Fresh(maxOutputs, maxBytes), reqs, cap);
            w.maxOutputCount == (if maxOutputs < 128 then maxOutputs else 128) && w.maxOutputBytes == maxBytes
  {
    RunLimits(Fresh(maxOutputs, maxBytes), reqs, cap);
    RunValid(maxOutputs, maxBytes, reqs, cap);
    ValidBytes(Run(Fresh(maxOutputs, maxBytes), reqs, cap));
  }

  lemma {:induction false} TakeManyIsLocal(w: Worker, sid: nat, n: nat, other: nat)
    requires other != sid
    ensures Waiting(TakeMany(w, sid, n).0, other) == Waiting(w, other)
    decreases n
  {
    if n > 0 && TakeReady(w, sid).1.Some? {
      TakeReadyIsLocal(w, sid, other);
      TakeManyIsLocal(TakeReady(w, sid).0, sid, n - 1, other);
    }
  }

  /** A batched dequeue is that many single dequeues: same replies, same state, and it
      stops short of the limit only when the next single dequeue would time out. */
  lemma {:induction false} BatchIsSingles(w: Worker, sid: nat, n: nat, cap: nat)
    requires MAX_FIXED_REPLY <= cap
    ensures IsSingles(w, sid, cap, TakeMany(w, sid, n).1, TakeMany(w, sid, n).0)
    ensures |TakeMany(w, sid, n).1| < n ==> TakeReady(TakeMany(w, sid, n).0, sid).1.None?
    decreases n
  {
    if n > 0 && TakeReady(w, sid).1.Some? {
      BatchIsSingles(TakeReady(w, sid).0, sid, n - 1, cap);
    }
  }

  /** `infos` are the replies to that many single dequeues, which lead from `w` to `w'`. */
  ghost predicate IsSingles(w: Worker, sid: nat, cap: nat, infos: seq<OutputInfo>, w': Worker)
    decreases |infos|
  {
    if infos == [] then w' == w
    else
      && DoDequeueOutput(w, cap, sid).outcome == Ok(OutputReady(infos[0]))
      && IsSingles(DoDequeueOutput(w, cap, sid).worker, sid, cap, infos[1..], w')
  }

  lemma EncodeAppends(w: Worker, req: Request, cap: nat, sid: nat)
    requires req.EncodeFrame?
    ensures HandedBy(w, req, cap) == []
    ensures Waiting(Dispatch(w, req, cap).worker, sid) == Waiting(w, sid) + Keep(EncodedBy(w, req, cap), InfoOf(sid))
  {
    FrameHandsNothing(w, req, cap);
    if Dispatch(w, req, cap).outcome.Ok? {
      var o := AcceptedOutput(w, req, cap);
      QueueGrows(w.outputs, o, sid);
      SingleKeep(o.info, InfoOf(sid));
    } else {
      RefusedFrame(w, req, cap);
      assert EncodedBy(w, req, cap) == [] && Keep([], InfoOf(sid)) == [];
      assert Waiting(w, sid) + [] == Waiting(w, sid);
    }
  }

  lemma FrameHandsNothing(w: Worker, req: Request, cap: nat)
    requires req.EncodeFrame?
    ensures HandedBy(w, req, cap) == []
  {
  }

  /** The one output an accepted frame adds, at the end of the queue. */
  lemma AcceptedOutput(w: Worker, req: Request, cap: nat) returns (o: Output)
    requires req.EncodeFrame? && Dispatch(w, req, cap).outcome.Ok?
    ensures Dispatch(w, req, cap).worker.outputs == w.outputs + [o] && !o.dequeued
    ensures EncodedBy(w, req, cap) == [o.info] && o.info.sessionId == req.sessionId && o.info.pts == req.pts
    ensures o.info.outputId == w.nextOutputId
  {
    var si, bi, prefix := AcceptedFrom(w, req, cap);
    o := NewOutput(w, w.sessions[si], w.buffers[bi], prefix, req.pts, req.duration);
  }

  lemma QueueGrows(os: seq<Output>, o: Output, sid: nat)
    requires !o.dequeued
    ensures Infos(Keep(os + [o], Ready(sid))) == Infos(Keep(os, Ready(sid)))
        + (if o.info.sessionId == sid then [o.info] else [])
  {
    KeepAppend(os, o, Ready(sid));
    var kept := Keep(os, Ready(sid));
    if Ready(sid)(o) {
      InfosConcat(kept, [o]);
      assert Infos([o]) == [o.info];
    } else {
      assert kept + [] == kept;
    }
  }

  lemma RefusedFrame(w: Worker, req: Request, cap: nat)
    requires req.EncodeFrame? && Dispatch(w, req, cap).outcome.Err?
    ensures Dispatch(w, req, cap).worker == w
  {
  }

  /** What an accepted frame went through: the session, the buffer, and the queued output. */
  lemma AcceptedFrom(w: Worker, req: Request, cap: nat) returns (si: nat, bi: nat, prefix: seq<byte>)
    requires req.EncodeFrame? && Dispatch(w, req, cap).outcome.Ok?
    ensures FindSession(w, req.sessionId) == Some(si) && FindBuffer(w, req.bufferId) == Some(bi)
    ensures si < |w.sessions| && bi < |w.buffers| && |prefix| <= 8
    ensures Dispatch(w, req, cap).worker
         == CountFrame(Enqueue(w, bi, NewOutput(w, w.sessions[si], w.buffers[bi], prefix, req.pts, req.duration)), si)
  {
    si, bi := FindSession(w, req.sessionId).value, FindBuffer(w, req.bufferId).value;
    prefix := PrefixOf(w, w.buffers[bi]).bytes;
  }

  lemma SingleKeep<T>(x: T, p: T -> bool)
    ensures Keep([x], p) == if p(x) then [x] else []
  {
    assert [x][..0] == [];
  }

  lemma KeepMine(infos: seq<OutputInfo>, sid: nat, other: nat)
    requires forall k :: 0 <= k < |infos| ==> infos[k].sessionId == sid
    ensures other != sid ==> Keep(infos, InfoOf(other)) == []
    ensures Keep(infos, InfoOf(sid)) == infos
  {
    if other != sid {
      KeepNone(infos, InfoOf(other));
    }
    KeepEvery(infos, InfoOf(sid));
  }

  lemma {:induction false} KeepEvery<T>(s: seq<T>, p: T -> bool)
    requires forall k :: 0 <= k < |s| ==> p(s[k])
    ensures Keep(s, p) == s
  {
    if |s| > 0 {
      var n := |s| - 1;
      KeepEvery(s[..n], p);
      assert Keep(s, p) == Keep(s[..n], p) + [s[n]];
      assert s[..n] + [s[n]] == s;
    }
  }

  lemma DequeueMoves(w: Worker, req: Request, cap: nat, sid: nat)
    requires MAX_FIXED_REPLY <= cap && (req.DequeueOutput? || req.DequeueOutputBatch?)
    ensures EncodedBy(w, req, cap) == []
    ensures Keep(HandedBy(w, req, cap), InfoOf(sid)) + Waiting(Dispatch(w, req, cap).worker, sid) == Waiting(w, sid)
  {
    if req.DequeueOutput? {
      SingleMoves(w, req.sessionId, cap, sid);
    } else {
      BatchMoves(w, req.sessionId, req.maxOutputs, cap, sid);
    }
  }

  lemma SingleMoves(w: Worker, s: nat, cap: nat, sid: nat)
    requires MAX_FIXED_REPLY <= cap
    ensures var req := DequeueOutput(s);
            Keep(HandedBy(w, req, cap), InfoOf(sid)) + Waiting(Dispatch(w, req, cap).worker, sid) == Waiting(w, sid)
  {
    SingleHands(w, s, cap);
    OneMoves(w, s, sid);
  }

  function Listed(info: Option<OutputInfo>): (r: seq<OutputInfo>) {
    if info.None? then [] else [info.value]
  }

  lemma SingleHands(w: Worker, s: nat, cap: nat)
    requires MAX_FIXED_REPLY <= cap
    ensures HandedBy(w, DequeueOutput(s), cap) == Listed(TakeReady(w, s).1)
    ensures Dispatch(w, DequeueOutput(s), cap).worker == TakeReady(w, s).0
  {
  }

  lemma OneMoves(w: Worker, s: nat, sid: nat)
    ensures Keep(Listed(TakeReady(w, s).1), InfoOf(sid)) + Waiting(TakeReady(w, s).0, sid) == Waiting(w, sid)
  {
    var (w', info) := TakeReady(w, s);
    TakeReadyIsHead(w, s);
    if info.None? {
      QuietStep([], [], Waiting(w, sid), sid);
    } else {
      SingleKeep(info.value, InfoOf(sid));
      if s != sid {
        TakeReadyIsLocal(w, s, sid);
        assert [] + Waiting(w, sid) == Waiting(w, sid);
      }
    }
  }

  lemma BatchMoves(w: Worker, s: nat, n: u32, cap: nat, sid: nat)
    requires MAX_FIXED_REPLY <= cap
    ensures var req := DequeueOutputBatch(s, n);
            Keep(HandedBy(w, req, cap), InfoOf(sid)) + Waiting(Dispatch(w, req, cap).worker, sid) == Waiting(w, sid)
  {
    BatchHands(w, s, n, cap);
    TakenMoves(w, s, BatchLimit(n), sid);
  }

  lemma BatchHands(w: Worker, s: nat, n: u32, cap: nat)
    requires MAX_FIXED_REPLY <= cap
    ensures HandedBy(w, DequeueOutputBatch(s, n), cap) == TakeMany(w, s, BatchLimit(n)).1
    ensures Dispatch(w, DequeueOutputBatch(s, n), cap).worker == TakeMany(w, s, BatchLimit(n)).0
  {
  }

  lemma TakenMoves(w: Worker, s: nat, limit: nat, sid: nat)
    ensures Keep(TakeMany(w, s, limit).1, InfoOf(sid)) + Waiting(TakeMany(w, s, limit).0, sid) == Waiting(w, sid)
  {
    TakeManyIsPrefix(w, s, limit);
    KeepMine(TakeMany(w, s, limit).1, s, sid);
    if s != sid {
      TakeManyIsLocal(w, s, limit, sid);
    }
  }

  lemma RemovalKeepsWaiting(w: Worker, req: Request, cap: nat, sid: nat)
    requires (req.ReleaseOutput? || req.DestroySession?) && !Discards(w, req, sid)
    ensures Waiting(Dispatch(w, req, cap).worker, sid) == Waiting(w, sid)
  {
    if req.ReleaseOutput? {
      if FindOutput(w, req.outputId).Some? {
        ReadyWithout(w.outputs, FindOutput(w, req.outputId).value, sid);
      }
    } else if FindSession(w, req.sessionId).Some? {
      KeepTwice(w.outputs, OutputNotOf(req.sessionId), Ready(sid));
    }
  }

  lemma ReadyWithout(os: seq<Output>, i: nat, sid: nat)
    requires i < |os| && !Ready(sid)(os[i])
    ensures Keep(RemoveAt(os, i), Ready(sid)) == Keep(os, Ready(sid))
  {
    KeepAround(os, i, Ready(sid));
    KeepRemove(os, i, Ready(sid));
  }

  /** One request moves outputs from accepted through waiting to handed out, and loses none
      it was not told to discard. */
  lemma QueueStep(w: Worker, req: Request, cap: nat, sid: nat)
    requires MAX_FIXED_REPLY <= cap && !Discards(w, req, sid)
    ensures Keep(HandedBy(w, req, cap), InfoOf(sid)) + Waiting(Dispatch(w, req, cap).worker, sid)
         == Waiting(w, sid) + Keep(EncodedBy(w, req, cap), InfoOf(sid))
  {
    if !TouchesQueue(req) {
      QueueUntouched(w, req, cap);
      QuietStep(HandedBy(w, req, cap), EncodedBy(w, req, cap), Waiting(w, sid), sid);
    } else if req.EncodeFrame? {
      EncodeAppends(w, req, cap, sid);
      QuietStep([], [], Waiting(Dispatch(w, req, cap).worker, sid), sid);
    } else if req.DequeueOutput? || req.DequeueOutputBatch? {
      DequeueMoves(w, req, cap, sid);
      QuietStep([], [], Waiting(w, sid), sid);
    } else {
      RemovalIsSilent(w, req, cap);
      RemovalKeepsWaiting(w, req, cap, sid);
      QuietStep([], [], Waiting(w, sid), sid);
    }
  }

  lemma QuietStep(handed: seq<OutputInfo>, encoded: seq<OutputInfo>, waiting: seq<OutputInfo>, sid: nat)
    requires handed == [] && encoded == []
    ensures Keep(handed, InfoOf(sid)) + waiting == waiting == waiting + Keep(encoded, InfoOf(sid))
  {
  }

  // ---------- whole runs ----------

  function Encoded(w: Worker, reqs: seq<Request>, cap: nat): (r: seq<OutputInfo>) {
    if |reqs| == 0 then []
    else
      var before := reqs[..|reqs| - 1];
      Encoded(w, before, cap) + EncodedBy(Run(w, before, cap), reqs[|reqs| - 1], cap)
  }

  function Handed(w: Worker, reqs: seq<Request>, cap: nat): (r: seq<OutputInfo>) {
    if |reqs| == 0 then []
    else
      var before := reqs[..|reqs| - 1];
      Handed(w, before, cap) + HandedBy(Run(w, before, cap), reqs[|reqs| - 1], cap)
  }

  predicate NeverDiscards(w: Worker, reqs: seq<Request>, cap: nat, sid: nat) {
    |reqs| > 0 ==>
      var before := reqs[..|reqs| - 1];
      NeverDiscards(w, before, cap, sid) && !Discards(Run(w, before, cap), reqs[|reqs| - 1], sid)
  }

  /** Over a whole run that discards none of a session's waiting outputs, what was handed
      out and what still waits is exactly what was accepted, in that order. */
  lemma {:induction false} HandedThenWaiting(maxOutputs: nat, maxBytes: nat, reqs: seq<Request>, cap: nat, sid: nat)
    requires MAX_FIXED_REPLY <= cap
    requires NeverDiscards(Fresh(maxOutputs, maxBytes), reqs, cap, sid)
    ensures var w := Fresh(maxOutputs, maxBytes);
            Keep(Handed(w, reqs, cap), InfoOf(sid)) + Waiting(Run(w, reqs, cap), sid)
              == Keep(Encoded(w, reqs, cap), InfoOf(sid))
  {
    var w := Fresh(maxOutputs, maxBytes);
    if |reqs| > 0 {
      var before, req := reqs[..|reqs| - 1], reqs[|reqs| - 1];
      var mid := Run(w, before, cap);
      HandedThenWaiting(maxOutputs, maxBytes, before, cap, sid);
      QueueStep(mid, req, cap, sid);
      KeepConcat(Handed(w, before, cap), HandedBy(mid, req, cap), InfoOf(sid));
      KeepConcat(Encoded(w, before, cap), EncodedBy(mid, req, cap), InfoOf(sid));
      Reassociate(Keep(Handed(w, before, cap), InfoOf(sid)), Keep(HandedBy(mid, req, cap), InfoOf(sid)),
                  Waiting(Run(w, reqs, cap), sid), Waiting(mid, sid), Keep(EncodedBy(mid, req, cap), InfoOf(sid)),
                  Keep(Encoded(w, before, cap), InfoOf(sid)));
    }
  }

  lemma Reassociate<T>(h: seq<T>, h': seq<T>, wait': seq<T>, wait: seq<T>, e': seq<T>, e: seq<T>)
    requires h + wait == e && h' + wait' == wait + e'
    ensures (h + h') + wait' == e + e'
  {
    assert (h + h') + wait' == h + (h' + wait') == h + (wait + e') == (h + wait) + e';
  }

  // ---------- order and uniqueness, discarding or not ----------

  ghost predicate AscendingIds(infos: seq<OutputInfo>) {
    forall i, j :: 0 <= i < j < |infos| ==> infos[i].outputId < infos[j].outputId
  }

  /** Everything waiting is younger than everything already handed out. */
  ghost predicate Younger(handed: seq<OutputInfo>, waiting: seq<OutputInfo>, next: nat) {
    && (forall i, j :: 0 <= i < |handed| && 0 <= j < |waiting| ==> handed[i].outputId < waiting[j].outputId)
    && (forall i :: 0 <= i < |handed| ==> handed[i].outputId < next)
  }

  lemma WaitingAscends(w: Worker, sid: nat)
    requires Valid(w)
    ensures AscendingIds(Waiting(w, sid))
    ensures forall j :: 0 <= j < |Waiting(w, sid)| ==> Waiting(w, sid)[j].outputId < w.nextOutputId
  {
    var at := KeptAt(w.outputs, Ready(sid));
  }

  /** Discarding can only shorten the waiting queue; nothing new appears in it. */
  lemma WaitingShrinks(w: Worker, req: Request, cap: nat, sid: nat, j: nat) returns (i: nat)
    requires req.ReleaseOutput? || req.DestroySession?
    requires j < |Waiting(Dispatch(w, req, cap).worker, sid)|
    ensures i < |Waiting(w, sid)| && Waiting(w, sid)[i] == Waiting(Dispatch(w, req, cap).worker, sid)[j]
  {
    var w' := Dispatch(w, req, cap).worker;
    var a := KeptSource(w'.outputs, Ready(sid), j);
    if req.ReleaseOutput? && FindOutput(w, req.outputId).Some? {
      var at := FindOutput(w, req.outputId).value;
      i := KeptIndex(w.outputs, Ready(sid), if a < at then a else a + 1);
    } else if req.DestroySession? && FindSession(w, req.sessionId).Some? {
      var b := KeptSource(w.outputs, OutputNotOf(req.sessionId), a);
      i := KeptIndex(w.outputs, Ready(sid), b);
    } else {
      i := j;
    }
  }

  lemma RemovalIsSilent(w: Worker, req: Request, cap: nat)
    requires req.ReleaseOutput? || req.DestroySession?
    ensures EncodedBy(w, req, cap) == [] && HandedBy(w, req, cap) == []
    ensures Dispatch(w, req, cap).worker.nextOutputId == w.nextOutputId
  {
  }

  lemma YoungerStep(w: Worker, req: Request, cap: nat, sid: nat, handed: seq<OutputInfo>)
    requires Valid(w) && MAX_FIXED_REPLY <= cap
    requires AscendingIds(handed) && Younger(handed, Waiting(w, sid), w.nextOutputId)
    ensures var handed' := handed + Keep(HandedBy(w, req, cap), InfoOf(sid));
            var w' := Dispatch(w, req, cap).worker;
            AscendingIds(handed') && Younger(handed', Waiting(w', sid), w'.nextOutputId)
  {
    var w' := Dispatch(w, req, cap).worker;
    if req.ReleaseOutput? || req.DestroySession? {
      RemovalIsSilent(w, req, cap);
      forall i, j | 0 <= i < |handed| && 0 <= j < |Waiting(w', sid)|
        ensures handed[i].outputId < Waiting(w', sid)[j].outputId
      {
        var k := WaitingShrinks(w, req, cap, sid, j);
      }
      assert handed + Keep([], InfoOf(sid)) == handed;
    } else {
      QueueStep(w, req, cap, sid);
      WaitingAscends(w, sid);
      EncodedIsNext(w, req, cap);
      SplitQueue(handed, Keep(HandedBy(w, req, cap), InfoOf(sid)), Waiting(w', sid),
                 Waiting(w, sid), Keep(EncodedBy(w, req, cap), InfoOf(sid)), w.nextOutputId, w'.nextOutputId);
    }
  }

  lemma EncodedIsNext(w: Worker, req: Request, cap: nat)
    ensures var w' := Dispatch(w, req, cap).worker;
            && w.nextOutputId + |EncodedBy(w, req, cap)| == w'.nextOutputId
            && forall k :: 0 <= k < |EncodedBy(w, req, cap)| ==> EncodedBy(w, req, cap)[k].outputId == w.nextOutputId
  {
    if ReadOnly(req) {
      ReadOnlyKeeps(w, req, cap);
    } else if req.DequeueOutputBatch? {
      TakeManyOutputIds(w, req.sessionId, BatchLimit(req.maxOutputs));
    }
  }

  lemma {:induction false} TakeManyOutputIds(w: Worker, sid: nat, n: nat)
    ensures TakeMany(w, sid, n).0.nextOutputId == w.nextOutputId
    decreases n
  {
    if n > 0 {
      TakeManyOutputIds(TakeReady(w, sid).0, sid, n - 1);
    }
  }

  lemma SplitQueue(handed: seq<OutputInfo>, more: seq<OutputInfo>, rest: seq<OutputInfo>,
                   waiting: seq<OutputInfo>, fresh': seq<OutputInfo>, next: nat, next': nat)
    requires AscendingIds(handed) && Younger(handed, waiting, next) && AscendingIds(waiting)
    requires forall j :: 0 <= j < |waiting| ==> waiting[j].outputId < next
    requires |fresh'| <= 1 && (forall j :: 0 <= j < |fresh'| ==> fresh'[j].outputId == next)
    requires more + rest == waiting + fresh' && next <= next' && (fresh' != [] ==> next < next')
    ensures AscendingIds(handed + more) && Younger(handed + more, rest, next')
  {
    var all := waiting + fresh';
    assert AscendingIds(all);
    assert forall k :: 0 <= k < |more| ==> more[k] == all[k];
    assert forall k :: 0 <= k < |rest| ==> rest[k] == all[|more| + k];
  }

  /** Whatever the run, a session's outputs are handed out in strictly increasing id order,
      so none is handed out twice. */
  lemma {:induction false} HandedOnceInOrder(maxOutputs: nat, maxBytes: nat, reqs: seq<Request>, cap: nat, sid: nat)
    requires MAX_FIXED_REPLY <= cap
    ensures var w := Fresh(maxOutputs, maxBytes);
            var handed := Keep(Handed(w, reqs, cap), InfoOf(sid));
            AscendingIds(handed) && Younger(handed, Waiting(Run(w, reqs, cap), sid), Run(w, reqs, cap).nextOutputId)
  {
    var w := Fresh(maxOutputs, maxBytes);
    if |reqs| > 0 {
      var before, req := reqs[..|reqs| - 1], reqs[|reqs| - 1];
      HandedOnceInOrder(maxOutputs, maxBytes, before, cap, sid);
      RunValid(maxOutputs, maxBytes, before, cap);
      YoungerStep(Run(w, before, cap), req, cap, sid, Keep(Handed(w, before, cap), InfoOf(sid)));
      KeepConcat(Handed(w, before, cap), HandedBy(Run(w, before, cap), req, cap), InfoOf(sid));
    }
  }

  // ---------- sync frames ----------

  /** The session's record counts what was accepted from it; ids not yet issued have nothing. */
  ghost predicate Counted(w: Worker, sid: nat, accepted: seq<OutputInfo>) {
    && (forall k :: 0 <= k < |w.sessions| && w.sessions[k].id == sid ==> w.sessions[k].framesEncoded == |accepted|)
    && (sid >= w.nextHostId ==> accepted == [])
    && (forall k :: 0 <= k < |accepted| ==> (accepted[k].sync <==> k == 0))
  }

  lemma CountedStep(w: Worker, req: Request, cap: nat, sid: nat, accepted: seq<OutputInfo>)
    requires Valid(w) && Counted(w, sid, accepted)
    ensures Counted(Dispatch(w, req, cap).worker, sid, accepted + Keep(EncodedBy(w, req, cap), InfoOf(sid)))
  {
    var w' := Dispatch(w, req, cap).worker;
    if req.EncodeFrame? {
      CountedEncode(w, req, cap, sid, accepted);
    } else {
      assert EncodedBy(w, req, cap) == [];
      assert accepted + Keep([], InfoOf(sid)) == accepted;
      SessionsStep(w, req, cap, sid);
    }
  }

  lemma CountedEncode(w: Worker, req: Request, cap: nat, sid: nat, accepted: seq<OutputInfo>)
    requires SessionsOk(w.sessions, w.nextHostId) && Counted(w, sid, accepted) && req.EncodeFrame?
    ensures Counted(Dispatch(w, req, cap).worker, sid, accepted + Keep(EncodedBy(w, req, cap), InfoOf(sid)))
  {
    if Dispatch(w, req, cap).outcome.Ok? {
      var si, bi, prefix := AcceptedFrom(w, req, cap);
      var o := NewOutput(w, w.sessions[si], w.buffers[bi], prefix, req.pts, req.duration);
      assert EncodedBy(w, req, cap) == [o.info];
      SingleKeep(o.info, InfoOf(sid));
      CountedFrame(Enqueue(w, bi, o), si, sid, accepted, o.info);
    } else {
      RefusedFrame(w, req, cap);
      assert accepted + Keep([], InfoOf(sid)) == accepted;
    }
  }

  lemma CountedFrame(w: Worker, si: nat, sid: nat, accepted: seq<OutputInfo>, info: OutputInfo)
    requires SessionsOk(w.sessions, w.nextHostId) && Counted(w, sid, accepted) && si < |w.sessions|
    requires info.sessionId == w.sessions[si].id && (info.sync <==> w.sessions[si].framesEncoded == 0)
    ensures Counted(CountFrame(w, si), sid, if info.sessionId == sid then accepted + [info] else accepted)
  {
  }

  /** Apart from encoding, a request leaves a live session's frame count alone and gives a
      new session an id no one has used. */
  lemma SessionsStep(w: Worker, req: Request, cap: nat, sid: nat)
    requires !req.EncodeFrame?
    ensures SessionsFollow(w, Dispatch(w, req, cap).worker, sid)
  {
    if ReadOnly(req) {
      ReadOnlyKeeps(w, req, cap);
    } else if req.DestroySession? {
      SessionsAfterDestroy(w, req.sessionId, sid);
    } else if req.DequeueOutputBatch? {
      TakeManySessions(w, req.sessionId, BatchLimit(req.maxOutputs));
    } else if req.CreateSession? || req.PrepareSession? {
      SessionsAfterOpen(w, req, cap, sid);
    } else {
      SessionsUntouched(w, req, cap);
    }
  }

  ghost predicate SessionsFollow(w: Worker, w': Worker, sid: nat) {
    && w.nextHostId <= w'.nextHostId
    && forall k :: 0 <= k < |w'.sessions| && w'.sessions[k].id == sid ==>
         || (sid == w.nextHostId && w'.sessions[k].framesEncoded == 0)
         || (exists j :: 0 <= j < |w.sessions| && w.sessions[j].id == sid
               && w.sessions[j].framesEncoded == w'.sessions[k].framesEncoded)
  }

  lemma SessionsUntouched(w: Worker, req: Request, cap: nat)
    requires req.CreatePool? || req.AllocBuffer? || req.WriteBuffer? || req.RecycleBuffer?
             || req.DequeueOutput? || req.ReleaseOutput?
    ensures var w' := Dispatch(w, req, cap).worker;
            w'.sessions == w.sessions && w.nextHostId <= w'.nextHostId
  {
  }

  lemma SessionsAfterDestroy(w: Worker, gone: nat, sid: nat)
    ensures SessionsFollow(w, DoDestroySession(w, gone).worker, sid)
  {
    var w' := DoDestroySession(w, gone).worker;
    if FindSession(w, gone).Some? {
      forall k | 0 <= k < |w'.sessions| && w'.sessions[k].id == sid
        ensures exists j :: 0 <= j < |w.sessions| && w.sessions[j].id == sid
                  && w.sessions[j].framesEncoded == w'.sessions[k].framesEncoded
      {
        var j := KeptSource(w.sessions, SessionIsNot(gone), k);
      }
    }
  }

  lemma SessionsAfterOpen(w: Worker, req: Request, cap: nat, sid: nat)
    requires req.CreateSession? || req.PrepareSession?
    ensures SessionsFollow(w, Dispatch(w, req, cap).worker, sid)
  {
    var w' := Dispatch(w, req, cap).worker;
    forall k | 0 <= k < |w'.sessions| && w'.sessions[k].id == sid
      ensures || (sid == w.nextHostId && w'.sessions[k].framesEncoded == 0)
              || (exists j :: 0 <= j < |w.sessions| && w.sessions[j].id == sid
                    && w.sessions[j].framesEncoded == w'.sessions[k].framesEncoded)
    {
      if k < |w.sessions| {
        assert w.sessions[k].id == sid && w.sessions[k].framesEncoded == w'.sessions[k].framesEncoded;
      }
    }
  }

  lemma {:induction false} TakeManySessions(w: Worker, sid: nat, n: nat)
    ensures TakeMany(w, sid, n).0.sessions == w.sessions && TakeMany(w, sid, n).0.nextHostId == w.nextHostId
    decreases n
  {
    if n > 0 {
      TakeManySessions(TakeReady(w, sid).0, sid, n - 1);
    }
  }

  /** In every run, exactly the first frame accepted from a session is marked sync. */
  lemma {:induction false} FirstFrameIsSync(maxOutputs: nat, maxBytes: nat, reqs: seq<Request>, cap: nat, sid: nat)
    ensures var w := Fresh(maxOutputs, maxBytes);
            Counted(Run(w, reqs, cap), sid, Keep(Encoded(w, reqs, cap), InfoOf(sid)))
  {
    var w := Fresh(maxOutputs, maxBytes);
    if |reqs| > 0 {
      var before, req := reqs[..|reqs| - 1], reqs[|reqs| - 1];
      FirstFrameIsSync(maxOutputs, maxBytes, before, cap, sid);
      RunValid(maxOutputs, maxBytes, before, cap);
      CountedStep(Run(w, before, cap), req, cap, sid, Keep(Encoded(w, before, cap), InfoOf(sid)));
      KeepConcat(Encoded(w, before, cap), EncodedBy(Run(w, before, cap), req, cap), InfoOf(sid));
    }
  }
}
