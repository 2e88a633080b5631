/** Guest, wire and worker together: what a caller gets is what the worker's state machine says. */
module EndToEnd {
  import opened Bits
  import opened Protocol
  import opened Wire
  import opened Server
  import opened Transport
  import W = Worker

  function CallsOf(served: seq<Exchange>): (r: seq<Call>)
    ensures |r| == |served| && forall i :: 0 <= i < |served| ==> r[i] == served[i].call
  {
    seq(|served|, i requires 0 <= i < |served| => served[i].call)
  }

  /** The answer a worker that has run the requests `before` gives to one more. */
  function AnswerAfter(w: W.Worker, before: seq<Call>, req: Request, parse: Parse, render: Render): (a: Answer) {
    AnswerOf(W.Dispatch(W.Run(w, Parsed(before, parse), STORAGE_CAPACITY), req, STORAGE_CAPACITY).outcome, render)
  }

  /** The worker answers a whole request from the state its earlier requests led to. */
  ghost predicate Genuine(s: State, a: Action, w: W.Worker, parse: Parse, render: Render) {
    a.ServeNext? && ReadFrame(s.up).Whole? ==>
      var f := ReadFrame(s.up);
      a.answer == AnswerAfter(w, CallsOf(s.served), parse(f.header, f.payload), parse, render)
  }

  ghost predicate AllGenuine(s: State, actions: seq<Action>, w: W.Worker, parse: Parse, render: Render)
    decreases |actions|
  {
    |actions| > 0 ==>
      && Genuine(s, actions[0], w, parse, render)
      && AllGenuine(Next(s, actions[0]), actions[1..], w, parse, render)
  }

  /** Every answer given so far is the one owed to that request after those before it. */
  ghost predicate Owed(s: State, w: W.Worker, parse: Parse, render: Render)
    requires |s.served| <= |s.calls|
  {
    forall i :: 0 <= i < |s.served| ==> s.served[i].answer == OwedAt(s.calls, i, w, parse, render)
  }

  ghost function OwedAt(calls: seq<Call>, i: nat, w: W.Worker, parse: Parse, render: Render): (a: Answer)
    requires i < |calls|
  {
    AnswerAfter(w, calls[..i], parse(CallHeader(calls[i]), calls[i].payload), parse, render)
  }

  lemma OwedStays(calls: seq<Call>, calls': seq<Call>, i: nat, w: W.Worker, parse: Parse, render: Render)
    requires calls <= calls' && i < |calls|
    ensures OwedAt(calls', i, w, parse, render) == OwedAt(calls, i, w, parse, render)
  {
    assert calls'[..i] == calls[..i];
  }

  /** Every step but the worker's own leaves its answers alone and only adds requests. */
  lemma OthersDoNotAnswer(s: State, a: Action)
    requires !a.ServeNext?
    ensures Next(s, a).served == s.served && s.calls <= Next(s, a).calls
  {
    if a.Request? || a.Heartbeat? {
      StartsDoNotAnswer(s, a);
    } else {
      MovesDoNotAnswer(s, a);
    }
  }

  lemma StartsDoNotAnswer(s: State, a: Action)
    requires a.Request? || a.Heartbeat?
    ensures Next(s, a).served == s.served && s.calls <= Next(s, a).calls
  {
  }

  lemma MovesDoNotAnswer(s: State, a: Action)
    requires !a.Request? && !a.Heartbeat? && !a.ServeNext?
    ensures Next(s, a).served == s.served && s.calls <= Next(s, a).calls
  {
  }

  lemma ServedCalls(s: State)
    requires ServedInOrder(s)
    ensures CallsOf(s.served) == s.calls[..|s.served|]
  {
  }

  lemma ServeOwed(s: State, answer: Answer, w: W.Worker, parse: Parse, render: Render)
    requires Inv(s) && Owed(s, w, parse, render) && Genuine(s, ServeNext(answer), w, parse, render)
    ensures |ServeStep(s, answer).served| <= |ServeStep(s, answer).calls|
    ensures Owed(ServeStep(s, answer), w, parse, render)
  {
    if ReadFrame(s.up).Whole? {
      UpIsWhole(s);
      ServedCalls(s);
      WholeIsOwed(s, s.calls[|s.served|], answer, w, parse, render);
    } else {
      NothingServed(s, answer);
    }
  }

  lemma WholeIsOwed(s: State, c: Call, answer: Answer, w: W.Worker, parse: Parse, render: Render)
    requires |s.calls| == |s.served| + 1 && c == s.calls[|s.served|] && s.up == EncodeCall(c) && |c.payload| < TWO_32
    requires ReadFrame(s.up).Whole? && CallsOf(s.served) == s.calls[..|s.served|]
    requires Owed(s, w, parse, render) && Genuine(s, ServeNext(answer), w, parse, render)
    ensures |ServeStep(s, answer).served| <= |s.calls| == |ServeStep(s, answer).calls|
    ensures Owed(ServeStep(s, answer), w, parse, render)
  {
    assert EncodeCall(c) + [] == EncodeCall(c);
    FrameRoundTrip(c, []);
    if s.serverOpen && s.outbox == [] && |answer.payload| <= STORAGE_CAPACITY {
      ServedStep(s, c, answer);
      assert answer == OwedAt(s.calls, |s.served|, w, parse, render);
    }
  }

  lemma {:induction false} PlayOwed(s: State, actions: seq<Action>, w: W.Worker, parse: Parse, render: Render)
    requires Inv(s) && Owed(s, w, parse, render) && AllGenuine(s, actions, w, parse, render)
    requires forall i :: 0 <= i < |actions| ==> Sendable(actions[i])
    ensures Inv(Play(s, actions)) && Owed(Play(s, actions), w, parse, render)
    decreases |actions|
  {
    if |actions| > 0 {
      NextKeeps(s, actions[0]);
      NextOwed(s, actions[0], w, parse, render);
      PlayOwed(Next(s, actions[0]), actions[1..], w, parse, render);
    }
  }

  lemma NextOwed(s: State, a: Action, w: W.Worker, parse: Parse, render: Render)
    requires Inv(s) && Inv(Next(s, a)) && Owed(s, w, parse, render) && Genuine(s, a, w, parse, render)
    ensures Owed(Next(s, a), w, parse, render)
  {
    if a.ServeNext? {
      ServeOwed(s, a.answer, w, parse, render);
    } else {
      OthersDoNotAnswer(s, a);
      forall i | 0 <= i < |s.served| ensures s.served[i].answer == OwedAt(Next(s, a).calls, i, w, parse, render) {
        OwedStays(s.calls, Next(s, a).calls, i, w, parse, render);
      }
    }
  }

  /** In every interleaving of request threads, heartbeat and worker, with any read or write
      failing at any byte: the answer to the i-th request, if the caller gets one, is what the
      worker's state machine answers to it after exactly the requests before it. */
  lemma CallersSeeTheWorker(actions: seq<Action>, w: W.Worker, parse: Parse, render: Render)
    requires forall i :: 0 <= i < |actions| ==> Sendable(actions[i])
    requires AllGenuine(Start(), actions, w, parse, render)
    ensures var s := Play(Start(), actions);
            && |s.returned| <= |s.calls|
            && forall i :: 0 <= i < |s.returned| ==>
              s.returned[i] == Exchange(s.calls[i], OwedAt(s.calls, i, w, parse, render))
  {
    PlayOwed(Start(), actions, w, parse, render);
    var s := Play(Start(), actions);
    forall i | 0 <= i < |s.returned|
      ensures s.returned[i] == Exchange(s.calls[i], OwedAt(s.calls, i, w, parse, render))
    {
      assert s.returned[i] == s.served[i];
    }
  }
}
