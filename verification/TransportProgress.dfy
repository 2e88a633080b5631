/** A request goes through: the six steps by which one request is sent, served and answered, from
    any idle state of a transport that can still be used. */
module TransportProgress {
  import opened Bits
  import opened Protocol
  import opened Server
  import opened Wire
  import opened Transport

  /** Idle with a live connection and worker, or not yet connected. */
  ghost predicate Usable(s: State) {
    Inv(s) && s.phase.Idle? && (if s.conn.Some? then s.serverOpen else !s.killed)
  }

  lemma UsableIsQuiet(s: State)
    requires Usable(s) && s.conn.Some?
    ensures s.up == [] && s.down == [] && s.outbox == []
  {
  }

  /** The request as it is begun: numbered next on its connection. */
  ghost function CallFor(s: State, opcode: u16, payload: seq<byte>): (c: Call) {
    Call(if s.conn.Some? then s.conn.value else 1, opcode, payload)
  }

  /** `s` with the request begun and nothing of it written. */
  ghost predicate Begun(s: State, s1: State, c: Call) {
    && s1.phase == Sending(c, EncodeCall(c)) && s1.calls == s.calls + [c] && s1.returned == s.returned
    && s1.conn.Some? && !s1.killed && s1.serverOpen && s1.up == [] && s1.down == [] && s1.outbox == []
  }

  lemma StepBegins(s: State, opcode: u16, payload: seq<byte>)
    requires Usable(s)
    ensures Begun(s, Next(s, Request(opcode, payload, true)), CallFor(s, opcode, payload))
  {
    if s.conn.Some? {
      UsableIsQuiet(s);
      assert !s.killed;
    }
  }

  ghost predicate Written(s: State, s2: State, c: Call) {
    && s2.phase == AwaitHeader(c, []) && s2.calls == s.calls + [c] && s2.returned == s.returned
    && s2.conn.Some? && !s2.killed && s2.serverOpen && s2.up == EncodeCall(c) && s2.down == [] && s2.outbox == []
  }

  lemma StepWrites(s: State, s1: State, c: Call, n: nat)
    requires Begun(s, s1, c) && n >= |EncodeCall(c)|
    ensures Written(s, Next(s1, Write(n)), c)
  {
    assert [] + EncodeCall(c)[..|EncodeCall(c)|] == EncodeCall(c);
  }

  ghost predicate Answered(s: State, s3: State, c: Call, onTheWay: seq<byte>, waiting: seq<byte>) {
    && s3.phase == AwaitHeader(c, []) && s3.calls == s.calls + [c] && s3.returned == s.returned
    && s3.conn.Some? && !s3.killed && s3.serverOpen && s3.down == onTheWay && s3.outbox == waiting
  }

  lemma StepServes(s: State, s2: State, c: Call, answer: Answer)
    requires Written(s, s2, c) && |c.payload| <= STORAGE_CAPACITY && |answer.payload| <= STORAGE_CAPACITY
    ensures Answered(s, Next(s2, ServeNext(answer)), c, [], EncodeAnswer(c, answer))
  {
    assert EncodeCall(c) + [] == EncodeCall(c);
    FrameRoundTrip(c, []);
  }

  lemma StepReplies(s: State, s3: State, c: Call, answer: Answer, n: nat)
    requires Answered(s, s3, c, [], EncodeAnswer(c, answer)) && n >= |EncodeAnswer(c, answer)|
    ensures Answered(s, Next(s3, ServerWrites(n)), c, EncodeAnswer(c, answer), [])
  {
    assert [] + EncodeAnswer(c, answer)[..|EncodeAnswer(c, answer)|] == EncodeAnswer(c, answer);
  }

  /** The answer has been handed to the caller and the transport is idle again. */
  ghost predicate Done(s: State, s': State, c: Call, answer: Answer) {
    && s'.phase.Idle? && s'.conn.Some? && !s'.killed
    && s'.calls == s.calls + [c] && s'.returned == s.returned + [Exchange(c, answer)]
  }

  lemma StepReadsHeader(s: State, s4: State, c: Call, answer: Answer, n: nat)
    requires Answered(s, s4, c, EncodeAnswer(c, answer), []) && n >= 24 && |answer.payload| <= STORAGE_CAPACITY
    ensures var s5 := Next(s4, Read(n));
            if answer.payload == [] then Done(s, s5, c, answer)
            else
              && s5.phase == AwaitBody(c, AnswerHeader(c, answer), []) && s5.down == answer.payload
              && s5.calls == s.calls + [c] && s5.returned == s.returned && s5.conn.Some? && !s5.killed
  {
    var h := AnswerHeader(c, answer);
    HeaderRoundTrip(h);
    var bytes := EncodeAnswer(c, answer);
    assert bytes[..24] == EncodeHeader(h) && bytes[24..] == answer.payload;
    assert [] + bytes[..24] == EncodeHeader(h);
  }

  lemma StepReadsBody(s: State, s5: State, c: Call, answer: Answer, n: nat)
    requires s5.phase == AwaitBody(c, AnswerHeader(c, answer), []) && s5.down == answer.payload
    requires s5.calls == s.calls + [c] && s5.returned == s.returned && s5.conn.Some? && !s5.killed
    requires 0 < |answer.payload| <= STORAGE_CAPACITY && n >= |answer.payload|
    ensures Done(s, Next(s5, Read(n)), c, answer)
  {
    assert [] + answer.payload[..|answer.payload|] == answer.payload;
  }

  /** A request already begun, sent and answered in as large steps as the stream allows. */
  function Finishing(answer: Answer, n: nat): (actions: seq<Action>) {
    [Write(n), ServeNext(answer), ServerWrites(n), Read(24), Read(n)]
  }

  lemma PlayFive(s: State, a: seq<Action>)
    requires |a| == 5
    ensures Play(s, a) == Next(Next(Next(Next(Next(s, a[0]), a[1]), a[2]), a[3]), a[4])
  {
    var s1, s2, s3 := Next(s, a[0]), Next(Next(s, a[0]), a[1]), Next(Next(Next(s, a[0]), a[1]), a[2]);
    assert Play(s, a) == Play(s1, a[1..]);
    assert Play(s1, a[1..]) == Play(s2, a[1..][1..]);
    assert Play(s2, a[1..][1..]) == Play(s3, a[1..][1..][1..]);
    var rest := a[1..][1..][1..];
    assert rest == [a[3], a[4]];
    assert Play(s3, rest) == Play(Next(s3, a[3]), rest[1..]);
    assert rest[1..] == [a[4]];
  }

  lemma BegunCompletes(s: State, s1: State, c: Call, answer: Answer, n: nat)
    requires Begun(s, s1, c) && |c.payload| <= STORAGE_CAPACITY && |answer.payload| <= STORAGE_CAPACITY
    requires n >= 24 + |c.payload| && n >= 24 + |answer.payload|
    ensures Done(s, Play(s1, Finishing(answer, n)), c, answer)
  {
    var a := Finishing(answer, n);
    PlayFive(s1, a);
    var s2 := Next(s1, a[0]);
    StepWrites(s, s1, c, n);
    var s3 := Next(s2, a[1]);
    StepServes(s, s2, c, answer);
    var s4 := Next(s3, a[2]);
    StepReplies(s, s3, c, answer, n);
    var s5 := Next(s4, a[3]);
    StepReadsHeader(s, s4, c, answer, 24);
    if answer.payload != [] {
      StepReadsBody(s, s5, c, answer, n);
    }
  }

  lemma PlayFirst(s: State, a: Action, rest: seq<Action>)
    ensures Play(s, [a] + rest) == Play(Next(s, a), rest)
  {
    assert ([a] + rest)[1..] == rest;
  }

  /** From every usable state a request whose parts fit is sent, served and answered: its caller
      gets the worker's answer and the transport is ready for the next one. */
  lemma RequestCompletes(s: State, opcode: u16, payload: seq<byte>, answer: Answer, n: nat)
    requires Usable(s) && |payload| <= STORAGE_CAPACITY && |answer.payload| <= STORAGE_CAPACITY
    requires n >= 24 + |payload| && n >= 24 + |answer.payload|
    ensures Done(s, Play(s, [Request(opcode, payload, true)] + Finishing(answer, n)), CallFor(s, opcode, payload),
                 answer)
  {
    var request := Request(opcode, payload, true);
    PlayFirst(s, request, Finishing(answer, n));
    StepBegins(s, opcode, payload);
    BegunCompletes(s, Next(s, request), CallFor(s, opcode, payload), answer, n);
  }

  /** A heartbeat on a stale idle connection is a ping, numbered and answered like any request. */
  lemma HeartbeatCompletes(s: State, answer: Answer, n: nat)
    requires Usable(s) && s.conn.Some? && |answer.payload| <= STORAGE_CAPACITY && n >= 24 + |answer.payload|
    ensures Done(s, Play(s, [Heartbeat(true)] + Finishing(answer, n)), Call(s.conn.value, 2, []), answer)
  {
    UsableIsQuiet(s);
    PlayFirst(s, Heartbeat(true), Finishing(answer, n));
    BegunCompletes(s, Next(s, Heartbeat(true)), Call(s.conn.value, 2, []), answer, n);
  }

  /** It never dials, interrupts a request or probes a connection in use. */
  lemma HeartbeatKeepsOut(s: State, stale: bool)
    requires s.conn.None? || !s.phase.Idle? || !stale
    ensures Next(s, Heartbeat(stale)) == s
  {
  }

  // ---------- a request over the limit ----------

  /** The worker is gone without an answer: the caller waits for one or has given up. */
  ghost predicate Unanswered(s: State, returned: seq<Exchange>) {
    && s.returned == returned && !s.serverOpen
    && ((s.phase.AwaitHeader? && s.phase.got == [] && s.down == [])
        || (s.phase.Idle? && s.conn.None? && s.killed))
  }

  lemma StaysUnanswered(s: State, a: Action, returned: seq<Exchange>)
    requires Unanswered(s, returned)
    ensures Unanswered(Next(s, a), returned)
  {
  }

  lemma {:induction false} NeverAnswered(s: State, actions: seq<Action>, returned: seq<Exchange>)
    requires Unanswered(s, returned)
    ensures Unanswered(Play(s, actions), returned)
    decreases |actions|
  {
    if |actions| > 0 {
      StaysUnanswered(s, actions[0], returned);
      NeverAnswered(Next(s, actions[0]), actions[1..], returned);
    }
  }

  lemma StepRefuses(s: State, s2: State, c: Call, answer: Answer)
    requires Written(s, s2, c) && STORAGE_CAPACITY < |c.payload| < TWO_32 && |answer.payload| <= STORAGE_CAPACITY
    ensures Next(s2, ServeNext(answer)) == s2.(serverOpen := false)
  {
    OversizedEndsConnection(c, c.payload);
  }

  /** A request over the limit makes the worker hang up: it is not performed, and neither it nor
      any request after it is ever answered, whatever happens next. */
  lemma OversizedNeverAnswered(s: State, opcode: u16, payload: seq<byte>, answer: Answer, n: nat, more: seq<Action>)
    requires Usable(s) && STORAGE_CAPACITY < |payload| < TWO_32 && |answer.payload| <= STORAGE_CAPACITY
    requires n >= 24 + |payload|
    ensures var s1 := Next(s, Request(opcode, payload, true));
            var s3 := Next(Next(s1, Write(n)), ServeNext(answer));
            s3.served == Next(s1, Write(n)).served && Play(s3, more).returned == s.returned
  {
    var c := CallFor(s, opcode, payload);
    var s1 := Next(s, Request(opcode, payload, true));
    StepBegins(s, opcode, payload);
    StepWrites(s, s1, c, n);
    var s2 := Next(s1, Write(n));
    StepRefuses(s, s2, c, answer);
    NeverAnswered(s2.(serverOpen := false), more, s.returned);
  }
}
