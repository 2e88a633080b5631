/** The guest's single connection, shared by request threads and the heartbeat thread. One
    mutex covers a whole request, so the lock holder is the phase; the worker runs beside it,
    bytes move a few at a time, and any read or write may fail at any byte. */
module Transport {
  import opened Bits
  import opened Collections
  import opened Protocol
  import opened Server
  import opened Wire

  const OP_PING: u16 := 2

  datatype Exchange = Exchange(call: Call, answer: Answer)

  /** Where the thread holding the lock stands inside `send_request_dynamic`. */
  datatype Phase =
    | Idle
    | Sending(call: Call, rest: seq<byte>)
    | AwaitHeader(call: Call, got: seq<byte>)
    | AwaitBody(call: Call, header: Header, got: seq<byte>)

  /** `conn` holds the next request id of a live connection. The last five fields record
      what happened: dials that succeeded, bytes written, requests begun, requests the
      worker answered, and answers handed to callers. */
  datatype State = State(
    conn: Option<u64>, killed: bool, phase: Phase,
    up: seq<byte>, down: seq<byte>, outbox: seq<byte>, serverOpen: bool,
    dials: nat, sent: seq<byte>, calls: seq<Call>, served: seq<Exchange>, returned: seq<Exchange>)

  datatype Action =
    | Request(opcode: u16, payload: seq<byte>, dialSucceeds: bool)
    | Heartbeat(stale: bool)
    | Write(n: nat)
    | WriteFails
    | Read(n: nat)
    | ReadFails
    | ServeNext(answer: Answer)
    | ServerWrites(n: nat)
    | ServerCloses

  function Start(): (s: State) {
    State(None, false, Idle, [], [], [], false, 0, [], [], [], [])
  }

  function Dial(s: State): (s': State) {
    s.(conn := Some(1), up := [], down := [], outbox := [], serverOpen := true, dials := s.dials + 1)
  }

  function Begin(s: State, opcode: u16, payload: seq<byte>): (s': State)
    requires s.conn.Some?
  {
    var c := Call(s.conn.value, opcode, payload);
    s.(conn := Some(Wrap64(s.conn.value + 1)), calls := s.calls + [c], phase := Sending(c, EncodeCall(c)))
  }

  /** A failed read or write poisons the connection: it is dropped and never redialled. */
  function Poison(s: State): (s': State) {
    s.(conn := None, killed := true, phase := Idle)
  }

  function Finish(s: State, c: Call, h: Header, payload: seq<byte>): (s': State) {
    s.(phase := Idle, returned := s.returned + [Exchange(c, Answer(h.status, payload))])
  }

  function HeaderArrived(s: State, c: Call, h: Header): (s': State) {
    if h.payloadLen == 0 then Finish(s, c, h, []) else s.(phase := AwaitBody(c, h, []))
  }

  function Least(a: nat, b: nat): (r: nat) {
    if a < b then a else b
  }

  function WriteStep(s: State, n: nat): (s': State)
    requires s.phase.Sending?
  {
    var rest := s.phase.rest;
    var k := Least(n, |rest|);
    s.(up := s.up + rest[..k], sent := s.sent + rest[..k],
       phase := if k == |rest| then AwaitHeader(s.phase.call, []) else Sending(s.phase.call, rest[k..]))
  }

  function ReadHeaderStep(s: State, n: nat): (s': State)
    requires s.phase.AwaitHeader?
  {
    var got := s.phase.got;
    var k := Least(n, Least(|s.down|, if |got| < HEADER_SIZE then HEADER_SIZE - |got| else 0));
    var got' := got + s.down[..k];
    var s1 := s.(down := s.down[k..]);
    if |got'| == HEADER_SIZE then HeaderArrived(s1, s.phase.call, DecodeHeader(got'))
    else s1.(phase := AwaitHeader(s.phase.call, got'))
  }

  function ReadBodyStep(s: State, n: nat): (s': State)
    requires s.phase.AwaitBody?
  {
    var got, h := s.phase.got, s.phase.header;
    var k := Least(n, Least(|s.down|, if |got| < h.payloadLen then h.payloadLen - |got| else 0));
    var got' := got + s.down[..k];
    var s1 := s.(down := s.down[k..]);
    if |got'| == h.payloadLen then Finish(s1, s.phase.call, h, got')
    else s1.(phase := AwaitBody(s.phase.call, h, got'))
  }

  /** The worker takes one whole request, once its previous reply is out. */
  function ServeStep(s: State, answer: Answer): (s': State) {
    if !s.serverOpen || s.outbox != [] || |answer.payload| > STORAGE_CAPACITY then s
    else
      match ReadFrame(s.up)
      case Partial => s
      case Oversized => s.(serverOpen := false)
      case Whole(h, payload, rest) =>
        var c := CallOf(h, payload);
        s.(up := rest, served := s.served + [Exchange(c, answer)], outbox := EncodeAnswer(c, answer))
  }

  function ServerWriteStep(s: State, n: nat): (s': State) {
    if !s.serverOpen then s
    else
      var k := Least(n, |s.outbox|);
      s.(down := s.down + s.outbox[..k], outbox := s.outbox[k..])
  }

  /** One step; an action that is not possible in the current state does nothing. */
  function Next(s: State, a: Action): (s': State) {
    match a
    case Request(opcode, payload, dialSucceeds) =>
      if !s.phase.Idle? then s
      else if s.conn.Some? then Begin(s, opcode, payload)
      else if s.killed || !dialSucceeds then s
      else Begin(Dial(s), opcode, payload)
    case Heartbeat(stale) =>
      if s.phase.Idle? && s.conn.Some? && stale then Begin(s, OP_PING, []) else s
    case Write(n) => if s.phase.Sending? then WriteStep(s, n) else s
    case WriteFails => if s.phase.Sending? then Poison(s) else s
    case Read(n) =>
      if s.phase.AwaitHeader? then ReadHeaderStep(s, n)
      else if s.phase.AwaitBody? then ReadBodyStep(s, n)
      else s
    case ReadFails => if s.phase.AwaitHeader? || s.phase.AwaitBody? then Poison(s) else s
    case ServeNext(answer) => ServeStep(s, answer)
    case ServerWrites(n) => ServerWriteStep(s, n)
    case ServerCloses => s.(serverOpen := false)
  }

  function Play(s: State, actions: seq<Action>): (s': State)
    decreases |actions|
  {
    if |actions| == 0 then s else Play(Next(s, actions[0]), actions[1..])
  }

  /** Callers never build a payload whose length the 32-bit field cannot hold. */
  predicate Sendable(a: Action) {
    a.Request? ==> |a.payload| < TWO_32
  }

  // ---------- invariant ----------

  ghost predicate Numbered(s: State) {
    && (forall i :: 0 <= i < |s.calls| ==> s.calls[i].id == Wrap64(i + 1) && |s.calls[i].payload| < TWO_32)
    && (s.conn.Some? ==> s.conn.value == Wrap64(|s.calls| + 1))
  }

  ghost predicate OneConnection(s: State) {
    && s.dials <= 1
    && (s.dials == 1 ==> (s.conn.Some? <==> !s.killed))
    && (s.dials == 0 ==> s == Start().(serverOpen := s.serverOpen))
    && (s.conn.None? ==> s.phase.Idle?)
  }

  /** What the worker has answered is an initial run of what was asked, and what it has yet to
      read is part of the request after that. */
  ghost predicate ServedInOrder(s: State) {
    && |s.served| <= |s.calls| <= |s.served| + 1
    && (forall i :: 0 <= i < |s.served| ==>
          s.served[i].call == s.calls[i] && |s.served[i].answer.payload| <= STORAGE_CAPACITY)
    && (if |s.calls| == |s.served| then s.up == [] else s.up <= EncodeCall(s.calls[|s.served|]))
  }

  ghost predicate ReturnedInOrder(s: State) {
    && |s.returned| <= |s.served|
    && forall i :: 0 <= i < |s.returned| ==> s.returned[i] == s.served[i]
  }

  ghost predicate Quiet(s: State) {
    s.down == [] && s.outbox == []
  }

  /** Exactly one request is out, the last one. */
  ghost predicate Pending(s: State, c: Call) {
    |s.calls| == |s.returned| + 1 && s.calls[|s.returned|] == c
  }

  /** The bytes in flight, given how far the lock holder has got. */
  ghost predicate InFlight(s: State) {
    match s.phase
    case Idle => s.conn.Some? ==> |s.returned| == |s.calls| && Quiet(s)
    case Sending(c, rest) =>
      Pending(s, c) && |s.served| == |s.returned| && rest != [] && s.up + rest == EncodeCall(c) && Quiet(s)
    case AwaitHeader(c, got) =>
      && Pending(s, c) && |got| < HEADER_SIZE
      && (if |s.served| == |s.returned| then s.up == EncodeCall(c) && got == [] && Quiet(s)
          else
            && |s.served| == |s.returned| + 1
            && got + s.down + s.outbox == EncodeAnswer(c, s.served[|s.returned|].answer))
    case AwaitBody(c, h, got) =>
      && Pending(s, c) && |s.served| == |s.returned| + 1
      && h == AnswerHeader(c, s.served[|s.returned|].answer)
      && got + s.down + s.outbox == s.served[|s.returned|].answer.payload
      && |got| < h.payloadLen
  }

  function Unsent(p: Phase): (r: seq<byte>) {
    if p.Sending? then p.rest else []
  }

  /** The bytes ever written are the encoded requests end to end, cut where a write failed. */
  ghost predicate SentIsStream(s: State) {
    s.sent <= Stream(s.calls) && (!s.killed ==> s.sent + Unsent(s.phase) == Stream(s.calls))
  }

  ghost predicate Logs(s: State) {
    Numbered(s) && OneConnection(s) && ServedInOrder(s) && ReturnedInOrder(s) && SentIsStream(s)
  }

  ghost predicate Inv(s: State) {
    Logs(s) && InFlight(s)
  }

  /** Moving reply bytes about concerns none of the records. */
  lemma RepliesMove(s: State, phase: Phase, down: seq<byte>, outbox: seq<byte>)
    requires Logs(s) && s.dials == 1 && Unsent(phase) == Unsent(s.phase) && (s.conn.None? ==> phase.Idle?)
    ensures Logs(s.(phase := phase, down := down, outbox := outbox))
  {
  }

  lemma {:induction false} StreamAppend(calls: seq<Call>, c: Call)
    ensures Stream(calls + [c]) == Stream(calls) + EncodeCall(c)
  {
    if |calls| == 0 {
      assert [c][1..] == [] && calls + [c] == [c];
      assert Stream([c]) == EncodeCall(c) + Stream([]);
    } else {
      StreamAppend(calls[1..], c);
      assert (calls + [c])[1..] == calls[1..] + [c];
      Reassociated(EncodeCall(calls[0]), Stream(calls[1..]), EncodeCall(c));
    }
  }

  // ---------- each action keeps it ----------

  lemma BeginKeeps(s: State, opcode: u16, payload: seq<byte>)
    requires Inv(s) && s.phase.Idle? && s.conn.Some? && |payload| < TWO_32
    ensures Inv(Begin(s, opcode, payload))
  {
    BeginNumbered(s, opcode, payload);
    BeginFlight(s, opcode, payload);
    StreamAppend(s.calls, Call(s.conn.value, opcode, payload));
    assert s.sent == s.sent + [];
  }

  lemma BeginNumbered(s: State, opcode: u16, payload: seq<byte>)
    requires Numbered(s) && s.conn.Some? && |payload| < TWO_32
    ensures Numbered(Begin(s, opcode, payload))
  {
    NextId(|s.calls|);
  }

  lemma BeginFlight(s: State, opcode: u16, payload: seq<byte>)
    requires OneConnection(s) && ServedInOrder(s) && ReturnedInOrder(s) && InFlight(s) && s.phase.Idle? && s.conn.Some?
    ensures var s' := Begin(s, opcode, payload);
            OneConnection(s') && ServedInOrder(s') && ReturnedInOrder(s') && InFlight(s')
  {
    var c := Call(s.conn.value, opcode, payload);
    assert [] + EncodeCall(c) == EncodeCall(c);
  }

  lemma NextId(n: nat)
    ensures Wrap64(Wrap64(n + 1) + 1) == Wrap64(n + 2)
  {
  }

  lemma DialKeeps(s: State)
    requires Inv(s) && s.conn.None? && !s.killed
    ensures Inv(Dial(s)) && Dial(s).phase.Idle?
  {
    NeverDialled(s);
    DialledFresh(s.serverOpen);
  }

  lemma NeverDialled(s: State)
    requires OneConnection(s) && s.conn.None? && !s.killed
    ensures s == Start().(serverOpen := s.serverOpen)
  {
  }

  lemma DialledFresh(open: bool)
    ensures Inv(Dial(Start().(serverOpen := open)))
  {
  }

  lemma PoisonKeeps(s: State)
    requires Inv(s) && s.conn.Some?
    ensures Inv(Poison(s))
  {
  }

  lemma WriteKeeps(s: State, n: nat)
    requires Inv(s) && s.phase.Sending?
    ensures Inv(WriteStep(s, n))
  {
    var rest := s.phase.rest;
    var k := Least(n, |rest|);
    assert rest == rest[..k] + rest[k..];
    Reassociated(s.up, rest[..k], rest[k..]);
    Reassociated(s.sent, rest[..k], rest[k..]);
    if k == |rest| {
      assert rest[k..] == [] && rest[..k] == rest;
    }
  }

  lemma ReadHeaderKeeps(s: State, n: nat)
    requires Inv(s) && s.phase.AwaitHeader?
    ensures Inv(ReadHeaderStep(s, n))
  {
    if |s.served| == |s.returned| {
      assert s.down[..0] == [] && s.down[0..] == s.down && s.phase.got + [] == s.phase.got;
    } else {
      HeaderBytesKeep(s, n);
    }
  }

  lemma HeaderBytesKeep(s: State, n: nat)
    requires Inv(s) && s.phase.AwaitHeader? && |s.served| == |s.returned| + 1
    ensures Inv(ReadHeaderStep(s, n))
  {
    var got, c := s.phase.got, s.phase.call;
    var k := Least(n, Least(|s.down|, HEADER_SIZE - |got|));
    RepliesMove(s, s.phase, s.down[k..], s.outbox);
    RepliesMove(s, AwaitHeader(c, got + s.down[..k]), s.down[k..], s.outbox);
    HeaderBytesArrive(s, n, k);
  }

  lemma HeaderBytesArrive(s: State, n: nat, k: nat)
    requires s.phase.AwaitHeader? && InFlight(s) && |s.served| == |s.returned| + 1
    requires k == Least(n, Least(|s.down|, HEADER_SIZE - |s.phase.got|))
    requires Logs(s.(down := s.down[k..])) && s.conn.Some?
    requires Logs(s.(down := s.down[k..], phase := AwaitHeader(s.phase.call, s.phase.got + s.down[..k])))
    ensures Inv(ReadHeaderStep(s, n))
  {
    var got, c := s.phase.got, s.phase.call;
    var a := s.served[|s.returned|].answer;
    TakeMore(got, s.down, s.outbox, k);
    if |got + s.down[..k]| == HEADER_SIZE {
      HeaderThenBody(c, a, got + s.down[..k], s.down[k..] + s.outbox);
      HeaderArrives(s.(down := s.down[k..]), c, a);
    }
  }

  lemma TakeMore(got: seq<byte>, down: seq<byte>, outbox: seq<byte>, k: nat)
    requires k <= |down|
    ensures (got + down[..k]) + down[k..] + outbox == got + down + outbox
    ensures (got + down[..k]) + (down[k..] + outbox) == got + down + outbox
  {
    assert down == down[..k] + down[k..];
  }

  /** The first 24 bytes of a reply are its header, the rest its payload. */
  lemma HeaderThenBody(c: Call, a: Answer, first: seq<byte>, rest: seq<byte>)
    requires |first| == HEADER_SIZE && first + rest == EncodeAnswer(c, a)
    ensures DecodeHeader(first) == AnswerHeader(c, a) && rest == a.payload
  {
    var all := EncodeAnswer(c, a);
    assert first == all[..HEADER_SIZE] == EncodeHeader(AnswerHeader(c, a));
    assert rest == all[HEADER_SIZE..] == a.payload;
    HeaderRoundTrip(AnswerHeader(c, a));
  }

  lemma HeaderArrives(s: State, c: Call, a: Answer)
    requires s.phase.AwaitHeader? && Logs(s) && s.conn.Some?
    requires Pending(s, c) && |s.served| == |s.returned| + 1 && a == s.served[|s.returned|].answer
    requires s.down + s.outbox == a.payload
    ensures Inv(HeaderArrived(s, c, AnswerHeader(c, a)))
  {
    ExactLength(s, c, a);
    EmptyFirst(s.down, s.outbox);
    if |a.payload| == 0 {
      WholeBody([], s.down, s.outbox, a.payload);
      FinishKeeps(s, c, AnswerHeader(c, a), []);
    } else {
      RepliesMove(s, AwaitBody(c, AnswerHeader(c, a), []), s.down, s.outbox);
      BodyFollows(s, c, a);
    }
  }

  lemma ExactLength(s: State, c: Call, a: Answer)
    requires ServedInOrder(s) && |s.served| == |s.returned| + 1 && a == s.served[|s.returned|].answer
    ensures AnswerHeader(c, a).payloadLen == |a.payload|
  {
  }

  lemma EmptyFirst(a: seq<byte>, b: seq<byte>)
    ensures [] + a + b == a + b
  {
  }

  lemma BodyFollows(s: State, c: Call, a: Answer)
    requires Pending(s, c) && |s.served| == |s.returned| + 1 && a == s.served[|s.returned|].answer
    requires [] + s.down + s.outbox == a.payload && 0 < |a.payload| == AnswerHeader(c, a).payloadLen
    ensures InFlight(s.(phase := AwaitBody(c, AnswerHeader(c, a), [])))
  {
  }

  /** The whole reply has been read: it goes to the caller and nothing is left over. */
  lemma FinishKeeps(s: State, c: Call, h: Header, payload: seq<byte>)
    requires Logs(s) && !s.phase.Sending? && s.conn.Some? && Pending(s, c) && |s.served| == |s.returned| + 1 && Quiet(s)
    requires s.served[|s.returned|].answer == Answer(h.status, payload)
    ensures Inv(Finish(s, c, h, payload))
  {
    FinishReturned(s, c, h, payload);
  }

  lemma FinishReturned(s: State, c: Call, h: Header, payload: seq<byte>)
    requires ServedInOrder(s) && ReturnedInOrder(s) && Pending(s, c) && |s.served| == |s.returned| + 1
    requires s.served[|s.returned|].answer == Answer(h.status, payload)
    ensures ReturnedInOrder(Finish(s, c, h, payload))
  {
    assert s.served[|s.returned|] == Exchange(c, Answer(h.status, payload));
  }

  lemma ReadBodyKeeps(s: State, n: nat)
    requires Inv(s) && s.phase.AwaitBody?
    ensures Inv(ReadBodyStep(s, n))
  {
    var got, h, c := s.phase.got, s.phase.header, s.phase.call;
    var k := Least(n, Least(|s.down|, h.payloadLen - |got|));
    var got' := got + s.down[..k];
    ExactLength(s, c, s.served[|s.returned|].answer);
    RepliesMove(s, s.phase, s.down[k..], s.outbox);
    RepliesMove(s, AwaitBody(c, h, got'), s.down[k..], s.outbox);
    BodyBytesArrive(s, n, k);
  }

  lemma BodyBytesArrive(s: State, n: nat, k: nat)
    requires s.phase.AwaitBody? && InFlight(s) && s.conn.Some?
    requires s.phase.header.payloadLen == |s.served[|s.returned|].answer.payload|
    requires k == Least(n, Least(|s.down|, s.phase.header.payloadLen - |s.phase.got|))
    requires Logs(s.(down := s.down[k..]))
    requires Logs(s.(down := s.down[k..], phase := AwaitBody(s.phase.call, s.phase.header, s.phase.got + s.down[..k])))
    ensures Inv(ReadBodyStep(s, n))
  {
    TakeMore(s.phase.got, s.down, s.outbox, k);
    if |s.phase.got + s.down[..k]| == s.phase.header.payloadLen {
      BodyComplete(s, k);
    } else {
      BodyContinues(s, k);
    }
  }

  lemma BodyComplete(s: State, k: nat)
    requires s.phase.AwaitBody? && InFlight(s) && s.conn.Some? && k <= |s.down| && Logs(s.(down := s.down[k..]))
    requires var got' := s.phase.got + s.down[..k];
             && got' + s.down[k..] + s.outbox == s.phase.got + s.down + s.outbox
             && |got'| == s.phase.header.payloadLen == |s.served[|s.returned|].answer.payload|
    ensures Inv(Finish(s.(down := s.down[k..]), s.phase.call, s.phase.header, s.phase.got + s.down[..k]))
  {
    var got' := s.phase.got + s.down[..k];
    WholeBody(got', s.down[k..], s.outbox, s.served[|s.returned|].answer.payload);
    FinishKeeps(s.(down := s.down[k..]), s.phase.call, s.phase.header, got');
  }

  lemma BodyContinues(s: State, k: nat)
    requires s.phase.AwaitBody? && InFlight(s) && k <= |s.down|
    requires var got' := s.phase.got + s.down[..k];
             && got' + s.down[k..] + s.outbox == s.phase.got + s.down + s.outbox
             && |got'| < s.phase.header.payloadLen
             && Logs(s.(down := s.down[k..], phase := AwaitBody(s.phase.call, s.phase.header, got')))
    ensures Inv(s.(down := s.down[k..],
                   phase := AwaitBody(s.phase.call, s.phase.header, s.phase.got + s.down[..k])))
  {
  }

  lemma WholeBody(got: seq<byte>, down: seq<byte>, outbox: seq<byte>, payload: seq<byte>)
    requires got + down + outbox == payload && |got| == |payload|
    ensures got == payload && down == [] && outbox == []
  {
    assert |got + down + outbox| == |got| + |down| + |outbox|;
    assert got + [] + [] == got;
  }

  lemma ServeKeeps(s: State, answer: Answer)
    requires Inv(s)
    ensures Inv(ServeStep(s, answer))
  {
    if ReadFrame(s.up).Whole? {
      UpIsWhole(s);
      if s.serverOpen && s.outbox == [] && |answer.payload| <= STORAGE_CAPACITY {
        WholeIsServed(s, s.calls[|s.served|], answer);
      }
    } else {
      NothingServed(s, answer);
    }
  }

  lemma NothingServed(s: State, answer: Answer)
    requires !ReadFrame(s.up).Whole?
    ensures ServeStep(s, answer) == s || ServeStep(s, answer) == s.(serverOpen := false)
  {
  }

  /** A request is only ever served once it has arrived in full. */
  lemma UpIsWhole(s: State)
    requires Numbered(s) && ServedInOrder(s) && ReadFrame(s.up).Whole?
    ensures |s.calls| == |s.served| + 1 && s.up == EncodeCall(s.calls[|s.served|])
  {
    var c := s.calls[|s.served|];
    assert s.up == EncodeCall(c)[..|s.up|];
    if |s.up| < |EncodeCall(c)| {
      PrefixIsPartial(c, |s.up|);
    }
  }

  lemma WholeIsServed(s: State, c: Call, answer: Answer)
    requires Inv(s) && s.serverOpen && s.outbox == [] && |answer.payload| <= STORAGE_CAPACITY
    requires |s.calls| == |s.served| + 1 && c == s.calls[|s.served|] && s.up == EncodeCall(c) && ReadFrame(s.up).Whole?
    ensures Inv(ServeStep(s, answer))
  {
    ServedStep(s, c, answer);
    NotSending(s, c);
    AnswerQueued(s, c, answer);
  }

  lemma ServedStep(s: State, c: Call, answer: Answer)
    requires s.serverOpen && s.outbox == [] && |answer.payload| <= STORAGE_CAPACITY && |c.payload| < TWO_32
    requires s.up == EncodeCall(c) && ReadFrame(s.up).Whole?
    ensures ServeStep(s, answer)
         == s.(up := [], served := s.served + [Exchange(c, answer)], outbox := EncodeAnswer(c, answer))
  {
    assert EncodeCall(c) + [] == EncodeCall(c);
    FrameRoundTrip(c, []);
  }

  lemma NotSending(s: State, c: Call)
    requires InFlight(s) && |s.calls| == |s.served| + 1 && c == s.calls[|s.served|] && s.up == EncodeCall(c)
    ensures !s.phase.Sending?
  {
  }

  lemma AnswerQueued(s: State, c: Call, answer: Answer)
    requires Inv(s) && s.serverOpen && s.outbox == [] && |answer.payload| <= STORAGE_CAPACITY && !s.phase.Sending?
    requires |s.calls| == |s.served| + 1 && c == s.calls[|s.served|]
    ensures Inv(s.(up := [], served := s.served + [Exchange(c, answer)], outbox := EncodeAnswer(c, answer)))
  {
    var s' := s.(up := [], served := s.served + [Exchange(c, answer)], outbox := EncodeAnswer(c, answer));
    AnswerLogged(s, c, answer);
    if s.phase.AwaitHeader? {
      assert [] + [] + EncodeAnswer(c, answer) == EncodeAnswer(c, answer);
    }
  }

  lemma AnswerLogged(s: State, c: Call, answer: Answer)
    requires Logs(s) && |answer.payload| <= STORAGE_CAPACITY
    requires |s.calls| == |s.served| + 1 && c == s.calls[|s.served|]
    ensures Logs(s.(up := [], served := s.served + [Exchange(c, answer)], outbox := EncodeAnswer(c, answer)))
  {
    AnswerInOrder(s, c, answer);
  }

  lemma AnswerInOrder(s: State, c: Call, answer: Answer)
    requires ServedInOrder(s) && ReturnedInOrder(s) && |answer.payload| <= STORAGE_CAPACITY
    requires |s.calls| == |s.served| + 1 && c == s.calls[|s.served|]
    ensures var s' := s.(up := [], served := s.served + [Exchange(c, answer)], outbox := EncodeAnswer(c, answer));
            ServedInOrder(s') && ReturnedInOrder(s')
  {
  }

  lemma ServerWritesKeeps(s: State, n: nat)
    requires Inv(s)
    ensures Inv(ServerWriteStep(s, n))
  {
    if s.dials == 1 {
      var k := Least(n, |s.outbox|);
      RepliesMove(s, s.phase, s.down + s.outbox[..k], s.outbox[k..]);
      OutboxMoves(s, k);
    } else {
      NothingToWrite(s, n);
    }
  }

  lemma NothingToWrite(s: State, n: nat)
    requires s.down == [] && s.outbox == []
    ensures ServerWriteStep(s, n) == s
  {
    assert s.down + s.outbox[..0] == [] && s.outbox[0..] == [];
  }

  lemma OutboxMoves(s: State, k: nat)
    requires InFlight(s) && k <= |s.outbox|
    ensures InFlight(s.(down := s.down + s.outbox[..k], outbox := s.outbox[k..]))
  {
    assert s.outbox == s.outbox[..k] + s.outbox[k..];
    if s.phase.AwaitHeader? || s.phase.AwaitBody? {
      assert s.phase.got + (s.down + s.outbox[..k]) + s.outbox[k..] == s.phase.got + s.down + s.outbox;
    }
  }

  lemma NextKeeps(s: State, a: Action)
    requires Inv(s) && Sendable(a)
    ensures Inv(Next(s, a))
  {
    if a.Request? || a.Heartbeat? {
      StartKeeps(s, a);
    } else if a.WriteFails? || a.ReadFails? {
      FailureKeeps(s, a);
    } else if a.Write? || a.Read? {
      TransferKeeps(s, a);
    } else if a.ServeNext? {
      ServeKeeps(s, a.answer);
    } else if a.ServerWrites? {
      ServerWritesKeeps(s, a.n);
    }
  }

  lemma StartKeeps(s: State, a: Action)
    requires Inv(s) && Sendable(a) && (a.Request? || a.Heartbeat?)
    ensures Inv(Next(s, a))
  {
    if s.phase.Idle? {
      if a.Heartbeat? {
        if s.conn.Some? {
          BeginKeeps(s, OP_PING, []);
        }
      } else if s.conn.Some? {
        BeginKeeps(s, a.opcode, a.payload);
      } else if !s.killed && a.dialSucceeds {
        DialKeeps(s);
        BeginKeeps(Dial(s), a.opcode, a.payload);
      }
    }
  }

  lemma FailureKeeps(s: State, a: Action)
    requires Inv(s) && (a.WriteFails? || a.ReadFails?)
    ensures Inv(Next(s, a))
  {
    if !s.phase.Idle? {
      PoisonKeeps(s);
    }
  }

  lemma TransferKeeps(s: State, a: Action)
    requires Inv(s) && (a.Write? || a.Read?)
    ensures Inv(Next(s, a))
  {
    if a.Write? {
      if s.phase.Sending? {
        WriteKeeps(s, a.n);
      }
    } else if s.phase.AwaitHeader? {
      ReadHeaderKeeps(s, a.n);
    } else if s.phase.AwaitBody? {
      ReadBodyKeeps(s, a.n);
    }
  }

  lemma {:induction false} PlayKeeps(s: State, actions: seq<Action>)
    requires Inv(s) && forall i :: 0 <= i < |actions| ==> Sendable(actions[i])
    ensures Inv(Play(s, actions))
    decreases |actions|
  {
    if |actions| > 0 {
      NextKeeps(s, actions[0]);
      PlayKeeps(Next(s, actions[0]), actions[1..]);
    }
  }

  // ---------- whole runs ----------

  /** In every interleaving at most one connection is ever made, and its requests are
      numbered 1, 2, 3 and so on. */
  lemma OneConnectionNumberedFromOne(actions: seq<Action>)
    requires forall i :: 0 <= i < |actions| ==> Sendable(actions[i])
    ensures var s := Play(Start(), actions);
            && s.dials <= 1
            && forall i :: 0 <= i < |s.calls| ==> s.calls[i].id == Wrap64(i + 1)
  {
    PlayKeeps(Start(), actions);
  }

  /** Every answer a caller gets is the worker's answer to that caller's own request, although
      ids are never compared; and the worker saw exactly the requests that were sent. */
  lemma AnswersMatchRequests(actions: seq<Action>)
    requires forall i :: 0 <= i < |actions| ==> Sendable(actions[i])
    ensures var s := Play(Start(), actions);
            && |s.returned| <= |s.served| <= |s.calls|
            && (forall i :: 0 <= i < |s.served| ==> s.served[i].call == s.calls[i])
            && (forall i :: 0 <= i < |s.returned| ==> s.returned[i] == s.served[i])
            && s.sent <= Stream(s.calls)
  {
    PlayKeeps(Start(), actions);
  }

  /** After the first I/O failure the transport is finished: whatever happens next, no
      connection, no request, no byte and no answer follows it. */
  lemma {:induction false} FailureIsFinal(s: State, actions: seq<Action>)
    requires s.killed && s.conn.None? && s.phase.Idle?
    ensures var s' := Play(s, actions);
            && s'.killed && s'.conn.None? && s'.phase.Idle?
            && s'.dials == s.dials && s'.sent == s.sent && s'.calls == s.calls && s'.returned == s.returned
    decreases |actions|
  {
    if |actions| > 0 {
      FailureIsFinal(Next(s, actions[0]), actions[1..]);
    }
  }

  /** In every run: once some read or write has failed, whatever follows leaves the connection
      count, the bytes sent, the requests begun and the answers returned as they were. */
  lemma SilentAfterFailure(before: seq<Action>, after: seq<Action>)
    requires forall i :: 0 <= i < |before| ==> Sendable(before[i])
    requires Play(Start(), before).killed
    ensures var s, s' := Play(Start(), before), Play(Start(), before + after);
            s'.dials == s.dials == 1 && s'.sent == s.sent && s'.calls == s.calls && s'.returned == s.returned
  {
    PlayKeeps(Start(), before);
    PlayConcat(Start(), before, after);
    FailureIsFinal(Play(Start(), before), after);
  }

  lemma {:induction false} PlayConcat(s: State, a: seq<Action>, b: seq<Action>)
    ensures Play(s, a + b) == Play(Play(s, a), b)
    decreases |a|
  {
    if |a| == 0 {
      assert a + b == b;
    } else {
      assert (a + b)[1..] == a[1..] + b;
      PlayConcat(Next(s, a[0]), a[1..], b);
    }
  }

  /** The I/O action fails under the thread that holds the lock, request or heartbeat alike. */
  predicate Fails(s: State, a: Action) {
    if s.phase.Sending? then a.WriteFails? else !s.phase.Idle? && a.ReadFails?
  }

  /** In every run, a failure at any byte of a request or a heartbeat ends the transport there:
      whatever follows, the request it hit is the last one begun and is never answered, and no
      byte, connection or answer is added. */
  lemma FailureKills(before: seq<Action>, a: Action, after: seq<Action>)
    requires (forall i :: 0 <= i < |before| ==> Sendable(before[i])) && Fails(Play(Start(), before), a)
    ensures var s, s' := Play(Start(), before), Play(Start(), before + [a] + after);
            && s'.killed && s'.conn.None? && s'.phase.Idle?
            && s'.dials == 1 && s'.sent == s.sent && s'.calls == s.calls && s'.returned == s.returned
            && |s'.calls| == |s'.returned| + 1 && s'.calls[|s'.returned|] == s.phase.call
  {
    var s := Play(Start(), before);
    PlayKeeps(Start(), before);
    FailureHits(s, a);
    PlayConcat(Start(), before, [a]);
    assert Play(s, [a]) == Next(s, a);
    PlayConcat(Start(), before + [a], after);
    FailureIsFinal(Next(s, a), after);
  }

  lemma FailureHits(s: State, a: Action)
    requires OneConnection(s) && InFlight(s) && Fails(s, a)
    ensures Next(s, a) == Poison(s) && s.dials == 1
    ensures |s.calls| == |s.returned| + 1 && s.calls[|s.returned|] == s.phase.call
  {
  }

  lemma KilledBy(s: State, a: Action)
    ensures Next(s, a).killed <==> s.killed || Fails(s, a)
  {
  }

  ghost predicate FailsAt(actions: seq<Action>, i: nat) {
    i < |actions| && Fails(Play(Start(), actions[..i]), actions[i])
  }

  lemma FailsBefore(actions: seq<Action>, a: Action, i: nat)
    requires i < |actions|
    ensures FailsAt(actions + [a], i) <==> FailsAt(actions, i)
  {
    assert (actions + [a])[..i] == actions[..i];
  }

  lemma FailsLast(actions: seq<Action>, a: Action)
    ensures FailsAt(actions + [a], |actions|) <==> Fails(Play(Start(), actions), a)
    ensures Play(Start(), actions + [a]) == Next(Play(Start(), actions), a)
  {
    assert (actions + [a])[..|actions|] == actions;
    PlayConcat(Start(), actions, [a]);
    assert Play(Play(Start(), actions), [a]) == Next(Play(Start(), actions), a);
  }

  /** Nothing else ends it: the transport is dead exactly when some action of the run failed. */
  lemma {:induction false} KilledIffSomeFailed(actions: seq<Action>)
    ensures Play(Start(), actions).killed <==> exists i :: FailsAt(actions, i)
    decreases |actions|
  {
    if |actions| > 0 {
      var before, a := actions[..|actions| - 1], actions[|actions| - 1];
      assert before + [a] == actions;
      KilledIffSomeFailed(before);
      FailsLast(before, a);
      KilledBy(Play(Start(), before), a);
      forall i: nat | i < |before| ensures FailsAt(actions, i) <==> FailsAt(before, i) {
        FailsBefore(before, a, i);
      }
      if exists i :: FailsAt(before, i) {
        var i :| FailsAt(before, i);
        assert FailsAt(actions, i);
      }
    }
  }
}
