/** The connection loop: frames in, one reply frame per request out. */
module Server {
  import opened Bits
  import opened Protocol
  import opened Wire
  import opened Worker
  import opened WorkerInvariant
  import opened WorkerTheorems
  import MockBackend

  /** How payload structs are read and replies laid out; only the sizes matter here. */
  type Parse = (Header, seq<byte>) -> Request
  type Render = Reply -> seq<byte>

  ghost predicate RightSizes(render: Render) {
    forall r: Reply :: |render(r)| == ReplySize(r)
  }

  /** An error keeps its status, or gets the unsupported-opcode one, and carries no payload. */
  function AnswerOf(out: Outcome, render: Render): (a: Answer) {
    match out
    case Ok(reply) => Answer(STATUS_OK, render(reply))
    case Err(status) => Answer(if status == 0 then STATUS_UNSUPPORTED_OPCODE else status, [])
  }

  datatype Served = Served(worker: Worker, output: seq<byte>)

  /** All replies to an input stream, up to the first frame that is incomplete or too large. */
  function Serve(w: Worker, input: seq<byte>, parse: Parse, render: Render): (r: Served)
    decreases |input|
  {
    match ReadFrame(input)
    case Partial => Served(w, [])
    case Oversized => Served(w, [])
    case Whole(h, payload, rest) =>
      var step := Dispatch(w, parse(h, payload), STORAGE_CAPACITY);
      var next := Serve(step.worker, rest, parse, render);
      Served(next.worker, EncodeAnswer(CallOf(h, payload), AnswerOf(step.outcome, render)) + next.output)
  }

  /** The worker's part in one turn of the loop: its new state and the reply's bytes. */
  type Perform = (Worker, Header, seq<byte>) -> Served

  function Performed(w: Worker, h: Header, payload: seq<byte>, parse: Parse, render: Render): (r: Served) {
    var step := Dispatch(w, parse(h, payload), STORAGE_CAPACITY);
    Served(step.worker, EncodeAnswer(CallOf(h, payload), AnswerOf(step.outcome, render)))
  }

  function Performing(parse: Parse, render: Render): (perform: Perform) {
    (w: Worker, h: Header, payload: seq<byte>) => Performed(w, h, payload, parse, render)
  }

  ghost predicate Follows(perform: Perform, parse: Parse, render: Render) {
    forall w, h, payload {:trigger Performed(w, h, payload, parse, render)} ::
      perform(w, h, payload) == Performed(w, h, payload, parse, render)
  }

  /** The loop over a stream that accepts only `room` more bytes: the write that hits the limit
      fails, part of its reply may be out, and the connection ends. */
  function Loop(w: Worker, input: seq<byte>, room: nat, perform: Perform): (r: Served)
    decreases |input|
  {
    match ReadFrame(input)
    case Partial => Served(w, [])
    case Oversized => Served(w, [])
    case Whole(h, payload, rest) =>
      var one := perform(w, h, payload);
      if |one.output| > room then Served(one.worker, one.output[..room])
      else After(one.output, Loop(one.worker, rest, room - |one.output|, perform))
  }

  function After(output: seq<byte>, r: Served): (s: Served) {
    Served(r.worker, output + r.output)
  }

  lemma AfterTwice(a: seq<byte>, b: seq<byte>, r: Served)
    ensures After(a, After(b, r)) == After(a + b, r)
  {
    Reassociated(a, b, r.output);
  }

  method HandleRequest(backend: MockBackend.Backend, h: Header, payload: seq<byte>, parse: Parse, render: Render)
    returns (reply: seq<byte>)
    modifies backend
    ensures Served(backend.State(), reply) == Performed(old(backend.State()), h, payload, parse, render)
  {
    var out := backend.Handle(parse(h, payload), STORAGE_CAPACITY);
    reply := EncodeAnswer(CallOf(h, payload), AnswerOf(out, render));
  }

  /** One turn of the loop: a request is read and performed and its reply written. */
  method Turn(backend: MockBackend.Backend, unread: seq<byte>, room: nat, parse: Parse, render: Render,
      ghost perform: Perform)
    returns (more: bool, rest: seq<byte>, written: seq<byte>)
    requires Follows(perform, parse, render)
    modifies backend
    ensures |written| <= room && (more ==> |rest| < |unread|)
    ensures Loop(old(backend.State()), unread, room, perform)
         == if more then After(written, Loop(backend.State(), rest, room - |written|, perform))
            else Served(backend.State(), written)
  {
    var frame := ReadFrame(unread);
    if !frame.Whole? {
      return false, [], [];
    }
    var reply := HandleRequest(backend, frame.header, frame.payload, parse, render);
    if |reply| > room {
      return false, [], reply[..room];
    }
    return true, frame.rest, reply;
  }

  method HandleFrames(backend: MockBackend.Backend, input: seq<byte>, room: nat, parse: Parse, render: Render,
      ghost perform: Perform)
    returns (output: seq<byte>)
    requires Follows(perform, parse, render)
    modifies backend
    ensures Served(backend.State(), output) == Loop(old(backend.State()), input, room, perform)
  {
    output := [];
    var unread := input;
    var free: nat := room;
    ghost var left := Loop(backend.State(), input, room, perform);
    ghost var goal := left;
    assert After([], goal) == goal;
    while true
      invariant left == Loop(backend.State(), unread, free, perform) && After(output, left) == goal
      decreases |unread|
    {
      var more, rest, written := Turn(backend, unread, free, parse, render, perform);
      if !more {
        output := output + written;
        return;
      }
      unread, free := rest, free - |written|;
      left := Loop(backend.State(), unread, free, perform);
      AfterTwice(output, written, left);
      output := output + written;
    }
  }

  /** `handle_connection` on one backend object, whose stream accepts `room` bytes. */
  method HandleConnection(backend: MockBackend.Backend, input: seq<byte>, room: nat, parse: Parse, render: Render)
    returns (output: seq<byte>)
    modifies backend
    ensures Served(backend.State(), output) == Loop(old(backend.State()), input, room, Performing(parse, render))
  {
    output := HandleFrames(backend, input, room, parse, render, Performing(parse, render));
  }

  lemma Reassociated(a: seq<byte>, b: seq<byte>, c: seq<byte>)
    ensures (a + b) + c == a + (b + c)
  {
  }

  // ---------- framing is transparent ----------

  function Stream(calls: seq<Call>): (r: seq<byte>) {
    if |calls| == 0 then [] else EncodeCall(calls[0]) + Stream(calls[1..])
  }

  function Parsed(calls: seq<Call>, parse: Parse): (r: seq<Request>)
    ensures |r| == |calls|
  {
    seq(|calls|, i requires 0 <= i < |calls| => parse(CallHeader(calls[i]), calls[i].payload))
  }

  /** The replies a run of the worker owes its callers, in order. */
  function Replies(w: Worker, calls: seq<Call>, parse: Parse, render: Render): (r: seq<byte>)
    decreases |calls|
  {
    if |calls| == 0 then []
    else
      var step := Dispatch(w, parse(CallHeader(calls[0]), calls[0].payload), STORAGE_CAPACITY);
      EncodeAnswer(calls[0], AnswerOf(step.outcome, render)) + Replies(step.worker, calls[1..], parse, render)
  }

  lemma {:induction false} RunFromFront(w: Worker, req: Request, reqs: seq<Request>, cap: nat)
    ensures Run(w, [req] + reqs, cap) == Run(Dispatch(w, req, cap).worker, reqs, cap)
    decreases |reqs|
  {
    var all := [req] + reqs;
    if |reqs| == 0 {
      assert all[..0] == [];
      assert all == [req];
    } else {
      var n := |reqs| - 1;
      RunFromFront(w, req, reqs[..n], cap);
      assert all[..|all| - 1] == [req] + reqs[..n];
    }
  }

  /** Requests within the size limit, however many, are each answered once, in order, and the
      worker ends where running them directly would leave it. A request over the limit ends
      the connection: nothing from it on is served. */
  lemma {:induction false} FramingIsTransparent(w: Worker, calls: seq<Call>, tail: seq<byte>, parse: Parse,
      render: Render)
    requires forall i :: 0 <= i < |calls| ==> |calls[i].payload| <= STORAGE_CAPACITY
    requires !ReadFrame(tail).Whole?
    ensures Serve(w, Stream(calls) + tail, parse, render)
         == Served(Run(w, Parsed(calls, parse), STORAGE_CAPACITY), Replies(w, calls, parse, render))
    decreases |calls|
  {
    if |calls| == 0 {
      assert Stream(calls) + tail == tail;
    } else {
      var c, rest := calls[0], calls[1..];
      var req := parse(CallHeader(c), c.payload);
      FirstIsServed(w, c, Stream(rest) + tail, parse, render);
      Reassociated(EncodeCall(c), Stream(rest), tail);
      FramingIsTransparent(Dispatch(w, req, STORAGE_CAPACITY).worker, rest, tail, parse, render);
      ParsedFirst(calls, parse);
      RunFromFront(w, req, Parsed(rest, parse), STORAGE_CAPACITY);
    }
  }

  lemma FirstIsServed(w: Worker, c: Call, rest: seq<byte>, parse: Parse, render: Render)
    requires |c.payload| <= STORAGE_CAPACITY
    ensures var step := Dispatch(w, parse(CallHeader(c), c.payload), STORAGE_CAPACITY);
            var next := Serve(step.worker, rest, parse, render);
            Serve(w, EncodeCall(c) + rest, parse, render)
            == Served(next.worker, EncodeAnswer(c, AnswerOf(step.outcome, render)) + next.output)
  {
    FrameRoundTrip(c, rest);
  }

  lemma ParsedFirst(calls: seq<Call>, parse: Parse)
    requires |calls| > 0
    ensures Parsed(calls, parse) == [parse(CallHeader(calls[0]), calls[0].payload)] + Parsed(calls[1..], parse)
  {
  }

  /** The header alone settles it: whatever follows, or nothing, is not read. */
  lemma OversizedEndsConnection(c: Call, rest: seq<byte>)
    requires STORAGE_CAPACITY < |c.payload| < TWO_32
    ensures ReadFrame(EncodeHeader(CallHeader(c)) + rest) == Oversized
  {
    HeaderRoundTrip(CallHeader(c));
    assert (EncodeHeader(CallHeader(c)) + rest)[..HEADER_SIZE] == EncodeHeader(CallHeader(c));
  }

  // ---------- a reply that cannot be written ----------

  function Prefix(s: seq<byte>, room: nat): (r: seq<byte>) {
    if |s| <= room then s else s[..room]
  }

  lemma PrefixOfPair(a: seq<byte>, b: seq<byte>, room: nat)
    ensures Prefix(a + b, room) == if |a| > room then a[..room] else a + Prefix(b, room - |a|)
  {
  }

  /** The loop over a stream that accepts everything. */
  function Unbounded(w: Worker, input: seq<byte>, perform: Perform): (r: Served)
    decreases |input|
  {
    match ReadFrame(input)
    case Partial => Served(w, [])
    case Oversized => Served(w, [])
    case Whole(h, payload, rest) =>
      var one := perform(w, h, payload);
      After(one.output, Unbounded(one.worker, rest, perform))
  }

  lemma {:induction false} UnboundedIsServe(w: Worker, input: seq<byte>, parse: Parse, render: Render)
    ensures Unbounded(w, input, Performing(parse, render)) == Serve(w, input, parse, render)
    decreases |input|
  {
    if ReadFrame(input).Whole? {
      var f := ReadFrame(input);
      UnboundedIsServe(Dispatch(w, parse(f.header, f.payload), STORAGE_CAPACITY).worker, f.rest, parse, render);
    }
  }

  lemma {:induction false} LoopIsPrefix(w: Worker, input: seq<byte>, room: nat, perform: Perform)
    ensures var r, full := Loop(w, input, room, perform), Unbounded(w, input, perform);
            r.output == Prefix(full.output, room) && (|full.output| <= room ==> r == full)
    decreases |input|
  {
    if ReadFrame(input).Whole? {
      var f := ReadFrame(input);
      var one := perform(w, f.header, f.payload);
      PrefixOfPair(one.output, Unbounded(one.worker, f.rest, perform).output, room);
      if |one.output| <= room {
        LoopIsPrefix(one.worker, f.rest, room - |one.output|, perform);
      }
    }
  }

  /** A failed write only cuts the stream of replies short. With room for all of them nothing
      is lost, neither replies nor requests. */
  lemma FailedWriteCutsReplies(w: Worker, input: seq<byte>, room: nat, parse: Parse, render: Render)
    ensures var r, full := Loop(w, input, room, Performing(parse, render)), Serve(w, input, parse, render);
            r.output == Prefix(full.output, room) && (|full.output| <= room ==> r == full)
  {
    LoopIsPrefix(w, input, room, Performing(parse, render));
    UnboundedIsServe(w, input, parse, render);
  }

  /** A run of requests performed one after the other. */
  function Exchanged(w: Worker, calls: seq<Call>, perform: Perform): (r: Served)
    decreases |calls|
  {
    if |calls| == 0 then Served(w, [])
    else
      var one := perform(w, CallHeader(calls[0]), calls[0].payload);
      After(one.output, Exchanged(one.worker, calls[1..], perform))
  }

  lemma {:induction false} ExchangedIsRun(w: Worker, calls: seq<Call>, parse: Parse, render: Render)
    ensures Exchanged(w, calls, Performing(parse, render))
         == Served(Run(w, Parsed(calls, parse), STORAGE_CAPACITY), Replies(w, calls, parse, render))
    decreases |calls|
  {
    if |calls| > 0 {
      var req := parse(CallHeader(calls[0]), calls[0].payload);
      ExchangedIsRun(Dispatch(w, req, STORAGE_CAPACITY).worker, calls[1..], parse, render);
      ParsedFirst(calls, parse);
      RunFromFront(w, req, Parsed(calls[1..], parse), STORAGE_CAPACITY);
    }
  }

  /** After a failed write the worker has performed the requests answered in full and the one
      whose reply was cut, and no other. */
  lemma CutReplyIsLast(w: Worker, calls: seq<Call>, tail: seq<byte>, room: nat, parse: Parse, render: Render)
    returns (m: nat)
    requires forall i :: 0 <= i < |calls| ==> |calls[i].payload| <= STORAGE_CAPACITY
    requires !ReadFrame(tail).Whole?
    ensures m <= |calls|
    ensures Loop(w, Stream(calls) + tail, room, Performing(parse, render)).worker
         == Run(w, Parsed(calls[..m], parse), STORAGE_CAPACITY)
    ensures m < |calls| ==> |Replies(w, calls[..m], parse, render)| > room
    ensures m > 0 ==> |Replies(w, calls[..m - 1], parse, render)| <= room
  {
    m := CutAt(w, calls, tail, room, Performing(parse, render));
    ExchangedIsRun(w, calls[..m], parse, render);
    if m > 0 {
      ExchangedIsRun(w, calls[..m - 1], parse, render);
    }
  }

  lemma {:induction false} CutAt(w: Worker, calls: seq<Call>, tail: seq<byte>, room: nat, perform: Perform)
    returns (m: nat)
    requires forall i :: 0 <= i < |calls| ==> |calls[i].payload| <= STORAGE_CAPACITY
    requires !ReadFrame(tail).Whole?
    ensures m <= |calls|
    ensures Loop(w, Stream(calls) + tail, room, perform).worker == Exchanged(w, calls[..m], perform).worker
    ensures m < |calls| ==> |Exchanged(w, calls[..m], perform).output| > room
    ensures m > 0 ==> |Exchanged(w, calls[..m - 1], perform).output| <= room
    decreases |calls|
  {
    if |calls| == 0 {
      assert Stream(calls) + tail == tail;
      m := 0;
    } else {
      var rest, one := calls[1..], perform(w, CallHeader(calls[0]), calls[0].payload);
      FirstIsLooped(w, calls[0], Stream(rest) + tail, room, perform);
      Reassociated(EncodeCall(calls[0]), Stream(rest), tail);
      if |one.output| > room {
        m := 1;
        ExchangedFirst(w, calls, 0, perform);
      } else {
        var k := CutAt(one.worker, rest, tail, room - |one.output|, perform);
        m := k + 1;
        ExchangedFirst(w, calls, k, perform);
        if k > 0 {
          ExchangedFirst(w, calls, k - 1, perform);
        }
      }
    }
  }

  lemma FirstIsLooped(w: Worker, c: Call, rest: seq<byte>, room: nat, perform: Perform)
    requires |c.payload| <= STORAGE_CAPACITY
    ensures var one := perform(w, CallHeader(c), c.payload);
            Loop(w, EncodeCall(c) + rest, room, perform).worker
            == if |one.output| > room then one.worker else Loop(one.worker, rest, room - |one.output|, perform).worker
  {
    FrameRoundTrip(c, rest);
  }

  /** The first k + 1 requests are the first one and then k of the rest. */
  lemma ExchangedFirst(w: Worker, calls: seq<Call>, k: nat, perform: Perform)
    requires k < |calls|
    ensures var one := perform(w, CallHeader(calls[0]), calls[0].payload);
            Exchanged(w, calls[..k + 1], perform) == After(one.output, Exchanged(one.worker, calls[1..][..k], perform))
  {
    assert calls[..k + 1][1..] == calls[1..][..k];
  }

  // ---------- status rule ----------

  /** From any reachable worker, a reply has status OK exactly when the request succeeded, and then
      carries its result; a failed one has the failure's status, which is not OK, no payload, and
      left the worker as it was. */
  lemma FailuresAreClean(w: Worker, req: Request, render: Render)
    requires Valid(w)
    ensures var step := Dispatch(w, req, STORAGE_CAPACITY);
            var a := AnswerOf(step.outcome, render);
            && (a.status == STATUS_OK <==> step.outcome.Ok?)
            && (step.outcome.Ok? ==> a.payload == render(step.outcome.reply))
            && (a.status != STATUS_OK ==> a.payload == [] && step.worker == w)
            && (step.outcome.Err? && step.outcome.status != STATUS_OK ==> a.status == step.outcome.status)
  {
    if Dispatch(w, req, STORAGE_CAPACITY).outcome.Err? {
      ErrorChangesNothing(w, req, STORAGE_CAPACITY);
    }
  }

  /** Every reply fits the response buffer, and its length field is exact. */
  lemma RepliesFit(w: Worker, req: Request, c: Call, render: Render)
    requires RightSizes(render)
    ensures var a := AnswerOf(Dispatch(w, req, STORAGE_CAPACITY).outcome, render);
            |a.payload| <= STORAGE_CAPACITY && AnswerHeader(c, a).payloadLen == |a.payload|
  {
    var out := Dispatch(w, req, STORAGE_CAPACITY).outcome;
    OkReplyFits(w, req, STORAGE_CAPACITY);
    if out.Ok? {
      assert |render(out.reply)| == ReplySize(out.reply);
    }
  }

  lemma OkReplyFits(w: Worker, req: Request, cap: nat)
    ensures var out := Dispatch(w, req, cap).outcome;
            out.Ok? ==> ReplySize(out.reply) <= cap
  {
  }
}
