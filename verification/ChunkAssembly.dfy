/** What the worker's assembly of chunks makes of any chunks at all, in any order, for any number of
    sessions at once. */
module ChunkAssembly {
  import opened Bits
  import opened Collections
  import opened Protocol
  import opened EncodedChunks

  /** The bytes of `parts`, end to end. */
  function Joined(parts: seq<Chunk>): (bytes: seq<byte>) {
    if parts == [] then [] else Joined(parts[..|parts| - 1]) + parts[|parts| - 1].data
  }

  /** Parts of one frame from its head on: each begins where those before it end, and all give the
      same frame size. */
  ghost predicate InOrder(sessionId: nat, parts: seq<Chunk>) {
    forall k :: 0 <= k < |parts| ==>
      && parts[k].sessionId == sessionId
      && parts[k].total == parts[0].total
      && parts[k].offset == |Joined(parts[..k])|
  }

  /** `sessionId`'s assembly holds exactly `parts`, with the size and timing of the first. */
  ghost predicate Holds(r: Intake, sessionId: nat, parts: seq<Chunk>) {
    && InOrder(sessionId, parts)
    && (sessionId in r.pending <==> parts != [])
    && (parts != [] ==> r.pending[sessionId] == Assembly(Joined(parts), parts[0].total, parts[0].timing))
  }

  /** A chunk that is within its own bounds. */
  predicate Sound(c: Chunk) {
    && c.length == |c.data|
    && c.offset + c.length <= c.total <= 64 * 1024 * 1024
    && (if c.length == 0 then c.final && c.total > 0 else true)
  }

  /** A head begins a new frame; any other chunk must follow on from `parts`. */
  predicate Follows(parts: seq<Chunk>, c: Chunk) {
    c.offset == 0 || (parts != [] && parts[0].total == c.total && |Joined(parts)| == c.offset)
  }

  predicate Taken(sessions: set<nat>, parts: seq<Chunk>, c: Chunk) {
    Sound(c) && c.sessionId in sessions && Follows(parts, c)
  }

  function With(parts: seq<Chunk>, c: Chunk): (whole: seq<Chunk>) {
    if c.offset == 0 then [c] else parts + [c]
  }

  /** What is held after `c`: nothing once a final chunk was taken, complete or not. */
  function After(sessions: set<nat>, parts: seq<Chunk>, c: Chunk): (parts': seq<Chunk>) {
    if !Taken(sessions, parts, c) then parts else if c.final then [] else With(parts, c)
  }

  /** `c` completes a frame: it is the last one and the parts make up the size they give. */
  predicate Completes(sessions: set<nat>, parts: seq<Chunk>, c: Chunk) {
    Taken(sessions, parts, c) && c.final && |Joined(With(parts, c))| == c.total
  }

  function Due(sessions: set<nat>, parts: seq<Chunk>, c: Chunk): (deliveries: seq<Delivery>) {
    if !Completes(sessions, parts, c) then []
    else
      var whole := With(parts, c);
      [Delivery(c.sessionId, Joined(whole), whole[0].timing)]
  }

  /** The status of a chunk, by its first fault. */
  function StatusDue(sessions: set<nat>, parts: seq<Chunk>, c: Chunk, verdict: u32): (status: u32) {
    if !Sound(c) then STATUS_BOUNDS_VIOLATION
    else if c.sessionId !in sessions then STATUS_INVALID_HANDLE
    else if !Follows(parts, c) then STATUS_INVALID_STATE
    else if !c.final then STATUS_OK
    else if Completes(sessions, parts, c) then verdict
    else STATUS_INVALID_STATE
  }

  lemma JoinedWith(sessionId: nat, parts: seq<Chunk>, c: Chunk)
    requires InOrder(sessionId, parts) && c.sessionId == sessionId && Follows(parts, c)
    ensures InOrder(sessionId, With(parts, c))
    ensures Joined(With(parts, c)) == (if c.offset == 0 then c.data else Joined(parts) + c.data)
    ensures With(parts, c)[0].total == c.total
  {
    var whole := With(parts, c);
    var n := |whole| - 1;
    assert whole[..n] == if c.offset == 0 then [] else parts;
    forall k | 0 <= k < n ensures whole[..k] == parts[..k] {
    }
  }

  lemma AccumulateIs(r: Intake, parts: seq<Chunk>, c: Chunk)
    requires Holds(r, c.sessionId, parts)
    ensures InOrder(c.sessionId, parts)
    ensures Accumulate(r, c).Some? <==> Follows(parts, c)
    ensures Follows(parts, c) ==>
      Accumulate(r, c).value == Assembly(Joined(With(parts, c)), c.total, With(parts, c)[0].timing)
  {
    if Follows(parts, c) {
      JoinedWith(c.sessionId, parts, c);
    }
  }

  /** One chunk for the session itself: what it is answered, what is dispatched, what is held. */
  lemma OwnChunk(r: Intake, parts: seq<Chunk>, c: Chunk, verdict: u32)
    requires Holds(r, c.sessionId, parts)
    ensures var s := Receive(r, c, verdict);
            && s.status == StatusDue(r.sessions, parts, c, verdict)
            && s.intake.dispatched == r.dispatched + Due(r.sessions, parts, c)
            && s.intake.sessions == r.sessions
            && Holds(s.intake, c.sessionId, After(r.sessions, parts, c))
  {
    assert WellFormed(c) <==> Sound(c);
    AccumulateIs(r, parts, c);
    if Follows(parts, c) {
      JoinedWith(c.sessionId, parts, c);
    }
  }

  /** One chunk for another session leaves this one's assembly alone. */
  lemma OthersChunk(r: Intake, sessionId: nat, parts: seq<Chunk>, c: Chunk, verdict: u32)
    requires Holds(r, sessionId, parts) && c.sessionId != sessionId
    ensures var s := Receive(r, c, verdict);
            && Holds(s.intake, sessionId, parts)
            && s.intake.sessions == r.sessions
            && Keep(s.intake.dispatched, To(sessionId)) == Keep(r.dispatched, To(sessionId))
  {
    var s := Receive(r, c, verdict);
    if s.intake.dispatched != r.dispatched {
      KeepAppend(r.dispatched, s.intake.dispatched[|r.dispatched|], To(sessionId));
    }
  }

  // ---------- whole runs ----------

  /** A chunk and what the decoder would make of a frame it completes. */
  datatype Sent = Sent(chunk: Chunk, verdict: u32)

  function ReceiveAll(r: Intake, script: seq<Sent>): (r': Intake)
    decreases |script|
  {
    if script == [] then r else ReceiveAll(Receive(r, script[0].chunk, script[0].verdict).intake, script[1..])
  }

  function To(sessionId: nat): (p: Delivery -> bool) {
    (d: Delivery) => d.sessionId == sessionId
  }

  /** The frames one session is due, from that session's chunks alone. */
  function AllDue(sessions: set<nat>, sessionId: nat, parts: seq<Chunk>, script: seq<Sent>): (own: seq<Delivery>)
    decreases |script|
  {
    if script == [] then []
    else
      var c := script[0].chunk;
      if c.sessionId != sessionId then AllDue(sessions, sessionId, parts, script[1..])
      else Due(sessions, parts, c) + AllDue(sessions, sessionId, After(sessions, parts, c), script[1..])
  }

  lemma KeepDue(dispatched: seq<Delivery>, sessions: set<nat>, parts: seq<Chunk>, c: Chunk)
    ensures Keep(dispatched + Due(sessions, parts, c), To(c.sessionId))
         == Keep(dispatched, To(c.sessionId)) + Due(sessions, parts, c)
  {
    var due := Due(sessions, parts, c);
    if due == [] {
      assert dispatched + due == dispatched;
    } else {
      KeepAppend(dispatched, due[0], To(c.sessionId));
    }
  }

  lemma FirstChunk(r: Intake, sessionId: nat, parts: seq<Chunk>, script: seq<Sent>)
    returns (r': Intake, parts': seq<Chunk>, due: seq<Delivery>)
    requires Holds(r, sessionId, parts) && script != []
    ensures ReceiveAll(r, script) == ReceiveAll(r', script[1..])
    ensures Holds(r', sessionId, parts') && r'.sessions == r.sessions
    ensures Keep(r'.dispatched, To(sessionId)) == Keep(r.dispatched, To(sessionId)) + due
    ensures AllDue(r.sessions, sessionId, parts, script) == due + AllDue(r.sessions, sessionId, parts', script[1..])
  {
    var c, verdict := script[0].chunk, script[0].verdict;
    r' := Receive(r, c, verdict).intake;
    if c.sessionId == sessionId {
      OwnChunk(r, parts, c, verdict);
      KeepDue(r.dispatched, r.sessions, parts, c);
      parts', due := After(r.sessions, parts, c), Due(r.sessions, parts, c);
    } else {
      OthersChunk(r, sessionId, parts, c, verdict);
      parts', due := parts, [];
    }
  }

  /** Over any run, a session is delivered the frames its own chunks make up, in order, and nothing
      else, however the chunks of different sessions are mixed. */
  lemma {:induction false} FramesAreAssembled(r: Intake, sessionId: nat, parts: seq<Chunk>, script: seq<Sent>)
    requires Holds(r, sessionId, parts)
    ensures Keep(ReceiveAll(r, script).dispatched, To(sessionId))
         == Keep(r.dispatched, To(sessionId)) + AllDue(r.sessions, sessionId, parts, script)
    decreases |script|
  {
    if script != [] {
      var r', parts', due := FirstChunk(r, sessionId, parts, script);
      FramesAreAssembled(r', sessionId, parts', script[1..]);
      Regrouped(Keep(r.dispatched, To(sessionId)), due, AllDue(r.sessions, sessionId, parts', script[1..]));
    }
  }

  lemma Regrouped(a: seq<Delivery>, b: seq<Delivery>, c: seq<Delivery>)
    ensures (a + b) + c == a + (b + c)
  {
  }

  /** `d` is a whole frame: consecutive parts from offset 0, agreeing on the size they add up to,
      the last marked final, with the head's timing. */
  ghost predicate WholeFrame(sessionId: nat, whole: seq<Chunk>, d: Delivery) {
    && whole != [] && InOrder(sessionId, whole) && whole[|whole| - 1].final
    && d == Delivery(sessionId, Joined(whole), whole[0].timing) && |d.bytes| == whole[0].total
  }

  lemma {:induction false} EveryDueIsWhole(sessions: set<nat>, sessionId: nat, parts: seq<Chunk>, script: seq<Sent>,
      k: nat)
    returns (whole: seq<Chunk>)
    requires InOrder(sessionId, parts) && k < |AllDue(sessions, sessionId, parts, script)|
    ensures WholeFrame(sessionId, whole, AllDue(sessions, sessionId, parts, script)[k])
    decreases |script|
  {
    var c := script[0].chunk;
    if c.sessionId != sessionId {
      whole := EveryDueIsWhole(sessions, sessionId, parts, script[1..], k);
    } else {
      var due := Due(sessions, parts, c);
      if Follows(parts, c) {
        JoinedWith(sessionId, parts, c);
      }
      if k < |due| {
        whole := With(parts, c);
      } else {
        whole := EveryDueIsWhole(sessions, sessionId, After(sessions, parts, c), script[1..], k - |due|);
      }
    }
  }

  /** Every frame dispatched by a run that began with nothing under way is whole. */
  lemma OnlyWholeFrames(r: Intake, script: seq<Sent>, k: nat) returns (whole: seq<Chunk>)
    requires r.pending == map[] && r.dispatched == [] && k < |ReceiveAll(r, script).dispatched|
    ensures var d := ReceiveAll(r, script).dispatched[k];
            WholeFrame(d.sessionId, whole, d)
  {
    var dispatched := ReceiveAll(r, script).dispatched;
    var sessionId := dispatched[k].sessionId;
    FramesAreAssembled(r, sessionId, [], script);
    var j := KeptIndex(dispatched, To(sessionId), k);
    whole := EveryDueIsWhole(r.sessions, sessionId, [], script, j);
  }
}
