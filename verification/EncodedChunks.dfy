/** Encoded frames sent in chunks, and the worker's per-session assembly of them. */
module EncodedChunks {
  import opened Bits
  import opened Collections
  import opened Protocol

  const CHUNK_HEADER: nat := 56
  const MAX_ENCODED_FRAME_BYTES: nat := 4 * 1024 * 1024
  const MAX_CHUNKED_FRAME_BYTES: nat := 64 * 1024 * 1024

  datatype Timing = Timing(pts: Time, duration: Time)

  /** One chunk request; `timing` is repeated on every chunk but only the head's counts. */
  datatype Chunk = Chunk(sessionId: nat, timing: Timing, offset: u32, length: u32, total: u32, final: bool,
    data: seq<byte>)

  datatype Assembly = Assembly(bytes: seq<byte>, total: u32, timing: Timing)

  datatype Delivery = Delivery(sessionId: nat, bytes: seq<byte>, timing: Timing)

  /** The worker's side: open decode sessions, assemblies under way, frames dispatched. */
  datatype Intake = Intake(sessions: set<nat>, pending: map<nat, Assembly>, dispatched: seq<Delivery>)

  datatype Receipt = Receipt(intake: Intake, status: u32)

  // ---------- worker ----------

  predicate WellFormed(c: Chunk) {
    && |c.data| == c.length
    && 0 < c.total <= MAX_CHUNKED_FRAME_BYTES
    && c.offset + c.length <= c.total
    && (c.length > 0 || c.final)
  }

  /** The head replaces any assembly under way; others must continue one. */
  function Accumulate(r: Intake, c: Chunk): (a: Option<Assembly>) {
    if c.offset == 0 then Some(Assembly(c.data, c.total, c.timing))
    else if c.sessionId !in r.pending then None
    else
      var a := r.pending[c.sessionId];
      if a.total != c.total || |a.bytes| != c.offset then None else Some(a.(bytes := a.bytes + c.data))
  }

  /** One chunk; `verdict` is the decoder's status for a frame that gets dispatched. */
  function Receive(r: Intake, c: Chunk, verdict: u32): (s: Receipt) {
    if !WellFormed(c) then Receipt(r, STATUS_BOUNDS_VIOLATION)
    else if c.sessionId !in r.sessions then Receipt(r, STATUS_INVALID_HANDLE)
    else
      var a := Accumulate(r, c);
      if a.None? then Receipt(r, STATUS_INVALID_STATE)
      else if !c.final then Receipt(r.(pending := r.pending[c.sessionId := a.value]), STATUS_OK)
      else
        var r' := r.(pending := r.pending - {c.sessionId});
        if |a.value.bytes| != a.value.total then Receipt(r', STATUS_INVALID_STATE)
        else Receipt(r'.(dispatched := r.dispatched + [Delivery(c.sessionId, a.value.bytes, a.value.timing)]), verdict)
  }

  /** The same intake as the object the worker keeps. */
  class Assembler {
    var sessions: set<nat>
    var pending: map<nat, Assembly>
    var dispatched: seq<Delivery>

    function State(): (r: Intake)
      reads this
    {
      Intake(sessions, pending, dispatched)
    }

    method Accept(c: Chunk, verdict: u32) returns (status: u32)
      modifies this
      ensures Receipt(State(), status) == Receive(old(State()), c, verdict)
    {
      if |c.data| != c.length || c.total == 0 || c.total > MAX_CHUNKED_FRAME_BYTES {
        return STATUS_BOUNDS_VIOLATION;
      }
      if c.offset + c.length >= TWO_32 || c.offset + c.length > c.total {
        return STATUS_BOUNDS_VIOLATION;
      }
      if c.length == 0 && !c.final {
        return STATUS_BOUNDS_VIOLATION;
      }
      if c.sessionId !in sessions {
        return STATUS_INVALID_HANDLE;
      }
      ghost var before := pending;
      if c.offset == 0 {
        pending := pending[c.sessionId := Assembly(c.data, c.total, c.timing)];
      } else {
        if c.sessionId !in pending {
          return STATUS_INVALID_STATE;
        }
        var a := pending[c.sessionId];
        if a.total != c.total || |a.bytes| != c.offset {
          return STATUS_INVALID_STATE;
        }
        pending := pending[c.sessionId := a.(bytes := a.bytes + c.data)];
      }
      if !c.final {
        return STATUS_OK;
      }
      var whole := pending[c.sessionId];
      pending := pending - {c.sessionId};
      assert pending == before - {c.sessionId};
      if |whole.bytes| != whole.total {
        return STATUS_INVALID_STATE;
      }
      dispatched := dispatched + [Delivery(c.sessionId, whole.bytes, whole.timing)];
      return verdict;
    }
  }

  // ---------- guest ----------

  function Least(a: nat, b: nat): (r: nat) {
    if a < b then a else b
  }

  function ChunkAt(sessionId: nat, timing: Timing, bytes: seq<byte>, offset: nat, cap: nat): (c: Chunk)
    requires offset < |bytes| < TWO_32 && cap > 0
  {
    var n := Least(|bytes| - offset, cap);
    Chunk(sessionId, timing, offset, n, |bytes|, offset + n == |bytes|, bytes[offset..offset + n])
  }

  /** A request over the connection's limit closes it and reaches no one. */
  function Transmit(r: Intake, c: Chunk, limit: nat, verdict: u32): (s: Receipt) {
    if CHUNK_HEADER + |c.data| > limit then Receipt(r, STATUS_INTERNAL_FAILURE) else Receive(r, c, verdict)
  }

  function SendFrom(r: Intake, sessionId: nat, timing: Timing, bytes: seq<byte>, offset: nat, cap: nat, limit: nat,
      verdict: u32): (s: Receipt)
    requires offset <= |bytes| < TWO_32 && cap > 0
    decreases |bytes| - offset
  {
    if offset == |bytes| then Receipt(r, STATUS_OK)
    else
      var s := Transmit(r, ChunkAt(sessionId, timing, bytes, offset, cap), limit, verdict);
      if s.status != STATUS_OK then s
      else SendFrom(s.intake, sessionId, timing, bytes, offset + Least(|bytes| - offset, cap), cap, limit, verdict)
  }

  /** `enqueue_encoded_frame_chunked`: nothing to send, or too much, is refused up front. */
  function SendChunked(r: Intake, sessionId: nat, timing: Timing, bytes: seq<byte>, cap: nat, limit: nat,
      verdict: u32): (s: Receipt)
    requires cap > 0
  {
    if |bytes| == 0 || |bytes| >= TWO_32 then Receipt(r, STATUS_INTERNAL_FAILURE)
    else SendFrom(r, sessionId, timing, bytes, 0, cap, limit, verdict)
  }

  method SendLoop(worker: Assembler, sessionId: nat, timing: Timing, bytes: seq<byte>, cap: nat, limit: nat,
      verdict: u32)
    returns (status: u32)
    requires cap > 0
    modifies worker
    ensures Receipt(worker.State(), status)
         == SendChunked(old(worker.State()), sessionId, timing, bytes, cap, limit, verdict)
  {
    if |bytes| == 0 || |bytes| >= TWO_32 {
      return STATUS_INTERNAL_FAILURE;
    }
    var offset := 0;
    while offset < |bytes|
      invariant 0 <= offset <= |bytes|
      invariant SendFrom(worker.State(), sessionId, timing, bytes, offset, cap, limit, verdict)
             == SendFrom(old(worker.State()), sessionId, timing, bytes, 0, cap, limit, verdict)
    {
      var c := ChunkAt(sessionId, timing, bytes, offset, cap);
      if CHUNK_HEADER + |c.data| > limit {
        return STATUS_INTERNAL_FAILURE;
      }
      status := worker.Accept(c, verdict);
      if status != STATUS_OK {
        return;
      }
      offset := offset + c.length;
    }
    return STATUS_OK;
  }

  // ---------- delivery ----------

  function Delivered(r: Intake, d: Delivery): (s: Intake) {
    r.(pending := r.pending - {d.sessionId}, dispatched := r.dispatched + [d])
  }

  /** The intake after the first `done` bytes of a frame, for done > 0. */
  function Holding(r: Intake, sessionId: nat, timing: Timing, bytes: seq<byte>, done: nat): (s: Intake)
    requires done <= |bytes| < TWO_32
  {
    r.(pending := r.pending[sessionId := Assembly(bytes[..done], |bytes|, timing)])
  }

  lemma ChunkContinues(r: Intake, sessionId: nat, timing: Timing, bytes: seq<byte>, offset: nat, cap: nat, verdict: u32)
    requires 0 < offset < |bytes| <= MAX_CHUNKED_FRAME_BYTES && cap > 0 && sessionId in r.sessions
    ensures var n := Least(|bytes| - offset, cap);
            Receive(Holding(r, sessionId, timing, bytes, offset), ChunkAt(sessionId, timing, bytes, offset, cap),
              verdict)
            == if offset + n == |bytes| then Receipt(Delivered(r, Delivery(sessionId, bytes, timing)), verdict)
               else Receipt(Holding(r, sessionId, timing, bytes, offset + n), STATUS_OK)
  {
    var n := Least(|bytes| - offset, cap);
    assert bytes[..offset] + bytes[offset..offset + n] == bytes[..offset + n];
    assert bytes[..|bytes|] == bytes;
    var h := Holding(r, sessionId, timing, bytes, offset);
    assert h.pending - {sessionId} == r.pending - {sessionId};
    assert h.pending[sessionId := Assembly(bytes[..offset + n], |bytes|, timing)]
        == r.pending[sessionId := Assembly(bytes[..offset + n], |bytes|, timing)];
  }

  lemma ChunkStarts(r: Intake, sessionId: nat, timing: Timing, bytes: seq<byte>, cap: nat, verdict: u32)
    requires 0 < |bytes| <= MAX_CHUNKED_FRAME_BYTES && cap > 0 && sessionId in r.sessions
    ensures var n := Least(|bytes|, cap);
            Receive(r, ChunkAt(sessionId, timing, bytes, 0, cap), verdict)
            == if n == |bytes| then Receipt(Delivered(r, Delivery(sessionId, bytes, timing)), verdict)
               else Receipt(Holding(r, sessionId, timing, bytes, n), STATUS_OK)
  {
    assert bytes[0..Least(|bytes|, cap)] == bytes[..Least(|bytes|, cap)];
    assert bytes[..|bytes|] == bytes;
  }

  lemma {:induction false} RestArrives(r: Intake, sessionId: nat, timing: Timing, bytes: seq<byte>, offset: nat,
      cap: nat, limit: nat, verdict: u32)
    requires 0 < offset < |bytes| <= MAX_CHUNKED_FRAME_BYTES && cap > 0 && sessionId in r.sessions
    requires CHUNK_HEADER + Least(|bytes|, cap) <= limit
    ensures SendFrom(Holding(r, sessionId, timing, bytes, offset),
                     sessionId, timing, bytes, offset, cap, limit, verdict)
         == Receipt(Delivered(r, Delivery(sessionId, bytes, timing)), verdict)
    decreases |bytes| - offset
  {
    var n := Least(|bytes| - offset, cap);
    ChunkContinues(r, sessionId, timing, bytes, offset, cap, verdict);
    if offset + n < |bytes| {
      RestArrives(r, sessionId, timing, bytes, offset + n, cap, limit, verdict);
    }
  }

  /** What a sender needs: something to send within the size bounds, an open session, and room
      for the largest chunk in one request. */
  predicate Deliverable(r: Intake, sessionId: nat, bytes: seq<byte>, cap: nat, limit: nat) {
    && 0 < |bytes| <= MAX_CHUNKED_FRAME_BYTES
    && sessionId in r.sessions
    && CHUNK_HEADER + Least(|bytes|, cap) <= limit
  }

  /** From any intake state, whatever was under way: a deliverable frame is dispatched exactly
      once, whole, with the head's timing, and anything else changes nothing and is refused. */
  lemma ChunkedDeliveryExact(r: Intake, sessionId: nat, timing: Timing, bytes: seq<byte>, cap: nat, limit: nat,
      verdict: u32)
    requires cap > 0
    ensures var s := SendChunked(r, sessionId, timing, bytes, cap, limit, verdict);
            if Deliverable(r, sessionId, bytes, cap, limit)
            then s == Receipt(Delivered(r, Delivery(sessionId, bytes, timing)), verdict)
            else s.intake == r && s.status != STATUS_OK
  {
    if Deliverable(r, sessionId, bytes, cap, limit) {
      var n := Least(|bytes|, cap);
      ChunkStarts(r, sessionId, timing, bytes, cap, verdict);
      var s := Transmit(r, ChunkAt(sessionId, timing, bytes, 0, cap), limit, verdict);
      if n < |bytes| {
        RestArrives(r, sessionId, timing, bytes, n, cap, limit, verdict);
        assert s.status == STATUS_OK;
      } else {
        assert s.status == verdict;
        assert SendFrom(s.intake, sessionId, timing, bytes, |bytes|, cap, limit, verdict)
          == Receipt(s.intake, STATUS_OK);
      }
    }
  }

  /** With the shipped constants no frame that takes the chunked path gets through: the guest
      cuts at 4 MiB and the worker closes requests over 2 MiB. */
  lemma ShippedChunksNeverArrive(r: Intake, sessionId: nat, timing: Timing, bytes: seq<byte>, verdict: u32)
    requires |bytes| > MAX_ENCODED_FRAME_BYTES
    ensures var s := SendChunked(r, sessionId, timing, bytes, MAX_ENCODED_FRAME_BYTES, STORAGE_CAPACITY, verdict);
            s.intake == r && s.status != STATUS_OK
  {
    ChunkedDeliveryExact(r, sessionId, timing, bytes, MAX_ENCODED_FRAME_BYTES, STORAGE_CAPACITY, verdict);
  }

  /** Sending succeeds and the whole frame, with its timing, is the next one dispatched. */
  predicate Arrives(r: Intake, sessionId: nat, timing: Timing, bytes: seq<byte>, cap: nat, limit: nat)
    requires cap > 0
  {
    var s := SendChunked(r, sessionId, timing, bytes, cap, limit, STATUS_OK);
    s.status == STATUS_OK && s.intake.dispatched == r.dispatched + [Delivery(sessionId, bytes, timing)]
  }

  /** With a cut size of `cap`, every frame within bounds sent to an open session arrives,
      whatever was under way, exactly when a full chunk and its header fit one request. */
  lemma CapSufficesIff(cap: nat, limit: nat)
    requires 0 < cap <= MAX_CHUNKED_FRAME_BYTES
    ensures (forall r: Intake, sessionId: nat, timing: Timing, bytes: seq<byte> |
               sessionId in r.sessions && 0 < |bytes| <= MAX_CHUNKED_FRAME_BYTES ::
               Arrives(r, sessionId, timing, bytes, cap, limit))
       <==> CHUNK_HEADER + cap <= limit
  {
    if CHUNK_HEADER + cap <= limit {
      forall r: Intake, sessionId: nat, timing: Timing, bytes: seq<byte> |
        sessionId in r.sessions && 0 < |bytes| <= MAX_CHUNKED_FRAME_BYTES
        ensures Arrives(r, sessionId, timing, bytes, cap, limit)
      {
        ChunkedDeliveryExact(r, sessionId, timing, bytes, cap, limit, STATUS_OK);
      }
    } else {
      FullChunkStops(cap, limit);
    }
  }

  lemma FullChunkStops(cap: nat, limit: nat)
    requires 0 < cap <= MAX_CHUNKED_FRAME_BYTES && CHUNK_HEADER + cap > limit
    ensures exists r: Intake, sessionId: nat, timing: Timing, bytes: seq<byte> ::
              && sessionId in r.sessions && 0 < |bytes| <= MAX_CHUNKED_FRAME_BYTES
              && !Arrives(r, sessionId, timing, bytes, cap, limit)
  {
    var r := Intake({1}, map[], []);
    var timing := Timing(Time(0, 1), Time(0, 1));
    var bytes := seq<byte>(cap, _ => 0);
    ChunkedDeliveryExact(r, 1, timing, bytes, cap, limit, STATUS_OK);
    assert !Arrives(r, 1, timing, bytes, cap, limit);
  }
}
