/** The decode drain loop: every frame taken from the worker's queue is given back. */
module DecodeDrain {
  import opened Bits
  import opened Collections
  import opened Layout
  import opened Protocol
  import opened ChunkedIo

  const FAILED: int := -12902

  /** A reply to one read: an error status or payload bytes after the reply header. */
  datatype ReadReply = ReadFails(status: int) | ReadBytes(data: seq<byte>)

  /** The reply the worker gives to a request for `length` bytes at `offset` of one frame. */
  type ChunkReader = (nat, nat) -> ReadReply

  /** A reply to one dequeue. `chunk` and `inline` are the replies the worker would give to
      the reads that may follow; `sampleSize` and `sampleStatus` come with the inline one. */
  datatype DequeueReply =
    | DequeueFails(status: int)
    | Frame(outputId: nat, bufferHostId: nat, width: u32, height: u32, format: u32, status: int,
            chunk: ChunkReader, inline: ReadReply, sampleSize: u32, sampleStatus: int)

  datatype Event =
    | Dequeued(id: nat)
    | Delivered(id: nat, status: int, bytes: seq<byte>)
    | Released(id: nat)

  datatype Fetched = Fetched(bytes: seq<byte>) | Lost(reason: int)

  // ---------- reading one frame ----------

  /** `read_decoded_frame_chunk`, from `offset` on. */
  function ReadChunksFrom(chunk: ChunkReader, total: nat, offset: nat): (r: Fetched)
    requires offset <= total
    decreases total - offset
  {
    if offset == total then Fetched([])
    else
      var n := ChunkAt(offset, total);
      match chunk(offset, n)
      case ReadFails(status) => Lost(status)
      case ReadBytes(data) =>
        if |data| < n then Lost(FAILED)
        else
          var rest := ReadChunksFrom(chunk, total, offset + n);
          if rest.Lost? then rest else Fetched(data[..n] + rest.bytes)
  }

  method ReadChunks(chunk: ChunkReader, total: nat) returns (r: Fetched)
    ensures r == ReadChunksFrom(chunk, total, 0)
    ensures r.Fetched? ==> |r.bytes| == total
  {
    var bytes: seq<byte> := [];
    var offset := 0;
    while offset < total
      invariant 0 <= offset <= total && |bytes| == offset
      invariant ReadChunksFrom(chunk, total, 0) == Onto(bytes, ReadChunksFrom(chunk, total, offset))
    {
      var n := ChunkAt(offset, total);
      match chunk(offset, n) {
        case ReadFails(status) => return Lost(status);
        case ReadBytes(data) =>
          if |data| < n {
            return Lost(FAILED);
          }
          OntoTwice(bytes, data[..n], ReadChunksFrom(chunk, total, offset + n));
          bytes := bytes + data[..n];
      }
      offset := offset + n;
    }
    assert bytes + [] == bytes;
    return Fetched(bytes);
  }

  /** Every chunk asked for from `offset` on begins with the frame's bytes for its range. */
  ghost predicate Carries(chunk: ChunkReader, frame: seq<byte>, offset: nat)
    requires offset <= |frame|
    decreases |frame| - offset
  {
    offset < |frame| ==>
      var n := ChunkAt(offset, |frame|);
      && chunk(offset, n).ReadBytes? && |chunk(offset, n).data| >= n
      && chunk(offset, n).data[..n] == frame[offset..offset + n]
      && Carries(chunk, frame, offset + n)
  }

  /** What is read in chunks is the frame, exactly when every chunk carries its part of it. */
  lemma {:induction false} ChunksAreFrame(chunk: ChunkReader, frame: seq<byte>, offset: nat)
    requires offset <= |frame|
    ensures ReadChunksFrom(chunk, |frame|, offset) == Fetched(frame[offset..]) <==> Carries(chunk, frame, offset)
    decreases |frame| - offset
  {
    if offset < |frame| {
      var n := ChunkAt(offset, |frame|);
      ChunksAreFrame(chunk, frame, offset + n);
      ReadLength(chunk, |frame|, offset + n);
      assert frame[offset..] == frame[offset..offset + n] + frame[offset + n..];
      match chunk(offset, n)
      case ReadFails(_) =>
      case ReadBytes(data) =>
        if |data| >= n && ReadChunksFrom(chunk, |frame|, offset + n).Fetched? {
          SplitEqual(data[..n], ReadChunksFrom(chunk, |frame|, offset + n).bytes,
                     frame[offset..offset + n], frame[offset + n..]);
        }
    }
  }

  lemma SplitEqual(a: seq<byte>, b: seq<byte>, c: seq<byte>, d: seq<byte>)
    requires |a| == |c|
    ensures a + b == c + d <==> a == c && b == d
  {
    if a + b == c + d {
      assert a == (a + b)[..|a|] && b == (a + b)[|a|..];
      assert c == (c + d)[..|c|] && d == (c + d)[|c|..];
    }
  }

  lemma {:induction false} ReadLength(chunk: ChunkReader, total: nat, offset: nat)
    requires offset <= total
    ensures var r := ReadChunksFrom(chunk, total, offset);
            r.Fetched? ==> |r.bytes| == total - offset
    decreases total - offset
  {
    if offset < total {
      ReadLength(chunk, total, offset + ChunkAt(offset, total));
    }
  }

  /** A worker that answers every range with that range of the frame is read in full. */
  lemma {:induction false} HonestCarries(chunk: ChunkReader, frame: seq<byte>, offset: nat)
    requires offset <= |frame|
    requires forall o: nat, n: nat :: o + n <= |frame| ==> chunk(o, n) == ReadBytes(frame[o..o + n])
    ensures Carries(chunk, frame, offset)
    decreases |frame| - offset
  {
    if offset < |frame| {
      var n := ChunkAt(offset, |frame|);
      assert frame[offset..offset + n][..n] == frame[offset..offset + n];
      HonestCarries(chunk, frame, offset + n);
    }
  }

  ghost function Onto(head: seq<byte>, r: Fetched): (s: Fetched) {
    if r.Lost? then r else Fetched(head + r.bytes)
  }

  lemma OntoTwice(a: seq<byte>, b: seq<byte>, r: Fetched)
    ensures Onto(a, Onto(b, r)) == Onto(a + b, r)
  {
    if r.Fetched? {
      assert a + (b + r.bytes) == (a + b) + r.bytes;
    }
  }

  // ---------- the loop ----------

  datatype DrainResult = DrainResult(log: seq<Event>, status: int)

  function FrameSize(f: DequeueReply): (n: nat)
    requires f.Frame?
  {
    GuestLayout(f.width, f.height, f.format).totalSize
  }

  /** The loop with `log` already written. A frame is read in chunks when the worker said so and
      inline otherwise; each of the three ways a read can fail gives the frame back itself. */
  function Drain(log: seq<Event>, replies: seq<DequeueReply>, callback: bool): (r: DrainResult)
    decreases |replies|
  {
    if |replies| == 0 then DrainResult(log, FAILED)
    else
      var f := replies[0];
      if f.DequeueFails? then DrainResult(log, if f.status == STATUS_TIMEOUT then 0 else f.status)
      else
        var taken := log + [Dequeued(f.outputId)];
        if f.outputId == 0 then DrainResult(taken, f.status)
        else if !callback then Drain(taken + [Released(f.outputId)], replies[1..], callback)
        else if f.bufferHostId != 0 then
          match ReadChunksFrom(f.chunk, FrameSize(f), 0)
          case Lost(reason) => DrainResult(taken + [Released(f.outputId)], reason)
          case Fetched(bytes) =>
            Drain(taken + [Delivered(f.outputId, f.status, bytes)] + [Released(f.outputId)], replies[1..], callback)
        else
          match f.inline
          case ReadFails(reason) => DrainResult(taken + [Released(f.outputId)], reason)
          case ReadBytes(data) =>
            if |data| < f.sampleSize then DrainResult(taken + [Released(f.outputId)], FAILED)
            else
              Drain(taken + [Delivered(f.outputId, f.sampleStatus, data[..f.sampleSize])] + [Released(f.outputId)],
                    replies[1..], callback)
  }

  /** The loop as it runs: every call to the worker or the callback is logged where it is made. */
  method DrainLoop(replies: seq<DequeueReply>, callback: bool) returns (log: seq<Event>, status: int)
    ensures DrainResult(log, status) == Drain([], replies, callback)
  {
    log := [];
    var i := 0;
    while i < |replies|
      invariant 0 <= i <= |replies|
      invariant Drain(log, replies[i..], callback) == Drain([], replies, callback)
    {
      assert replies[i..][1..] == replies[i + 1..];
      var reply := replies[i];
      i := i + 1;
      if reply.DequeueFails? {
        return log, if reply.status == STATUS_TIMEOUT then 0 else reply.status;
      }
      var id := reply.outputId;
      log := log + [Dequeued(id)];
      if id == 0 {
        return log, reply.status;
      }
      if !callback {
        log := log + [Released(id)];
        continue;
      }
      var bytes, frameStatus;
      if reply.bufferHostId != 0 {
        var r := ReadChunks(reply.chunk, FrameSize(reply));
        if r.Lost? {
          log := log + [Released(id)];
          return log, r.reason;
        }
        bytes, frameStatus := r.bytes, reply.status;
      } else {
        if reply.inline.ReadFails? {
          log := log + [Released(id)];
          return log, reply.inline.status;
        }
        if |reply.inline.data| < reply.sampleSize {
          log := log + [Released(id)];
          return log, FAILED;
        }
        bytes, frameStatus := reply.inline.data[..reply.sampleSize], reply.sampleStatus;
      }
      log := log + [Delivered(id, frameStatus, bytes)];
      log := log + [Released(id)];
    }
    return log, FAILED;
  }

  // ---------- the release discipline ----------

  /** The worker's slot as the log tells it: free, held by one frame, or mishandled. */
  datatype Slot = Vacant | Held(id: nat) | Mishandled

  function After(s: Slot, e: Event): (r: Slot) {
    match e
    case Dequeued(id) => if !s.Vacant? then Mishandled else if id == 0 then Vacant else Held(id)
    case Delivered(id, _, _) => if s == Held(id) then s else Mishandled
    case Released(id) => if s == Held(id) then Vacant else Mishandled
  }

  function Replay(s: Slot, log: seq<Event>): (r: Slot)
    decreases |log|
  {
    if |log| == 0 then s else Replay(After(s, log[0]), log[1..])
  }

  lemma {:induction false} ReplayLast(s: Slot, log: seq<Event>, e: Event)
    ensures Replay(s, log + [e]) == After(Replay(s, log), e)
    decreases |log|
  {
    if |log| == 0 {
      assert log + [e] == [e] && [e][1..] == [];
    } else {
      assert (log + [e])[1..] == log[1..] + [e];
      ReplayLast(After(s, log[0]), log[1..], e);
    }
  }

  /** From a vacant slot: taking a frame holds it, and giving it back, delivered or not, frees it. */
  lemma TurnIsClean(log: seq<Event>, id: nat, status: int, bytes: seq<byte>)
    requires id != 0 && Replay(Vacant, log) == Vacant
    ensures Replay(Vacant, log + [Dequeued(id)] + [Released(id)]) == Vacant
    ensures Replay(Vacant, log + [Dequeued(id)] + [Delivered(id, status, bytes)] + [Released(id)]) == Vacant
  {
    var taken := log + [Dequeued(id)];
    ReplayLast(Vacant, log, Dequeued(id));
    ReplayLast(Vacant, taken, Released(id));
    ReplayLast(Vacant, taken, Delivered(id, status, bytes));
    ReplayLast(Vacant, taken + [Delivered(id, status, bytes)], Released(id));
  }

  /** Whatever the worker replies, and with or without a callback: each frame taken is held
      alone, delivered at most once, and released exactly once before the next is taken or the
      loop returns. */
  lemma {:induction false} EveryFrameReleasedOnce(log: seq<Event>, replies: seq<DequeueReply>, callback: bool)
    requires Replay(Vacant, log) == Vacant
    ensures Replay(Vacant, Drain(log, replies, callback).log) == Vacant
    decreases |replies|
  {
    if |replies| > 0 && replies[0].Frame? {
      var f := replies[0];
      var status, bytes := Handed(f);
      if f.outputId == 0 {
        ReplayLast(Vacant, log, Dequeued(0));
      } else {
        TurnIsClean(log, f.outputId, status, bytes);
        var taken := log + [Dequeued(f.outputId)];
        if !callback {
          EveryFrameReleasedOnce(taken + [Released(f.outputId)], replies[1..], callback);
        } else if Arrives(f) {
          EveryFrameReleasedOnce(taken + [Delivered(f.outputId, status, bytes)] + [Released(f.outputId)],
                                 replies[1..], callback);
        }
      }
    }
  }

  /** The frame's bytes can be read in full. */
  predicate Arrives(f: DequeueReply)
    requires f.Frame?
  {
    if f.bufferHostId != 0 then ReadChunksFrom(f.chunk, FrameSize(f), 0).Fetched?
    else f.inline.ReadBytes? && |f.inline.data| >= f.sampleSize
  }

  /** The status and bytes the callback is given for a frame that can be read. */
  lemma Handed(f: DequeueReply) returns (status: int, bytes: seq<byte>)
    requires f.Frame?
    ensures Arrives(f) && f.bufferHostId != 0 ==>
              status == f.status && bytes == ReadChunksFrom(f.chunk, FrameSize(f), 0).bytes
    ensures Arrives(f) && f.bufferHostId == 0 ==> status == f.sampleStatus && bytes == f.inline.data[..f.sampleSize]
  {
    if !Arrives(f) {
      status, bytes := 0, [];
    } else if f.bufferHostId != 0 {
      status, bytes := f.status, ReadChunksFrom(f.chunk, FrameSize(f), 0).bytes;
    } else {
      status, bytes := f.sampleStatus, f.inline.data[..f.sampleSize];
    }
  }

  function Taken(e: Event): (r: bool) { e.Dequeued? && e.id != 0 }
  function GivenBack(e: Event): (r: bool) { e.Released? }

  function Ids(log: seq<Event>): (r: seq<nat>)
    ensures |r| == |log|
  {
    seq(|log|, i requires 0 <= i < |log| => log[i].id)
  }

  /** The clean-slot automaton means what it should: in a log it accepts, the ids given back
      are the ids taken, in the same order. */
  lemma {:induction false} CleanMeansPaired(log: seq<Event>, s: Slot)
    requires !s.Mishandled? && Replay(s, log) == Vacant
    ensures Ids(Keep(log, GivenBack)) == (if s.Held? then [s.id] else []) + Ids(Keep(log, Taken))
    decreases |log|
  {
    if |log| > 0 {
      var e, rest := log[0], log[1..];
      var s' := After(s, e);
      if s'.Mishandled? {
        StaysMishandled(rest);
      }
      CleanMeansPaired(rest, s');
      HeadKept(log, GivenBack);
      HeadKept(log, Taken);
    }
  }

  lemma {:induction false} StaysMishandled(log: seq<Event>)
    ensures Replay(Mishandled, log) == Mishandled
    decreases |log|
  {
    if |log| > 0 {
      StaysMishandled(log[1..]);
    }
  }

  lemma HeadKept(log: seq<Event>, p: Event -> bool)
    requires |log| > 0
    ensures Ids(Keep(log, p)) == (if p(log[0]) then [log[0].id] else []) + Ids(Keep(log[1..], p))
  {
    var rest := Keep(log[1..], p);
    HeadOrNot(log, p);
    if p(log[0]) {
      IdsConcat([log[0]], rest);
      assert Ids([log[0]]) == [log[0].id];
    } else {
      assert [] + Ids(rest) == Ids(rest);
    }
  }

  lemma HeadOrNot(log: seq<Event>, p: Event -> bool)
    requires |log| > 0
    ensures Keep(log, p) == if p(log[0]) then [log[0]] + Keep(log[1..], p) else Keep(log[1..], p)
  {
    KeepConcat([log[0]], log[1..], p);
    assert log == [log[0]] + log[1..];
    KeepAppend([], log[0], p);
    assert [] + [log[0]] == [log[0]];
  }

  lemma IdsConcat(a: seq<Event>, b: seq<Event>)
    ensures Ids(a + b) == Ids(a) + Ids(b)
  {
  }

  /** So the releases the loop makes are exactly the frames it took, in order. */
  lemma ReleasesAreTakes(replies: seq<DequeueReply>, callback: bool)
    ensures var log := Drain([], replies, callback).log;
            Ids(Keep(log, GivenBack)) == Ids(Keep(log, Taken))
  {
    EveryFrameReleasedOnce([], replies, callback);
    var log := Drain([], replies, callback).log;
    CleanMeansPaired(log, Vacant);
    assert [] + Ids(Keep(log, Taken)) == Ids(Keep(log, Taken));
  }

  function Shown(e: Event): (r: bool) { e.Delivered? }

  lemma TurnShows(log: seq<Event>, id: nat, status: int, bytes: seq<byte>)
    requires id != 0
    ensures var log' := log + [Dequeued(id)] + [Delivered(id, status, bytes)] + [Released(id)];
            && Keep(log', Shown) == Keep(log, Shown) + [Delivered(id, status, bytes)]
            && Keep(log', Taken) == Keep(log, Taken) + [Dequeued(id)]
  {
    var taken := log + [Dequeued(id)];
    var shown := taken + [Delivered(id, status, bytes)];
    KeepAppend(log, Dequeued(id), Shown);
    KeepAppend(taken, Delivered(id, status, bytes), Shown);
    KeepAppend(shown, Released(id), Shown);
    KeepAppend(log, Dequeued(id), Taken);
    KeepAppend(taken, Delivered(id, status, bytes), Taken);
    KeepAppend(shown, Released(id), Taken);
  }

  lemma SentinelIsNothing(log: seq<Event>)
    ensures Keep(log + [Dequeued(0)], Shown) == Keep(log, Shown)
    ensures Keep(log + [Dequeued(0)], Taken) == Keep(log, Taken)
  {
    KeepAppend(log, Dequeued(0), Shown);
    KeepAppend(log, Dequeued(0), Taken);
  }

  /** With a callback, if every frame can be read, the frames delivered are the frames taken, in
      order: none is skipped and none is delivered twice. */
  lemma {:induction false} DeliveriesAreTakes(log: seq<Event>, replies: seq<DequeueReply>)
    requires Ids(Keep(log, Shown)) == Ids(Keep(log, Taken))
    requires forall i :: 0 <= i < |replies| && replies[i].Frame? ==> Arrives(replies[i])
    ensures var log' := Drain(log, replies, true).log;
            Ids(Keep(log', Shown)) == Ids(Keep(log', Taken))
    decreases |replies|
  {
    if |replies| > 0 && replies[0].Frame? {
      var f := replies[0];
      if f.outputId == 0 {
        SentinelIsNothing(log);
      } else {
        var status, bytes := Handed(f);
        TurnShows(log, f.outputId, status, bytes);
        IdsConcat(Keep(log, Shown), [Delivered(f.outputId, status, bytes)]);
        IdsConcat(Keep(log, Taken), [Dequeued(f.outputId)]);
        var taken := log + [Dequeued(f.outputId)];
        DeliveriesAreTakes(taken + [Delivered(f.outputId, status, bytes)] + [Released(f.outputId)], replies[1..]);
      }
    }
  }

  // ---------- what the callback gets ----------

  /** The frame's bytes can be read, in whichever way the worker says. */
  ghost predicate Shows(f: DequeueReply, frame: seq<byte>)
    requires f.Frame?
  {
    if f.bufferHostId != 0 then |frame| == FrameSize(f) && Carries(f.chunk, frame, 0)
    else
      && |frame| == f.sampleSize && f.inline.ReadBytes?
      && |f.inline.data| >= |frame| && f.inline.data[..|frame|] == frame
  }

  /** The status that goes with the frame: the dequeue's for one read in chunks, else the read's. */
  function FrameStatus(f: DequeueReply): (status: int)
    requires f.Frame?
  {
    if f.bufferHostId != 0 then f.status else f.sampleStatus
  }

  ghost predicate RealFrame(f: DequeueReply) {
    f.Frame? && f.outputId != 0
  }

  ghost predicate AllShow(replies: seq<DequeueReply>, frames: seq<seq<byte>>)
    decreases |replies|
  {
    && |frames| == |replies|
    && (|replies| > 0 ==>
          RealFrame(replies[0]) && Shows(replies[0], frames[0]) && AllShow(replies[1..], frames[1..]))
  }

  /** The deliveries due for a run of frames: each its own id, status and bytes. */
  ghost function Due(replies: seq<DequeueReply>, frames: seq<seq<byte>>): (events: seq<Event>)
    requires AllShow(replies, frames)
    decreases |replies|
  {
    if |replies| == 0 then []
    else
      [Delivered(replies[0].outputId, FrameStatus(replies[0]), frames[0])] + Due(replies[1..], frames[1..])
  }

  /** The status of the reply that ends the loop: an empty queue is success, another error and
      the worker's error marker are passed on. */
  function EndStatus(f: DequeueReply): (status: int) {
    if f.Frame? then f.status else if f.status == STATUS_TIMEOUT then 0 else f.status
  }

  ghost function Turn(f: DequeueReply, frame: seq<byte>): (event: Event)
    requires f.Frame?
  {
    Delivered(f.outputId, FrameStatus(f), frame)
  }

  lemma OneDelivered(log: seq<Event>, f: DequeueReply, replies: seq<DequeueReply>, frame: seq<byte>)
    requires |replies| > 0 && replies[0] == f && RealFrame(f) && Shows(f, frame)
    ensures Drain(log, replies, true)
         == Drain(log + [Dequeued(f.outputId)] + [Turn(f, frame)] + [Released(f.outputId)], replies[1..], true)
  {
    if f.bufferHostId != 0 {
      ChunksAreFrame(f.chunk, frame, 0);
      assert frame[0..] == frame;
    }
  }

  /** Readable frames are delivered one after the other, whatever comes after them. */
  lemma {:induction false} FramesDelivered(
    log: seq<Event>, replies: seq<DequeueReply>, frames: seq<seq<byte>>, rest: seq<DequeueReply>)
    returns (log': seq<Event>)
    requires AllShow(replies, frames)
    ensures Drain(log, replies + rest, true) == Drain(log', rest, true)
    ensures Keep(log', Shown) == Keep(log, Shown) + Due(replies, frames)
    decreases |replies|
  {
    if |replies| == 0 {
      log' := log;
      assert replies + rest == rest;
      assert Keep(log, Shown) + [] == Keep(log, Shown);
    } else {
      var f, frame := replies[0], frames[0];
      var next := log + [Dequeued(f.outputId)] + [Turn(f, frame)] + [Released(f.outputId)];
      OneDelivered(log, f, replies + rest, frame);
      assert (replies + rest)[1..] == replies[1..] + rest;
      log' := FramesDelivered(next, replies[1..], frames[1..], rest);
      TurnShows(log, f.outputId, FrameStatus(f), frame);
      Joined(Keep(log, Shown), Turn(f, frame), Due(replies[1..], frames[1..]));
    }
  }

  lemma Joined(a: seq<Event>, e: Event, b: seq<Event>)
    ensures (a + [e]) + b == a + ([e] + b)
  {
  }

  lemma Ends(log: seq<Event>, end: DequeueReply, rest: seq<DequeueReply>)
    requires !RealFrame(end)
    ensures var r := Drain(log, [end] + rest, true);
            Keep(r.log, Shown) == Keep(log, Shown) && r.status == EndStatus(end)
  {
    assert ([end] + rest)[0] == end;
    if end.Frame? {
      SentinelIsNothing(log);
    }
  }

  /** Any number of readable frames and then a reply that ends the loop: the callback gets each
      frame's own bytes and status, in order, and the caller the status of the last reply. */
  lemma CallbackGetsFrames(
    replies: seq<DequeueReply>, frames: seq<seq<byte>>, end: DequeueReply, rest: seq<DequeueReply>)
    requires AllShow(replies, frames) && !RealFrame(end)
    ensures var r := Drain([], replies + ([end] + rest), true);
            Keep(r.log, Shown) == Due(replies, frames) && r.status == EndStatus(end)
  {
    var log := FramesDelivered([], replies, frames, [end] + rest);
    Ends(log, end, rest);
    assert Keep([], Shown) + Due(replies, frames) == Due(replies, frames);
  }

  /** Without a callback nothing is read or delivered: the frames are given back until the queue
      ends. */
  lemma {:induction false} WithoutCallback(
    log: seq<Event>, replies: seq<DequeueReply>, end: DequeueReply, rest: seq<DequeueReply>)
    requires (forall i :: 0 <= i < |replies| ==> RealFrame(replies[i])) && !RealFrame(end)
    ensures var r := Drain(log, replies + ([end] + rest), false);
            Keep(r.log, Shown) == Keep(log, Shown) && r.status == EndStatus(end)
    decreases |replies|
  {
    if |replies| == 0 {
      assert replies + ([end] + rest) == [end] + rest;
      if end.Frame? {
        SentinelIsNothing(log);
      }
    } else {
      var id := replies[0].outputId;
      var log' := log + [Dequeued(id)] + [Released(id)];
      assert (replies + ([end] + rest))[1..] == replies[1..] + ([end] + rest);
      KeepAppend(log, Dequeued(id), Shown);
      KeepAppend(log + [Dequeued(id)], Released(id), Shown);
      WithoutCallback(log', replies[1..], end, rest);
    }
  }

  /** The error of a frame that cannot be read: of its chunks, or of the inline read. */
  function ReadError(f: DequeueReply): (status: int)
    requires f.Frame? && !Arrives(f)
  {
    if f.bufferHostId != 0 then ReadChunksFrom(f.chunk, FrameSize(f), 0).reason
    else if f.inline.ReadFails? then f.inline.status else FAILED
  }

  lemma BadEnds(log: seq<Event>, bad: DequeueReply, rest: seq<DequeueReply>)
    requires RealFrame(bad) && !Arrives(bad)
    ensures var r := Drain(log, [bad] + rest, true);
            && r.log == log + [Dequeued(bad.outputId)] + [Released(bad.outputId)]
            && r.status == ReadError(bad)
  {
    assert ([bad] + rest)[0] == bad;
  }

  /** A frame that cannot be read ends the loop after the frames before it, with the read's error. */
  lemma UnreadableEnds(
    replies: seq<DequeueReply>, frames: seq<seq<byte>>, bad: DequeueReply, rest: seq<DequeueReply>)
    requires AllShow(replies, frames) && RealFrame(bad) && !Arrives(bad)
    ensures var r := Drain([], replies + ([bad] + rest), true);
            Keep(r.log, Shown) == Due(replies, frames) && r.status == ReadError(bad)
  {
    var log := FramesDelivered([], replies, frames, [bad] + rest);
    BadEnds(log, bad, rest);
    KeepAppend(log, Dequeued(bad.outputId), Shown);
    KeepAppend(log + [Dequeued(bad.outputId)], Released(bad.outputId), Shown);
    assert Keep([], Shown) + Due(replies, frames) == Due(replies, frames);
  }

  /** A read in chunks fails with the error of the first chunk that is refused or too short. */
  lemma {:induction false} FirstBadChunk(chunk: ChunkReader, total: nat, offset: nat) returns (at: nat)
    requires offset <= total && ReadChunksFrom(chunk, total, offset).Lost?
    ensures offset <= at < total && (at - offset) % WRITE_BUFFER_CHUNK_BYTES == 0
    ensures var n := ChunkAt(at, total);
            var reason := ReadChunksFrom(chunk, total, offset).reason;
            if chunk(at, n).ReadFails? then reason == chunk(at, n).status
            else |chunk(at, n).data| < n && reason == FAILED
    decreases total - offset
  {
    var n := ChunkAt(offset, total);
    if chunk(offset, n).ReadFails? || |chunk(offset, n).data| < n {
      at := offset;
    } else {
      at := FirstBadChunk(chunk, total, offset + n);
    }
  }
}
