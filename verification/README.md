# vt-ferry in Dafny

vt-ferry carries VideoToolbox calls from a Linux guest to a macOS worker over a stateful
request/reply protocol. This project models the parts of it that hold state or do arithmetic
somebody else relies on, and proves what they promise.

* **Worker** (`Worker`, `WorkerInvariant`, `WorkerTheorems`, `WorkerHistory`, `RequestLaws`,
  `SessionLife`, `MockBackend`). Sessions, pools, leased buffers, slots in one byte region, and
  the bounded output queue. The opcodes are functions on a worker value; `MockBackend.Backend`
  is the object with the source's fields and loops, and every method is proved to do what its
  function says. The theorems are about every request sequence from a fresh worker;
  `RequestLaws` says request by request what each one does to the tables, without naming the
  functions that do it.
* **Connection** (`Wire`, `Server`, `Transport`, `TransportProgress`, `EndToEnd`). The 24-byte
  header, the worker's read, dispatch and write loop, and the guest's single connection as a
  state machine whose steps move a few bytes, fail at any byte, and interleave request threads,
  heartbeat and worker.
* **Transfers** (`ChunkedIo`, `DeferredRelease`, `EncodedChunks`, `ChunkAssembly`). The chunk
  loops and the deferred release queue, run against the worker.
* **Encode and decode pipelines** (`PendingQueue`, `EncodePipeline`, `EncodeSession`,
  `SampleHistory`, `SubmittedImages`, `RefusedFrameExample`, `DecodeDrain`).
* **Reference counting** (`RefCounting`, `RefCountInvariant`, `RefCountTheorems`,
  `RefCountRuns`, `DictionaryLaws`, `ObjectRuntime`). Objects are indices into a table; the
  recursive finalizer is a terminating function and a recursive method.
* **Parsers and packing** (`BigEndian`, `ConfigRecords`, `HevcRecords`, `RecordAcceptance`,
  `ParameterSets`).
* **Layouts** (`Layout`, `Bits`) and **surface claims** (`ClaimDirectory`).

`dafny verify dfyconfig.toml` checks everything. `Collections` holds sequence lemmas.

## Conventions

* Fixed-width products and casts that can overflow are written with their wrap-around, as an
  optimised build computes them. Identifiers and generations are natural numbers;
  `WorkerTheorems.CountersBounded` shows they cannot reach the width of the source's counters
  in any run of fewer than 2^63 requests. Transport request ids do wrap.
* Reply structs are kept as values with their wire sizes; the byte layout of the payload
  structs is a parameter of the server model (`parse`, `render`). Headers and frames are bytes.
* Environment settings, clocks, allocation success, decoder verdicts and the replies of a
  worker the guest does not trust are parameters.
* Where a slot is smaller than its buffer the source would panic while slicing. The model fails
  there with an internal error, and the reachable-state invariant rules the case out.
* `RefCounting` records a use of a freed object in a `fault` flag instead of leaving it undefined.

## What turned out not to hold as stated

* A refused frame leaves its entry in the pending queue, so later callbacks are paired with the
  wrong frame. `RefusedFrameExample.RefusedFrameShiftsPairing` is such a run.
  `EncodePipeline.PairedIffNoneRefused` is the exact condition: every submission so far met the
  worker's admission guard when it was made (`EncodePipeline.AcceptedIff`), and no output was
  lost. Outputs are lost only if a callback's objects cannot be built, which `Deliver(false)`
  allows although the constructors (`coremedia.rs`, lines 306-346 and 1149-1194) never
  return null for a sample of the worker: the model covers more than the code can do.
* `CFDictionarySetValue` releases the old value before it retains the new one.
  `RefCountRuns.StoringOverItselfFaults` is a call that touches a freed object,
  `RefCountTheorems.ReplaceSafeIff` says for every call whether it does, and
  `RefCountRuns.HeldStoreIsSafe` that a caller who holds both objects is safe.
* A chunked write that does not fit is not undone: `ChunkedIo.RefusedWriteLeavesPrefix` says
  exactly which bytes stay.
* With the shipped constants no frame that takes the chunked path reaches the worker
  (`EncodedChunks.ShippedChunksNeverArrive`); `EncodedChunks.CapSufficesIff` says which cut
  sizes would work.
* A release by a connection that does not hold an entry can put two connections on one surface
  (`ClaimDirectory.StrayReleaseShares`, `ClaimDirectory.StrayReleaseSafeIff`).
* A BGRA slot of the broker holds a layout at every height only for widths that are multiples
  of 16, unless rows are so wide that no frame of that width is a page high
  (`Layout.BgraSlotHoldsIff`); a layout is sound only without 32-bit overflow
  (`Layout.LayoutSoundIff`); failed requests are atomic only if fixed replies fit the response
  buffer (`WorkerTheorems.ErrorsAtomicIff`), which the server's buffer guarantees.
* The protocol documentation says a chunk with another total size aborts the assembly. The code
  refuses the chunk and keeps the assembly; the model follows the code.

## Model

| member | source | states |
|---|---|---|
| WorkerInvariant.RunValid | crates/vt-ferry-worker/src/mock.rs:280-828 | after every request sequence from a fresh worker: ids ascend below the next id, every owner exists, live buffers occupy exactly slots 0..buffer_count of a backing of max_buffers slots, byte total and limits hold, an outstanding output's current lease is not writable and is pinned by that output alone |
| WorkerInvariant.DispatchKeeps | crates/vt-ferry-worker/src/mock.rs:280-828 | no request, valid or not, breaks the reachable-state invariant |
| WorkerInvariant.BufferSlot | crates/vt-ferry-worker/src/mock.rs:236-263 | every live buffer finds its pool and its whole slot inside that pool's backing |
| WorkerInvariant.AllocBufferKeeps | crates/vt-ferry-worker/src/mock.rs:405-494 | leasing, fresh or reused, keeps the invariant |
| WorkerInvariant.EncodeFrameKeeps | crates/vt-ferry-worker/src/mock.rs:616-729 | queueing a frame keeps order, limits, byte accounting and lease pinning |
| WorkerInvariant.ReleaseOutputKeeps | crates/vt-ferry-worker/src/mock.rs:145-170 | releasing an output keeps the invariant |
| WorkerInvariant.DestroySessionKeeps | crates/vt-ferry-worker/src/mock.rs:795-808 | tearing a session down keeps the invariant: nothing left refers to what is gone |
| WorkerTheorems.ErrorChangesNothing | crates/vt-ferry-worker/src/mock.rs:280-828 | from any reachable state a request that ends in an error leaves the worker as it was |
| WorkerTheorems.ErrorsAtomicIff | crates/vt-ferry-worker/src/mock.rs:852-879 | that holds for a response buffer exactly when it is at least as large as the largest fixed reply |
| WorkerTheorems.SlotsDisjoint | crates/vt-ferry-worker/src/mock.rs:249-263 | two live buffers of one pool have disjoint byte ranges of equal size |
| WorkerTheorems.WriteIsExact | crates/vt-ferry-worker/src/mock.rs:541-581 | an accepted write changes exactly the addressed bytes of that buffer and no byte readable through any other |
| WorkerTheorems.ReadIsExact | crates/vt-ferry-worker/src/mock.rs:495-540 | a read of a current lease returns exactly the addressed bytes and changes nothing |
| WorkerTheorems.LeaseStartsZeroed | crates/vt-ferry-worker/src/mock.rs:405-494 | a granted lease, new or reused, reads as all zeros, has the reported generation, and no other lease's bytes change; `RequestLaws.RecycledIsLeased` and `RequestLaws.FreshIsLeased` say which buffer is leased and when |
| RequestLaws.RecycledIsLeased | crates/vt-ferry-worker/src/mock.rs:415-446 | if the pool has recycled buffers, the earliest of them is leased: its generation moves on, it becomes writable, every other buffer and the bytes of every other pool stay as they were, and the reply gives its id, generation, slot, shape and offset |
| RequestLaws.FreshIsLeased | crates/vt-ferry-worker/src/mock.rs:448-493 | with none recycled, a new buffer takes the next slot exactly when the pool and the worker have room and the slot is not empty; otherwise the request fails with the status due and nothing changes |
| RequestLaws.LeaseTakesOnlyRecycled | crates/vt-ferry-worker/src/mock.rs:405-494 | no lease request, whatever its outcome, changes the record of a buffer that was not recycled |
| RequestLaws.UnknownPool | crates/vt-ferry-worker/src/mock.rs:405-414 | a lease from a pool that does not exist is an invalid handle |
| RequestLaws.RecycleLaw | crates/vt-ferry-worker/src/mock.rs:205-234 | recycling fails by another pool's id, an older generation or an already recycled buffer, in that order, and otherwise changes that buffer's state alone |
| RequestLaws.LeaseStatus | crates/vt-ferry-worker/src/mock.rs:495-581 | what a read and a write are refused for, by generation, state and bounds, for every buffer and every argument |
| RequestLaws.UnknownBuffer | crates/vt-ferry-worker/src/mock.rs:495-600 | an id no buffer has is an invalid handle for reading, writing and recycling |
| RequestLaws.EncodedOutputIs | crates/vt-ferry-worker/src/mock.rs:692-729 | an accepted frame adds one output at the end, with its session's codec, size and format, the next id, the times given and its source lease, queues that buffer, counts the frame, and changes nothing else |
| RequestLaws.SampleIs | crates/vt-ferry-worker/src/mock.rs:657-679 | every byte of a sample: big-endian length, unit type by whether it is a session's first, the start of the frame, and filler from the 64-bit wrapping seed |
| RequestLaws.FrameStatus | crates/vt-ferry-worker/src/mock.rs:616-690 | the status of every frame for an existing session and buffer, in the order of the checks |
| RequestLaws.PrepareLaw | crates/vt-ferry-worker/src/mock.rs:604-615 | preparing marks that session and nothing else |
| RequestLaws.ReleaseLaw | crates/vt-ferry-worker/src/mock.rs:145-170 | releasing takes out exactly that output and its 28 bytes; a buffer becomes writable exactly if it is that output's source, of the same generation and still queued |
| RequestLaws.DrainLaw | crates/vt-ferry-worker/src/mock.rs:809-822 | draining reports the number of the session's outputs and changes nothing |
| RequestLaws.ReadOutputLaw | crates/vt-ferry-worker/src/mock.rs:768-782 | an output is read in full once dequeued and is an invalid handle before |
| RequestLaws.UnknownOutput | crates/vt-ferry-worker/src/mock.rs:768-794 | an id no output has is an invalid handle |
| RequestLaws.CreateSessionLaw | crates/vt-ferry-worker/src/mock.rs:314-343 | up to 32 sessions: the new record and the reply carry exactly what was asked for, under an id larger than any in use |
| RequestLaws.CreatePoolLaw | crates/vt-ferry-worker/src/mock.rs:344-404 | up to 64 pools, for a known session or none: the record, its zeroed bytes and the reply, with four slots by default |
| RequestLaws.ControlLaw | crates/vt-ferry-worker/src/mock.rs:280-313 | greeting, ping and capabilities change nothing; unknown opcodes, other versions and truncated payloads get their statuses |
| WorkerTheorems.OutputPinsLease | crates/vt-ferry-worker/src/mock.rs:552-647 | while an output of the current lease is outstanding the buffer is queued or recycled, cannot be written or encoded again, and no second output refers to that lease |
| WorkerTheorems.StaleReleaseTouchesNothing | crates/vt-ferry-worker/src/mock.rs:145-170 | releasing an output of an older generation leaves every buffer unchanged |
| WorkerTheorems.SubtractionNeverSaturates | crates/vt-ferry-worker/src/mock.rs:165-203 | the byte total covers every subtraction made from it |
| WorkerTheorems.DestroyIsLocal | crates/vt-ferry-worker/src/mock.rs:172-203 | destroying a session leaves every other session's record, pools and outputs as they were, in order; `SessionLife.DestroyEnds` says what goes |
| WorkerTheorems.DestroyKeepsBuffer | crates/vt-ferry-worker/src/mock.rs:176-191 | a buffer goes exactly when its pool belonged to the destroyed session |
| SessionLife.DestroyEnds | crates/vt-ferry-worker/src/mock.rs:795-808 | destroying a session succeeds and takes out exactly its record; none of its pools or outputs is left, and every buffer left has its pool |
| SessionLife.DestroyedForever | crates/vt-ferry-worker/src/mock.rs:117-808 | after any requests that follow, every request naming a destroyed session fails and changes nothing: with a timeout if it asks for outputs, and as an invalid handle otherwise, unless the pool table is full |
| SessionLife.OutputsAreAsAsked | crates/vt-ferry-worker/src/mock.rs:314-729 | in every run, each session and each of its outputs has the codec, size and format given when the session was created |
| WorkerTheorems.CountersBounded | crates/vt-ferry-worker/src/mock.rs:63-86 | after n requests neither id counter has moved by more than n |
| WorkerHistory.HandedThenWaiting | crates/vt-ferry-worker/src/mock.rs:692-767 | over a run that discards none of a session's waiting outputs, the outputs handed out followed by those waiting are exactly those accepted, in order |
| WorkerHistory.HandedOnceInOrder | crates/vt-ferry-worker/src/mock.rs:130-143 | in every run a session's outputs are handed out in strictly increasing id order, so never twice, and all before any still waiting |
| WorkerHistory.BatchIsSingles | crates/vt-ferry-worker/src/mock.rs:742-767 | a batched dequeue of n is n single dequeues, same replies and same state, stopped only when nothing is ready |
| WorkerHistory.TakeManyIsPrefix | crates/vt-ferry-worker/src/mock.rs:742-767 | a batch takes a prefix of the session's waiting outputs, as long as asked for or as there are |
| WorkerHistory.DequeueLaw | crates/vt-ferry-worker/src/mock.rs:730-767 | a dequeue hands out the oldest waiting output, a batch as many as asked for, at least one and at most 24, or as there are; with none waiting both time out; a batch changes nothing but the outputs' marks |
| WorkerHistory.QuotaHolds | crates/vt-ferry-worker/src/mock.rs:271-690 | in every run the outputs held never exceed the configured number, 128, or the configured bytes at 28 each, and the limits stay as configured |
| WorkerHistory.QueueStep | crates/vt-ferry-worker/src/mock.rs:130-170 | one request moves outputs from accepted through waiting to handed out and loses none it was not told to discard |
| WorkerHistory.FirstFrameIsSync | crates/vt-ferry-worker/src/mock.rs:663-704 | in every run exactly the first accepted frame of a session is marked sync, and the session's counter is the number accepted |
| MockBackend.Backend.Handle | crates/vt-ferry-worker/src/mock.rs:280-828 | the object does for every request what the value-level step does to its state, outcome included |
| MockBackend.Backend.constructor | crates/vt-ferry-worker/src/mock.rs:271-278 | a new connection's worker is empty with the configured limits |
| MockBackend.Backend.CreateSession | crates/vt-ferry-worker/src/mock.rs:314-343 | the new session list, id counter and reply |
| MockBackend.Backend.CreatePool | crates/vt-ferry-worker/src/mock.rs:344-404 | the new pool with zeroed backing, or the refusal |
| MockBackend.Backend.AllocBuffer | crates/vt-ferry-worker/src/mock.rs:405-494 | the new state and outcome of the lease as the value-level step has them, which `RequestLaws.RecycledIsLeased` and `RequestLaws.FreshIsLeased` describe |
| MockBackend.Backend.LeaseAgain | crates/vt-ferry-worker/src/mock.rs:415-446 | the generation moves on, the slot is cleared, the lease is reported |
| MockBackend.Backend.LeaseFresh | crates/vt-ferry-worker/src/mock.rs:448-493 | the next slot is cleared and leased within the pool and global limits |
| MockBackend.Backend.ReadBuffer | crates/vt-ferry-worker/src/mock.rs:495-540 | the checks in order, then the bytes |
| MockBackend.Backend.WriteBuffer | crates/vt-ferry-worker/src/mock.rs:541-581 | the checks in order, then the bytes in the slot |
| MockBackend.Backend.RecycleBuffer | crates/vt-ferry-worker/src/mock.rs:205-234 | the checks in order, then the recycled state |
| MockBackend.Backend.EncodeFrame | crates/vt-ferry-worker/src/mock.rs:616-655 | the checks in order, then the frame is encoded from its slot |
| MockBackend.Backend.QueueSample | crates/vt-ferry-worker/src/mock.rs:656-729 | both output limits, then output, buffer state, byte total and frame count together |
| MockBackend.BuildSample | crates/vt-ferry-worker/src/mock.rs:664-680 | the filler loop builds the 28-byte sample: length, NAL type, up to eight frame bytes, seed bytes |
| MockBackend.Backend.TakeOutput | crates/vt-ferry-worker/src/mock.rs:130-137 | the session's oldest waiting output is marked and returned |
| MockBackend.Backend.TakeOutputs | crates/vt-ferry-worker/src/mock.rs:742-760 | the batch loop takes outputs until the limit or until none waits |
| MockBackend.Backend.ReleaseOutput | crates/vt-ferry-worker/src/mock.rs:145-170 | the output goes, its bytes come off the total, its buffer becomes writable only if still queued for that lease |
| MockBackend.Backend.RemovePoolsForSession | crates/vt-ferry-worker/src/mock.rs:176-191 | dropping pools and then buffers pool by pool removes exactly the buffers of the session's pools |
| MockBackend.Backend.RemoveOutputsForSession | crates/vt-ferry-worker/src/mock.rs:193-203 | the session's outputs and exactly their bytes are removed |
| MockBackend.Backend.DestroySession | crates/vt-ferry-worker/src/mock.rs:795-808 | the whole teardown as the value-level step has it, which `SessionLife.DestroyEnds` and `WorkerTheorems.DestroyIsLocal` describe |
| Wire.HeaderRoundTrip | crates/vt-ferry-protocol/src/lib.rs:41-48 | decoding an encoded header gives it back, for all field values |
| Wire.HeaderBytes | crates/vt-ferry-protocol/src/lib.rs:41-48 | where each byte of each field lies: version and opcode in two, flags in four, request id in eight, payload length and status in four bytes, low byte first |
| Wire.CallIsPlain | crates/vt-ferry-shim/src/transport.rs:158-190 | a request carries version 1, no flags, no status, its opcode, id and exact length |
| Wire.AnswerEchoes | crates/vt-ferry-worker/src/server.rs:100-122 | a reply carries the opcode and id of its request, version 1, no flags, the status and the exact length, then the payload |
| Wire.FrameRoundTrip | crates/vt-ferry-worker/src/server.rs:50-90 | a request followed by anything is read back whole with the rest untouched, or seen as oversized |
| Wire.PrefixIsPartial | crates/vt-ferry-worker/src/server.rs:50-90 | no strict prefix of a request is ever taken for a request |
| Wire.LengthSurvivesIff | crates/vt-ferry-shim/src/transport.rs:158-190 | the worker sees the request that was sent exactly when its payload is within the capacity, truncating length field included |
| Server.HandleConnection | crates/vt-ferry-worker/src/server.rs:30-158 | the connection loop on the backend object, including a reply write that fails after any number of bytes and ends the loop |
| Server.FramingIsTransparent | crates/vt-ferry-worker/src/server.rs:49-157 | requests within the limit are each answered once in order, and the worker ends where running them directly would leave it |
| Server.FailedWriteCutsReplies | crates/vt-ferry-worker/src/server.rs:135-157 | a failed write only cuts the stream of replies short: what was written is a prefix of all replies, and with room for all of them replies and worker are those of the whole stream |
| Server.CutReplyIsLast | crates/vt-ferry-worker/src/server.rs:135-157 | after a failed write the worker is where running the requests answered in full and the one whose reply was cut would leave it: the replies before that one fit, and with it they do not |
| Server.OversizedEndsConnection | crates/vt-ferry-worker/src/server.rs:67-75 | the header of a request over the limit ends the connection, whatever follows it |
| Server.FailuresAreClean | crates/vt-ferry-worker/src/server.rs:97-120 | status OK exactly on success, and then the reply's bytes; otherwise the failure's own status, an empty payload and an unchanged worker |
| Server.RepliesFit | crates/vt-ferry-worker/src/server.rs:48-122 | every reply fits the response buffer and its length field is exact |
| Transport.OneConnectionNumberedFromOne | crates/vt-ferry-shim/src/transport.rs:295-306 | in every interleaving at most one connection succeeds and its requests are numbered 1, 2, 3 and so on |
| Transport.AnswersMatchRequests | crates/vt-ferry-shim/src/transport.rs:158-230 | every answer a caller gets is the worker's answer to that same request, and the bytes sent are a prefix of the encoded requests in order |
| Transport.SilentAfterFailure | crates/vt-ferry-shim/src/transport.rs:413-428 | once a read or write has failed, no connection, request, byte or answer follows, whatever happens |
| Transport.FailureKills | crates/vt-ferry-shim/src/transport.rs:334-428 | in every run a failure at any byte of a request or heartbeat ends the transport there: whatever follows, the request it hit is the last one begun and is never answered, and no byte, connection or answer is added |
| Transport.KilledIffSomeFailed | crates/vt-ferry-shim/src/transport.rs:413-428 | nothing else ends the transport: it is dead exactly when some read or write of the run failed |
| TransportProgress.RequestCompletes | crates/vt-ferry-shim/src/transport.rs:158-230 | from every idle state with a live worker, or not yet connected, a request whose parts fit is sent, served and answered: its caller gets exactly the worker's answer and the transport is ready again |
| TransportProgress.HeartbeatCompletes | crates/vt-ferry-shim/src/transport.rs:334-369 | on a stale idle connection the heartbeat sends a ping, numbered and answered like any request |
| TransportProgress.HeartbeatKeepsOut | crates/vt-ferry-shim/src/transport.rs:334-352 | it never dials, interrupts a request or probes a connection in use |
| TransportProgress.OversizedNeverAnswered | crates/vt-ferry-worker/src/server.rs:67-75 | a request over the limit makes the worker hang up without performing it, and neither it nor any later request is ever answered, whatever happens next |
| Transport.NextKeeps | crates/vt-ferry-shim/src/transport.rs:158-230 | every step of guest, heartbeat or worker keeps the byte-level account of what is in flight |
| EndToEnd.CallersSeeTheWorker | crates/vt-ferry-shim/src/transport.rs:158-230 | in every interleaving and with failures at any byte, the answer a caller gets to the i-th request is what the worker's state machine answers after exactly the requests before it |
| ChunkedIo.WriteBufferLoop | crates/vt-ferry-shim/src/transport.rs:542-562 | the write loop through the frame limit, against the worker object |
| ChunkedIo.ReadBufferLoop | crates/vt-ferry-shim/src/transport.rs:569-593 | the read loop returns the concatenated chunks and leaves the worker unchanged |
| ChunkedIo.ChunkedWriteIsAtomic | crates/vt-ferry-shim/src/transport.rs:542-562 | on a writable lease the chunked write has exactly the effect of one write of the whole string, and is refused exactly when that would be |
| ChunkedIo.WriteFromFills | crates/vt-ferry-shim/src/transport.rs:542-562 | from any point the loop delivers everything or stops at the first chunk past the end, with exactly the chunks before it in place |
| ChunkedIo.StopsAfterWholeChunks | crates/vt-ferry-shim/src/transport.rs:542-562 | it gets to the end exactly when all fits, and otherwise stops after as many whole chunks as fit |
| ChunkedIo.RefusedWriteLeavesPrefix | crates/vt-ferry-shim/src/transport.rs:542-562 | a refused write leaves its whole chunks that fit behind, as one write of that prefix would, and nothing else |
| ChunkedIo.RemoteIsServed | crates/vt-ferry-worker/src/server.rs:50-158 | the request limit of the transfers is the connection loop's: a request sent alone is served as the transfer model says, and one over the limit gets no reply |
| ChunkedIo.ChunkedWriteNeedsLease | crates/vt-ferry-shim/src/transport.rs:542-562 | without a writable lease nothing changes and only an empty write succeeds |
| ChunkedIo.ChunkedReadIsExact | crates/vt-ferry-shim/src/transport.rs:569-593 | a chunked read returns the first bytes of the slot, or is refused exactly when the slot is shorter |
| ChunkedIo.WriteThenRead | crates/vt-ferry-shim/src/transport.rs:542-593 | what was written is what is read back |
| DeferredRelease.Releaser.ReleaseOutput | crates/vt-ferry-shim/src/transport.rs:595-608 | without deferral the id is released at once; otherwise it is queued, and the whole queue flushed once it reaches the batch size |
| DeferredRelease.Releaser.Flush | crates/vt-ferry-shim/src/transport.rs:774-786 | the queue is emptied first, then sent in batches of at most 24 until one fails |
| DeferredRelease.Releaser.ReleaseBatch | crates/vt-ferry-shim/src/transport.rs:788-805 | the 24-slot payload is filled and sent; an unsupported opcode means one request per id |
| DeferredRelease.ReleaseWaits | crates/vt-ferry-shim/src/transport.rs:595-608 | a release below the batch size reaches no one and joins the queue; the one that fills it releases the whole queue, one id after the other |
| DeferredRelease.AppleOutputs.ReleaseBatch | crates/vt-ferry-worker/src/vt_real.rs:2687-2708 | the Apple worker clamps the count to 24 and releases slot by slot from its table until an id is unknown |
| DeferredRelease.AppleOutputs.ReleaseId | crates/vt-ferry-worker/src/vt_real.rs:1166-1178 | the id leaves the table, or the status says it was not there |
| DeferredRelease.TableFollowsWorker | crates/vt-ferry-worker/src/vt_real.rs:2687-2708 | on any payload the Apple worker's handler ends the same ids with the same status as the same loop on the mock worker's queue, so the results below hold of both |
| DeferredRelease.PayloadIsServed | crates/vt-ferry-worker/src/vt_real.rs:2687-2708 | serving the payload of up to 24 ids releases exactly those ids in order, with the status of the first refused one |
| DeferredRelease.BatchAndFallbackAgree | crates/vt-ferry-shim/src/transport.rs:788-805 | for up to 24 ids the batch handler and the single requests leave the same worker and report the same status |
| DeferredRelease.FlushIsSingly | crates/vt-ferry-shim/src/transport.rs:774-786 | flushing any number of ids in batches, with or without the batch opcode, is sending one request per id |
| DeferredRelease.FlushSucceedsIff | crates/vt-ferry-worker/src/mock.rs:783-794 | a flush succeeds exactly when the queued ids are distinct and all outstanding |
| DeferredRelease.FlushRemovesExactly | crates/vt-ferry-shim/src/transport.rs:774-805 | a flush ends exactly the outputs it got to, a prefix of the queue, and leaves every other output in its place |
| DeferredRelease.SentThenQueuedIsAsked | crates/vt-ferry-shim/src/transport.rs:595-614 | in every run the queue stays below the batch size, and ids released then queued are all ids asked for, in order, exactly when no flush failed |
| DeferredRelease.SupportIsInvisible | crates/vt-ferry-shim/src/transport.rs:788-805 | the same actions lead to the same state against a worker that serves the batch opcode and one that refuses it |
| PendingQueue.Queue.Push | crates/vt-ferry-shim/src/videotoolbox.rs:850-905 | the entry is appended, growing 0, 4, 8 and so on by copying both arrays; nothing changes without memory |
| PendingQueue.Queue.Pop | crates/vt-ferry-shim/src/videotoolbox.rs:907-935 | the oldest entry of both arrays together, the rest shifted in order |
| PendingQueue.Queue.Grow | crates/vt-ferry-shim/src/videotoolbox.rs:855-892 | growing keeps every entry |
| EncodePipeline.CallbacksFollowFrames | crates/vt-ferry-shim/src/videotoolbox.rs:1238-1602 | in every run, whatever else the worker is asked and whatever outputs were lost: the k-th callback gets the entry of the k-th submitted frame, and the time and bytes of the accepted frame whose output it is, the k-th after leaving out those lost before it |
| EncodePipeline.PairedIffNoneRefused | crates/vt-ferry-shim/src/videotoolbox.rs:1310-1331 | for frames with different times, the k-th callback has the k-th submission's entry, and its time exactly when no output was lost before it and the worker admitted every submission up to that one |
| EncodePipeline.AcceptedIff | crates/vt-ferry-worker/src/mock.rs:616-729 | a reachable worker accepts a frame exactly when the session is prepared, the lease is current and writable, and both output limits leave room |
| EncodePipeline.AdmittedIsAccepted | crates/vt-ferry-worker/src/mock.rs:616-729 | over a whole run, the submissions accepted are exactly those for which that guard held when they were made |
| EncodePipeline.BuiltLosesNothing | crates/vt-ferry-shim/src/videotoolbox.rs:1480-1602 | outputs are lost only where the objects for a callback cannot be built: otherwise reading never fails and the k-th callback is for the k-th output |
| EncodePipeline.CompleteDelivery | crates/vt-ferry-shim/src/videotoolbox.rs:1346-1378 | after a complete delivery every accepted frame had its callback, and the queue is empty exactly when none was refused |
| EncodePipeline.ActKeeps | crates/vt-ferry-shim/src/videotoolbox.rs:1238-1602 | queue, dequeued outputs, the worker's waiting outputs and the bytes due for them stay aligned at every step |
| EncodePipeline.ReadSucceeds | crates/vt-ferry-worker/src/mock.rs:768-782 | an output dequeued and not yet called back is always readable in full |
| SubmittedImages.PendingIsRefused | crates/vt-ferry-shim/src/videotoolbox.rs:1255-1331 | in every run an image submitted again before its callback reaches neither queue nor worker, and no two pending entries have the same image |
| SubmittedImages.CallbackFreesImage | crates/vt-ferry-shim/src/videotoolbox.rs:1480-1602 | a callback frees its image and no other, so that its next submission is sent again |
| SampleHistory.AcceptedSample | crates/vt-ferry-worker/src/mock.rs:656-729 | the output of an accepted frame has the bytes made from the first eight that could be read through its buffer when it was submitted |
| SampleHistory.StoredStays | crates/vt-ferry-worker/src/mock.rs:280-828 | no request ever changes the bytes of an output the worker has |
| EncodeSession.CompressionSession.EncodeFrame | crates/vt-ferry-shim/src/videotoolbox.rs:1238-1343 | an image already submitted is refused; otherwise the entry is queued before the request and stays if the request fails; nothing is sent exactly when the queue is full and cannot grow |
| EncodeSession.CompressionSession.DeliverOutputs | crates/vt-ferry-shim/src/videotoolbox.rs:1346-1378 | the delivery loop, over single or batched dequeues, ending with the first delivery that fails |
| EncodeSession.CompressionSession.DeliverOne | crates/vt-ferry-shim/src/videotoolbox.rs:1470-1602 | read, pop, build, call back; a failed read consumes nothing, a failed build consumes the entry, and either drops the rest of the batch |
| EncodeSession.CompressionSession.DequeueReady | crates/vt-ferry-shim/src/videotoolbox.rs:1409-1435 | the batched dequeue when asked for, the single one when the worker does not know the batch opcode |
| EncodeSession.DeliverAllCompletes | crates/vt-ferry-shim/src/videotoolbox.rs:1346-1378 | from a consistent state, if callbacks can be built, the loop ends without failing and passes on every output that was left; without earlier losses every accepted frame has its callback |
| EncodeSession.FaultEndsBatch | crates/vt-ferry-shim/src/videotoolbox.rs:1346-1378 | if one callback's objects cannot be built, the batch delivers exactly those before it, consumes that one, fails, and never delivers the rest |
| RefusedFrameExample.RefusedFrameShiftsPairing | crates/vt-ferry-shim/src/videotoolbox.rs:1310-1331 | a run on a worker with room for one output: of three frames the second is refused, and the third's callback carries the second's entry with the third's time |
| DecodeDrain.DrainLoop | crates/vt-ferry-shim/src/videotoolbox.rs:2405-2679 | the drain loop's events, each logged where the call is made, and its status, for any replies, with or without callback; the results below say what they are |
| DecodeDrain.ReadChunks | crates/vt-ferry-shim/src/transport.rs:748-772 | the chunk loop against any worker, as the recursive reading that `DecodeDrain.ChunksAreFrame` and `DecodeDrain.FirstBadChunk` describe |
| DecodeDrain.ChunksAreFrame | crates/vt-ferry-shim/src/transport.rs:748-772 | the chunks read assemble to a frame exactly when every chunk reply begins with the frame's bytes at its offset |
| DecodeDrain.FirstBadChunk | crates/vt-ferry-shim/src/transport.rs:748-772 | a failed read has the error of the first chunk refused or short, and every chunk before it was full |
| DecodeDrain.CallbackGetsFrames | crates/vt-ferry-shim/src/videotoolbox.rs:2405-2679 | for any number of readable frames and then a reply that ends the loop, the callback gets each frame's own bytes and status, in order, and the caller the status due for the last reply |
| DecodeDrain.UnreadableEnds | crates/vt-ferry-shim/src/videotoolbox.rs:2405-2679 | a frame that cannot be read ends the loop after the deliveries before it, with the error of that read |
| DecodeDrain.WithoutCallback | crates/vt-ferry-shim/src/videotoolbox.rs:2405-2679 | without a callback nothing is delivered and the loop goes on to the reply that ends it |
| DecodeDrain.EveryFrameReleasedOnce | crates/vt-ferry-shim/src/videotoolbox.rs:2405-2679 | on every path, each of the three read failures included, a frame taken is held alone, delivered at most once and released exactly once before the next or the return |
| DecodeDrain.ReleasesAreTakes | crates/vt-ferry-shim/src/videotoolbox.rs:2405-2679 | the ids released are the ids taken, in order |
| DecodeDrain.DeliveriesAreTakes | crates/vt-ferry-shim/src/videotoolbox.rs:2405-2679 | with a callback and readable frames the frames delivered are the frames taken, in order |
| EncodedChunks.Assembler.Accept | crates/vt-ferry-worker/src/vt_real.rs:2996-3140 | the receiver's checks, the assembly, and the dispatch on the final chunk |
| ChunkAssembly.OwnChunk | crates/vt-ferry-worker/src/vt_real.rs:2996-3140 | for any chunk and any parts held: the status by its first fault, the frame it completes if it does, and the parts held afterwards |
| ChunkAssembly.FramesAreAssembled | crates/vt-ferry-worker/src/vt_real.rs:2996-3140 | over any mix of chunks of any sessions, a session is delivered exactly the frames its own chunks make up, in order |
| ChunkAssembly.OnlyWholeFrames | crates/vt-ferry-worker/src/vt_real.rs:2996-3140 | every frame dispatched is the joined bytes of consecutive chunks from offset 0 of one session, agreeing on the size they add up to, the last marked final, with the first one's timing |
| EncodedChunks.SendLoop | crates/vt-ferry-shim/src/transport.rs:671-702 | the sender's loop through the request limit |
| EncodedChunks.ChunkedDeliveryExact | crates/vt-ferry-protocol/src/lib.rs:794-811 | from any receiver state a frame within bounds, on an open session, whose largest chunk fits a request is dispatched exactly once, whole, with the head's timing; any other is refused and changes nothing |
| EncodedChunks.ShippedChunksNeverArrive | crates/vt-ferry-shim/src/videotoolbox.rs:2779-2796 | no frame over 4 MiB gets through the chunked path of the shipped constants |
| EncodedChunks.CapSufficesIff | crates/vt-ferry-worker/src/server.rs:13 | sending succeeds and dispatches the whole frame next, for every frame within bounds and any receiver state with the session open, exactly when a full chunk with its header fits one request |
| RefCounting.Release | crates/vt-ferry-shim/src/runtime.rs:202-216 | the recursive release ends because the total count falls, and keeps the table |
| RefCountInvariant.ReleaseKeeps | crates/vt-ferry-shim/src/runtime.rs:202-216 | every count stays exact through the whole recursion, with the pending references accounted for |
| RefCountInvariant.ReleaseShrinks | crates/vt-ferry-shim/src/corefoundation.rs:128-145 | a release changes no object's contents, revives none, and touches none already dying or freed |
| RefCountInvariant.RetainKeeps | crates/vt-ferry-shim/src/runtime.rs:190-199 | a retain adds exactly one reference, which someone must own |
| RefCountTheorems.ReleaseFinalizesExactly | crates/vt-ferry-shim/src/runtime.rs:202-216 | an object survives a release exactly when it belongs to a group each member of which is static, held by a caller or referred to by a member |
| RefCountTheorems.ReplaceSafeIff | crates/vt-ferry-shim/src/corefoundation.rs:532-548 | replacing a dictionary value touches no freed object exactly when the dictionary and the new value survive the loss of the old one |
| RefCountTheorems.HeldSurvives | crates/vt-ferry-shim/src/runtime.rs:202-216 | an object that a caller holds, or a static one, survives the loss of any reference inside the graph |
| RefCountTheorems.ArrayCreateKeeps | crates/vt-ferry-shim/src/corefoundation.rs:428-450 | a new array owns one reference per element |
| RefCountTheorems.DictionaryCreateKeeps | crates/vt-ferry-shim/src/corefoundation.rs:482-514 | a new dictionary owns one reference per key and per value |
| RefCountTheorems.DictionaryCopyKeeps | crates/vt-ferry-shim/src/corefoundation.rs:602-623 | a copy owns its own references |
| RefCountRuns.CountsAreExact | crates/vt-ferry-shim/src/runtime.rs:190-216 | in every state of every well-behaved run no freed object was touched, a live object's count is callers' references plus occurrences in live containers, a freed one has neither, and the live counter is the number of live objects |
| RefCountRuns.CountsStayBelow | crates/vt-ferry-shim/src/runtime.rs:134-199 | no count exceeds the references made so far, so a run that makes fewer than 2^31 never reaches the width of the counter |
| RefCountRuns.FreedOnce | crates/vt-ferry-shim/src/runtime.rs:202-216 | once freed, an object stays as it was for the rest of the run |
| RefCountRuns.RemoveKeeps | crates/vt-ferry-shim/src/corevideo.rs:1057-1073 | removing an attachment gives up exactly its key and value reference; `DictionaryLaws.RemoveTakesFirst` says which entry goes |
| RefCountRuns.HeldStoreIsSafe | crates/vt-ferry-shim/src/corefoundation.rs:532-548 | storing a value that is held, static or null in a dictionary that is held never touches a freed object, whatever it replaces |
| RefCountRuns.StoringOverItselfFaults | crates/vt-ferry-shim/src/corefoundation.rs:532-548 | after a run of allowed calls that leaves a dictionary as the only owner of a value, storing the value over itself touches a freed object |
| DictionaryLaws.FoundFirst | crates/vt-ferry-shim/src/corefoundation.rs:158-166 | the search finds the earliest entry with the key, and none exactly when no entry has it |
| DictionaryLaws.GetIsLookup | crates/vt-ferry-shim/src/corefoundation.rs:551-562 | reading a dictionary is looking the key up in its list of pairs from the front |
| DictionaryLaws.StoreReplaces | crates/vt-ferry-shim/src/corefoundation.rs:532-548 | a store that touches no freed object puts the value in the earliest entry with the key; every other entry and the contents of every other object stay |
| DictionaryLaws.StoreAppends | crates/vt-ferry-shim/src/corefoundation.rs:532-548 | a store under a new key appends one pair, and nothing else changes its contents |
| DictionaryLaws.StoreThenGet | crates/vt-ferry-shim/src/corefoundation.rs:532-562 | after a store the key reads as the value stored, and every other key as before |
| DictionaryLaws.RemoveTakesFirst | crates/vt-ferry-shim/src/corevideo.rs:1057-1073 | removal takes out the earliest pair with the key and leaves the rest in order, and no other object's contents change |
| DictionaryLaws.RemoveAbsent | crates/vt-ferry-shim/src/corevideo.rs:1057-1073 | removing a key that is not there changes nothing |
| DictionaryLaws.ArrayHolds | crates/vt-ferry-shim/src/corefoundation.rs:428-450 | a new array holds exactly the values given, and no other object's contents change |
| DictionaryLaws.DictionaryHolds | crates/vt-ferry-shim/src/corefoundation.rs:482-514 | the same for the pairs of a new dictionary |
| DictionaryLaws.CopyHolds | crates/vt-ferry-shim/src/corefoundation.rs:602-623 | a copy holds the pairs of the original |
| ObjectRuntime.Runtime.CFRetain | crates/vt-ferry-shim/src/runtime.rs:190-199 | one more reference, none for null or static objects |
| ObjectRuntime.Runtime.CFRelease | crates/vt-ferry-shim/src/runtime.rs:202-216 | one reference less, and with the last the children's releases, the memory and the live counter |
| ObjectRuntime.Runtime.Finalize | crates/vt-ferry-shim/src/corefoundation.rs:128-145 | the finalizer's loops release every key, then every value |
| ObjectRuntime.Runtime.CFArrayCreate | crates/vt-ferry-shim/src/corefoundation.rs:428-450 | the retained elements and the new object |
| ObjectRuntime.Runtime.CFDictionaryCreate | crates/vt-ferry-shim/src/corefoundation.rs:482-514 | keys and values retained in turn and the new object |
| ObjectRuntime.Runtime.CFDictionaryCreateCopy | crates/vt-ferry-shim/src/corefoundation.rs:602-623 | the copied entries retained, or null for anything but a dictionary |
| ObjectRuntime.Runtime.CFDictionarySetValue | crates/vt-ferry-shim/src/corefoundation.rs:532-548 | release, retain and overwrite on a known key, else two retains and an append, with the results of `DictionaryLaws.StoreReplaces` and `DictionaryLaws.StoreAppends` |
| ObjectRuntime.Runtime.CFDictionaryGetValue | crates/vt-ferry-shim/src/corefoundation.rs:551-562 | the value stored under the key, null if there is none, which `DictionaryLaws.GetIsLookup` describes |
| ObjectRuntime.Runtime.RemoveAttachment | crates/vt-ferry-shim/src/corevideo.rs:1057-1073 | the entry goes first, then its two references, with the result of `DictionaryLaws.RemoveTakesFirst` |
| ConfigRecords.ParseAvcc | crates/vt-ferry-shim/src/coremedia.rs:1516-1563 | the parser's loops compute the record's first SPS and PPS, or nothing |
| ConfigRecords.AvccRoundTrip | crates/vt-ferry-shim/src/coremedia.rs:1516-1563 | parsing a written record gives its first SPS, first PPS and length size and consumes all of it |
| ConfigRecords.AvccOfPrefix | crates/vt-ferry-shim/src/coremedia.rs:1516-1563 | on any input a prefix parses to the same result or to none, and the record's last byte decides which |
| ConfigRecords.AvccExact | crates/vt-ferry-shim/src/coremedia.rs:1516-1563 | every strict prefix of a written record is rejected, appended bytes change nothing |
| RecordAcceptance.AvccIsWritten | crates/vt-ferry-shim/src/coremedia.rs:1516-1563 | whatever is accepted begins with a record: the bytes consumed are that record written out, and the result is its first sets and length size |
| RecordAcceptance.AvccAcceptsIff | crates/vt-ferry-shim/src/coremedia.rs:1516-1563 | the parser accepts exactly the strings that begin with a record |
| HevcRecords.ParseHvcc | crates/vt-ferry-shim/src/coremedia.rs:1572-1609 | the nested loops compute the first VPS, SPS and PPS, or nothing |
| HevcRecords.FoldIsChosen | crates/vt-ferry-shim/src/coremedia.rs:1600-1605 | keeping each wanted unit that is still missing finds the first of each type in flattened order |
| HevcRecords.HvccRoundTrip | crates/vt-ferry-shim/src/coremedia.rs:1572-1609 | parsing a written record gives the first VPS, SPS and PPS in flattened array order, or nothing if one is missing |
| HevcRecords.HvccOfPrefix | crates/vt-ferry-shim/src/coremedia.rs:1572-1609 | on any input a prefix parses to the same result or to none, and the record's last byte decides which |
| HevcRecords.HvccExact | crates/vt-ferry-shim/src/coremedia.rs:1572-1609 | every strict prefix of a written record is rejected, appended bytes change nothing |
| RecordAcceptance.HvccIsWritten | crates/vt-ferry-shim/src/coremedia.rs:1572-1609 | whatever is accepted begins with a record: the bytes consumed are that record written out, and the result is its first VPS, SPS and PPS |
| RecordAcceptance.HvccAcceptsIff | crates/vt-ferry-shim/src/coremedia.rs:1572-1609 | the parser accepts exactly the strings that begin with a record holding a VPS, an SPS and a PPS |
| ParameterSets.CutSets | crates/vt-ferry-shim/src/coremedia.rs:699-713 | the copying loop cuts the flat bytes by the sizes, up to four sets, stopping at an empty or overlong one |
| ParameterSets.FromSetsKeeps | crates/vt-ferry-shim/src/coremedia.rs:1247-1304 | one to four non-empty sets make a description holding exactly those sets, anything else is an invalid parameter |
| ParameterSets.PackLoop | crates/vt-ferry-shim/src/videotoolbox.rs:2101-2192 | the loop fills the fixed size and byte areas with the sets, or fails with the status due |
| ParameterSets.PackRoundTrip | crates/vt-ferry-shim/src/videotoolbox.rs:2101-2192 | packing succeeds exactly for the right codec, one to four sets and at most 128 bytes, keeps codec and prefix length, and slicing by the sizes gives the sets back; each failure has its status |
| ParameterSets.AvccReachesWorker | crates/vt-ferry-shim/src/coremedia.rs:1375-1401 | the first SPS and PPS of a written record reach the worker unchanged exactly when they fit 128 bytes together |
| ParameterSets.HvccReachesWorker | crates/vt-ferry-shim/src/coremedia.rs:1387-1401 | the first VPS, SPS and PPS of a written hvcC record reach the worker unchanged exactly when they fit 128 bytes together |
| ParameterSets.ConfigReachesWorker | crates/vt-ferry-shim/src/coremedia.rs:1387-1401 | the same for the sets of any parsed record |
| ParameterSets.SplitLoop | crates/vt-ferry-shim/src/videotoolbox.rs:1970-1990 | the splitting loop on any input and prefix size |
| ParameterSets.SplitInvertsJoin | crates/vt-ferry-shim/src/videotoolbox.rs:1970-1990 | splitting undoes joining for non-empty units whose lengths fit the prefix |
| ParameterSets.SplitRejoinsToPrefix | crates/vt-ferry-shim/src/videotoolbox.rs:1970-1990 | on any input, what was split off joins back to a prefix of it |
| Layout.LayoutsAgree | crates/vt-ferry-shim/src/videotoolbox.rs:2685-2725 | guest and worker compute the same layout for all 32-bit sizes and every format code, the guest's three branches with mask rounding against the worker's shared code with remainder rounding |
| Layout.LayoutFigures | crates/vt-ferry-worker/src/mock.rs:898-945 | stride, planes and total for every size and format code: one byte per sample for NV12, two for P010, four per pixel otherwise, rows padded to the next multiple of 64, everything modulo 2^32 |
| Layout.LayoutSoundIff | crates/vt-ferry-worker/src/mock.rs:898-945 | with those figures written out, rows fit strides, planes fit the total and do not overlap exactly when neither stride nor size overflows 32 bits |
| Layout.AlignUpRounds | crates/vt-ferry-broker/src/pool.rs:157-170 | masking with a power of two rounds up to the next multiple |
| Layout.Nv12SlotHoldsLayout | crates/vt-ferry-broker/src/pool.rs:157-189 | an NV12 slot always holds one layout |
| Layout.BgraSlotHoldsIff | crates/vt-ferry-broker/src/pool.rs:174 | for widths whose page-high frame fits 32 bits, a BGRA slot holds one layout at every height exactly when the width is a multiple of 16 |
| Layout.SlotPageAligned | crates/vt-ferry-broker/src/pool.rs:157-189 | slot sizes are whole pages |
| Layout.PackedSlotsDisjoint | crates/vt-ferry-broker/src/pool.rs:313-327 | every packed slot starts on a page boundary and ends inside the allocation, and two of them are disjoint |
| Layout.PackedAllocTight | crates/vt-ferry-broker/src/pool.rs:313-327 | the packed allocation holds all slots and wastes less than one row |
| ClaimDirectory.Directory.TakeMatching | crates/vt-ferry-worker/src/iosurface_pool_directory.rs:165-190 | the first unclaimed entry of the shape is claimed |
| ClaimDirectory.Directory.ReleaseEntry | crates/vt-ferry-worker/src/iosurface_pool_directory.rs:198-202 | the entry's flag is cleared, an unknown id does nothing |
| ClaimDirectory.ClaimTakesFirst | crates/vt-ferry-worker/src/iosurface_pool_directory.rs:165-190 | a claim takes the earliest free entry of the shape, touches no other, and the connection then holds it |
| ClaimDirectory.NothingToClaim | crates/vt-ferry-worker/src/iosurface_pool_directory.rs:165-190 | with no such entry nothing changes |
| ClaimDirectory.RunIsExclusive | crates/vt-ferry-worker/src/iosurface_pool_directory.rs:165-202 | for any number of connections that release only what they hold, held entries are pairwise different and are exactly the claimed ones |
| ClaimDirectory.ClaimSucceedsIff | crates/vt-ferry-worker/src/iosurface_pool_directory.rs:165-190 | after any such run a claim succeeds exactly when fewer claims are outstanding at the shape than entries exist there |
| ClaimDirectory.StrayReleaseSafeIff | crates/vt-ferry-worker/src/iosurface_pool_directory.rs:198-202 | a release by a connection that does not hold the entry is harmless exactly when nobody holds it |
| ClaimDirectory.StrayReleaseShares | crates/vt-ferry-worker/src/iosurface_pool_directory.rs:198-202 | three calls after which two connections hold one surface |

## Left out

- The Apple backend beyond its chunk assembly and its batched release: foreign decoding and encoding calls.
- Mach ports, IOSurface and CVPixelBuffer mappings, broker supervision and the TCP bridge: foreign calls and I/O plumbing.
- Byte layouts of the payload structs other than the message header: fixed-offset copies with nothing to prove beyond their sizes.
- HELLO and capability contents, string and number accessors, tracing and probes: settled by reading one branch.
- The recycle request and the buffer write the guest sends around a frame: they are among the other requests a run of `EncodePipeline` may make at any point. The buffer's references to its pool and attachments: releases that the general release theorem covers.
- Delivery forced by a full poll interval: one more place to start the modelled delivery loop.
- The in-band parameter-set packer: not on the live path, and the same packing loop after the modelled split.
- Dropping deferred releases when a session is destroyed: a configured clear of the queue.
- Reentrant use of one worker from several guests: each connection has its own worker.
- Wall-clock deadlines in delivery: a wait is any number of requests by others between two steps of `EncodePipeline`.
- Mutex poisoning by a panicking thread, and panics on allocation failure.
- DecodeDrain.DrainLoop: covers finite reply sequences; a missing reply stands for a lost connection, so a run that never ends is covered prefix by prefix.
- Transport.AnswersMatchRequests: assumes payloads under 2^32 bytes, which holds of every caller since chunks are at most 4 MiB and a 64-byte header.
- RefCountRuns.CountsAreExact: counts are unbounded; `RefCountRuns.CountsStayBelow` says how long a run must be before a 32-bit count could overflow.
