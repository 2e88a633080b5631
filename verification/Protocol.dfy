/** Wire constants, requests and replies of the transport protocol. */
module Protocol {
  import opened Bits
  import opened Layout

  const STATUS_OK: u32 := 0
  const STATUS_UNSUPPORTED_OPCODE: u32 := 1
  const STATUS_UNSUPPORTED_VERSION: u32 := 2
  const STATUS_INVALID_HANDLE: u32 := 4
  const STATUS_STALE_GENERATION: u32 := 5
  const STATUS_INVALID_STATE: u32 := 6
  const STATUS_BOUNDS_VIOLATION: u32 := 7
  const STATUS_INTERNAL_FAILURE: u32 := 8
  const STATUS_TIMEOUT: u32 := 9
  const STATUS_RESOURCE_EXHAUSTED: u32 := 10

  const VTF_TRANSPORT_VERSION: nat := 1
  const MAX_OUTPUT_BATCH: nat := 24
  /** Largest request or reply payload the worker carries. */
  const STORAGE_CAPACITY: nat := 2 * 1024 * 1024
  /** Largest fixed-size reply: a pool reply with 64 regions and 64 leases. */
  const MAX_FIXED_REPLY: nat := 21096
  const BUFFER_IO_HEADER: nat := 24

  datatype Time = Time(value: int, timescale: int)

  /** Requests after the fixed-size payload struct has been read. `Truncated` is a
      payload too short for its struct, `Unknown` an opcode the worker does not serve,
      `WrongVersion` a header of another protocol version. */
  datatype Request =
    | Hello
    | Ping
    | GetCaps
    | CreateSession(kind: u32, codec: u32, width: u32, height: u32, format: u32)
    | CreatePool(sessionId: nat, bufferCount: u32, format: u32, width: u32, height: u32)
    | AllocBuffer(poolId: nat)
    | ReadBuffer(bufferId: nat, generation: nat, offset: u32, length: u32)
    | WriteBuffer(bufferId: nat, generation: nat, offset: u32, length: u32, data: seq<byte>)
    | RecycleBuffer(poolId: nat, bufferId: nat, generation: nat)
    | SetProperty(sessionId: nat)
    | PrepareSession(sessionId: nat)
    | EncodeFrame(sessionId: nat, proxyId: nat, bufferId: nat, generation: nat, pts: Time, duration: Time)
    | DequeueOutput(sessionId: nat)
    | DequeueOutputBatch(sessionId: nat, maxOutputs: u32)
    | ReadOutput(outputId: nat)
    | ReleaseOutput(outputId: nat)
    | DestroySession(sessionId: nat)
    | Drain(sessionId: nat)
    | Truncated(write: bool)
    | Unknown(opcode: nat)
    | WrongVersion

  /** `DequeueOutputReply`, without the constant parameter-set bytes. */
  datatype OutputInfo = OutputInfo(
    sessionId: nat, outputId: nat, codec: u32, width: u32, height: u32, format: u32,
    pts: Time, duration: Time, sampleSize: nat, sync: bool)

  datatype Reply =
    | Empty
    | HelloReply
    | Caps(maxInflight: nat)
    | SessionCreated(sessionId: nat, width: u32, height: u32, format: u32)
    | PoolCreated(poolId: nat, width: u32, height: u32, format: u32, slotCount: u32, regionSize: u32,
                  poolLayout: BufferLayout)
    | Leased(bufferId: nat, generation: nat, width: u32, height: u32, format: u32,
             slotIndex: nat, slotOffset: u32, layout: BufferLayout)
    | BufferBytes(bufferId: nat, generation: nat, offset: u32, length: u32, data: seq<byte>)
    | OutputReady(info: OutputInfo)
    | OutputsReady(sessionId: nat, infos: seq<OutputInfo>)
    | OutputBytes(outputId: nat, sampleSize: nat, data: seq<byte>)
    | Drained(sessionId: nat, pendingOutputs: nat)

  /** Bytes the reply takes on the wire. */
  function ReplySize(r: Reply): (n: nat) {
    match r
    case Empty => 0
    case HelloReply => 48
    case Caps(_) => 40
    case SessionCreated(_, _, _, _) => 24
    case PoolCreated(_, _, _, _, _, _, _) => MAX_FIXED_REPLY
    case Leased(_, _, _, _, _, _, _, _) => 112
    case BufferBytes(_, _, _, _, data) => BUFFER_IO_HEADER + |data|
    case OutputReady(_) => 232
    case OutputsReady(_, _) => 16 + MAX_OUTPUT_BATCH * 232
    case OutputBytes(_, _, data) => 16 + |data|
    case Drained(_, _) => 16
  }

  /** What `dispatch` hands the connection loop. */
  datatype Outcome = Ok(reply: Reply) | Err(status: u32)
}
