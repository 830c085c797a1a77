/**
 * The bootloader's protocol logic: the single-slot receive buffer, ACK
 * construction, packet parsing, the IDLE / DFU_RECEIVE / JUMP_TO_APP state
 * machine and the per-packet sequencing and byte accounting.
 *
 * The C module keeps one static record; here it is the immutable
 * `Bootloader` value each operation takes and returns. The integration's
 * NVM, flash and transport functions are not modelled: what they return is
 * an input (`Hal`), and what they are asked to do is an output (`Event`).
 */
module Device {
  import opened Bytes
  import opened Crc
  import opened Protocol

  /**
   * A value of the build setting `VOYAGER_BOOTLOADER_MAX_RECEIVE_PACKET_SIZE`
   * the model covers: the receive buffer holds the eight bytes a START packet
   * is read from, and its length is below 2^32. The setting is the length
   * of the record's `messageBuffer`.
   */
  predicate SupportedCapacity(capacity: nat)
  {
    AckMessageSize <= capacity < 0x1_0000_0000
  }

  /** `n` zero bytes. */
  function Zeros(n: nat): (r: seq<byte>)
  {
    seq(n, _ => 0)
  }

  /** The bootloader's record (`voyager_data_t`). */
  datatype Bootloader = Bootloader(
    state: State,
    request: Request,
    appFailedCrcCheck: bool,
    messageBuffer: seq<byte>,
    packetSize: nat,
    pendingData: bool,
    packetOverrun: bool,
    validStartRequestReceived: bool,
    dfuSequenceNumber: byte,
    bytesWritten: nat,   // a 32-bit count, kept below 2^32
    dfuError: DfuError,
    appSizeCached: bv32,
    ackMessageBuffer: seq<byte>)
  {
    /** The two buffers have their declared sizes, the packet fits the receive buffer and the byte count its 32 bits. */
    predicate Valid()
    {
      && SupportedCapacity(|messageBuffer|)
      && packetSize <= |messageBuffer|
      && |ackMessageBuffer| == AckMessageSize
      && bytesWritten < 0x1_0000_0000
    }

    /** The bytes of the packet last accepted into the receive buffer. */
    function Pending(): (r: seq<byte>)
      requires Valid()
      ensures |r| == packetSize
    {
      messageBuffer[..packetSize]
    }
  }

  /** The static record before initialisation, in a build with a `capacity`-byte receive buffer: every field zero. */
  function PowerOn(capacity: nat): (r: Bootloader)
    requires SupportedCapacity(capacity)
    ensures r.Valid() && r.state == NotInitialized && |r.messageBuffer| == capacity
  {
    Bootloader(NotInitialized, KeepIdle, false, Zeros(capacity), 0, false, false, false,
               0, 0, DfuError.NoError, 0, Zeros(AckMessageSize))
  }

  /** What the integration's functions return while one call runs. */
  datatype Hal = Hal(
    startAddressRead: Status,  // nvm_read(APP_START_ADDRESS)
    endAddressRead: Status,    // nvm_read(APP_END_ADDRESS)
    appStartAddress: nat,
    appEndAddress: nat,
    appSizeWrite: Status,      // nvm_write(APP_SIZE)
    appCrcWrite: Status,       // nvm_write(APP_CRC)
    erase: Status,             // hal_erase_flash
    flashWrite: Status,        // hal_write_flash
    send: Status)              // send_to_host

  /** What the bootloader asks of the integration, in order. */
  datatype Event =
    | NvmWrite(key: NvmKey, value: bv32)
    | EraseFlash(startAddress: nat, endAddress: nat)
    | WriteFlash(startAddress: nat, offset: nat, payload: seq<byte>)
    | SendToHost(packet: seq<byte>)

  /** The record after a call, what the call asked of the integration, and its return value. */
  datatype Effect = Effect(next: Bootloader, events: seq<Event>, status: Status)

  /**
   * A call that completed, or one the model does not follow: the C code
   * handed a length that wrapped below zero to the flash driver or the
   * checksum (`Unspecified`), or it jumped to the application.
   */
  datatype Outcome =
    | Completed(effect: Effect)
    | Unspecified
    | JumpNotModelled

  /**
   * `voyager_bootloader_init`: every field is reset and the state becomes
   * IDLE; both buffers are cleared, the receive buffer keeping its size.
   */
  function Init(d: Bootloader): (r: Effect)
    requires SupportedCapacity(|d.messageBuffer|)
    ensures r.next == PowerOn(|d.messageBuffer|).(state := Idle)
    ensures r.next.Valid() && r.next.state == Idle && r.next.request == KeepIdle
    ensures !r.next.pendingData && !r.next.validStartRequestReceived
    ensures r.events == [] && r.status == Ok
  {
    Effect(Bootloader(Idle, KeepIdle, false, Zeros(|d.messageBuffer|), 0, false, false, false,
                      0, 0, DfuError.NoError, 0, Zeros(AckMessageSize)),
           [], Ok)
  }

  /** Initialisation forgets everything: it ends in the same record from any record of the same build. */
  lemma InitForgets(d: Bootloader, e: Bootloader)
    requires SupportedCapacity(|d.messageBuffer|) && |e.messageBuffer| == |d.messageBuffer|
    ensures Init(d) == Init(e)
  {
  }

  /** `voyager_bootloader_request`: only the request changes. */
  function SetRequest(d: Bootloader, request: Request): (r: Bootloader)
    ensures r.request == request
    ensures r.(request := d.request) == d
  {
    d.(request := request)
  }

  /**
   * `voyager_bootloader_process_receieved_packet`. A packet longer than the
   * buffer (`VOYAGER_BOOTLOADER_MAX_RECEIVE_PACKET_SIZE` bytes) is refused.
   * While one is pending, a second only raises the overrun flag; otherwise it
   * is copied over the front of the buffer, whose tail keeps what was there
   * before.
   */
  function Receive(d: Bootloader, data: seq<byte>): (r: (Bootloader, Status))
    requires d.Valid()
    ensures r.0.Valid() && |r.0.messageBuffer| == |d.messageBuffer|
    ensures |data| > |d.messageBuffer| ==> r == (d, InvalidArgument)
    ensures |data| <= |d.messageBuffer| ==> r.1 == Ok
    ensures |data| <= |d.messageBuffer| && d.pendingData ==> r.0 == d.(packetOverrun := true)
    ensures |data| <= |d.messageBuffer| && !d.pendingData ==>
      && r.0.pendingData
      && r.0.Pending() == data
      && r.0.messageBuffer[|data|..] == d.messageBuffer[|data|..]
      && r.0.(pendingData := false, packetSize := d.packetSize, messageBuffer := d.messageBuffer) == d
  {
    if |data| > |d.messageBuffer| then (d, InvalidArgument)
    else if d.pendingData then (d.(packetOverrun := true), Ok)
    else
      var buffer := data + d.messageBuffer[|data|..];
      assert buffer[..|data|] == data;
      (d.(pendingData := true, packetSize := |data|, messageBuffer := buffer), Ok)
  }

  /**
   * `voyager_private_generate_ack_message`: into a buffer of at least the ACK
   * size, write the ACK id, the error code and four metadata bytes (zeros
   * when there is no metadata); every later byte is left as it was.
   */
  function GenerateAckMessage(error: DfuError, metadata: Option<seq<byte>>, buffer: seq<byte>)
    : (r: (seq<byte>, Status))
    requires metadata.Some? ==> |metadata.value| == 4
    ensures |buffer| < AckMessageSize ==> r == (buffer, InvalidArgument)
    ensures |buffer| >= AckMessageSize ==>
      && r.1 == Ok
      && |r.0| == |buffer|
      && r.0[0] == AckId
      && DfuErrorOf(r.0[1]) == Some(error)
      && r.0[2..6] == (if metadata.Some? then metadata.value else [0, 0, 0, 0])
      && r.0[6..] == buffer[6..]
  {
    if |buffer| < AckMessageSize then (buffer, InvalidArgument)
    else
      var fields := if metadata.Some? then metadata.value else Zeros(4);
      DfuErrorRoundTrip(error);
      ([AckId, error.Code()] + fields + buffer[6..], Ok)
  }

  /** A packet as `voyager_private_unpack_message` reads it. */
  datatype Message =
    | StartPacket(appSize: bv32, appCrc: bv32)
    | DataPacket(sequenceNumber: byte, payloadSize: int)  // a negative size wrapped as `size_t`
    | OtherPacket(id: byte)                                 // ACK, UNKNOWN or any other id: fields zeroed

  /**
   * `voyager_private_unpack_message`. A START packet's size is the 24-bit and
   * its checksum the 32-bit big-endian value of bytes 1-3 and 4-7, read from
   * the buffer whatever the packet's length. A DATA packet's sequence number
   * is byte 1 and its payload the bytes after it.
   */
  function UnpackMessage(buffer: seq<byte>, messageSize: nat): (r: Message)
    requires |buffer| >= 8
    ensures r.StartPacket? <==> buffer[0] == StartId
    ensures r.DataPacket? <==> buffer[0] == DataId
    ensures r.OtherPacket? ==> r.id == buffer[0]
    ensures r.StartPacket? ==>
      && r.appSize < 0x100_0000
      && BeBytes32(r.appSize)[1..] == buffer[1..4]
      && BeBytes32(r.appCrc) == buffer[4..8]
    ensures r.DataPacket? ==> r.sequenceNumber == buffer[1] && r.payloadSize + 2 == messageSize
  {
    if buffer[0] == StartId then
      var size := BeUint24(buffer[1..4]);
      var crc := BeUint32(buffer[4..8]);
      BeUint24Bound(buffer[1..4]);
      UnpackSizeBytes(buffer[1..4]);
      BeBytesOfUint32(buffer[4..8]);
      StartPacket(size, crc)
    else if buffer[0] == DataId then
      DataPacket(buffer[1], messageSize - 2)
    else
      OtherPacket(buffer[0])
  }

  /** Three bytes are the low three bytes of the encoding of their 24-bit value. */
  lemma UnpackSizeBytes(s: seq<byte>)
    requires |s| == 3
    ensures BeBytes32(BeUint24(s))[1..] == s
  {
  }

  /**
   * `voyager_private_get_desired_state`: IDLE leaves for JUMP_TO_APP on a jump
   * request and for DFU_RECEIVE on an ENTER_DFU request once a valid START has
   * been acknowledged; DFU_RECEIVE falls back to IDLE on any DFU error and
   * moves to JUMP_TO_APP once the announced size is written; JUMP_TO_APP
   * falls back to IDLE after a failed application check.
   */
  function GetDesiredState(d: Bootloader): (r: State)
    ensures d.state == NotInitialized ==> r == NotInitialized
    ensures d.state == Idle ==>
      && (r == JumpToApp <==> d.request == JumpToAppRequested)
      && (r == DfuReceive <==> d.request == EnterDfu && d.validStartRequestReceived)
      && r != NotInitialized
    ensures d.state == DfuReceive ==>
      && (r == Idle <==> d.dfuError != DfuError.NoError)
      && (r == JumpToApp <==> d.dfuError == DfuError.NoError && d.bytesWritten == d.appSizeCached as int)
      && r != NotInitialized
    ensures d.state == JumpToApp ==> (r == Idle <==> d.appFailedCrcCheck) && (r == JumpToApp <==> !d.appFailedCrcCheck)
  {
    match d.state
    case Idle =>
      (match d.request
       case JumpToAppRequested => JumpToApp
       case EnterDfu => if d.validStartRequestReceived then DfuReceive else Idle
       case KeepIdle => Idle)
    case JumpToApp => if d.appFailedCrcCheck then Idle else JumpToApp
    case DfuReceive =>
      if d.dfuError != DfuError.NoError then Idle
      else if d.bytesWritten == d.appSizeCached as int then JumpToApp
      else DfuReceive
    case NotInitialized => NotInitialized
  }

  /**
   * `voyager_private_exit_state`: leaving IDLE forgets the acknowledged START
   * (and a jump request, when jumping); leaving DFU_RECEIVE clears the
   * overrun flag. It always returns `Ok`.
   */
  function ExitState(d: Bootloader, current: State, desired: State): (r: Bootloader)
    ensures current == Idle ==>
      && !r.validStartRequestReceived
      && r.request == (if desired == JumpToApp then KeepIdle else d.request)
      && r.(validStartRequestReceived := d.validStartRequestReceived, request := d.request) == d
    ensures current == DfuReceive ==> r == d.(packetOverrun := false)
    ensures current != Idle && current != DfuReceive ==> r == d
    ensures d.Valid() ==> r.Valid()
  {
    match current
    case Idle =>
      var request := if desired == JumpToApp then KeepIdle else d.request;
      d.(request := request, validStartRequestReceived := false)
    case DfuReceive => d.(packetOverrun := false)
    case _ => d
  }

  /**
   * `voyager_private_init_dfu`: restart sequencing and byte accounting, then
   * erase the application area. A failed read of the start address is not
   * checked; a failed read of the end address skips the erase.
   */
  function InitDfu(d: Bootloader, hal: Hal): (r: Effect)
    ensures r.next == d.(dfuSequenceNumber := 0, bytesWritten := 0)
    ensures hal.endAddressRead != Ok ==> r.events == [] && r.status == hal.endAddressRead
    ensures hal.endAddressRead == Ok ==>
      r.events == [EraseFlash(hal.appStartAddress, hal.appEndAddress)] && r.status == hal.erase
  {
    var next := d.(dfuSequenceNumber := 0, bytesWritten := 0);
    if hal.endAddressRead != Ok then Effect(next, [], hal.endAddressRead)
    else Effect(next, [EraseFlash(hal.appStartAddress, hal.appEndAddress)], hal.erase)
  }

  /**
   * `voyager_private_enter_state`: entering DFU_RECEIVE initialises the
   * transfer; entering IDLE clears the cached size; nothing else has an
   * entry action.
   */
  function EnterState(d: Bootloader, current: State, desired: State, hal: Hal): (r: Effect)
    ensures desired == DfuReceive ==> r == InitDfu(d, hal)
    ensures desired == Idle ==> r == Effect(d.(appSizeCached := 0), [], Ok)
    ensures desired != DfuReceive && desired != Idle ==> r == Effect(d, [], Ok)
    ensures d.Valid() ==> r.next.Valid()
  {
    match desired
    case DfuReceive => InitDfu(d, hal)
    case Idle => Effect(d.(appSizeCached := 0), [], Ok)
    case _ => Effect(d, [], Ok)
  }

  /** Writes an ACK carrying `error` and no metadata into the record's ACK buffer. */
  function ErrorAck(d: Bootloader, error: DfuError): (r: (Bootloader, Status))
    requires d.Valid()
    ensures r.0.Valid() && r.1 == Ok
    ensures r.0 == d.(ackMessageBuffer := r.0.ackMessageBuffer)
    ensures r.0.ackMessageBuffer == RefusalAck(d, error)
  {
    var ack := GenerateAckMessage(error, None, d.ackMessageBuffer);
    (d.(ackMessageBuffer := ack.0), ack.1)
  }

  /**
   * `voyager_private_process_start_packet`: store the size and then the
   * checksum in NVM, the second only if the first succeeded; cache the size
   * either way; and, when both stores succeed, acknowledge with the checksum
   * of the seven bytes after the id.
   */
  function ProcessStartPacket(d: Bootloader, appSize: bv32, appCrc: bv32, hal: Hal): (r: Effect)
    requires d.Valid()
    ensures r.next.Valid() && r.next.state == d.state
    ensures r.next.appSizeCached == appSize
    ensures r.status == (if hal.appSizeWrite != Ok then hal.appSizeWrite else hal.appCrcWrite)
  {
    var cached := d.(appSizeCached := appSize);
    var events := [NvmWrite(AppSize, appSize)] + (if hal.appSizeWrite == Ok then [NvmWrite(AppCrc, appCrc)] else []);
    var status := if hal.appSizeWrite != Ok then hal.appSizeWrite else hal.appCrcWrite;
    var crc := Checksum(d.messageBuffer[1..8]);
    if status == Ok then
      var ack := GenerateAckMessage(DfuError.NoError, Some(BeBytes32(crc)), d.ackMessageBuffer);
      Effect(cached.(ackMessageBuffer := ack.0), events, ack.1)
    else
      Effect(cached, events, status)
  }

  /**
   * The NVM stores a START packet asks for: always the size, and the checksum
   * only after the size was stored.
   */
  lemma StartPacketStores(d: Bootloader, appSize: bv32, appCrc: bv32, hal: Hal)
    requires d.Valid()
    ensures ProcessStartPacket(d, appSize, appCrc, hal).events
         == [NvmWrite(AppSize, appSize)] + (if hal.appSizeWrite == Ok then [NvmWrite(AppCrc, appCrc)] else [])
  {
  }

  /**
   * A START packet changes only the cached size and the ACK buffer; the ACK is
   * written, error-free and carrying the checksum of bytes 1 to 7, exactly when
   * both stores succeed.
   */
  lemma StartPacketAck(d: Bootloader, appSize: bv32, appCrc: bv32, hal: Hal)
    requires d.Valid()
    ensures var r := ProcessStartPacket(d, appSize, appCrc, hal);
      && r.next == d.(appSizeCached := appSize, ackMessageBuffer := r.next.ackMessageBuffer)
      && (r.status == Ok ==>
            r.next.ackMessageBuffer == [AckId, 0] + BeBytes32(Checksum(d.messageBuffer[1..8])) + d.ackMessageBuffer[6..])
      && (r.status != Ok ==> r.next.ackMessageBuffer == d.ackMessageBuffer)
  {
    var crc := Checksum(d.messageBuffer[1..8]);
    GenerateAckShape(DfuError.NoError, Some(BeBytes32(crc)), d.ackMessageBuffer);
  }

  /** The whole buffer `GenerateAckMessage` leaves behind when it succeeds. */
  lemma GenerateAckShape(error: DfuError, metadata: Option<seq<byte>>, buffer: seq<byte>)
    requires metadata.Some? ==> |metadata.value| == 4
    requires |buffer| >= AckMessageSize
    ensures GenerateAckMessage(error, metadata, buffer).0
         == [AckId, error.Code()] + (if metadata.Some? then metadata.value else [0, 0, 0, 0]) + buffer[6..]
  {
    assert Zeros(4) == [0, 0, 0, 0];
  }

  /**
   * `bytes_written += payload_size` on a 32-bit count and a payload
   * length below 2^32: the sum wraps at most once.
   */
  function AddWrapping(count: nat, payloadSize: nat): (r: nat)
    requires count < 0x1_0000_0000 && payloadSize < 0x1_0000_0000
    ensures r == (count + payloadSize) % 0x1_0000_0000
  {
    if count + payloadSize < 0x1_0000_0000 then count + payloadSize else count + payloadSize - 0x1_0000_0000
  }

  /**
   * The part of `voyager_private_process_data_packet` that runs once the
   * sequence number matched and the start address was read: write the payload
   * after the bytes already written, advance the counter (modulo 256) and the
   * byte count (modulo 2^32), and, if the write succeeded, acknowledge with the
   * checksum of the sequence byte and payload.
   */
  function WritePayload(d: Bootloader, payloadSize: nat, hal: Hal): (r: Effect)
    requires d.Valid()
    requires payloadSize + 2 == d.packetSize
    ensures r.next.Valid() && r.next.state == d.state
    ensures r.status == hal.flashWrite
  {
    var ack := if hal.flashWrite == Ok then GenerateAckMessage(DfuError.NoError, Some(BeBytes32(Checksum(d.messageBuffer[1..d.packetSize]))), d.ackMessageBuffer).0 else d.ackMessageBuffer;
    Effect(d.(dfuSequenceNumber := d.dfuSequenceNumber + 1, bytesWritten := AddWrapping(d.bytesWritten, payloadSize), ackMessageBuffer := ack),
           [WriteFlash(hal.appStartAddress, d.bytesWritten, d.messageBuffer[2..d.packetSize])],
           hal.flashWrite)
  }

  /**
   * `voyager_private_process_data_packet`. With the expected sequence number
   * the start address is read and, if that succeeds, the payload is written
   * (`WritePayload`); if it fails, nothing changes and the failure is
   * returned. Any other sequence number is answered OUT_OF_SEQUENCE and
   * recorded as the DFU error. A packet shorter than two bytes makes the
   * payload length wrap as `size_t`; where that length reaches the flash
   * driver or the checksum the outcome is `Unspecified`.
   */
  function ProcessDataPacket(d: Bootloader, sequenceNumber: byte, payloadSize: int, hal: Hal): (r: Outcome)
    requires d.Valid()
    requires -2 <= payloadSize && payloadSize + 2 == d.packetSize
    ensures !r.JumpNotModelled?
    ensures r.Unspecified? <==>
      d.dfuSequenceNumber == sequenceNumber && (payloadSize == -2 || (payloadSize == -1 && hal.startAddressRead == Ok))
    ensures r.Completed? ==> r.effect.next.Valid() && r.effect.next.state == d.state
  {
    if d.dfuSequenceNumber != sequenceNumber then
      var acked := ErrorAck(d, OutOfSequence);
      Completed(Effect(acked.0.(dfuError := OutOfSequence), [], acked.1))
    else if payloadSize == -2 then Unspecified
    else if hal.startAddressRead != Ok then Completed(Effect(d, [], hal.startAddressRead))
    else if payloadSize == -1 then Unspecified
    else Completed(WritePayload(d, payloadSize, hal))
  }

  /**
   * The payload (everything after the sequence byte) is written at the
   * current byte count; the counter advances by one modulo 256 and the byte
   * count by the payload length modulo 2^32. Apart from the ACK buffer,
   * nothing else changes.
   */
  lemma WritePayloadWrites(d: Bootloader, payloadSize: nat, hal: Hal)
    requires d.Valid()
    requires payloadSize + 2 == d.packetSize
    ensures var r := WritePayload(d, payloadSize, hal);
      && r.events == [WriteFlash(hal.appStartAddress, d.bytesWritten, d.messageBuffer[2..d.packetSize])]
      && r.next.dfuSequenceNumber == d.dfuSequenceNumber + 1
      && r.next.bytesWritten == (d.bytesWritten + payloadSize) % 0x1_0000_0000
      && r.next.(dfuSequenceNumber := d.dfuSequenceNumber, bytesWritten := d.bytesWritten,
                 ackMessageBuffer := d.ackMessageBuffer) == d
  {
  }

  /**
   * If the write succeeded the ACK is error-free and carries the checksum of
   * the sequence byte and payload; otherwise the ACK buffer is untouched.
   */
  lemma WritePayloadAck(d: Bootloader, payloadSize: nat, hal: Hal)
    requires d.Valid()
    requires payloadSize + 2 == d.packetSize
    ensures var r := WritePayload(d, payloadSize, hal);
      && (hal.flashWrite == Ok ==>
            r.next.ackMessageBuffer
            == [AckId, 0] + BeBytes32(Checksum(d.messageBuffer[1..d.packetSize])) + d.ackMessageBuffer[6..])
      && (hal.flashWrite != Ok ==> r.next.ackMessageBuffer == d.ackMessageBuffer)
  {
  }

  /** With the expected sequence number and a readable start address, a DATA packet of two or more bytes is written. */
  lemma DataPacketAccepted(d: Bootloader, payloadSize: nat, hal: Hal)
    requires d.Valid()
    requires payloadSize + 2 == d.packetSize
    requires hal.startAddressRead == Ok
    ensures ProcessDataPacket(d, d.dfuSequenceNumber, payloadSize, hal) == Completed(WritePayload(d, payloadSize, hal))
  {
  }

  /**
   * A DATA packet with the expected sequence number when the start address
   * cannot be read: nothing is written, the counters stay and no ACK is
   * prepared, and the read's failure is returned.
   */
  lemma DataPacketAddressUnreadable(d: Bootloader, payloadSize: int, hal: Hal)
    requires d.Valid()
    requires -1 <= payloadSize && payloadSize + 2 == d.packetSize
    requires hal.startAddressRead != Ok
    ensures ProcessDataPacket(d, d.dfuSequenceNumber, payloadSize, hal) == Completed(Effect(d, [], hal.startAddressRead))
  {
  }

  /**
   * A DATA packet with any other sequence number is answered OUT_OF_SEQUENCE
   * with zero metadata and recorded as the DFU error; nothing is written and
   * the counters stay.
   */
  lemma DataPacketOutOfSequence(d: Bootloader, sequenceNumber: byte, payloadSize: int, hal: Hal)
    requires d.Valid()
    requires -2 <= payloadSize && payloadSize + 2 == d.packetSize
    requires sequenceNumber != d.dfuSequenceNumber
    ensures ProcessDataPacket(d, sequenceNumber, payloadSize, hal)
         == Completed(Effect(d.(dfuError := OutOfSequence,
                                ackMessageBuffer := [AckId, OutOfSequence.Code(), 0, 0, 0, 0] + d.ackMessageBuffer[6..]),
                             [], Ok))
  {
  }

  /**
   * The common tail of the IDLE and DFU_RECEIVE branches of
   * `voyager_private_run_state`: if handling the packet returned `Ok`, the ACK
   * buffer is sent to the host and the send's result is returned; either way
   * the packet is no longer pending.
   */
  function SendAck(e: Effect, hal: Hal): (r: Effect)
    ensures !r.next.pendingData
    ensures r.next.(pendingData := e.next.pendingData) == e.next
    ensures e.next.Valid() ==> r.next.Valid()
    ensures e.status == Ok ==> r.events == e.events + [SendToHost(e.next.ackMessageBuffer)] && r.status == hal.send
    ensures e.status != Ok ==> r.events == e.events && r.status == e.status
  {
    if e.status == Ok then Effect(e.next.(pendingData := false), e.events + [SendToHost(e.next.ackMessageBuffer)], hal.send)
    else Effect(e.next.(pendingData := false), e.events, e.status)
  }

  /** An ACK carrying `error` and no metadata, returned as a call's effect. */
  function RejectWith(d: Bootloader, error: DfuError): (r: Effect)
    requires d.Valid()
    ensures r.next.Valid() && r.next.state == d.state && r.events == [] && r.status == Ok
  {
    var acked := ErrorAck(d, error);
    Effect(acked.0, [], acked.1)
  }

  /**
   * The error IDLE answers a pending packet with, or `None` for the one packet
   * it accepts: a START while the application asks to enter DFU.
   */
  function IdleVerdict(d: Bootloader): (r: Option<DfuError>)
    requires d.Valid()
    ensures r == Some(DfuError.PacketOverrun) <==> d.packetOverrun
    ensures r.None? <==> !d.packetOverrun && d.messageBuffer[0] == StartId && d.request == EnterDfu
    ensures !d.packetOverrun && d.messageBuffer[0] == StartId && d.request != EnterDfu ==> r == Some(EnterDfuNotRequested)
    ensures !d.packetOverrun && d.messageBuffer[0] == DataId ==> r == Some(OutOfSequence)
    ensures !d.packetOverrun && d.messageBuffer[0] != StartId && d.messageBuffer[0] != DataId
            ==> r == Some(DfuError.InvalidMessageId)
    ensures r != Some(DfuError.NoError)
  {
    if d.packetOverrun then Some(DfuError.PacketOverrun)
    else if d.messageBuffer[0] == StartId then
      if d.request == EnterDfu then None else Some(EnterDfuNotRequested)
    else if d.messageBuffer[0] == DataId then Some(OutOfSequence)
    else Some(DfuError.InvalidMessageId)
  }

  /**
   * IDLE's handling of a pending packet, before the ACK is sent: an overrun is
   * reported (and the flag cleared); a START is processed only when DFU was
   * requested, and a successful one is remembered as a valid start request;
   * every other packet is refused.
   */
  function IdleHandle(d: Bootloader, hal: Hal): (r: Effect)
    requires d.Valid()
    ensures r.next.Valid() && r.next.state == d.state && r.next.dfuError == d.dfuError
    ensures !r.next.packetOverrun
  {
    if d.packetOverrun then
      var e := RejectWith(d, DfuError.PacketOverrun);
      e.(next := e.next.(packetOverrun := false))
    else
      match UnpackMessage(d.messageBuffer, d.packetSize)
      case StartPacket(appSize, appCrc) =>
        if d.request == EnterDfu then
          StartPacketAck(d, appSize, appCrc, hal);
          var e := ProcessStartPacket(d, appSize, appCrc, hal);
          if e.status == Ok then e.(next := e.next.(validStartRequestReceived := true)) else e
        else RejectWith(d, EnterDfuNotRequested)
      case DataPacket(_, _) => RejectWith(d, OutOfSequence)
      case OtherPacket(_) => RejectWith(d, DfuError.InvalidMessageId)
  }

  /** The IDLE branch of `voyager_private_run_state`: clear the DFU error, then answer a pending packet. */
  function RunIdle(d: Bootloader, hal: Hal): (r: Effect)
    requires d.Valid()
    ensures r.next.Valid() && r.next.state == d.state
    ensures r.next.dfuError == DfuError.NoError && !r.next.pendingData
    ensures r.next.packetOverrun <==> d.packetOverrun && !d.pendingData
  {
    var cleared := d.(dfuError := DfuError.NoError);
    if !cleared.pendingData then Effect(cleared, [], Ok)
    else SendAck(IdleHandle(cleared, hal), hal)
  }

  /**
   * DFU_RECEIVE's handling of a pending packet, before the ACK is sent. A
   * DATA packet goes to `ProcessDataPacket`; a START is stored and restarts the
   * transfer; both results are ignored, so the ACK buffer is sent whatever it
   * holds. Any other packet, or an overrun, is refused and recorded as the DFU
   * error.
   */
  function DfuReceiveHandle(d: Bootloader, hal: Hal): (r: Outcome)
    requires d.Valid()
    ensures !r.JumpNotModelled?
    ensures r.Completed? ==> r.effect.next.Valid() && r.effect.next.state == d.state
  {
    if d.packetOverrun then
      var e := RejectWith(d, DfuError.PacketOverrun);
      Completed(e.(next := e.next.(dfuError := DfuError.PacketOverrun)))
    else
      match UnpackMessage(d.messageBuffer, d.packetSize)
      case DataPacket(sequenceNumber, payloadSize) =>
        var processed := ProcessDataPacket(d, sequenceNumber, payloadSize, hal);
        if processed.Completed? then Completed(processed.effect.(status := Ok)) else processed
      case StartPacket(appSize, appCrc) =>
        var stored := ProcessStartPacket(d, appSize, appCrc, hal);
        var restarted := InitDfu(stored.next, hal);
        Completed(Effect(restarted.next, stored.events + restarted.events, Ok))
      case OtherPacket(_) =>
        var e := RejectWith(d, DfuError.InvalidMessageId);
        Completed(e.(next := e.next.(dfuError := DfuError.InvalidMessageId)))
  }

  /** The DFU_RECEIVE branch of `voyager_private_run_state`. */
  function RunDfuReceive(d: Bootloader, hal: Hal): (r: Outcome)
    requires d.Valid()
    ensures !r.JumpNotModelled?
    ensures r.Completed? ==> r.effect.next.Valid() && r.effect.next.state == d.state && !r.effect.next.pendingData
  {
    if !d.pendingData then Completed(Effect(d, [], Ok))
    else
      var handled := DfuReceiveHandle(d, hal);
      if handled.Completed? then Completed(SendAck(handled.effect, hal)) else handled
  }

  /**
   * `voyager_private_run_state`: IDLE and DFU_RECEIVE answer a pending
   * packet; JUMP_TO_APP is not followed; before initialisation nothing runs
   * and `NOT_IMPLEMENTED` is returned.
   */
  function RunState(d: Bootloader, hal: Hal): (r: Outcome)
    requires d.Valid()
    ensures r.JumpNotModelled? <==> d.state == JumpToApp
    ensures d.state == NotInitialized ==> r == Completed(Effect(d, [], NotImplemented))
    ensures r.Completed? ==> r.effect.next.Valid() && r.effect.next.state == d.state
  {
    match d.state
    case Idle => Completed(RunIdle(d, hal))
    case DfuReceive => RunDfuReceive(d, hal)
    case JumpToApp => JumpNotModelled
    case NotInitialized => Completed(Effect(d, [], NotImplemented))
  }

  /**
   * `voyager_bootloader_run`: move to the desired state first (leave the old
   * one, enter the new one; a failed entry stops the call before the state
   * changes), then run the current state.
   */
  function Run(d: Bootloader, hal: Hal): (r: Outcome)
    requires d.Valid()
    ensures r.Completed? ==> r.effect.next.Valid()
  {
    var desired := GetDesiredState(d);
    if desired == d.state then RunState(d, hal)
    else
      var exited := ExitState(d, d.state, desired);
      var entered := EnterState(exited, d.state, desired, hal);
      if entered.status != Ok then Completed(entered)
      else
        var ran := RunState(entered.next.(state := desired), hal);
        if ran.Completed? then Completed(Effect(ran.effect.next, entered.events + ran.effect.events, ran.effect.status))
        else ran
  }

  /** The ACK a refusal leaves in the buffer: the error code, zero metadata, the old trailing bytes. */
  function RefusalAck(d: Bootloader, error: DfuError): (r: seq<byte>)
    requires d.Valid()
    ensures r == GenerateAckMessage(error, None, d.ackMessageBuffer).0
    ensures |r| == AckMessageSize && r[0] == AckId && r[1] == error.Code() && r[2..6] == [0, 0, 0, 0]
  {
    [AckId, error.Code(), 0, 0, 0, 0] + d.ackMessageBuffer[6..]
  }

  /**
   * In IDLE, every pending packet but an expected START is refused: the ACK
   * carries the error `IdleVerdict` names and is sent, the overrun flag is
   * left clear, and nothing is stored or written.
   */
  lemma IdleRefuses(d: Bootloader, hal: Hal, error: DfuError)
    requires d.Valid() && d.pendingData
    requires IdleVerdict(d) == Some(error)
    ensures var r := RunIdle(d, hal);
      && r.events == [SendToHost(RefusalAck(d, error))]
      && r.status == hal.send
      && r.next == d.(dfuError := DfuError.NoError, pendingData := false, packetOverrun := false,
                      ackMessageBuffer := RefusalAck(d, error))
  {
  }

  /**
   * In IDLE, a START while DFU is requested stores the announced size and
   * checksum; when both stores succeed the start request is remembered and an
   * error-free ACK carrying the checksum of bytes 1 to 7 is sent.
   */
  lemma IdleAcceptsStart(d: Bootloader, hal: Hal)
    requires d.Valid() && d.pendingData
    requires IdleVerdict(d) == None
    requires hal.appSizeWrite == Ok && hal.appCrcWrite == Ok
    ensures var r := RunIdle(d, hal);
      var ack := [AckId, 0] + BeBytes32(Checksum(d.messageBuffer[1..8])) + d.ackMessageBuffer[6..];
      && r.events == [NvmWrite(AppSize, BeUint24(d.messageBuffer[1..4])),
                      NvmWrite(AppCrc, BeUint32(d.messageBuffer[4..8])),
                      SendToHost(ack)]
      && r.status == hal.send
      && r.next.validStartRequestReceived
      && r.next.appSizeCached == BeUint24(d.messageBuffer[1..4])
      && r.next.ackMessageBuffer == ack
  {
  }

  /**
   * In IDLE, a START while DFU is requested whose size or checksum cannot be
   * stored: the checksum is stored only after the size was, the start request
   * is not remembered, no ACK is prepared or sent, and the failed store's
   * result is returned.
   */
  lemma IdleStartStoreFails(d: Bootloader, hal: Hal)
    requires d.Valid() && d.pendingData
    requires IdleVerdict(d) == None
    requires hal.appSizeWrite != Ok || hal.appCrcWrite != Ok
    ensures var r := RunIdle(d, hal);
      && r.events == [NvmWrite(AppSize, BeUint24(d.messageBuffer[1..4]))]
                     + (if hal.appSizeWrite == Ok then [NvmWrite(AppCrc, BeUint32(d.messageBuffer[4..8]))] else [])
      && r.status == (if hal.appSizeWrite != Ok then hal.appSizeWrite else hal.appCrcWrite)
      && r.next.validStartRequestReceived == d.validStartRequestReceived
      && r.next.appSizeCached == BeUint24(d.messageBuffer[1..4])
      && r.next.ackMessageBuffer == d.ackMessageBuffer
  {
  }

  /** A pending packet is an in-sequence DATA packet of at least two bytes. */
  predicate InSequenceData(d: Bootloader)
    requires d.Valid()
  {
    && d.pendingData && !d.packetOverrun
    && d.messageBuffer[0] == DataId && d.messageBuffer[1] == d.dfuSequenceNumber
    && d.packetSize >= 2
  }

  /**
   * In DFU_RECEIVE, an in-sequence DATA packet whose start address can be
   * read is written by `WritePayload`, and then the ACK buffer is sent whatever
   * the write returned.
   */
  lemma DfuReceiveWrites(d: Bootloader, hal: Hal)
    requires d.Valid() && InSequenceData(d)
    requires hal.startAddressRead == Ok
    ensures RunDfuReceive(d, hal) == Completed(SendAck(WritePayload(d, d.packetSize - 2, hal).(status := Ok), hal))
  {
    DataPacketAccepted(d, d.packetSize - 2, hal);
  }

  /**
   * In DFU_RECEIVE, a DATA packet with another sequence number is refused
   * with OUT_OF_SEQUENCE, which is also recorded as the DFU error, and the
   * refusal is sent; nothing is written.
   */
  lemma DfuReceiveOutOfSequence(d: Bootloader, hal: Hal)
    requires d.Valid() && d.pendingData && !d.packetOverrun
    requires d.messageBuffer[0] == DataId && d.messageBuffer[1] != d.dfuSequenceNumber
    ensures RunDfuReceive(d, hal)
         == Completed(Effect(d.(dfuError := OutOfSequence, pendingData := false,
                                ackMessageBuffer := RefusalAck(d, OutOfSequence)),
                             [SendToHost(RefusalAck(d, OutOfSequence))], hal.send))
  {
  }

  /**
   * In DFU_RECEIVE, an overrun or a packet that is neither DATA nor START is
   * refused, the refusal is recorded as the DFU error and sent.
   */
  lemma DfuReceiveRefuses(d: Bootloader, hal: Hal)
    requires d.Valid() && d.pendingData
    requires d.packetOverrun || (d.messageBuffer[0] != DataId && d.messageBuffer[0] != StartId)
    ensures var error := if d.packetOverrun then DfuError.PacketOverrun else DfuError.InvalidMessageId;
      RunDfuReceive(d, hal)
      == Completed(Effect(d.(dfuError := error, pendingData := false, ackMessageBuffer := RefusalAck(d, error)),
                          [SendToHost(RefusalAck(d, error))], hal.send))
  {
  }

  /**
   * In DFU_RECEIVE, a new START stores its size and checksum and restarts
   * the transfer from sequence number 0 and byte count 0. Neither the stores'
   * nor the erase's result is checked: the ACK buffer is sent whatever they
   * returned, so after a failed store it still holds the previous ACK.
   */
  lemma DfuReceiveRestarts(d: Bootloader, hal: Hal)
    requires d.Valid() && d.pendingData && !d.packetOverrun
    requires d.messageBuffer[0] == StartId
    ensures var r := RunDfuReceive(d, hal);
      && r.Completed?
      && r.effect.next.dfuSequenceNumber == 0 && r.effect.next.bytesWritten == 0
      && r.effect.next.appSizeCached == BeUint24(d.messageBuffer[1..4])
      && r.effect.next.dfuError == d.dfuError
    ensures var stored := ProcessStartPacket(d, BeUint24(d.messageBuffer[1..4]), BeUint32(d.messageBuffer[4..8]), hal);
      RunDfuReceive(d, hal)
      == Completed(Effect(stored.next.(dfuSequenceNumber := 0, bytesWritten := 0, pendingData := false),
                          stored.events + InitDfu(stored.next, hal).events + [SendToHost(stored.next.ackMessageBuffer)],
                          hal.send))
  {
  }

  /**
   * Once IDLE holds a valid START and DFU is requested, a run enters
   * DFU_RECEIVE: the start request is forgotten, the transfer restarts from
   * zero and, when the end address can be read, the application area is erased.
   */
  lemma RunEntersDfu(d: Bootloader, hal: Hal)
    requires d.Valid() && d.state == Idle && !d.pendingData
    requires d.request == EnterDfu && d.validStartRequestReceived
    requires hal.endAddressRead == Ok && hal.erase == Ok
    ensures Run(d, hal)
         == Completed(Effect(d.(state := DfuReceive, validStartRequestReceived := false,
                                dfuSequenceNumber := 0, bytesWritten := 0),
                             [EraseFlash(hal.appStartAddress, hal.appEndAddress)], Ok))
  {
  }

  /** A failed erase keeps the bootloader in IDLE and returns the failure. */
  lemma RunEraseFails(d: Bootloader, hal: Hal)
    requires d.Valid() && d.state == Idle
    requires d.request == EnterDfu && d.validStartRequestReceived
    requires hal.endAddressRead == Ok && hal.erase != Ok
    ensures var r := Run(d, hal);
      && r.Completed? && r.effect.next.state == Idle && r.effect.status == hal.erase
  {
  }

  /** Any DFU error sends the next run back to IDLE, which clears the error. */
  lemma RunLeavesDfuOnError(d: Bootloader, hal: Hal)
    requires d.Valid() && d.state == DfuReceive && d.dfuError != DfuError.NoError
    ensures var r := Run(d, hal);
      && r.Completed? && r.effect.next.state == Idle && r.effect.next.dfuError == DfuError.NoError
      && !r.effect.next.packetOverrun
  {
  }

  /** When the announced size has been written without error, the next run heads for the application. */
  lemma RunJumpsWhenComplete(d: Bootloader, hal: Hal)
    requires d.Valid() && d.state == DfuReceive && d.dfuError == DfuError.NoError
    requires d.bytesWritten == d.appSizeCached as int
    ensures Run(d, hal) == JumpNotModelled
  {
  }
}
