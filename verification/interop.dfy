/**
 * The two ends together: what the host's helpers build is what the
 * bootloader parses, and the ACK the bootloader sends back for it is the one
 * the host's `compare_ack_message` accepts.
 */
module Interop {
  import opened Bytes
  import opened Crc
  import opened Protocol
  import opened Host
  import opened Device

  /**
   * A START request, parsed by the bootloader, yields the size the host
   * announced reduced to its low 24 bits and the checksum the host announced.
   */
  lemma StartRoundTrip(appSize: int, appCrc: int, buffer: seq<byte>)
    requires 0 <= appCrc < 0x1_0000_0000
    requires |buffer| >= 8
    requires buffer[..8] == GenerateStartRequest(appSize, appCrc).value
    ensures UnpackMessage(buffer, 8) == StartPacket((appSize % 0x100_0000) as bv32, appCrc as bv32)
  {
    var packet := GenerateStartRequest(appSize, appCrc).value;
    assert buffer[1..4] == packet[1..4] && buffer[4..8] == packet[4..8];
    BeUint24OfBytes((appSize % 0x100_0000) as bv32);
    BeUint32OfBytes(appCrc as bv32);
  }

  /**
   * A DATA packet, parsed by the bootloader, yields the host's sequence
   * number and the payload's length, and the payload sits right after the
   * two header bytes.
   */
  lemma DataRoundTrip(session: Session, payload: seq<byte>, resetSequenceNumber: bool, buffer: seq<byte>)
    requires |payload| + 2 <= |buffer| && |buffer| >= 8
    requires buffer[..|payload| + 2] == GenerateDataPacket(session, payload, resetSequenceNumber).1
    ensures var packet := GenerateDataPacket(session, payload, resetSequenceNumber).1;
      && UnpackMessage(buffer, |packet|) == DataPacket(packet[1], |payload|)
      && buffer[2..|packet|] == payload
  {
    var packet := GenerateDataPacket(session, payload, resetSequenceNumber).1;
    assert buffer[0] == packet[0] && buffer[1] == packet[1];
    assert buffer[2..|packet|] == packet[2..];
  }

  /** Every refusal the bootloader sends is reported by the host as the same error. */
  lemma RefusalReported(d: Bootloader, error: DfuError, previous: seq<byte>)
    requires d.Valid() && error != DfuError.NoError
    ensures CompareAckMessage(RefusalAck(d, error), previous) == Returned(HostErrorOf(error))
  {
    CompareAckReportsDeviceError(RefusalAck(d, error), previous, error);
  }

  /**
   * A bootloader ready for the next DATA packet: in DFU_RECEIVE with the
   * transfer still under way, no DFU error and nothing pending.
   */
  predicate ReadyForData(d: Bootloader)
  {
    && d.Valid() && d.state == DfuReceive
    && !d.pendingData && !d.packetOverrun
    && d.dfuError == DfuError.NoError
    && d.bytesWritten != d.appSizeCached as int
  }

  /**
   * The bytes the bootloader holds after taking in a host DATA packet: the
   * id, the sequence number, the payload and the packet's length.
   */
  lemma ReceiveDataPacket(d: Bootloader, session: Session, payload: seq<byte>)
    requires d.Valid() && !d.pendingData
    requires |payload| + 2 <= |d.messageBuffer|
    ensures var packet := GenerateDataPacket(session, payload, false).1;
      var rx := Receive(d, packet).0;
      && rx.pendingData && rx.packetSize == |payload| + 2
      && rx.messageBuffer[0] == DataId && rx.messageBuffer[1] == session.sequenceNumber
      && rx.messageBuffer[1..rx.packetSize] == Tail(packet)
      && rx.messageBuffer[2..rx.packetSize] == payload
      && rx.(pendingData := false, packetSize := d.packetSize, messageBuffer := d.messageBuffer) == d
  {
    var packet := GenerateDataPacket(session, payload, false).1;
    var rx := Receive(d, packet).0;
    assert rx.messageBuffer[..|packet|] == packet;
    assert rx.messageBuffer[0] == packet[0] && rx.messageBuffer[1] == packet[1];
    assert rx.messageBuffer[1..rx.packetSize] == packet[1..];
    assert rx.messageBuffer[2..rx.packetSize] == packet[2..];
  }

  /**
   * The round trip of one DATA packet: the host builds it from its session,
   * the bootloader takes it in and runs once, with the sequence numbers of
   * both ends in step and every integration call succeeding. The bootloader
   * writes exactly the payload at its current byte count and sends one ACK,
   * which `compare_ack_message` accepts; afterwards both ends expect the same
   * next sequence number.
   */
  lemma DataAckAccepted(d: Bootloader, session: Session, payload: seq<byte>, hal: Hal)
    requires ReadyForData(d)
    requires d.dfuSequenceNumber == session.sequenceNumber
    requires |payload| + 2 <= |d.messageBuffer|
    requires hal.startAddressRead == Ok && hal.flashWrite == Ok
    ensures var sent := GenerateDataPacket(session, payload, false);
      var out := Run(Receive(d, sent.1).0, hal);
      && out.Completed?
      && |out.effect.events| == 2
      && out.effect.events[0] == WriteFlash(hal.appStartAddress, d.bytesWritten, payload)
      && out.effect.events[1].SendToHost?
      && CompareAckMessage(out.effect.events[1].packet, sent.1) == Returned(HostError.NoError)
      && out.effect.next.dfuSequenceNumber == sent.0.sequenceNumber
      && out.effect.status == hal.send
  {
    var sent := GenerateDataPacket(session, payload, false);
    var rx := Receive(d, sent.1).0;
    ReceiveDataPacket(d, session, payload);
    assert GetDesiredState(rx) == DfuReceive;
    DfuReceiveWrites(rx, hal);
    WritePayloadWrites(rx, |payload|, hal);
    WritePayloadAck(rx, |payload|, hal);
    var ack := [AckId, 0] + BeBytes32(Checksum(Tail(sent.1))) + rx.ackMessageBuffer[6..];
    CompareAckAccepts(ack, sent.1);
  }

  /**
   * The bytes the bootloader holds after taking in a host START request: the
   * id, the size and checksum fields, and after the id exactly what the host
   * checksums when it checks the ACK.
   */
  lemma ReceiveStartRequest(d: Bootloader, appSize: int, appCrc: int)
    requires d.Valid() && !d.pendingData
    requires 0 <= appCrc < 0x1_0000_0000
    ensures var packet := GenerateStartRequest(appSize, appCrc).value;
      var rx := Receive(d, packet).0;
      && rx.pendingData && rx.packetSize == 8
      && rx.messageBuffer[0] == StartId
      && BeUint24(rx.messageBuffer[1..4]) == (appSize % 0x100_0000) as bv32
      && BeUint32(rx.messageBuffer[4..8]) == appCrc as bv32
      && rx.messageBuffer[1..8] == Tail(packet)
      && rx.(pendingData := false, packetSize := d.packetSize, messageBuffer := d.messageBuffer) == d
  {
    var packet := GenerateStartRequest(appSize, appCrc).value;
    var rx := Receive(d, packet).0;
    assert rx.messageBuffer[..8] == packet;
    assert rx.messageBuffer[0] == packet[0];
    assert rx.messageBuffer[1..4] == packet[1..4] && rx.messageBuffer[4..8] == packet[4..8];
    assert rx.messageBuffer[1..8] == packet[1..];
  }

  /**
   * The START exchange: the application has asked for DFU, the host's START
   * request arrives in IDLE, and both NVM stores succeed. The bootloader stores
   * the 24-bit size and the checksum, remembers the valid start request, and
   * sends an ACK that `compare_ack_message` accepts.
   */
  lemma StartAckAccepted(d: Bootloader, appSize: int, appCrc: int, hal: Hal)
    requires d.Valid() && d.state == Idle && !d.pendingData && !d.packetOverrun
    requires d.request == EnterDfu && !d.validStartRequestReceived
    requires 0 <= appCrc < 0x1_0000_0000
    requires hal.appSizeWrite == Ok && hal.appCrcWrite == Ok
    ensures var packet := GenerateStartRequest(appSize, appCrc).value;
      var out := Run(Receive(d, packet).0, hal);
      && out.Completed?
      && |out.effect.events| == 3
      && out.effect.events[0] == NvmWrite(AppSize, (appSize % 0x100_0000) as bv32)
      && out.effect.events[1] == NvmWrite(AppCrc, appCrc as bv32)
      && out.effect.events[2].SendToHost?
      && CompareAckMessage(out.effect.events[2].packet, packet) == Returned(HostError.NoError)
      && out.effect.next.validStartRequestReceived
      && out.effect.status == hal.send
  {
    var packet := GenerateStartRequest(appSize, appCrc).value;
    var rx := Receive(d, packet).0;
    ReceiveStartRequest(d, appSize, appCrc);
    assert GetDesiredState(rx) == Idle;
    IdleAcceptsStart(rx, hal);
    var ack := [AckId, 0] + BeBytes32(Checksum(Tail(packet))) + rx.ackMessageBuffer[6..];
    CompareAckAccepts(ack, packet);
  }

  /**
   * A DATA packet whose sequence number is not the one the bootloader
   * expects is reported to the host as OUT_OF_SEQUENCE, and the bootloader
   * records the error, so its next run returns to IDLE.
   */
  lemma OutOfSequenceReported(d: Bootloader, session: Session, payload: seq<byte>, hal: Hal)
    requires ReadyForData(d)
    requires d.dfuSequenceNumber != session.sequenceNumber
    requires |payload| + 2 <= |d.messageBuffer|
    ensures var sent := GenerateDataPacket(session, payload, false);
      var out := Run(Receive(d, sent.1).0, hal);
      && out.Completed?
      && out.effect.events == [SendToHost(out.effect.next.ackMessageBuffer)]
      && CompareAckMessage(out.effect.next.ackMessageBuffer, sent.1) == Returned(HostError.OutOfSequence)
      && GetDesiredState(out.effect.next) == Idle
  {
    var sent := GenerateDataPacket(session, payload, false);
    var rx := Receive(d, sent.1).0;
    ReceiveDataPacket(d, session, payload);
    assert GetDesiredState(rx) == DfuReceive;
    DfuReceiveOutOfSequence(rx, hal);
    RefusalReported(rx, DfuError.OutOfSequence, sent.1);
  }

  /**
   * The bootloader's record after the run that takes in an in-sequence DATA
   * packet: still receiving, with nothing pending and no error, the counter
   * in step with the host's and the byte count advanced by the payload.
   */
  lemma DataRunNext(d: Bootloader, session: Session, payload: seq<byte>, hal: Hal)
    requires ReadyForData(d)
    requires d.dfuSequenceNumber == session.sequenceNumber
    requires |payload| + 2 <= |d.messageBuffer|
    requires hal.startAddressRead == Ok && hal.flashWrite == Ok
    ensures var sent := GenerateDataPacket(session, payload, false);
      var out := Run(Receive(d, sent.1).0, hal);
      && out.Completed?
      && out.effect.next.Valid()
      && out.effect.next.state == DfuReceive
      && !out.effect.next.pendingData && !out.effect.next.packetOverrun
      && out.effect.next.dfuError == DfuError.NoError
      && out.effect.next.appSizeCached == d.appSizeCached
      && |out.effect.next.messageBuffer| == |d.messageBuffer|
      && out.effect.next.bytesWritten == (d.bytesWritten + |payload|) % 0x1_0000_0000
      && out.effect.next.dfuSequenceNumber == sent.0.sequenceNumber
  {
    var sent := GenerateDataPacket(session, payload, false);
    var rx := Receive(d, sent.1).0;
    ReceiveDataPacket(d, session, payload);
    assert GetDesiredState(rx) == DfuReceive;
    DfuReceiveWrites(rx, hal);
    WritePayloadWrites(rx, |payload|, hal);
  }

  /** The flash writes among a run's requests, in order. */
  function FlashWrites(events: seq<Event>): (r: seq<Event>)
    ensures forall i :: 0 <= i < |r| ==> r[i].WriteFlash?
    ensures |r| <= |events|
    decreases |events|
  {
    if |events| == 0 then []
    else if events[0].WriteFlash? then [events[0]] + FlashWrites(events[1..])
    else FlashWrites(events[1..])
  }

  /** The host's verdict on the ACK a run sent last, or `None` when its last request was not a send. */
  function LastAckVerdict(events: seq<Event>, packet: seq<byte>): (r: Option<Result<HostError>>)
  {
    if |events| > 0 && events[|events| - 1].SendToHost? then Some(CompareAckMessage(events[|events| - 1].packet, packet))
    else None
  }

  /** The bytes an image made of `payloads` holds. */
  function Total(payloads: seq<seq<byte>>): (r: nat)
    decreases |payloads|
  {
    if |payloads| == 0 then 0 else |payloads[0]| + Total(payloads[1..])
  }

  /** Contiguous placement of `payloads` from `offset` on: each one right after the one before. */
  function Placement(startAddress: nat, offset: nat, payloads: seq<seq<byte>>): (r: seq<Event>)
    decreases |payloads|
  {
    if |payloads| == 0 then []
    else [WriteFlash(startAddress, offset, payloads[0])] + Placement(startAddress, offset + |payloads[0]|, payloads[1..])
  }

  /** Placing a non-empty list puts its first payload at the offset and the rest right after it. */
  lemma PlacementCons(startAddress: nat, offset: nat, payloads: seq<seq<byte>>)
    requires |payloads| > 0
    ensures Placement(startAddress, offset, payloads)
         == [WriteFlash(startAddress, offset, payloads[0])] + Placement(startAddress, offset + |payloads[0]|, payloads[1..])
  {
  }

  /** Where a transfer left both ends, with the host's verdict on each run's ACK and the flash writes asked for. */
  datatype Exchange = Exchange(device: Bootloader, session: Session, verdicts: seq<Option<Result<HostError>>>, writes: seq<Event>)

  /**
   * A transfer: the host sends each payload as a DATA packet (never resetting
   * its counter) and the bootloader takes it in and runs once. `None` when a
   * run reaches behaviour the model does not follow.
   */
  function Transfer(d: Bootloader, session: Session, payloads: seq<seq<byte>>, hal: Hal): (r: Option<Exchange>)
    requires d.Valid()
    ensures r.Some? ==> r.value.device.Valid() && |r.value.verdicts| == |payloads|
    decreases |payloads|, 2
  {
    if |payloads| == 0 then Some(Exchange(d, session, [], []))
    else Send(d, session, payloads, hal)
  }

  /** The host builds the next DATA packet and the bootloader takes it into its buffer. */
  function Send(d: Bootloader, session: Session, payloads: seq<seq<byte>>, hal: Hal): (r: Option<Exchange>)
    requires d.Valid() && |payloads| > 0
    ensures r.Some? ==> r.value.device.Valid() && |r.value.verdicts| == |payloads|
    decreases |payloads|, 1
  {
    var sent := GenerateDataPacket(session, payloads[0], false);
    Answer(Receive(d, sent.1).0, sent.1, sent.0, payloads, hal)
  }

  /**
   * The bootloader runs once with `packet` received; the host judges the ACK
   * it sent last, and the transfer goes on with the rest of the payloads.
   */
  function Answer(rx: Bootloader, packet: seq<byte>, session: Session, payloads: seq<seq<byte>>, hal: Hal)
    : (r: Option<Exchange>)
    requires rx.Valid() && |payloads| > 0
    ensures r.Some? ==> r.value.device.Valid() && |r.value.verdicts| == |payloads|
    decreases |payloads|, 0
  {
    var out := Run(rx, hal);
    if !out.Completed? then None
    else
      var rest := Transfer(out.effect.next, session, payloads[1..], hal);
      if rest.None? then None
      else Some(rest.value.(verdicts := [LastAckVerdict(out.effect.events, packet)] + rest.value.verdicts,
                            writes := FlashWrites(out.effect.events) + rest.value.writes))
  }

  /**
   * One packet of a transfer: the run completes with the bootloader still
   * receiving, the payload written at the byte count and an ACK the host
   * accepts, and the rest of the transfer carries on from there.
   */
  lemma TransferStep(d: Bootloader, session: Session, payloads: seq<seq<byte>>, hal: Hal)
    returns (next: Bootloader)
    requires ReadyForData(d)
    requires d.dfuSequenceNumber == session.sequenceNumber
    requires |payloads| > 0 && |payloads[0]| + 2 <= |d.messageBuffer|
    requires d.bytesWritten + |payloads[0]| < 0x1_0000_0000
    requires hal.startAddressRead == Ok && hal.flashWrite == Ok
    ensures && next.Valid() && next.state == DfuReceive && !next.pendingData && !next.packetOverrun
            && next.dfuError == DfuError.NoError && next.appSizeCached == d.appSizeCached
            && |next.messageBuffer| == |d.messageBuffer|
            && next.bytesWritten == d.bytesWritten + |payloads[0]|
            && next.dfuSequenceNumber == session.sequenceNumber + 1
    ensures var rest := Transfer(next, Session(session.sequenceNumber + 1), payloads[1..], hal);
      Transfer(d, session, payloads, hal)
      == if rest.None? then None
         else Some(rest.value.(verdicts := [Some(Returned(HostError.NoError))] + rest.value.verdicts,
                               writes := [WriteFlash(hal.appStartAddress, d.bytesWritten, payloads[0])] + rest.value.writes))
  {
    var payload := payloads[0];
    var sent := GenerateDataPacket(session, payload, false);
    var rx := Receive(d, sent.1).0;
    var out := Run(rx, hal);
    assert Transfer(d, session, payloads, hal) == Send(d, session, payloads, hal);
    assert Send(d, session, payloads, hal) == Answer(rx, sent.1, sent.0, payloads, hal);
    DataAckAccepted(d, session, payload, hal);
    DataRunNext(d, session, payload, hal);
    BelowModulus(d.bytesWritten + |payload|);
    next := out.effect.next;
    var events := out.effect.events;
    assert FlashWrites(events) == [WriteFlash(hal.appStartAddress, d.bytesWritten, payload)] by {
      assert events[1..][1..] == [];
    }
  }

  /** A byte count below 2^32 is its own `uint32_t` value. */
  lemma BelowModulus(n: nat)
    requires n < 0x1_0000_0000
    ensures n % 0x1_0000_0000 == n
  {
  }

  /** Every payload is non-empty and fits a DATA packet into a receive buffer of `capacity` bytes. */
  predicate Sendable(capacity: nat, payloads: seq<seq<byte>>)
    decreases |payloads|
  {
    |payloads| > 0 ==> 0 < |payloads[0]| && |payloads[0]| + 2 <= capacity && Sendable(capacity, payloads[1..])
  }

  /** What a transfer's lemmas assume: the bootloader is receiving and the host's counter is in step. */
  predicate TransferReady(d: Bootloader, session: Session, payloads: seq<seq<byte>>, hal: Hal)
  {
    && d.Valid() && d.state == DfuReceive && !d.pendingData && !d.packetOverrun
    && d.dfuError == DfuError.NoError
    && d.dfuSequenceNumber == session.sequenceNumber
    && Sendable(|d.messageBuffer|, payloads)
    && d.bytesWritten + Total(payloads) <= d.appSizeCached as int
    && hal.startAddressRead == Ok && hal.flashWrite == Ok
  }

  /** A transfer that is ready stays ready after its first packet. */
  lemma TransferReadyStep(d: Bootloader, session: Session, payloads: seq<seq<byte>>, hal: Hal) returns (next: Bootloader)
    requires TransferReady(d, session, payloads, hal) && |payloads| > 0
    ensures TransferReady(next, Session(session.sequenceNumber + 1), payloads[1..], hal)
    ensures next.bytesWritten == d.bytesWritten + |payloads[0]| && next.appSizeCached == d.appSizeCached
    ensures var rest := Transfer(next, Session(session.sequenceNumber + 1), payloads[1..], hal);
      Transfer(d, session, payloads, hal)
      == if rest.None? then None
         else Some(rest.value.(verdicts := [Some(Returned(HostError.NoError))] + rest.value.verdicts,
                               writes := [WriteFlash(hal.appStartAddress, d.bytesWritten, payloads[0])] + rest.value.writes))
  {
    next := TransferStep(d, session, payloads, hal);
  }

  /**
   * A ready transfer completes, leaves the byte count grown by the image's
   * size, and leaves both ends with the counter `SendAll` produces; once the
   * announced size is reached, the next run heads for the application.
   */
  lemma {:induction false} TransferCompletes(d: Bootloader, session: Session, payloads: seq<seq<byte>>, hal: Hal)
    requires TransferReady(d, session, payloads, hal)
    ensures var r := Transfer(d, session, payloads, hal);
      && r.Some?
      && r.value.device.bytesWritten == d.bytesWritten + Total(payloads)
      && r.value.session == SendAll(session, payloads).0
      && r.value.device.dfuSequenceNumber == r.value.session.sequenceNumber
      && (d.bytesWritten + Total(payloads) == d.appSizeCached as int ==> Run(r.value.device, hal) == JumpNotModelled)
    decreases |payloads|
  {
    if |payloads| == 0 {
      if d.bytesWritten == d.appSizeCached as int {
        RunJumpsWhenComplete(d, hal);
      }
    } else {
      var next := TransferReadyStep(d, session, payloads, hal);
      TransferCompletes(next, Session(session.sequenceNumber + 1), payloads[1..], hal);
    }
  }

  /** In a ready transfer the host accepts the ACK of every packet. */
  lemma {:induction false} TransferAcked(d: Bootloader, session: Session, payloads: seq<seq<byte>>, hal: Hal)
    requires TransferReady(d, session, payloads, hal)
    ensures var r := Transfer(d, session, payloads, hal);
      && r.Some?
      && forall i :: 0 <= i < |r.value.verdicts| ==> r.value.verdicts[i] == Some(Returned(HostError.NoError))
    decreases |payloads|
  {
    if |payloads| > 0 {
      var next := TransferReadyStep(d, session, payloads, hal);
      TransferAcked(next, Session(session.sequenceNumber + 1), payloads[1..], hal);
      var rest := Transfer(next, Session(session.sequenceNumber + 1), payloads[1..], hal).value;
      var verdicts := [Some(Returned(HostError.NoError))] + rest.verdicts;
      forall i | 0 <= i < |verdicts|
        ensures verdicts[i] == Some(Returned(HostError.NoError))
      {
        if i > 0 {
          assert verdicts[i] == rest.verdicts[i - 1];
        }
      }
    }
  }

  /** In a ready transfer the payloads are written one after another, from the byte count on. */
  lemma {:induction false} TransferWrites(d: Bootloader, session: Session, payloads: seq<seq<byte>>, hal: Hal)
    requires TransferReady(d, session, payloads, hal)
    ensures var r := Transfer(d, session, payloads, hal);
      r.Some? && r.value.writes == Placement(hal.appStartAddress, d.bytesWritten, payloads)
    decreases |payloads|
  {
    if |payloads| > 0 {
      var next := TransferReadyStep(d, session, payloads, hal);
      TransferWrites(next, Session(session.sequenceNumber + 1), payloads[1..], hal);
      PlacementCons(hal.appStartAddress, d.bytesWritten, payloads);
    }
  }

  /**
   * A whole transfer of non-empty payloads that fits the announced size, with
   * the host's counter in step and every flash call succeeding: the host
   * accepts every ACK, the image is written contiguously from the byte count
   * on, both ends finish with the counter `SendAll` leaves, and once the
   * announced size is reached the next run heads for the application.
   */
  lemma TransferAccepted(d: Bootloader, session: Session, payloads: seq<seq<byte>>, hal: Hal)
    requires TransferReady(d, session, payloads, hal)
    ensures var r := Transfer(d, session, payloads, hal);
      && r.Some?
      && (forall i :: 0 <= i < |r.value.verdicts| ==> r.value.verdicts[i] == Some(Returned(HostError.NoError)))
      && r.value.writes == Placement(hal.appStartAddress, d.bytesWritten, payloads)
      && r.value.device.bytesWritten == d.bytesWritten + Total(payloads)
      && r.value.session == SendAll(session, payloads).0
      && r.value.device.dfuSequenceNumber == r.value.session.sequenceNumber
      && (d.bytesWritten + Total(payloads) == d.appSizeCached as int ==> Run(r.value.device, hal) == JumpNotModelled)
  {
    TransferCompletes(d, session, payloads, hal);
    TransferAcked(d, session, payloads, hal);
    TransferWrites(d, session, payloads, hal);
  }

  /** The unpacking example the bootloader's tests use: size 0xADBEEF and checksum 0xDEADBEEF come back unchanged. */
  lemma StartUnpackExample()
    ensures UnpackMessage([1, 0xAD, 0xBE, 0xEF, 0xDE, 0xAD, 0xBE, 0xEF], 8) == StartPacket(0xAD_BEEF, 0xDEAD_BEEF)
  {
  }
}
