/**
 * The host-side helpers: building START and DATA packets and judging the
 * ACK the device sends back. The DATA sequence counter, which the host keeps
 * between calls, is a field of an explicit `Session`.
 */
module Host {
  import opened Bytes
  import opened Crc
  import opened Protocol

  /** Exceptions the helpers can raise. */
  datatype Exception =
    | StructError  // `struct.pack` given a value outside an unsigned 32-bit field
    | ValueError   // an ACK error byte that names no target error

  /** A Python call either returns a value or raises. */
  datatype Result<+T> = Returned(value: T) | Raised(exception: Exception)

  /** The host's verdict on an ACK: the target's errors plus two of its own. */
  datatype HostError =
    | NoError
    | PacketOverrun
    | EnterDfuNotRequested
    | OutOfSequence
    | InvalidMessageId
    | SizeTooLarge
    | InternalError
    | CrcMismatch
    | UnknownErrorCode
  {
    function Code(): (c: nat)
      ensures c < 9
    {
      match this
      case NoError => 0
      case PacketOverrun => 1
      case EnterDfuNotRequested => 2
      case OutOfSequence => 3
      case InvalidMessageId => 4
      case SizeTooLarge => 5
      case InternalError => 6
      case CrcMismatch => 7
      case UnknownErrorCode => 8
    }
  }

  /** `VoyagerHostDfuError(err.value)`: the host error with the target error's value. */
  function HostErrorOf(e: DfuError): (r: HostError)
    ensures r.Code() == e.Code() as nat
  {
    match e
    case NoError => HostError.NoError
    case PacketOverrun => HostError.PacketOverrun
    case EnterDfuNotRequested => HostError.EnterDfuNotRequested
    case OutOfSequence => HostError.OutOfSequence
    case InvalidMessageId => HostError.InvalidMessageId
    case SizeTooLarge => HostError.SizeTooLarge
    case InternalError => HostError.InternalError
  }

  /** Length of the START packet. */
  const StartRequestSize: nat := 8

  /**
   * `generate_start_request`: the size keeps only its low 24 bits (Python's
   * `& 0xffffff`, which is the non-negative remainder even for a negative
   * size); the checksum must fit an unsigned 32-bit field or packing raises.
   */
  function GenerateStartRequest(appSize: int, appCrc: int): (r: Result<seq<byte>>)
    ensures r.Raised? <==> !(0 <= appCrc < 0x1_0000_0000)
    ensures r.Raised? ==> r.exception == StructError
    ensures r.Returned? ==>
      && |r.value| == StartRequestSize
      && r.value[0] == StartId
      && BeUint24(r.value[1..4]) == (appSize % 0x100_0000) as bv32
      && BeUint32(r.value[4..8]) == appCrc as bv32
  {
    if 0 <= appCrc < 0x1_0000_0000 then
      var size: bv32 := (appSize % 0x100_0000) as bv32;
      BeUint24OfBytes(size);
      BeUint32OfBytes(appCrc as bv32);
      Returned([StartId] + BeBytes32(size)[1..] + BeBytes32(appCrc as bv32))
    else
      Raised(StructError)
  }

  /** The counter `generate_data_packet` keeps as a function attribute. */
  datatype Session = Session(sequenceNumber: byte)

  /** The attribute's value when the module is loaded. */
  const InitialSession := Session(0)

  /**
   * `generate_data_packet`: the id, the counter (optionally reset to 0 first),
   * then the payload. The counter is a byte, so `+ 1` is `(n + 1) % 256`.
   */
  function GenerateDataPacket(session: Session, payload: seq<byte>, resetSequenceNumber: bool)
    : (r: (Session, seq<byte>))
    ensures |r.1| == |payload| + 2
    ensures r.1[0] == DataId
    ensures r.1[1] == if resetSequenceNumber then 0 else session.sequenceNumber
    ensures r.1[2..] == payload
    ensures r.0.sequenceNumber == r.1[1] + 1
  {
    var current := if resetSequenceNumber then 0 else session.sequenceNumber;
    (Session(current + 1), [DataId, current] + payload)
  }

  /** Python's `previous_message[1:]`: everything after the first byte, empty when there is none. */
  function Tail(s: seq<byte>): (r: seq<byte>)
  {
    if |s| == 0 then [] else s[1..]
  }

  /**
   * `compare_ack_message`: the ACK's length, id and error byte are checked in
   * that order; only an error-free ACK has its checksum field compared with
   * the checksum of everything after the first byte of the packet it answers.
   */
  function CompareAckMessage(msg: seq<byte>, previous: seq<byte>): (r: Result<HostError>)
    ensures |msg| != AckMessageSize ==> r == Returned(HostError.SizeTooLarge)
    ensures |msg| == AckMessageSize && msg[0] != AckId ==> r == Returned(HostError.InvalidMessageId)
    ensures r.Raised? <==> |msg| == AckMessageSize && msg[0] == AckId && msg[1] >= 7
    ensures r.Raised? ==> r.exception == ValueError
    ensures r != Returned(UnknownErrorCode)
  {
    if |msg| != AckMessageSize then Returned(HostError.SizeTooLarge)
    else if msg[0] != AckId then Returned(HostError.InvalidMessageId)
    else match DfuErrorOf(msg[1])
      case None => Raised(ValueError)
      case Some(err) =>
        if err != DfuError.NoError then Returned(HostErrorOf(err))
        else if HostCrc(Tail(previous)) != BeUint32(msg[2..6]) then Returned(CrcMismatch)
        else Returned(HostError.NoError)
  }

  /**
   * An ACK of the right length and id with error byte 1 to 6 reports that
   * error, whatever its checksum field holds.
   */
  lemma CompareAckReportsDeviceError(msg: seq<byte>, previous: seq<byte>, e: DfuError)
    requires |msg| == AckMessageSize && msg[0] == AckId
    requires e != DfuError.NoError && msg[1] == e.Code()
    ensures CompareAckMessage(msg, previous) == Returned(HostErrorOf(e))
  {
    DfuErrorRoundTrip(e);
  }

  /**
   * The ACK's checksum field agrees with the host's checksum of a packet
   * exactly when it is the big-endian encoding of the device's checksum.
   */
  lemma ChecksumFieldAgrees(field: seq<byte>, packet: seq<byte>)
    requires |field| == 4
    ensures HostCrc(packet) == BeUint32(field) <==> field == BeBytes32(Checksum(packet))
  {
    var c := Checksum(packet);
    HostCrcIsChecksum(packet);
    BeBytesOfUint32(field);
    BeUint32OfBytes(c);
  }

  /**
   * The host accepts an ACK exactly when it is eight bytes, has the ACK id and
   * error byte 0, and its checksum field is the big-endian checksum of the
   * packet after its first byte.
   */
  lemma CompareAckAccepts(msg: seq<byte>, previous: seq<byte>)
    ensures CompareAckMessage(msg, previous) == Returned(HostError.NoError)
        <==> && |msg| == AckMessageSize
             && msg[0] == AckId
             && msg[1] == 0
             && msg[2..6] == BeBytes32(Checksum(Tail(previous)))
  {
    if |msg| == AckMessageSize {
      ChecksumFieldAgrees(msg[2..6], Tail(previous));
    }
  }

  /**
   * An error-free ACK of the right shape whose checksum field differs from the
   * packet's checksum is reported as a mismatch.
   */
  lemma CompareAckDetectsMismatch(msg: seq<byte>, previous: seq<byte>)
    requires |msg| == AckMessageSize && msg[0] == AckId && msg[1] == 0
    requires msg[2..6] != BeBytes32(Checksum(Tail(previous)))
    ensures CompareAckMessage(msg, previous) == Returned(CrcMismatch)
  {
    ChecksumFieldAgrees(msg[2..6], Tail(previous));
  }

  /** Sends one DATA packet per payload, in order, never resetting the counter. */
  function SendAll(session: Session, payloads: seq<seq<byte>>): (r: (Session, seq<seq<byte>>))
    ensures |r.1| == |payloads|
    decreases |payloads|
  {
    if |payloads| == 0 then (session, [])
    else
      var (next, packet) := GenerateDataPacket(session, payloads[0], false);
      var (last, rest) := SendAll(next, payloads[1..]);
      (last, [packet] + rest)
  }

  /** `n` increments of a byte counter, each one `(c + 1) % 256`. */
  function Advance(counter: byte, n: nat): (r: byte)
    decreases n
  {
    if n == 0 then counter else Advance(counter + 1, n - 1)
  }

  /** Advancing is adding the advance of zero. */
  lemma {:induction false} AdvanceShift(counter: byte, n: nat)
    ensures Advance(counter, n) == counter + Advance(0, n)
    decreases n
  {
    if n > 0 {
      AdvanceShift(counter + 1, n - 1);
      AdvanceShift(1, n - 1);
    }
  }

  /** Advancing by twice `n` adds the advance by `n` twice. */
  lemma AdvanceDouble(n: nat)
    ensures Advance(0, 2 * n) == Advance(0, n) + Advance(0, n)
  {
    AdvanceAdd(0, n, n);
    AdvanceShift(Advance(0, n), n);
  }

  /** Advancing by `m + n` is advancing by `m` and then by `n`. */
  lemma {:induction false} AdvanceAdd(counter: byte, m: nat, n: nat)
    ensures Advance(counter, m + n) == Advance(Advance(counter, m), n)
    decreases m
  {
    if m > 0 {
      AdvanceAdd(counter + 1, m - 1, n);
    }
  }

  /** 256 increments bring any counter back to its value. */
  lemma AdvancePeriod(counter: byte)
    ensures Advance(counter, 256) == counter
  {
    assert Advance(0, 1) == 1;
    AdvanceDouble(1);
    AdvanceDouble(2);
    AdvanceDouble(4);
    AdvanceDouble(8);
    AdvanceDouble(16);
    AdvanceDouble(32);
    AdvanceDouble(64);
    AdvanceDouble(128);
    AdvanceShift(counter, 256);
  }

  /** The counter ends advanced once per packet sent. */
  lemma {:induction false} SendAllCounter(session: Session, payloads: seq<seq<byte>>)
    ensures SendAll(session, payloads).0.sequenceNumber == Advance(session.sequenceNumber, |payloads|)
    decreases |payloads|
  {
    if |payloads| > 0 {
      SendAllCounter(Session(session.sequenceNumber + 1), payloads[1..]);
    }
  }

  /** Packet `i` of a run is the packet a single call makes from the counter advanced `i` times. */
  lemma {:induction false} SendAllPacket(session: Session, payloads: seq<seq<byte>>, i: nat)
    requires i < |payloads|
    ensures SendAll(session, payloads).1[i]
         == GenerateDataPacket(Session(Advance(session.sequenceNumber, i)), payloads[i], false).1
    decreases i
  {
    if i > 0 {
      SendAllPacket(Session(session.sequenceNumber + 1), payloads[1..], i - 1);
      assert payloads[1..][i - 1] == payloads[i];
    }
  }

  /** After 256 packets without a reset the counter is back where it started. */
  lemma CounterPeriod(session: Session, payloads: seq<seq<byte>>)
    requires |payloads| == 256
    ensures SendAll(session, payloads).0 == session
  {
    SendAllCounter(session, payloads);
    AdvancePeriod(session.sequenceNumber);
  }
}
