/**
 * The vocabulary the host tool and the bootloader share: message identifiers,
 * the DFU error codes an ACK carries, and the bootloader's status, state and
 * request enumerations. The numeric values are the ones both sides put on the
 * wire or in their enumerations.
 */
module Protocol {
  import opened Bytes

  /** A value that may be absent. */
  datatype Option<+T> = None | Some(value: T)

  /**
   * Length of an ACK: `VOYAGER_DFU_ACK_MESSAGE_SIZE` on the device, whose
   * definition is not part of this model, and 8 in the host's check.
   */
  const AckMessageSize: nat := 8

  /** First byte of every packet. */
  const UnknownId: byte := 0
  const StartId: byte := 1
  const AckId: byte := 2
  const DataId: byte := 3

  /** Why the device rejected a packet; byte 1 of an ACK. */
  datatype DfuError =
    | NoError
    | PacketOverrun
    | EnterDfuNotRequested
    | OutOfSequence
    | InvalidMessageId
    | SizeTooLarge
    | InternalError
  {
    /** The value the enumeration assigns, as sent on the wire. */
    function Code(): (c: byte)
      ensures c < 7
    {
      match this
      case NoError => 0
      case PacketOverrun => 1
      case EnterDfuNotRequested => 2
      case OutOfSequence => 3
      case InvalidMessageId => 4
      case SizeTooLarge => 5
      case InternalError => 6
    }
  }

  /** The error a byte names, if it names one: 0 to 6 do, every other byte does not. */
  function DfuErrorOf(b: byte): (r: Option<DfuError>)
    ensures r.Some? <==> b < 7
    ensures r.Some? ==> r.value.Code() == b
  {
    if b == 0 then Some(NoError)
    else if b == 1 then Some(PacketOverrun)
    else if b == 2 then Some(EnterDfuNotRequested)
    else if b == 3 then Some(OutOfSequence)
    else if b == 4 then Some(InvalidMessageId)
    else if b == 5 then Some(SizeTooLarge)
    else if b == 6 then Some(InternalError)
    else None
  }

  /** Decoding a code recovers the error, so distinct errors have distinct codes. */
  lemma DfuErrorRoundTrip(e: DfuError)
    ensures DfuErrorOf(e.Code()) == Some(e)
  {
  }

  /** Result of a bootloader call (`VOYAGER_ERROR_NONE` is `Ok`). */
  datatype Status = Ok | InvalidArgument | NotImplemented | GenericError

  /** The bootloader's states. */
  datatype State = NotInitialized | Idle | DfuReceive | JumpToApp

  /** What the application asks the bootloader to do next. */
  datatype Request = KeepIdle | EnterDfu | JumpToAppRequested

  /** Keys of the non-volatile store. */
  datatype NvmKey = AppCrc | AppStartAddress | AppEndAddress | AppSize
}
