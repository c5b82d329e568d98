/** Values shared by every part of the LTX/1 model: fixed-width integers, errors and results. */
module Types {

  type byte = b: int | 0 <= b < 0x100
  type u8 = b: int | 0 <= b < 0x100
  type u16 = n: int | 0 <= n < 0x1_0000
  type u32 = n: int | 0 <= n < 0x1_0000_0000
  type u64 = n: int | 0 <= n < 0x1_0000_0000_0000_0000
  type Bytes = seq<byte>

  const U32_SPAN: int := 0x1_0000_0000
  const U64_SPAN: int := 0x1_0000_0000_0000_0000

  datatype Option<+T> = None | Some(value: T)

  datatype ErrorScope = Connection | Channel | Message | Plugin | Transport | Internal

  datatype ErrorCode =
    | NeedMoreData | TruncatedFrame | BadMagic | ReservedFlags | VarintNonCanonical | VarintTooLong
    | FrameTooLarge | HeaderTooLarge | CrcMismatch | MalformedTlv | UnsupportedFrameType
    | NegotiationRejected | DuplicateRequiredTlv | UnknownRequiredFeature | StaleGeneration
    | IllegalState | FragmentRange | FragmentOverlap | SequenceError | FlowUnderflow | FlowOverflow
    | ResourceLimit | WouldBlock | PluginDecode | ResumeRejected | Timeout | Cancelled
    | TransportFailure | InvariantFailure

  datatype CloseAction = NoAction | RejectMessage | ResetChannel | CloseConnection

  /** The channel, sequence and text details an error carries are not part of the model. */
  datatype Error = Error(scope: ErrorScope, code: ErrorCode, action: CloseAction)

  datatype Result<+T> = Ok(value: T) | Err(error: Error)

  function ConnectionError(code: ErrorCode): Error {
    Error(Connection, code, CloseConnection)
  }

  function ChannelError(code: ErrorCode): Error {
    Error(Channel, code, ResetChannel)
  }

  /** A channel number paired with the generation of the slot it names. */
  datatype ChannelId = ChannelId(number: u32, generation: u8) {
    predicate IsControl() { number == 0 && generation == 0 }
  }

  const CONTROL: ChannelId := ChannelId(0, 0)

  function Min(a: int, b: int): int { if a <= b then a else b }
  function Max(a: int, b: int): int { if a <= b then b else a }
}
