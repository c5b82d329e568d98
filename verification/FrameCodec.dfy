/** LTX/1 frames: the encoder and the incremental decoder. */
module FrameCodec {
  import opened Types
  import opened Wire
  import opened Extensions
  import opened Crc

  const LTX_MAGIC: u32 := 0x4C545831
  const FIXED_PREFIX: nat := 16
  const MAX_CHANNEL_NO: int := 0xFF_FFFF

  datatype FrameType = Hello | Open | Data | Ack | Credit | HalfClose | Reset | Ping | Pong | GoAway | Resume

  function TypeCode(t: FrameType): (code: byte) {
    match t
    case Hello => 0x01
    case Open => 0x10
    case Data => 0x11
    case Ack => 0x12
    case Credit => 0x13
    case HalfClose => 0x14
    case Reset => 0x15
    case Ping => 0x20
    case Pong => 0x21
    case GoAway => 0x22
    case Resume => 0x23
  }

  function TypeOf(code: byte): (t: Option<FrameType>)
    ensures t.Some? ==> TypeCode(t.value) == code
  {
    match code
    case 0x01 => Some(Hello)
    case 0x10 => Some(Open)
    case 0x11 => Some(Data)
    case 0x12 => Some(Ack)
    case 0x13 => Some(Credit)
    case 0x14 => Some(HalfClose)
    case 0x15 => Some(Reset)
    case 0x20 => Some(Ping)
    case 0x21 => Some(Pong)
    case 0x22 => Some(GoAway)
    case 0x23 => Some(Resume)
    case _ => None
  }

  datatype Frame = Frame(
    kind: FrameType,
    flags: u8,
    channel: ChannelId,
    seqNo: u32,
    extensions: seq<Extension>,
    payload: Bytes)

  datatype FrameLimits = FrameLimits(maxFrame: nat, maxHeader: nat)

  /** One decoded event, as `feed` reports them. */
  datatype DecodeEvent = Decoded(frame: Frame) | NeedMore | Failed(error: Error)

  // ---------------------------------------------------------------- encoding

  /** The sixteen fixed bytes, with the extension length truncated to its 16-bit field. */
  function FixedPrefix(f: Frame, extLen: nat): (bs: Bytes)
    requires f.channel.number <= MAX_CHANNEL_NO
    ensures |bs| == FIXED_PREFIX
  {
    U32Bytes(LTX_MAGIC) + [TypeCode(f.kind), f.flags] + U16Bytes(extLen % 0x1_0000)
    + U24Bytes(f.channel.number) + [f.channel.generation] + U32Bytes(f.seqNo)
  }

  function Unsealed(f: Frame, ext: Bytes): (bs: Bytes)
    requires f.channel.number <= MAX_CHANNEL_NO
  {
    FixedPrefix(f, |ext|) + Uleb(|f.payload|) + ext + f.payload
  }

  function Seal(body: Bytes): Bytes {
    body + U32Bytes(Crc32c(body))
  }

  function EncodeSpec(limits: FrameLimits, f: Frame): Result<Bytes> {
    if f.flags != 0 then Err(ConnectionError(ReservedFlags))
    else if f.channel.number > MAX_CHANNEL_NO then Err(ChannelError(ResourceLimit))
    else
      match WriteExtensionsSpec(f.extensions)
      case Err(e) => Err(e)
      case Ok(ext) =>
        if |ext| > limits.maxHeader then Err(ConnectionError(HeaderTooLarge))
        else if |f.payload| >= U32_SPAN then Err(ConnectionError(FrameTooLarge))
        else
          var body := Unsealed(f, ext);
          if |body| + 4 > limits.maxFrame then Err(ConnectionError(FrameTooLarge))
          else Ok(Seal(body))
  }

  // ---------------------------------------------------------------- one decoding step

  datatype Header = Header(kind: FrameType, extLen: nat, channel: ChannelId, seqNo: u32, varint: nat, payload: nat)
  {
    function Prefix(): nat { FIXED_PREFIX + varint }
    function Body(): nat { Prefix() + extLen }
    function WithoutCrc(): nat { Body() + payload }
    function Total(): nat { WithoutCrc() + 4 }
  }

  datatype HeaderStep = HeaderMore | HeaderBad(error: Error) | HeaderOk(header: Header)
  datatype Step = More | Bad(error: Error) | Got(frame: Frame, total: nat)

  function ReadHeader(limits: FrameLimits, view: Bytes, eof: bool): HeaderStep {
    if |view| < FIXED_PREFIX then
      if eof && |view| > 0 then HeaderBad(ConnectionError(TruncatedFrame)) else HeaderMore
    else if ReadU32(view, 0) != LTX_MAGIC then HeaderBad(ConnectionError(BadMagic))
    else
      var kind := TypeOf(view[4]);
      if kind.None? then HeaderBad(ConnectionError(UnsupportedFrameType))
      else if view[5] != 0 then HeaderBad(ConnectionError(ReservedFlags))
      else
        var extLen := ReadU16(view, 6);
        if extLen > limits.maxHeader then HeaderBad(ConnectionError(HeaderTooLarge))
        else
          match UlebParse(view, FIXED_PREFIX)
          case Err(e) =>
            if e.code != NeedMoreData then HeaderBad(e)
            else if eof then HeaderBad(ConnectionError(TruncatedFrame))
            else HeaderMore
          case Ok((payload, varint)) =>
            var h := Header(kind.value, extLen, ChannelId(ReadU24(view, 8), view[11]), ReadU32(view, 12), varint, payload);
            if h.Total() > limits.maxFrame then HeaderBad(ConnectionError(FrameTooLarge)) else HeaderOk(h)
  }

  /** What the header announces, once all its bytes are there. */
  function ReadBody(h: Header, view: Bytes): Step
    requires h.Total() <= |view|
  {
    if Crc32c(view[..h.WithoutCrc()]) != ReadU32(view, h.WithoutCrc()) then Bad(ConnectionError(CrcMismatch))
    else
      match ParseExtensionsSpec(view[h.Prefix()..h.Body()])
      case Err(e) => Bad(e)
      case Ok(es) => Got(Frame(h.kind, 0, h.channel, h.seqNo, es, view[h.Body()..h.WithoutCrc()]), h.Total())
  }

  function DecodeStep(limits: FrameLimits, view: Bytes, eof: bool): (s: Step)
    ensures s.Got? ==> FIXED_PREFIX < s.total <= |view|
  {
    match ReadHeader(limits, view, eof)
    case HeaderMore => More
    case HeaderBad(e) => Bad(e)
    case HeaderOk(h) =>
      if |view| < h.Total() then (if eof then Bad(ConnectionError(TruncatedFrame)) else More)
      else ReadBody(h, view)
  }

  // ---------------------------------------------------------------- the decoder's loop

  /** The events of one `feed` and the bytes it keeps, with `events` already reported. */
  function Drain(limits: FrameLimits, buffer: Bytes, eof: bool, events: seq<DecodeEvent>)
    : (seq<DecodeEvent>, Bytes)
    decreases |buffer|
  {
    match DecodeStep(limits, buffer, eof)
    case More => (if events == [] then [NeedMore] else events, buffer)
    case Bad(e) => (events + [Failed(e)], [])
    case Got(f, n) =>
      if n == |buffer| then (events + [Decoded(f)], [])
      else Drain(limits, buffer[n..], eof, events + [Decoded(f)])
  }

  lemma NothingToParse()
    ensures ParseExtensionsSpec([]) == Ok([])
  {
  }

  class Codec {
    const limits: FrameLimits
    var buffer: Bytes

    constructor (limits: FrameLimits)
      ensures this.limits == limits && buffer == []
    {
      this.limits := limits;
      buffer := [];
    }

    method Encode(f: Frame) returns (r: Result<Bytes>)
      ensures r == EncodeSpec(limits, f)
    {
      hide Crc32c, Uleb, WriteAll, Canonical;
      if f.flags != 0 {
        return Err(ConnectionError(ReservedFlags));
      }
      if f.channel.number > MAX_CHANNEL_NO {
        return Err(ChannelError(ResourceLimit));
      }
      var ext := WriteExtensions(f.extensions);
      if ext.Err? {
        return Err(ext.error);
      }
      if |ext.value| > limits.maxHeader {
        return Err(ConnectionError(HeaderTooLarge));
      }
      if |f.payload| >= U32_SPAN {
        return Err(ConnectionError(FrameTooLarge));
      }
      var length := EncodeUleb128(|f.payload|);
      var out := U32Bytes(LTX_MAGIC);
      out := out + [TypeCode(f.kind), f.flags];
      out := out + U16Bytes(|ext.value| % 0x1_0000);
      out := out + U24Bytes(f.channel.number);
      out := out + [f.channel.generation];
      out := out + U32Bytes(f.seqNo);
      out := out + length.value;
      out := out + ext.value;
      out := out + f.payload;
      if |out| + 4 > limits.maxFrame {
        return Err(ConnectionError(FrameTooLarge));
      }
      var crc := Crc32cSliced(out);
      return Ok(out + U32Bytes(crc));
    }

    /** One pass of the decoder's loop over the bytes not consumed yet, check by check. */
    method Next(view: Bytes, eof: bool) returns (s: Step)
      ensures s == DecodeStep(limits, view, eof)
    {
      hide Crc32c, UlebParse, ParseExtensionsSpec;
      if |view| < FIXED_PREFIX {
        return if eof && |view| > 0 then Bad(ConnectionError(TruncatedFrame)) else More;
      }
      if ReadU32(view, 0) != LTX_MAGIC {
        return Bad(ConnectionError(BadMagic));
      }
      var kind := TypeOf(view[4]);
      if kind.None? {
        return Bad(ConnectionError(UnsupportedFrameType));
      }
      if view[5] != 0 {
        return Bad(ConnectionError(ReservedFlags));
      }
      var extLen := ReadU16(view, 6);
      if extLen > limits.maxHeader {
        return Bad(ConnectionError(HeaderTooLarge));
      }
      var channel := ChannelId(ReadU24(view, 8), view[11]);
      var seqNo := ReadU32(view, 12);
      var length := DecodeUleb128(view, FIXED_PREFIX);
      if length.Err? {
        if length.error.code != NeedMoreData {
          return Bad(length.error);
        }
        return if eof then Bad(ConnectionError(TruncatedFrame)) else More;
      }
      var varint := length.value.1;
      var body := FIXED_PREFIX + varint + extLen;
      var withoutCrc := body + length.value.0;
      var total := withoutCrc + 4;
      if total > limits.maxFrame {
        return Bad(ConnectionError(FrameTooLarge));
      }
      if |view| < total {
        return if eof then Bad(ConnectionError(TruncatedFrame)) else More;
      }
      var crc := Crc32cSliced(view[..withoutCrc]);
      if crc != ReadU32(view, withoutCrc) {
        return Bad(ConnectionError(CrcMismatch));
      }
      var es: Result<seq<Extension>> := Ok([]);
      if extLen > 0 {
        es := ParseExtensions(view[FIXED_PREFIX + varint..body]);
      } else {
        NothingToParse();
        assert view[FIXED_PREFIX + varint..body] == [];
      }
      if es.Err? {
        return Bad(es.error);
      }
      return Got(Frame(kind.value, 0, channel, seqNo, es.value, view[body..withoutCrc]), total);
    }

    method Feed(bytes: Bytes, eof: bool) returns (events: seq<DecodeEvent>)
      modifies this`buffer
      ensures (events, buffer) == Drain(limits, old(buffer) + bytes, eof, [])
    {
      hide DecodeStep;
      buffer := buffer + bytes;
      events := [];
      var consumed := 0;
      ghost var whole := buffer;
      assert whole[0..] == whole;
      while true
        invariant 0 <= consumed <= |buffer| && buffer == whole
        invariant Drain(limits, whole, eof, []) == Drain(limits, whole[consumed..], eof, events)
        decreases |buffer| - consumed
      {
        var view := buffer[consumed..];
        var step := Next(view, eof);
        match step
        case More =>
          buffer := view;
          if events == [] {
            events := [NeedMore];
          }
          return;
        case Bad(e) =>
          events := events + [Failed(e)];
          buffer := [];
          return;
        case Got(f, total) =>
          events := events + [Decoded(f)];
          consumed := consumed + total;
          if consumed == |buffer| {
            buffer := [];
            return;
          }
          assert view[total..] == whole[consumed..];
      }
    }

    method Reset()
      modifies this`buffer
      ensures buffer == []
    {
      buffer := [];
    }
  }
}
