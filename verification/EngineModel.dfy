/**
 What each call on a connection does to its whole state. The host of a connection stands for what the
 engine is given from outside: its plugins, as functions, and the executor it may hand their work to.
 */
module EngineModel {
  import opened Types
  import opened Wire
  import X = Extensions
  import Crc
  import F = FrameCodec
  import C = Channels
  import R = Reassembling
  import P = Replay
  import PT = ReplayText
  import S = Scheduler
  import H = Hellos
  import T = Timers

  const EXT_MESSAGE_SEQ: u16 := 1
  const EXT_FRAGMENT_OFFSET: u16 := 2
  const EXT_MESSAGE_TOTAL: u16 := 3
  const EXT_FAMILY_ID: u16 := 4
  const HANDSHAKE_TIMEOUT: u64 := 5000
  const IDLE_PING: u64 := 30000
  const PONG_TIMEOUT: u64 := 5000
  const DRAIN_TIMEOUT: u64 := 1000
  const FRAGMENT_GAP: u64 := 1000

  datatype Phase = Created | Negotiating | Active | Draining | Closed

  datatype EventKind =
    | Negotiated | ChannelOpened | MessageDelivered | PluginResponse | PongReceived | Resumed
    | TimerExpired | ChannelReset | HalfClosed | ClosedDown | Diagnostic

  datatype Event = Event(kind: EventKind, channel: ChannelId, sequence: u32, payload: Bytes, error: Option<Error>)

  /** A plugin call handed to the executor. */
  datatype Job = Job(token: u64, family: u32, message: R.LogicalMessage)

  /** `respond` is what the plugin of a family answers; `available` whether a lease on it can be had. */
  datatype Host = Host(
    plugins: seq<H.Descriptor>,
    available: u32 -> bool,
    respond: (u32, R.LogicalMessage) -> Result<Bytes>,
    executor: Option<nat>)

  type Outbox = s: S.Queues | S.Valid(s) witness S.Queues(0, 0, [], map[], map[], 0)
  type Retained = w: P.Window | 1 <= w.capacity witness P.Window(1, 1, [])

  /**
   `families` and `handed` are history: for the position of each delivery among the events, the plugin family
   its DATA frame named; and every frame `emit` has handed out whole, oldest first.
   */
  datatype Conn = Conn(
    policy: H.Policy,
    state: Phase,
    capabilities: Option<H.Capabilities>,
    channels: Option<C.Table>,
    replay: Retained,
    timers: T.Wheel,
    outbox: Outbox,
    buffer: Bytes,
    nextFrame: u32,
    nextToken: u64,
    now: u64,
    pendingPong: Option<u64>,
    events: seq<Event>,
    jobs: seq<Job>,
    families: map<nat, u32>,
    handed: seq<F.Frame>)

  type Reply = Result<seq<Bytes>>

  function Plain(kind: EventKind, channel: ChannelId): Event { Event(kind, channel, 0, [], None) }

  function Noted(c: Conn, e: Event): Conn { c.(events := c.events + [e]) }

  function Limits(p: H.Policy): F.FrameLimits { F.FrameLimits(p.maxFrame, 4096) }

  function StateError(): Error { ConnectionError(IllegalState) }

  function Scheduled(c: Conn, kind: T.Kind, channel: ChannelId, delay: u64): Conn {
    c.(timers := T.ScheduleSpec(c.timers, kind, channel, (c.now + delay) % U64_SPAN).0)
  }

  // ---------------------------------------------------------------- handing frames out

  function Enqueued(q: Outbox, item: S.Item): (Outbox, Result<()>) {
    S.EnqueueKeeps(q, item);
    S.EnqueueSpec(q, item)
  }

  function Drained(q: Outbox, writable: nat): (Outbox, seq<S.Item>) {
    S.DrainKeeps(q, writable);
    S.DrainSpec(q, writable)
  }

  function Encodings(items: seq<S.Item>): (out: seq<Bytes>)
    ensures |out| == |items|
    ensures forall i :: 0 <= i < |items| ==> out[i] == items[i].encoded
  {
    seq(|items|, i requires 0 <= i < |items| => items[i].encoded)
  }

  function FlushSpec(c: Conn, writable: nat): (Conn, seq<Bytes>) {
    var (outbox, items) := Drained(c.outbox, writable);
    (c.(outbox := outbox), Encodings(items))
  }

  function ItemOf(f: F.Frame, encoded: Bytes): S.Item {
    S.Item(if f.kind == F.Data then S.Data else S.Control, f.channel, f.seqNo, encoded)
  }

  /** Encode, record, queue, then write out whatever may be written. */
  function EmitSpec(c: Conn, f: F.Frame): (Conn, Reply) {
    match F.EncodeSpec(Limits(c.policy), f)
    case Err(e) => (c, Err(e))
    case Ok(encoded) =>
      var (replay, recorded) := P.RecordSpec(c.replay, 1, f.seqNo, encoded);
      if recorded.Err? then (c, Err(recorded.error))
      else
        var (outbox, queued) := Enqueued(c.outbox, ItemOf(f, encoded));
        var c1 := c.(replay := replay, outbox := outbox);
        if queued.Err? then (c1, Err(queued.error))
        else
          var (c2, out) := FlushSpec(c1, c.policy.window);
          (c2.(handed := c2.handed + if encoded in out then [f] else []), Ok(out))
  }

  function FrameOf(c: Conn, kind: F.FrameType, channel: ChannelId, payload: Bytes, extensions: seq<X.Extension>): F.Frame {
    F.Frame(kind, 0, channel, c.nextFrame, extensions, payload)
  }

  function Numbered(c: Conn): Conn { c.(nextFrame := (c.nextFrame + 1) % U32_SPAN) }

  /** Make the next frame and emit it. */
  function PostSpec(c: Conn, kind: F.FrameType, channel: ChannelId, payload: Bytes, extensions: seq<X.Extension>): (Conn, Reply) {
    EmitSpec(Numbered(c), FrameOf(c, kind, channel, payload, extensions))
  }

  // ---------------------------------------------------------------- calls of the application

  function LocalHello(host: Host, p: H.Policy): H.Hello { H.Hello(p.minMajor, p.maxMajor, p, host.plugins) }

  function StartSpec(host: Host, c: Conn): (Conn, Reply) {
    if c.state != Created then (c, Err(StateError()))
    else
      match H.EncodeHelloSpec(LocalHello(host, c.policy))
      case Err(e) => (c, Err(e))
      case Ok(payload) =>
        PostSpec(Scheduled(c.(state := Negotiating), T.Handshake, CONTROL, HANDSHAKE_TIMEOUT), F.Hello, CONTROL, payload, [])
  }

  predicate Offers(caps: H.Capabilities, family: u32) { exists d <- caps.plugins :: d.family == family }

  function OpenChannelSpec(c: Conn, family: u32, window: u64): (Conn, Result<(ChannelId, seq<Bytes>)>) {
    if c.state != Active || c.channels.None? || c.capabilities.None? then (c, Err(StateError()))
    else if !Offers(c.capabilities.value, family) then (c, Err(Error(Plugin, PluginDecode, RejectMessage)))
    else
      var (t1, id) := C.AllocateSpec(c.channels.value);
      if id.Err? then (c, Err(id.error))
      else
        var (t2, active) := C.ActivateSpec(t1, id.value);
        var c1 := c.(channels := Some(t2));
        if active.Err? then (c1, Err(active.error))
        else
          var (c2, out) := PostSpec(c1, F.Open, id.value, U32Bytes(family) + U32Bytes(window % U32_SPAN), []);
          if out.Err? then (c2, Err(out.error))
          else (Noted(c2, Plain(ChannelOpened, id.value)), Ok((id.value, out.value)))
  }

  function MaxFragment(caps: H.Capabilities): (n: nat)
    ensures n >= 1
  {
    Max(1, caps.maxFrame / 2)
  }

  function DataExtensions(sequence: u32, offset: nat, total: nat): seq<X.Extension> {
    [X.Extension(EXT_MESSAGE_SEQ, true, U32Bytes(sequence)),
     X.Extension(EXT_FRAGMENT_OFFSET, true, U32Bytes(offset % U32_SPAN)),
     X.Extension(EXT_MESSAGE_TOTAL, true, U32Bytes(total % U32_SPAN)),
     X.Extension(EXT_FAMILY_ID, true, U32Bytes(7))]
  }

  /** The fragment loop of `send`, from `offset` on, with `out` already handed out. */
  function SendFrom(c: Conn, id: ChannelId, sequence: u32, payload: Bytes, size: nat, offset: nat, out: seq<Bytes>): (Conn, Reply)
    requires size >= 1
    decreases |payload| - offset
  {
    if offset >= |payload| then (c, Ok(out))
    else
      var take := Min(size, |payload| - offset);
      var (next, encoded) := PostSpec(c, F.Data, id, payload[offset..offset + take], DataExtensions(sequence, offset, |payload|));
      if encoded.Err? then (next, encoded) else SendFrom(next, id, sequence, payload, size, offset + size, out + encoded.value)
  }

  /** Replaces the credit of slot `i`. */
  function WithFlow(t: C.Table, i: nat, flow: C.Flow): C.Table
    requires i < |t.slots|
  {
    C.With(t, i, t.slots[i].(flow := flow))
  }

  function Released(c: Conn, i: nat, amount: u64): Conn {
    if c.channels.None? || i >= |c.channels.value.slots| then c
    else
      var t := c.channels.value;
      c.(channels := Some(WithFlow(t, i, C.ReleaseSpec(t.slots[i].flow, amount).0)))
  }

  function SendSpec(c: Conn, id: ChannelId, payload: Bytes): (Conn, Reply)
    requires |payload| < U64_SPAN
  {
    if c.state != Active || c.capabilities.None? || c.channels.None? then (c, Err(StateError()))
    else
      var t := c.channels.value;
      match C.Find(t, id)
      case None => (c, Err(ChannelError(StaleGeneration)))
      case Some(i) =>
        if t.slots[i].localClosed then (c, Err(ChannelError(IllegalState)))
        else if |payload| > c.capabilities.value.maxMessage then (c, Err(Error(Message, ResourceLimit, RejectMessage)))
        else
          var (flow, reserve) := C.ReserveSpec(t.slots[i].flow, |payload|);
          if reserve.Err? then (c, Err(reserve.error))
          else
            var (t1, sequence) := C.ReserveSequenceSpec(WithFlow(t, i, flow), id);
            var c1 := c.(channels := Some(t1));
            if sequence.Err? then (Released(c1, i, |payload|), Err(sequence.error))
            else
              var (c2, out) := SendFrom(c1, id, sequence.value, payload, MaxFragment(c.capabilities.value), 0, []);
              (Released(c2, i, |payload|), out)
  }

  function GrantCreditSpec(c: Conn, id: ChannelId, amount: u64): (Conn, Reply) {
    PostSpec(c, F.Credit, id, U32Bytes(amount % U32_SPAN), [])
  }

  function AcknowledgeSpec(c: Conn, ranges: seq<P.AckRange>): (Conn, Reply) {
    match P.EncodeAckSpec(1, ranges)
    case Err(e) => (c, Err(e))
    case Ok(payload) => PostSpec(c, F.Ack, CONTROL, payload, [])
  }

  function PingSpec(c: Conn, token: u64): (Conn, Reply) { PostSpec(c, F.Ping, CONTROL, U64Bytes(token), []) }

  datatype ResumeRequest = ResumeRequest(hash: Bytes, epoch: u16, first: u32)

  function ResumePayload(r: ResumeRequest): Bytes { r.hash + U16Bytes(r.epoch) + U32Bytes(r.first) }

  function ReadResume(payload: Bytes): Result<ResumeRequest> {
    if |payload| != 22 then Err(ConnectionError(ResumeRejected))
    else Ok(ResumeRequest(payload[..16], ReadU16(payload, 16), ReadU32(payload, 18)))
  }

  function ResumeSpec(c: Conn, r: ResumeRequest): (Conn, Reply) {
    PostSpec(c, F.Resume, CONTROL, ResumePayload(r), [])
  }

  /** A response counts only while its channel is still the live one. */
  function CompleteSpec(c: Conn, token: u64, channel: ChannelId, sequence: u32, family: u32, response: Bytes): (Conn, Result<()>) {
    if c.channels.None? || C.Find(c.channels.value, channel).None? then (c, Ok(()))
    else if token == 0 || family == 0 then (c, Err(Error(Plugin, PluginDecode, RejectMessage)))
    else (Noted(c, Event(PluginResponse, channel, sequence, response, None)), Ok(()))
  }

  /** What the job does once the executor runs it: ask the plugin, then complete. */
  function AnswerSpec(host: Host, c: Conn, job: Job): (Conn, Result<()>) {
    match host.respond(job.family, job.message)
    case Err(e) => (c, Err(e))
    case Ok(response) => CompleteSpec(c, job.token, job.message.channel, job.message.sequence, job.family, response)
  }

  /** The executor runs its `k`-th waiting job. */
  function RunJobSpec(host: Host, c: Conn, k: nat): (Conn, Result<()>) {
    if k >= |c.jobs| then (c, Ok(()))
    else AnswerSpec(host, c.(jobs := c.jobs[..k] + c.jobs[k + 1..]), c.jobs[k])
  }

  function HalfCloseSpec(c: Conn, id: ChannelId, direction: C.Direction): (Conn, Reply) {
    if c.channels.None? then (c, Err(StateError()))
    else
      var (t, r) := C.HalfCloseSpec(c.channels.value, id, direction);
      if r.Err? then (c, Err(r.error))
      else
        var c1 := c.(channels := Some(t));
        PostNoted(c1, F.HalfClose, id, [if direction == C.LocalSend then 0 else 1], Plain(HalfClosed, id))
  }

  /** Make a frame, note an event, emit. */
  function PostNoted(c: Conn, kind: F.FrameType, id: ChannelId, payload: Bytes, e: Event): (Conn, Reply) {
    EmitSpec(Noted(Numbered(c), e), FrameOf(c, kind, id, payload, []))
  }

  function ResetSpec(c: Conn, id: ChannelId): (Conn, Reply) {
    if c.channels.None? then (c, Err(StateError()))
    else
      var (t, r) := C.ResetChannelSpec(c.channels.value, id);
      if r.Err? then (c, Err(r.error))
      else PostNoted(c.(channels := Some(t)), F.Reset, id, [], Plain(ChannelReset, id))
  }

  function GoAwaySpec(c: Conn): (Conn, Reply) {
    PostSpec(Scheduled(c.(state := Draining), T.Drain, CONTROL, DRAIN_TIMEOUT), F.GoAway, CONTROL, [], [])
  }

  lemma Capacious(text: string)
    requires PT.RestoreSpec(text).Ok?
    ensures 1 <= PT.RestoreSpec(text).value.capacity
  {
    hide PT.RestoreSpec;
    PT.AcceptedIsPortable(text);
  }

  /** Continue the numbering of a restored window; one whose last number has no successor is refused, but stays. */
  function Adopted(c: Conn, w: Retained): (Conn, Result<()>) {
    match P.Latest(w)
    case None => (c.(replay := w, nextFrame := 1), Ok(()))
    case Some(latest) =>
      if latest == U32_SPAN - 1 then (c.(replay := w), Err(ConnectionError(ResourceLimit)))
      else (c.(replay := w, nextFrame := latest + 1), Ok(()))
  }

  function LoadSpec(c: Conn, text: string): (Conn, Result<()>) {
    if c.state != Created then (c, Err(StateError()))
    else
      var restored := PT.RestoreSpec(text);
      if restored.Err? then (c, Err(restored.error))
      else
        Capacious(text);
        Adopted(c, restored.value)
  }

  // ---------------------------------------------------------------- frames of the peer

  function Quiet(c: Conn): (Conn, Reply) { (c, Ok([])) }

  lemma SomeChannels(local: H.Hello, peer: H.Hello)
    requires H.NegotiateSpec(local, peer).Ok?
    ensures 1 <= H.NegotiateSpec(local, peer).value.maxChannels
  {
    hide H.AllMatches, H.TranscriptHash;
  }

  /** The state of a connection whose HELLOs have crossed. */
  function Agreed(c: Conn, caps: H.Capabilities): Conn
    requires 1 <= caps.maxChannels
  {
    var table := C.NewTable(caps.maxChannels, caps.window / caps.maxChannels, caps.maxMessage);
    var active := c.(capabilities := Some(caps), channels := Some(table), state := Active);
    Noted(Scheduled(active, T.Idle, CONTROL, IDLE_PING), Plain(Negotiated, CONTROL))
  }

  function HandleHello(host: Host, c: Conn, f: F.Frame): (Conn, Reply) {
    if c.state != Negotiating then (c, Err(StateError()))
    else
      match H.DecodeHelloSpec(f.payload)
      case Err(e) => (c, Err(e))
      case Ok(peer) =>
        match H.NegotiateSpec(LocalHello(host, c.policy), peer)
        case Err(e) => (c, Err(e))
        case Ok(caps) =>
          SomeChannels(LocalHello(host, c.policy), peer);
          Quiet(Agreed(c, caps))
  }

  function HandleOpen(c: Conn, f: F.Frame): (Conn, Reply) {
    if c.state != Active || c.channels.None? || c.capabilities.None? || |f.payload| != 8 then (c, Err(StateError()))
    else if !Offers(c.capabilities.value, ReadU32(f.payload, 0)) then (c, Err(Error(Plugin, PluginDecode, ResetChannel)))
    else
      var (t, accepted) := C.AcceptRemoteSpec(c.channels.value, f.channel);
      if accepted.Err? then (c, Err(accepted.error))
      else Quiet(Noted(c.(channels := Some(t)), Plain(ChannelOpened, f.channel)))
  }

  function FirstOfKind(es: seq<X.Extension>, kind: u16): Option<X.Extension> {
    if es == [] then None else if es[0].kind == kind then Some(es[0]) else FirstOfKind(es[1..], kind)
  }

  function ExtensionU32(f: F.Frame, kind: u16): Option<u32> {
    var e := FirstOfKind(f.extensions, kind);
    if e.None? || |e.value.value| != 4 then None else Some(ReadU32(e.value.value, 0))
  }

  /** Hand a completed message to its plugin, through the executor if there is one. */
  function Dispatch(host: Host, c: Conn, family: u32, message: R.LogicalMessage): (Conn, Reply) {
    if !host.available(family) then (c, Err(Error(Plugin, PluginDecode, RejectMessage)))
    else
      var job := Job(c.nextToken, family, message);
      var c1 := c.(nextToken := (c.nextToken + 1) % U64_SPAN);
      if host.executor.Some? then
        if |c1.jobs| >= host.executor.value then (c1, Err(Error(Internal, WouldBlock, NoAction)))
        else Quiet(c1.(jobs := c1.jobs + [job]))
      else
        var (c2, r) := AnswerSpec(host, c1, job);
        if r.Err? then (c2, Err(r.error)) else Quiet(c2)
  }

  /** One fragment goes through the credit account and into the reassembler of slot `i`. */
  function Absorb(t: C.Table, i: nat, channel: ChannelId, sequence: u32, offset: u32, total: u32, bytes: Bytes)
    : (C.Table, R.Outcome)
    requires i < |t.slots| && |bytes| < U64_SPAN
  {
    var slot := t.slots[i];
    var (held, reserve) := C.ReserveSpec(slot.flow, |bytes|);
    if reserve.Err? then (t, Err(reserve.error))
    else
      var (fragments, outcome) := R.InsertSpec(slot.fragments, channel, sequence, offset, total, bytes);
      (C.With(t, i, slot.(flow := C.ReleaseSpec(held, |bytes|).0, fragments := fragments)), outcome)
  }

  function HandleData(host: Host, c: Conn, f: F.Frame): (Conn, Reply)
    requires |f.payload| < U64_SPAN
  {
    if c.state != Active || c.channels.None? then (c, Err(StateError()))
    else
      var t := c.channels.value;
      match C.Find(t, f.channel)
      case None => (c, Err(ChannelError(StaleGeneration)))
      case Some(i) =>
        var sequence, offset := ExtensionU32(f, EXT_MESSAGE_SEQ), ExtensionU32(f, EXT_FRAGMENT_OFFSET);
        var total, family := ExtensionU32(f, EXT_MESSAGE_TOTAL), ExtensionU32(f, EXT_FAMILY_ID);
        if t.slots[i].remoteClosed then (c, Err(ChannelError(IllegalState)))
        else if sequence.None? || offset.None? || total.None? || family.None? then (c, Err(Error(Message, MalformedTlv, ResetChannel)))
        else if sequence.value < t.slots[i].nextRecv then (c, Err(Error(Message, SequenceError, ResetChannel)))
        else
          var (t1, outcome) := Absorb(t, i, f.channel, sequence.value, offset.value, total.value, f.payload);
          Deliver(host, c.(channels := Some(t1)), i, f.channel, family.value, outcome)
  }

  /** What follows the reassembler's verdict. */
  function Deliver(host: Host, c: Conn, i: nat, channel: ChannelId, family: u32, outcome: R.Outcome): (Conn, Reply)
    requires c.channels.Some? && i < |c.channels.value.slots|
  {
    match outcome
    case Err(e) => (c, Err(e))
    case Ok(None) => Quiet(Scheduled(c, T.FragmentGap, channel, FRAGMENT_GAP))
    case Ok(Some(message)) =>
      var t := c.channels.value;
      var next := t.slots[i].nextRecv;
      if message.sequence != next then (c, Err(Error(Message, SequenceError, ResetChannel)))
      else
        var t1 := C.With(t, i, t.slots[i].(nextRecv := (next + 1) % U32_SPAN));
        var c1 := Noted(c.(channels := Some(t1), families := c.families[|c.events| := family]),
                        Event(MessageDelivered, channel, message.sequence, message.payload, None));
        Dispatch(host, c1, family, message)
  }

  function HandleCredit(c: Conn, f: F.Frame): (Conn, Reply) {
    if c.channels.None? || |f.payload| != 4 then (c, Err(ChannelError(IllegalState)))
    else
      match C.Find(c.channels.value, f.channel)
      case None => (c, Err(ChannelError(StaleGeneration)))
      case Some(i) =>
        var t := c.channels.value;
        var (flow, grant) := C.GrantSpec(t.slots[i].flow, ReadU32(f.payload, 0));
        (c.(channels := Some(WithFlow(t, i, flow))), if grant.Err? then Err(grant.error) else Ok([]))
  }

  function HandleAck(c: Conn, f: F.Frame): (Conn, Reply) {
    if !f.channel.IsControl() then (c, Err(ConnectionError(SequenceError)))
    else
      match P.DecodeAckSpec(f.payload)
      case Err(e) => (c, Err(e))
      case Ok((epoch, ranges)) =>
        var (replay, retired) := P.AcknowledgeSpec(c.replay, epoch, ranges);
        (c.(replay := replay), if retired.Err? then Err(retired.error) else Ok([]))
  }

  function ReadToken(payload: Bytes): Result<u64> {
    if |payload| != 8 then Err(ConnectionError(SequenceError)) else Ok(ReadU64(payload, 0))
  }

  function HandlePing(c: Conn, f: F.Frame): (Conn, Reply) {
    if !f.channel.IsControl() then (c, Err(ConnectionError(SequenceError)))
    else
      match ReadToken(f.payload)
      case Err(e) => (c, Err(e))
      case Ok(token) => PostSpec(c, F.Pong, CONTROL, U64Bytes(token), [])
  }

  function HandlePong(c: Conn, f: F.Frame): (Conn, Reply) {
    if !f.channel.IsControl() then (c, Err(ConnectionError(SequenceError)))
    else
      match ReadToken(f.payload)
      case Err(e) => (c, Err(e))
      case Ok(token) =>
        var c1 := if c.pendingPong == Some(token) then c.(pendingPong := None) else c;
        Quiet(Noted(c1, Event(PongReceived, CONTROL, token % U32_SPAN, [], None)))
  }

  function Copies(es: seq<P.Entry>): seq<Bytes> {
    seq(|es|, i requires 0 <= i < |es| => es[i].encoded)
  }

  function HandleResume(c: Conn, f: F.Frame): (Conn, Reply) {
    if !f.channel.IsControl() then (c, Err(ConnectionError(ResumeRejected)))
    else
      match ReadResume(f.payload)
      case Err(e) => (c, Err(e))
      case Ok(request) =>
        if c.capabilities.None? || c.capabilities.value.hash != request.hash then (c, Err(ConnectionError(ResumeRejected)))
        else
          match P.RetainedFromSpec(c.replay, request.epoch, request.first)
          case Err(e) => (c, Err(e))
          case Ok(retained) => (Noted(c.(state := Active), Plain(Resumed, CONTROL)), Ok(Copies(retained)))
  }

  function HandleHalfClose(c: Conn, f: F.Frame): (Conn, Reply) {
    if c.channels.None? || |f.payload| != 1 then (c, Err(ChannelError(IllegalState)))
    else
      var (t, r) := C.HalfCloseSpec(c.channels.value, f.channel, if f.payload[0] == 0 then C.RemoteSend else C.LocalSend);
      if r.Err? then (c, Err(r.error)) else Quiet(Noted(c.(channels := Some(t)), Plain(HalfClosed, f.channel)))
  }

  /** Resets the channel if it is live, and notes it either way. */
  function HandleReset(c: Conn, id: ChannelId): Conn {
    var c1 := if c.channels.None? then c else c.(channels := Some(C.ResetChannelSpec(c.channels.value, id).0));
    Noted(c1, Plain(ChannelReset, id))
  }

  function HandleGoAway(c: Conn, f: F.Frame): (Conn, Reply) {
    Quiet(Noted(Scheduled(c.(state := Draining), T.Drain, CONTROL, DRAIN_TIMEOUT), Plain(ClosedDown, f.channel)))
  }

  function HandleFrame(host: Host, c: Conn, f: F.Frame): (Conn, Reply)
    requires |f.payload| < U64_SPAN
  {
    match f.kind
    case Hello => HandleHello(host, c, f)
    case Open => HandleOpen(c, f)
    case Data => HandleData(host, c, f)
    case Ack => HandleAck(c, f)
    case Credit => HandleCredit(c, f)
    case Ping => HandlePing(c, f)
    case Pong => HandlePong(c, f)
    case Resume => HandleResume(c, f)
    case HalfClose => HandleHalfClose(c, f)
    case Reset => Quiet(HandleReset(c, f.channel))
    case GoAway => HandleGoAway(c, f)
  }

  function Diagnosed(c: Conn, e: Error): Conn { Noted(c, Event(Diagnostic, CONTROL, 0, [], Some(e))) }

  /** Decoded events are handled until one fails; the rest of the batch is dropped. */
  function HandleEvents(host: Host, c: Conn, events: seq<F.DecodeEvent>, out: seq<Bytes>): (Conn, Reply)
    requires forall e <- events :: e.Decoded? ==> |e.frame.payload| < U64_SPAN
    decreases |events|
  {
    if events == [] then (c, Ok(out))
    else
      assert events[0] in events;
      match events[0]
      case NeedMore => HandleEvents(host, c, events[1..], out)
      case Failed(e) => (Diagnosed(c, e).(state := Closed), Err(e))
      case Decoded(f) =>
        var (next, produced) := HandleFrame(host, c, f);
        if produced.Err? then
          (Diagnosed(next, produced.error).(state := if produced.error.action == CloseConnection then Closed else next.state),
           produced)
        else HandleEvents(host, next, events[1..], out + produced.value)
  }

  lemma {:induction false} DecodedSmall(limits: F.FrameLimits, buffer: Bytes, eof: bool, events: seq<F.DecodeEvent>)
    requires forall e <- events :: e.Decoded? ==> |e.frame.payload| < U64_SPAN
    ensures forall e <- F.Drain(limits, buffer, eof, events).0 :: e.Decoded? ==> |e.frame.payload| < U64_SPAN
    decreases |buffer|
  {
    hide F.DecodeStep;
    match F.DecodeStep(limits, buffer, eof) {
      case More =>
      case Bad(e) =>
      case Got(f, n) =>
        PayloadSmall(limits, buffer, eof);
        if n < |buffer| {
          DecodedSmall(limits, buffer[n..], eof, events + [F.Decoded(f)]);
        }
    }
  }

  lemma PayloadSmall(limits: F.FrameLimits, view: Bytes, eof: bool)
    requires F.DecodeStep(limits, view, eof).Got?
    ensures |F.DecodeStep(limits, view, eof).frame.payload| < U64_SPAN
  {
    hide Crc.Crc32c;
  }

  function ReceiveSpec(host: Host, c: Conn, bytes: Bytes, eof: bool): (Conn, Reply) {
    var (events, rest) := F.Drain(Limits(c.policy), c.buffer + bytes, eof, []);
    DecodedSmall(Limits(c.policy), c.buffer + bytes, eof, []);
    HandleEvents(host, c.(buffer := rest), events, [])
  }

  // ---------------------------------------------------------------- time

  const RETRY_LIMIT: u8 := 3

  /** A PING, with the time as its token, and a deadline for the answer. */
  function FireIdle(c: Conn): (Conn, Reply) {
    var token := if c.now == 0 then 1 else c.now;
    var (c1, ping) := PingSpec(c.(pendingPong := Some(token)), token);
    if ping.Err? then (c1, ping)
    else (Scheduled(Scheduled(c1, T.PongDeadline, CONTROL, PONG_TIMEOUT), T.Idle, CONTROL, IDLE_PING), ping)
  }

  /** One expired timer. */
  function Fire(c: Conn, t: T.Timer): (Conn, Reply) {
    var c1 := Noted(c, Plain(TimerExpired, t.channel));
    if c.state == Closed then Quiet(c1)
    else
      match t.kind
      case Handshake =>
        if c.state != Negotiating then Quiet(c1)
        else (Diagnosed(c1, ConnectionError(Timeout)).(state := Closed), Err(ConnectionError(Timeout)))
      case Retry =>
        var (replay, due) := P.RetrySpec(c.replay, RETRY_LIMIT);
        (c1.(replay := replay), if due.Err? then Err(due.error) else Ok(Copies(due.value)))
      case Idle => FireIdle(c1)
      case PongDeadline =>
        if c.pendingPong.None? then Quiet(c1)
        else
          (Noted(Diagnosed(c1, ConnectionError(Timeout)).(state := Closed), Plain(ClosedDown, CONTROL)),
           Err(ConnectionError(Timeout)))
      case Drain =>
        if c.state != Draining then Quiet(c1) else Quiet(Noted(c1.(state := Closed), Plain(ClosedDown, CONTROL)))
      case FragmentGap =>
        if c.channels.None? then Quiet(c1) else Quiet(HandleReset(c1, t.channel))
  }

  function FireAll(c: Conn, timers: seq<T.Timer>, out: seq<Bytes>): (Conn, Reply)
    decreases |timers|
  {
    if timers == [] then (c, Ok(out))
    else
      var (next, r) := Fire(c, timers[0]);
      if r.Err? then (next, r) else FireAll(next, timers[1..], out + r.value)
  }

  function AdvanceTimeSpec(c: Conn, now: u64): (Conn, Reply) {
    var (timers, expired) := T.ExpireSpec(c.timers, now);
    FireAll(c.(now := now, timers := timers), expired, [])
  }

  // ---------------------------------------------------------------- runs of calls

  datatype Call =
    | Start
    | Receive(bytes: Bytes, eof: bool)
    | OpenChannel(family: u32, window: u64)
    | Send(id: ChannelId, payload: Bytes)
    | GrantCredit(id: ChannelId, amount: u64)
    | Acknowledge(ranges: seq<P.AckRange>)
    | Ping(token: u64)
    | Resume(request: ResumeRequest)
    | Complete(token: u64, channel: ChannelId, sequence: u32, family: u32, response: Bytes)
    | RunJob(k: nat)
    | AdvanceTime(now: u64)
    | Flush(writable: nat)
    | Load(text: string)
    | HalfClose(id: ChannelId, direction: C.Direction)
    | Reset(id: ChannelId)
    | GoAway

  predicate Sizable(call: Call) { call.Send? ==> |call.payload| < U64_SPAN }

  /** The state after one call, whatever it answers. */
  function Next(host: Host, c: Conn, call: Call): Conn
    requires Sizable(call)
  {
    match call
    case Start => StartSpec(host, c).0
    case Receive(bytes, eof) => ReceiveSpec(host, c, bytes, eof).0
    case OpenChannel(family, window) => OpenChannelSpec(c, family, window).0
    case Send(id, payload) => SendSpec(c, id, payload).0
    case GrantCredit(id, amount) => GrantCreditSpec(c, id, amount).0
    case Acknowledge(ranges) => AcknowledgeSpec(c, ranges).0
    case Ping(token) => PingSpec(c, token).0
    case Resume(request) => ResumeSpec(c, request).0
    case Complete(token, channel, sequence, family, response) => CompleteSpec(c, token, channel, sequence, family, response).0
    case RunJob(k) => RunJobSpec(host, c, k).0
    case AdvanceTime(now) => AdvanceTimeSpec(c, now).0
    case Flush(writable) => FlushSpec(c, writable).0
    case Load(text) => LoadSpec(c, text).0
    case HalfClose(id, direction) => HalfCloseSpec(c, id, direction).0
    case Reset(id) => ResetSpec(c, id).0
    case GoAway => GoAwaySpec(c).0
  }

  lemma EmptyOutbox(limit: nat)
    ensures S.Valid(S.Queues(limit, 0, [], map[], map[], 0))
  {
  }

  /** A connection as it is constructed. */
  function NewConn(policy: H.Policy): Conn
    requires 1 <= policy.replayWindow
  {
    EmptyOutbox(policy.window);
    Conn(policy, Created, None, None, P.Window(policy.replayWindow, 1, []), T.Wheel(1, []),
         S.Queues(policy.window, 0, [], map[], map[], 0), [], 1, 1, 0, None, [], [], map[], [])
  }
}
