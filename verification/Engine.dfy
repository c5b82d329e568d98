/** The connection engine: its parts are objects, and every call does to them what the model says. */
module Engine {
  import opened Types
  import opened Wire
  import opened EngineModel
  import X = Extensions
  import F = FrameCodec
  import C = Channels
  import R = Reassembling
  import P = Replay
  import PT = ReplayText
  import S = Scheduler
  import H = Hellos
  import T = Timers
  import opened EngineSteps
  import opened EngineRuns
  import opened EngineSend

  ghost predicate Promised(c: Conn) { Settled(c) && Sane(c) && Phased(c) }

  // ---------------------------------------------------------------- what every call keeps

  lemma CallPromised(host: Host, c: Conn, call: Call)
    requires Promised(c) && Sizable(call)
    ensures Promised(Next(host, c, call))
  {
    hide Settled, Sane, Phased, Next, Run;
    var ss := AsSteps(host, c, call);
    RunSettled(c, ss);
    RunSane(c, ss);
    RunPhased(c, ss);
  }

  lemma StartPromised(host: Host, c: Conn)
    ensures Promised(c) ==> Promised(StartSpec(host, c).0)
  {
    hide Promised, StartSpec;
    if Promised(c) { CallPromised(host, c, Start); }
  }

  lemma OpenChannelPromised(host: Host, c: Conn, family: u32, window: u64)
    ensures Promised(c) ==> Promised(OpenChannelSpec(c, family, window).0)
  {
    hide Promised, OpenChannelSpec;
    if Promised(c) { CallPromised(host, c, OpenChannel(family, window)); }
  }

  lemma SendPromised(host: Host, c: Conn, id: ChannelId, payload: Bytes)
    requires |payload| < U64_SPAN
    ensures Promised(c) ==> Promised(SendSpec(c, id, payload).0)
  {
    hide Promised, SendSpec;
    if Promised(c) { CallPromised(host, c, Send(id, payload)); }
  }

  /** A control frame is handed out alone and whole, and the promises hold on. */
  lemma PostPromised(c: Conn, kind: F.FrameType, channel: ChannelId, payload: Bytes)
    requires Promised(c) && kind != F.Data
    ensures var (next, r) := PostSpec(c, kind, channel, payload, []);
            Promised(next) && (r.Ok? ==> r.value == [Encoding(Limits(c.policy), FrameOf(c, kind, channel, payload, []))])
  {
    hide Settled, Sane, Phased, PostSpec, EmitSpec, F.EncodeSpec;
    var step := Post(kind, channel, payload, []);
    OnPost(c, kind, channel, payload, []);
    StepSettled(c, step);
    StepSane(c, step);
    StepPhased(c, step);
    SettledFields(c, Numbered(c));
    PostIsEmit(c, kind, channel, payload, []);
    EmitOutcome(Numbered(c), FrameOf(c, kind, channel, payload, []));
  }

  lemma AcknowledgePromised(host: Host, c: Conn, ranges: seq<P.AckRange>)
    ensures Promised(c) ==> Promised(EngineModel.AcknowledgeSpec(c, ranges).0)
  {
    hide Promised, EngineModel.AcknowledgeSpec;
    if Promised(c) { CallPromised(host, c, Call.Acknowledge(ranges)); }
  }

  lemma CompletePromised(host: Host, c: Conn, token: u64, channel: ChannelId, sequence: u32, family: u32, response: Bytes)
    ensures Promised(c) ==> Promised(CompleteSpec(c, token, channel, sequence, family, response).0)
  {
    hide Promised, CompleteSpec;
    if Promised(c) { CallPromised(host, c, Complete(token, channel, sequence, family, response)); }
  }

  lemma RunJobPromised(host: Host, c: Conn, k: nat)
    ensures Promised(c) ==> Promised(RunJobSpec(host, c, k).0)
  {
    hide Promised, RunJobSpec;
    if Promised(c) { CallPromised(host, c, RunJob(k)); }
  }

  lemma HalfClosePromised(host: Host, c: Conn, id: ChannelId, direction: C.Direction)
    ensures Promised(c) ==> Promised(HalfCloseSpec(c, id, direction).0)
  {
    hide Promised, HalfCloseSpec;
    if Promised(c) { CallPromised(host, c, Call.HalfClose(id, direction)); }
  }

  lemma ResetPromised(host: Host, c: Conn, id: ChannelId)
    ensures Promised(c) ==> Promised(ResetSpec(c, id).0)
  {
    hide Promised, ResetSpec;
    if Promised(c) { CallPromised(host, c, Call.Reset(id)); }
  }

  lemma GoAwayPromised(host: Host, c: Conn)
    ensures Promised(c) ==> Promised(GoAwaySpec(c).0)
  {
    hide Promised, GoAwaySpec;
    if Promised(c) { CallPromised(host, c, Call.GoAway); }
  }

  lemma FlushPromised(c: Conn, writable: nat)
    requires Promised(c)
    ensures Promised(FlushSpec(c, writable).0) && FlushSpec(c, writable).1 == []
  {
    hide Settled, Sane, Phased, FlushSpec;
    FlushNothing(c, writable);
    StepSane(c, Write(writable));
    StepPhased(c, Write(writable));
  }

  lemma LoadPromised(host: Host, c: Conn, text: string)
    ensures Promised(c) ==> Promised(LoadSpec(c, text).0)
  {
    hide Promised, LoadSpec;
    if Promised(c) { CallPromised(host, c, Load(text)); }
  }

  lemma ReceivePromised(host: Host, c: Conn, bytes: Bytes, eof: bool)
    ensures Promised(c) ==> Promised(ReceiveSpec(host, c, bytes, eof).0)
  {
    hide Promised, ReceiveSpec;
    if Promised(c) { CallPromised(host, c, Call.Receive(bytes, eof)); }
  }

  lemma AdvanceTimePromised(host: Host, c: Conn, now: u64)
    ensures Promised(c) ==> Promised(AdvanceTimeSpec(c, now).0)
  {
    hide Promised, AdvanceTimeSpec;
    if Promised(c) { CallPromised(host, c, Call.AdvanceTime(now)); }
  }

  class ConnectionEngine {
    const policy: H.Policy
    const host: Host
    const codec: F.Codec
    const scheduler: S.OutboundScheduler
    const timers: T.TimerWheel
    var replay: P.ReplayWindow
    var channels: C.ChannelTable?
    var state: Phase
    var capabilities: Option<H.Capabilities>
    var nextFrame: u32
    var nextToken: u64
    var now: u64
    var pendingPong: Option<u64>
    var events: seq<Event>
    var jobs: seq<Job>
    ghost var families: map<nat, u32>
    ghost var handed: seq<F.Frame>

    /** What holds even in the middle of a call. */
    ghost predicate Shape()
      reads this, scheduler
    {
      S.Valid(scheduler.State()) && 1 <= replay.capacity && codec.limits == Limits(policy)
    }

    /** What every call keeps: nothing writable waits, all credit is there, and capabilities come with the table. */
    ghost predicate Valid()
      reads this, codec, scheduler, timers, replay, channels
    {
      Shape() && Promised(State())
    }

    ghost function State(): Conn
      reads this, codec, scheduler, timers, replay, channels
      requires Shape()
    {
      Conn(policy, state, capabilities, if channels == null then None else Some(channels.State()), replay.State(),
           timers.State(), scheduler.State(), codec.buffer, nextFrame, nextToken, now, pendingPong, events, jobs, families, handed)
    }

    ghost function Parts(): set<object>
      reads this
    {
      var fixed: set<object> := {this, codec, scheduler, timers, replay};
      if channels == null then fixed
      else
        var table: object := channels;
        fixed + {table}
    }

    constructor (policy: H.Policy, host: Host)
      ensures fresh(Parts()) && this.host == host && this.policy == policy && replay.capacity == policy.replayWindow
      ensures 1 <= policy.replayWindow ==> Valid() && State() == NewConn(policy)
    {
      this.policy := policy;
      this.host := host;
      codec := new F.Codec(Limits(policy));
      scheduler := new S.OutboundScheduler(policy.window);
      timers := new T.TimerWheel();
      replay := new P.ReplayWindow(policy.replayWindow);
      channels := null;
      state, capabilities := Created, None;
      nextFrame, nextToken, now, pendingPong := 1, 1, 0, None;
      events, jobs, families, handed := [], [], map[], [];
      new;
      if 1 <= policy.replayWindow {
        NewSettled(policy);
        NewPhased(policy);
      }
    }

    // ---------------------------------------------------------------- handing frames out

    method MakeFrame(kind: F.FrameType, channel: ChannelId, payload: Bytes, extensions: seq<X.Extension>) returns (f: F.Frame)
      requires Shape()
      modifies this`nextFrame
      ensures Shape() && State() == Numbered(old(State()))
      ensures f == FrameOf(old(State()), kind, channel, payload, extensions)
    {
      f := F.Frame(kind, 0, channel, nextFrame, extensions, payload);
      nextFrame := (nextFrame + 1) % U32_SPAN;
    }

    method QueueEncoded(f: F.Frame, encoded: Bytes) returns (r: Result<()>)
      requires Shape()
      modifies scheduler
      ensures Shape() && (scheduler.State(), r) == S.EnqueueSpec(old(scheduler.State()), ItemOf(f, encoded))
    {
      var item := S.Item(if f.kind == F.Data then S.Data else S.Control, f.channel, f.seqNo, encoded);
      r := scheduler.Enqueue(item);
    }

    method WriteOut(writable: nat) returns (out: seq<Bytes>)
      requires Shape()
      modifies scheduler
      ensures Shape() && (State(), out) == FlushSpec(old(State()), writable)
    {
      hide S.DrainSpec, S.Valid;
      var items := scheduler.Drain(writable);
      out := [];
      for i := 0 to |items|
        invariant |out| == i && forall j :: 0 <= j < i ==> out[j] == items[j].encoded
      {
        out := out + [items[i].encoded];
      }
      assert out == Encodings(items);
    }

    method Emit(f: F.Frame) returns (r: Reply)
      requires Shape()
      modifies this`handed, scheduler, replay
      ensures Shape() && (State(), r) == EmitSpec(old(State()), f)
    {
      hide F.EncodeSpec, P.RecordSpec, S.EnqueueSpec, S.Valid, S.DrainSpec;
      ghost var before := State();
      var encoded := codec.Encode(f);
      if encoded.Err? {
        return Err(encoded.error);
      }
      var recorded := replay.Record(1, f.seqNo, encoded.value);
      if recorded.Err? {
        P.RecordRefused(before.replay, 1, f.seqNo, encoded.value);
        return Err(recorded.error);
      }
      var queued := QueueEncoded(f, encoded.value);
      if queued.Err? {
        return Err(queued.error);
      }
      var out := WriteOut(policy.window);
      handed := handed + if encoded.value in out then [f] else [];
      return Ok(out);
    }

    method Post(kind: F.FrameType, channel: ChannelId, payload: Bytes, extensions: seq<X.Extension>) returns (r: Reply)
      requires Shape()
      modifies this`nextFrame, this`handed, scheduler, replay
      ensures Shape() && (State(), r) == PostSpec(old(State()), kind, channel, payload, extensions)
    {
      hide EmitSpec, S.Valid;
      var f := MakeFrame(kind, channel, payload, extensions);
      r := Emit(f);
    }

    method ScheduleTimer(kind: T.Kind, channel: ChannelId, delay: u64)
      requires Shape()
      modifies timers
      ensures Shape() && State() == Scheduled(old(State()), kind, channel, delay)
    {
      var id := timers.Schedule(kind, channel, (now + delay) % U64_SPAN);
    }

    method Record(e: Event)
      requires Shape()
      modifies this`events
      ensures Shape() && State() == Noted(old(State()), e)
    {
      events := events + [e];
    }

    // ---------------------------------------------------------------- calls of the application

    method Start() returns (r: Reply)
      requires Valid()
      modifies this`state, this`nextFrame, this`handed, timers, scheduler, replay
      ensures Valid() && (State(), r) == StartSpec(host, old(State()))
    {
      StartPromised(host, State());
      hide Promised, PostSpec, H.EncodeHelloSpec, S.Valid;
      if state != Created {
        return Err(StateError());
      }
      var payload := H.EncodeHello(LocalHello(host, policy));
      if payload.Err? {
        return Err(payload.error);
      }
      state := Negotiating;
      ScheduleTimer(T.Handshake, CONTROL, HANDSHAKE_TIMEOUT);
      r := Post(F.Hello, CONTROL, payload.value, []);
    }

    method OpenChannel(family: u32, window: u64) returns (r: Result<(ChannelId, seq<Bytes>)>)
      requires Valid()
      modifies this`nextFrame, this`handed, this`events, scheduler, replay, channels
      ensures Valid() && (State(), r) == OpenChannelSpec(old(State()), family, window)
    {
      OpenChannelPromised(host, State(), family, window);
      hide Promised, PostSpec, C.AllocateSpec, C.ActivateSpec, S.Valid, U32Bytes;
      if state != Active || channels == null || capabilities.None? {
        return Err(StateError());
      }
      if !Offers(capabilities.value, family) {
        return Err(Error(Plugin, PluginDecode, RejectMessage));
      }
      ghost var before := State();
      var id := channels.Allocate();
      if id.Err? {
        AllocateRefused(before.channels.value);
        return Err(id.error);
      }
      var active := channels.Activate(id.value);
      if active.Err? {
        return Err(active.error);
      }
      var out := Post(F.Open, id.value, U32Bytes(family) + U32Bytes(window % U32_SPAN), []);
      if out.Err? {
        return Err(out.error);
      }
      Record(Plain(ChannelOpened, id.value));
      return Ok((id.value, out.value));
    }

    /** The engine works on the credit of a slot it has found. */
    method SetFlow(i: nat, flow: C.Flow)
      requires Shape() && channels != null && i < |channels.slots|
      modifies channels
      ensures Shape() && channels.window == old(channels.window) && channels.maxMessage == old(channels.maxMessage)
      ensures State() == old(State()).(channels := Some(WithFlow(old(State()).channels.value, i, flow)))
    {
      channels.slots := channels.slots[i := channels.slots[i].(flow := flow)];
    }

    method Send(id: ChannelId, payload: Bytes) returns (r: Reply)
      requires Valid() && |payload| < U64_SPAN
      modifies this`nextFrame, this`handed, scheduler, replay, channels
      ensures Valid() && (State(), r) == SendSpec(old(State()), id, payload)
    {
      SendPromised(host, State(), id, payload);
      hide Promised, SendFrom, C.ReserveSpec, C.ReleaseSpec, C.ReserveSequenceSpec, S.Valid;
      if state != Active || capabilities.None? || channels == null {
        return Err(StateError());
      }
      var found := C.Find(channels.State(), id);
      if found.None? {
        return Err(ChannelError(StaleGeneration));
      }
      var i := found.value;
      if channels.slots[i].localClosed {
        return Err(ChannelError(IllegalState));
      }
      if |payload| > capabilities.value.maxMessage {
        return Err(Error(Message, ResourceLimit, RejectMessage));
      }
      var (flow, reserve) := C.ReserveSpec(channels.slots[i].flow, |payload|);
      if reserve.Err? {
        return Err(reserve.error);
      }
      SetFlow(i, flow);
      var sequence := channels.ReserveSendSequence(id);
      ReserveKeepsSize(old(State()).channels.value, i, flow, id);
      if sequence.Err? {
        Release(i, |payload|);
        return Err(sequence.error);
      }
      r := SendFragments(id, sequence.value, payload, MaxFragment(capabilities.value));
      Release(i, |payload|);
    }

    method Release(i: nat, amount: u64)
      requires Shape()
      modifies channels
      ensures Shape() && State() == Released(old(State()), i, amount)
    {
      if channels != null && i < |channels.slots| {
        SetFlow(i, C.ReleaseSpec(channels.slots[i].flow, amount).0);
      }
    }

    /** The fragment loop. */
    method SendFragments(id: ChannelId, sequence: u32, payload: Bytes, size: nat) returns (r: Reply)
      requires Shape() && size >= 1
      modifies this`nextFrame, this`handed, scheduler, replay
      ensures Shape() && (State(), r) == SendFrom(old(State()), id, sequence, payload, size, 0, [])
    {
      hide PostSpec, DataExtensions, S.Valid;
      var out: seq<Bytes> := [];
      var offset := 0;
      while offset < |payload|
        invariant Shape()
        invariant SendFrom(State(), id, sequence, payload, size, offset, out)
               == SendFrom(old(State()), id, sequence, payload, size, 0, [])
        decreases |payload| - offset
      {
        var take := Min(size, |payload| - offset);
        var fragment := payload[offset..offset + take];
        var encoded := Post(F.Data, id, fragment, DataExtensions(sequence, offset, |payload|));
        if encoded.Err? {
          return encoded;
        }
        out := out + encoded.value;
        offset := offset + size;
      }
      return Ok(out);
    }

    method GrantCredit(id: ChannelId, amount: u64) returns (r: Reply)
      requires Valid()
      modifies this`nextFrame, this`handed, scheduler, replay
      ensures Valid() && (State(), r) == GrantCreditSpec(old(State()), id, amount)
      ensures r.Ok? ==> r.value == [Encoding(Limits(policy), FrameOf(old(State()), F.Credit, id, U32Bytes(amount % U32_SPAN), []))]
    {
      PostPromised(State(), F.Credit, id, U32Bytes(amount % U32_SPAN));
      hide Promised;
      r := Post(F.Credit, id, U32Bytes(amount % U32_SPAN), []);
    }

    method Acknowledge(ranges: seq<P.AckRange>) returns (r: Reply)
      requires Valid()
      modifies this`nextFrame, this`handed, scheduler, replay
      ensures Valid() && (State(), r) == AcknowledgeSpec(old(State()), ranges)
    {
      AcknowledgePromised(host, State(), ranges);
      hide Promised, PostSpec, P.EncodeAckSpec, S.Valid;
      var payload := P.EncodeAck(1, ranges);
      if payload.Err? {
        return Err(payload.error);
      }
      r := Post(F.Ack, CONTROL, payload.value, []);
    }

    method Ping(token: u64) returns (r: Reply)
      requires Valid()
      modifies this`nextFrame, this`handed, scheduler, replay
      ensures Valid() && (State(), r) == PingSpec(old(State()), token)
      ensures r.Ok? ==> r.value == [Encoding(Limits(policy), FrameOf(old(State()), F.Ping, CONTROL, U64Bytes(token), []))]
    {
      PostPromised(State(), F.Ping, CONTROL, U64Bytes(token));
      hide Promised;
      r := Post(F.Ping, CONTROL, U64Bytes(token), []);
    }

    method Resume(request: ResumeRequest) returns (r: Reply)
      requires Valid()
      modifies this`nextFrame, this`handed, scheduler, replay
      ensures Valid() && (State(), r) == ResumeSpec(old(State()), request)
      ensures r.Ok? ==> r.value == [Encoding(Limits(policy), FrameOf(old(State()), F.Resume, CONTROL, ResumePayload(request), []))]
    {
      PostPromised(State(), F.Resume, CONTROL, ResumePayload(request));
      hide Promised;
      r := Post(F.Resume, CONTROL, ResumePayload(request), []);
    }

    method CompletePlugin(token: u64, channel: ChannelId, sequence: u32, family: u32, response: Bytes) returns (r: Result<()>)
      requires Valid()
      modifies this`events
      ensures Valid() && (State(), r) == CompleteSpec(old(State()), token, channel, sequence, family, response)
    {
      CompletePromised(host, State(), token, channel, sequence, family, response);
      r := Complete(token, channel, sequence, family, response);
    }

    method Complete(token: u64, channel: ChannelId, sequence: u32, family: u32, response: Bytes) returns (r: Result<()>)
      requires Shape()
      modifies this`events
      ensures Shape() && (State(), r) == CompleteSpec(old(State()), token, channel, sequence, family, response)
    {
      if channels == null || C.Find(channels.State(), channel).None? {
        return Ok(());
      }
      if token == 0 || family == 0 {
        return Err(Error(Plugin, PluginDecode, RejectMessage));
      }
      Record(Event(PluginResponse, channel, sequence, response, None));
      return Ok(());
    }

    /** What a job does once the executor runs it. */
    method AnswerJob(job: Job) returns (r: Result<()>)
      requires Shape()
      modifies this`events
      ensures Shape() && (State(), r) == AnswerSpec(host, old(State()), job)
    {
      var response := host.respond(job.family, job.message);
      if response.Err? {
        return Err(response.error);
      }
      r := Complete(job.token, job.message.channel, job.message.sequence, job.family, response.value);
    }

    /** The executor runs a waiting job; the deterministic one always runs the first. */
    method RunJob(k: nat) returns (r: Result<()>)
      requires Valid()
      modifies this`events, this`jobs
      ensures Valid() && (State(), r) == RunJobSpec(host, old(State()), k)
    {
      RunJobPromised(host, State(), k);
      hide Promised, AnswerSpec, S.Valid;
      if k >= |jobs| {
        return Ok(());
      }
      var job := jobs[k];
      jobs := jobs[..k] + jobs[k + 1..];
      r := AnswerJob(job);
    }

    method HalfClose(id: ChannelId, direction: C.Direction) returns (r: Reply)
      requires Valid()
      modifies this`nextFrame, this`handed, this`events, scheduler, replay, channels
      ensures Valid() && (State(), r) == HalfCloseSpec(old(State()), id, direction)
    {
      HalfClosePromised(host, State(), id, direction);
      hide Promised, EmitSpec, C.HalfCloseSpec, S.Valid;
      if channels == null {
        return Err(StateError());
      }
      ghost var before := channels.State();
      var close := channels.HalfClose(id, direction);
      if close.Err? {
        HalfCloseRefused(before, id, direction);
        return Err(close.error);
      }
      var f := MakeFrame(F.HalfClose, id, [if direction == C.LocalSend then 0 else 1], []);
      Record(Plain(HalfClosed, id));
      r := Emit(f);
    }

    method Reset(id: ChannelId) returns (r: Reply)
      requires Valid()
      modifies this`nextFrame, this`handed, this`events, scheduler, replay, channels
      ensures Valid() && (State(), r) == ResetSpec(old(State()), id)
    {
      ResetPromised(host, State(), id);
      hide Promised, EmitSpec, C.ResetChannelSpec, S.Valid;
      if channels == null {
        return Err(StateError());
      }
      ghost var before := channels.State();
      var reset := channels.Reset(id);
      if reset.Err? {
        ResetRefused(before, id);
        return Err(reset.error);
      }
      var f := MakeFrame(F.Reset, id, [], []);
      Record(Plain(ChannelReset, id));
      r := Emit(f);
    }

    method GoAway() returns (r: Reply)
      requires Valid()
      modifies this`state, this`nextFrame, this`handed, timers, scheduler, replay
      ensures Valid() && (State(), r) == GoAwaySpec(old(State()))
    {
      GoAwayPromised(host, State());
      hide Promised, PostSpec, S.Valid;
      state := Draining;
      ScheduleTimer(T.Drain, CONTROL, DRAIN_TIMEOUT);
      r := Post(F.GoAway, CONTROL, [], []);
    }

    method FlushOutbound(writable: nat) returns (out: seq<Bytes>)
      requires Valid()
      modifies scheduler
      ensures Valid() && (State(), out) == FlushSpec(old(State()), writable) && out == []
    {
      FlushPromised(State(), writable);
      out := WriteOut(writable);
    }

    method ExportReplaySnapshot() returns (text: string)
      requires Valid()
      ensures text == PT.SerializeSpec(State().replay)
      ensures PT.RestoreSpec(text) == Ok(State().replay) <==> PT.Portable(State().replay)
    {
      PT.RoundTripIff(replay.State());
      text := PT.Serialize(replay.State());
    }

    method LoadReplaySnapshot(text: string) returns (r: Result<()>)
      requires Valid()
      modifies this`replay, this`nextFrame
      ensures Valid() && (replay == old(replay) || fresh(replay))
      ensures (State(), r) == LoadSpec(old(State()), text)
    {
      LoadPromised(host, State(), text);
      hide Promised, PT.RestoreSpec, S.Valid, Adopted;
      if state != Created {
        return Err(StateError());
      }
      var restored := PT.Restore(text);
      if restored.Err? {
        return Err(restored.error);
      }
      Capacious(text);
      r := Adopt(restored.value);
    }

    /** Puts the window in place and continues its numbering. */
    method Adopt(w: P.Window) returns (r: Result<()>)
      requires Shape() && 1 <= w.capacity
      modifies this`replay, this`nextFrame
      ensures Shape() && fresh(replay)
      ensures (State(), r) == Adopted(old(State()), w)
    {
      hide S.Valid;
      replay := new P.ReplayWindow.Restored(w);
      var latest := P.Latest(replay.State());
      if latest.Some? {
        if latest.value == U32_SPAN - 1 {
          return Err(ConnectionError(ResourceLimit));
        }
        nextFrame := latest.value + 1;
      } else {
        nextFrame := 1;
      }
      return Ok(());
    }

    // ---------------------------------------------------------------- frames of the peer

    method HandleHello(f: F.Frame) returns (r: Reply)
      requires Shape()
      modifies this`state, this`capabilities, this`channels, this`events, timers
      ensures Shape() && (channels == old(channels) || fresh(channels))
      ensures (State(), r) == EngineModel.HandleHello(host, old(State()), f)
    {
      hide H.DecodeHelloSpec, H.NegotiateSpec, S.Valid, Agreed;
      if state != Negotiating {
        return Err(ConnectionError(IllegalState));
      }
      var peer := H.DecodeHello(f.payload);
      if peer.Err? {
        return Err(peer.error);
      }
      var local := LocalHello(host, policy);
      var caps := H.Negotiate(local, peer.value);
      if caps.Err? {
        return Err(caps.error);
      }
      SomeChannels(local, peer.value);
      Activate(caps.value);
      return Ok([]);
    }

    /** What agreeing on capabilities sets up. */
    method Activate(caps: H.Capabilities)
      requires Shape() && 1 <= caps.maxChannels
      modifies this`state, this`capabilities, this`channels, this`events, timers
      ensures Shape() && fresh(channels)
      ensures State() == Agreed(old(State()), caps)
    {
      hide S.Valid, C.NewTable;
      capabilities := Some(caps);
      channels := new C.ChannelTable(caps.maxChannels, caps.window / caps.maxChannels, caps.maxMessage);
      state := Active;
      ScheduleTimer(T.Idle, CONTROL, IDLE_PING);
      Record(Plain(Negotiated, CONTROL));
    }

    method HandleOpen(f: F.Frame) returns (r: Reply)
      requires Shape()
      modifies this`events, channels
      ensures Shape() && (State(), r) == EngineModel.HandleOpen(old(State()), f)
    {
      hide C.AcceptRemoteSpec, S.Valid, ReadU32;
      if state != Active || channels == null || capabilities.None? || |f.payload| != 8 {
        return Err(StateError());
      }
      if !Offers(capabilities.value, ReadU32(f.payload, 0)) {
        return Err(Error(Plugin, PluginDecode, ResetChannel));
      }
      ghost var before := channels.State();
      var accepted := channels.AcceptRemote(f.channel);
      if accepted.Err? {
        AcceptRefused(before, f.channel);
        return Err(accepted.error);
      }
      Record(Plain(ChannelOpened, f.channel));
      return Ok([]);
    }

    method HandleData(f: F.Frame) returns (r: Reply)
      requires Shape() && |f.payload| < U64_SPAN
      modifies this`events, this`jobs, this`families, this`nextToken, timers, channels
      ensures Shape() && (State(), r) == EngineModel.HandleData(host, old(State()), f)
    {
      hide EngineModel.Deliver, C.ReserveSpec, C.ReleaseSpec, R.InsertSpec, ExtensionU32, S.Valid;
      if state != Active || channels == null {
        return Err(StateError());
      }
      var found := C.Find(channels.State(), f.channel);
      if found.None? {
        return Err(ChannelError(StaleGeneration));
      }
      var i := found.value;
      if channels.slots[i].remoteClosed {
        return Err(ChannelError(IllegalState));
      }
      var sequence := ExtensionU32(f, EXT_MESSAGE_SEQ);
      var offset := ExtensionU32(f, EXT_FRAGMENT_OFFSET);
      var total := ExtensionU32(f, EXT_MESSAGE_TOTAL);
      var family := ExtensionU32(f, EXT_FAMILY_ID);
      if sequence.None? || offset.None? || total.None? || family.None? {
        return Err(Error(Message, MalformedTlv, ResetChannel));
      }
      if sequence.value < channels.slots[i].nextRecv {
        return Err(Error(Message, SequenceError, ResetChannel));
      }
      var slot := channels.slots[i];
      var (held, reserve) := C.ReserveSpec(slot.flow, |f.payload|);
      if reserve.Err? {
        DeliverError(host, State(), i, f.channel, family.value, reserve.error);
        return Err(reserve.error);
      }
      var (fragments, message) := R.InsertSpec(slot.fragments, f.channel, sequence.value, offset.value, total.value, f.payload);
      slot := slot.(fragments := fragments);
      slot := slot.(flow := C.ReleaseSpec(held, |f.payload|).0);
      channels.slots := channels.slots[i := slot];
      r := Deliver(i, f.channel, family.value, message);
    }

    /** What follows the reassembler's verdict. */
    method Deliver(i: nat, channel: ChannelId, family: u32, message: R.Outcome) returns (r: Reply)
      requires Shape() && channels != null && i < |channels.slots|
      modifies this`events, this`jobs, this`families, this`nextToken, timers, channels
      ensures Shape() && (State(), r) == EngineModel.Deliver(host, old(State()), i, channel, family, message)
    {
      hide EngineModel.Dispatch, S.Valid;
      if message.Err? {
        return Err(message.error);
      }
      if message.value.None? {
        ScheduleTimer(T.FragmentGap, channel, FRAGMENT_GAP);
        return Ok([]);
      }
      var completed := message.value.value;
      var slot := channels.slots[i];
      if completed.sequence != slot.nextRecv {
        return Err(Error(Message, SequenceError, ResetChannel));
      }
      channels.slots := channels.slots[i := slot.(nextRecv := (slot.nextRecv + 1) % U32_SPAN)];
      families := families[|events| := family];
      Record(Event(MessageDelivered, channel, completed.sequence, completed.payload, None));
      r := Dispatch(family, completed);
    }

    method Dispatch(family: u32, completed: R.LogicalMessage) returns (r: Reply)
      requires Shape()
      modifies this`events, this`jobs, this`nextToken
      ensures Shape() && (State(), r) == EngineModel.Dispatch(host, old(State()), family, completed)
    {
      hide AnswerSpec, S.Valid;
      if !host.available(family) {
        return Err(Error(Plugin, PluginDecode, RejectMessage));
      }
      var job := Job(nextToken, family, completed);
      nextToken := (nextToken + 1) % U64_SPAN;
      if host.executor.Some? {
        if |jobs| >= host.executor.value {
          return Err(Error(Internal, WouldBlock, NoAction));
        }
        jobs := jobs + [job];
        return Ok([]);
      }
      var applied := AnswerJob(job);
      if applied.Err? {
        return Err(applied.error);
      }
      return Ok([]);
    }

    method HandleCredit(f: F.Frame) returns (r: Reply)
      requires Shape()
      modifies channels
      ensures Shape() && (State(), r) == EngineModel.HandleCredit(old(State()), f)
    {
      hide C.GrantSpec, S.Valid, ReadU32;
      if channels == null || |f.payload| != 4 {
        return Err(ChannelError(IllegalState));
      }
      var found := C.Find(channels.State(), f.channel);
      if found.None? {
        return Err(ChannelError(StaleGeneration));
      }
      var (flow, grant) := C.GrantSpec(channels.slots[found.value].flow, ReadU32(f.payload, 0));
      SetFlow(found.value, flow);
      if grant.Err? {
        return Err(grant.error);
      }
      return Ok([]);
    }

    method HandleAck(f: F.Frame) returns (r: Reply)
      requires Shape()
      modifies replay
      ensures Shape() && (State(), r) == EngineModel.HandleAck(old(State()), f)
    {
      hide P.DecodeAckSpec, P.AcknowledgeSpec, S.Valid;
      if !f.channel.IsControl() {
        return Err(ConnectionError(SequenceError));
      }
      var decoded := P.DecodeAck(f.payload);
      if decoded.Err? {
        return Err(decoded.error);
      }
      var retired := replay.Acknowledge(decoded.value.0, decoded.value.1);
      if retired.Err? {
        return Err(retired.error);
      }
      return Ok([]);
    }

    method HandlePing(f: F.Frame) returns (r: Reply)
      requires Shape()
      modifies this`nextFrame, this`handed, scheduler, replay
      ensures Shape() && (State(), r) == EngineModel.HandlePing(old(State()), f)
    {
      hide PostSpec, S.Valid;
      if !f.channel.IsControl() {
        return Err(ConnectionError(SequenceError));
      }
      var token := ReadToken(f.payload);
      if token.Err? {
        return Err(token.error);
      }
      r := Post(F.Pong, CONTROL, U64Bytes(token.value), []);
    }

    method HandlePong(f: F.Frame) returns (r: Reply)
      requires Shape()
      modifies this`pendingPong, this`events
      ensures Shape() && (State(), r) == EngineModel.HandlePong(old(State()), f)
    {
      if !f.channel.IsControl() {
        return Err(ConnectionError(SequenceError));
      }
      var token := ReadToken(f.payload);
      if token.Err? {
        return Err(token.error);
      }
      if pendingPong == Some(token.value) {
        pendingPong := None;
      }
      Record(Event(PongReceived, CONTROL, token.value % U32_SPAN, [], None));
      return Ok([]);
    }

    method HandleResume(f: F.Frame) returns (r: Reply)
      requires Shape()
      modifies this`state, this`events
      ensures Shape() && (State(), r) == EngineModel.HandleResume(old(State()), f)
    {
      hide P.RetainedFromSpec, S.Valid;
      if !f.channel.IsControl() {
        return Err(ConnectionError(ResumeRejected));
      }
      var request := ReadResume(f.payload);
      if request.Err? {
        return Err(request.error);
      }
      if capabilities.None? || capabilities.value.hash != request.value.hash {
        return Err(ConnectionError(ResumeRejected));
      }
      var retained := replay.RetainedFrom(request.value.epoch, request.value.first);
      if retained.Err? {
        return Err(retained.error);
      }
      state := Active;
      Record(Plain(Resumed, CONTROL));
      return Ok(Copies(retained.value));
    }

    method HandleHalfClose(f: F.Frame) returns (r: Reply)
      requires Shape()
      modifies this`events, channels
      ensures Shape() && (State(), r) == EngineModel.HandleHalfClose(old(State()), f)
    {
      hide C.HalfCloseSpec, S.Valid;
      if channels == null || |f.payload| != 1 {
        return Err(ChannelError(IllegalState));
      }
      ghost var before := channels.State();
      var direction := if f.payload[0] == 0 then C.RemoteSend else C.LocalSend;
      var close := channels.HalfClose(f.channel, direction);
      if close.Err? {
        HalfCloseRefused(before, f.channel, direction);
        return Err(close.error);
      }
      Record(Plain(HalfClosed, f.channel));
      return Ok([]);
    }

    method HandleReset(id: ChannelId)
      requires Shape()
      modifies this`events, channels
      ensures Shape() && State() == EngineModel.HandleReset(old(State()), id)
    {
      hide C.ResetChannelSpec, S.Valid;
      if channels != null {
        var ignored := channels.Reset(id);
      }
      Record(Plain(ChannelReset, id));
    }

    method HandleGoAway(f: F.Frame) returns (r: Reply)
      requires Shape()
      modifies this`state, this`events, timers
      ensures Shape() && (State(), r) == EngineModel.HandleGoAway(old(State()), f)
    {
      state := Draining;
      ScheduleTimer(T.Drain, CONTROL, DRAIN_TIMEOUT);
      Record(Plain(ClosedDown, f.channel));
      return Ok([]);
    }

    method HandleFrame(f: F.Frame) returns (r: Reply)
      requires Shape() && |f.payload| < U64_SPAN
      modifies this`state, this`capabilities, this`channels, this`events, this`jobs, this`families, this`nextToken, this`nextFrame, this`handed,
               this`pendingPong, timers, scheduler, replay, channels
      ensures Shape() && (channels == old(channels) || fresh(channels))
      ensures (State(), r) == EngineModel.HandleFrame(host, old(State()), f)
    {
      hide EngineModel.HandleHello, EngineModel.HandleOpen, EngineModel.HandleData, EngineModel.HandleAck,
           EngineModel.HandleCredit, EngineModel.HandlePing, EngineModel.HandlePong, EngineModel.HandleResume,
           EngineModel.HandleHalfClose, EngineModel.HandleReset, EngineModel.HandleGoAway, S.Valid;
      match f.kind {
        case Hello => r := HandleHello(f);
        case Open => r := HandleOpen(f);
        case Data => r := HandleData(f);
        case Ack => r := HandleAck(f);
        case Credit => r := HandleCredit(f);
        case Ping => r := HandlePing(f);
        case Pong => r := HandlePong(f);
        case Resume => r := HandleResume(f);
        case HalfClose => r := HandleHalfClose(f);
        case Reset =>
          HandleReset(f.channel);
          r := Ok([]);
        case GoAway => r := HandleGoAway(f);
      }
    }

    method NoteDiagnostic(e: Error)
      requires Shape()
      modifies this`events
      ensures Shape() && State() == Diagnosed(old(State()), e)
    {
      Record(Event(Diagnostic, CONTROL, 0, [], Some(e)));
    }

    method Receive(bytes: Bytes, eof: bool) returns (r: Reply)
      requires Valid()
      modifies this`state, this`capabilities, this`channels, this`events, this`jobs, this`families, this`nextToken, this`nextFrame, this`handed,
               this`pendingPong, codec, timers, scheduler, replay, channels
      ensures Valid() && (channels == old(channels) || fresh(channels))
      ensures (State(), r) == ReceiveSpec(host, old(State()), bytes, eof)
    {
      ReceivePromised(host, State(), bytes, eof);
      hide Promised, F.Drain, HandleEvents, S.Valid;
      DecodedSmall(Limits(policy), codec.buffer + bytes, eof, []);
      var decoded := codec.Feed(bytes, eof);
      r := HandleAll(decoded);
    }

    /** The loop over the decoded events. */
    method HandleAll(decoded: seq<F.DecodeEvent>) returns (r: Reply)
      requires Shape() && forall e <- decoded :: e.Decoded? ==> |e.frame.payload| < U64_SPAN
      modifies this`state, this`capabilities, this`channels, this`events, this`jobs, this`families, this`nextToken, this`nextFrame, this`handed,
               this`pendingPong, timers, scheduler, replay, channels
      ensures Shape() && (channels == old(channels) || fresh(channels))
      ensures (State(), r) == HandleEvents(host, old(State()), decoded, [])
    {
      hide EngineModel.HandleFrame, HandleEvents, S.Valid;
      ghost var rest := decoded;
      var outbound: seq<Bytes> := [];
      for i := 0 to |decoded|
        invariant Shape() && (channels == old(channels) || fresh(channels))
        invariant rest == decoded[i..] && forall e <- rest :: e.Decoded? ==> |e.frame.payload| < U64_SPAN
        invariant HandleEvents(host, State(), rest, outbound) == HandleEvents(host, old(State()), decoded, [])
      {
        assert rest[0] in rest && decoded[i] == rest[0];
        OneEvent(host, State(), rest, outbound);
        match decoded[i] {
          case NeedMore =>
          case Failed(e) =>
            NoteDiagnostic(e);
            state := Closed;
            return Err(e);
          case Decoded(f) =>
            var produced := HandleFrame(f);
            if produced.Err? {
              NoteDiagnostic(produced.error);
              if produced.error.action == CloseConnection {
                state := Closed;
              }
              return produced;
            }
            outbound := outbound + produced.value;
        }
        rest := rest[1..];
      }
      NoEvents(host, State(), outbound);
      return Ok(outbound);
    }

    // ---------------------------------------------------------------- time

    method FireIdle() returns (r: Reply)
      requires Shape()
      modifies this`nextFrame, this`handed, this`pendingPong, timers, scheduler, replay
      ensures Shape() && (State(), r) == EngineModel.FireIdle(old(State()))
    {
      hide PostSpec, S.Valid;
      var token: u64 := if now == 0 then 1 else now;
      pendingPong := Some(token);
      r := Post(F.Ping, CONTROL, U64Bytes(token), []);
      if r.Ok? {
        ScheduleTimer(T.PongDeadline, CONTROL, PONG_TIMEOUT);
        ScheduleTimer(T.Idle, CONTROL, IDLE_PING);
      }
    }

    method Fire(timer: T.Timer) returns (r: Reply)
      requires Shape()
      modifies this`state, this`events, this`nextFrame, this`handed, this`pendingPong, timers, scheduler, replay, channels
      ensures Shape() && (State(), r) == EngineModel.Fire(old(State()), timer)
    {
      hide EngineModel.FireIdle, P.RetrySpec, EngineModel.HandleReset, S.Valid;
      Record(Plain(TimerExpired, timer.channel));
      if state == Closed {
        return Ok([]);
      }
      match timer.kind {
        case Handshake =>
          if state == Negotiating {
            NoteDiagnostic(ConnectionError(Timeout));
            state := Closed;
            return Err(ConnectionError(Timeout));
          }
        case Retry =>
          var due := replay.DueForRetry(RETRY_LIMIT);
          if due.Err? {
            return Err(due.error);
          }
          return Ok(Copies(due.value));
        case Idle =>
          r := FireIdle();
          return;
        case PongDeadline =>
          if pendingPong.Some? {
            NoteDiagnostic(ConnectionError(Timeout));
            state := Closed;
            Record(Plain(ClosedDown, CONTROL));
            return Err(ConnectionError(Timeout));
          }
        case Drain =>
          if state == Draining {
            state := Closed;
            Record(Plain(ClosedDown, CONTROL));
          }
        case FragmentGap =>
          if channels != null {
            HandleReset(timer.channel);
          }
      }
      return Ok([]);
    }

    method AdvanceTime(now: u64) returns (r: Reply)
      requires Valid()
      modifies this`now, this`state, this`events, this`nextFrame, this`handed, this`pendingPong, timers, scheduler, replay, channels
      ensures Valid() && (State(), r) == AdvanceTimeSpec(old(State()), now)
    {
      AdvanceTimePromised(host, State(), now);
      hide Promised, FireAll, T.ExpireSpec, S.Valid;
      this.now := now;
      var expired := timers.Expire(now);
      r := FireExpired(expired);
    }

    method FireExpired(expired: seq<T.Timer>) returns (r: Reply)
      requires Shape()
      modifies this`state, this`events, this`nextFrame, this`handed, this`pendingPong, timers, scheduler, replay, channels
      ensures Shape() && (State(), r) == FireAll(old(State()), expired, [])
    {
      hide EngineModel.Fire, S.Valid;
      ghost var rest := expired;
      var out: seq<Bytes> := [];
      for i := 0 to |expired|
        invariant Shape() && rest == expired[i..]
        invariant FireAll(State(), rest, out) == FireAll(old(State()), expired, [])
      {
        var fired := Fire(expired[i]);
        if fired.Err? {
          return fired;
        }
        out := out + fired.value;
        rest := rest[1..];
      }
      return Ok(out);
    }
  }

  lemma AllocateRefused(t: C.Table)
    requires C.AllocateSpec(t).1.Err?
    ensures C.AllocateSpec(t).0 == t
  {
  }

  lemma OneEvent(host: Host, c: Conn, events: seq<F.DecodeEvent>, out: seq<Bytes>)
    requires events != [] && forall e <- events :: e.Decoded? ==> |e.frame.payload| < U64_SPAN
    ensures events[0].NeedMore? ==> HandleEvents(host, c, events, out) == HandleEvents(host, c, events[1..], out)
    ensures events[0].Failed? ==>
              HandleEvents(host, c, events, out) == (Diagnosed(c, events[0].error).(state := Closed), Err(events[0].error))
    ensures events[0].Decoded? ==>
              var f := events[0].frame;
              && |f.payload| < U64_SPAN
              && var (next, r) := EngineModel.HandleFrame(host, c, f);
                 HandleEvents(host, c, events, out)
                 == if r.Ok? then HandleEvents(host, next, events[1..], out + r.value)
                    else (Diagnosed(next, r.error).(state := if r.error.action == CloseConnection then Closed else next.state), r)
  {
    hide EngineModel.HandleFrame;
    assert events[0] in events;
    match events[0] {
      case NeedMore =>
      case Failed(_) =>
      case Decoded(f) =>
        var (next, r) := EngineModel.HandleFrame(host, c, f);
        if r.Ok? {
          assert HandleEvents(host, c, events, out) == HandleEvents(host, next, events[1..], out + r.value);
        }
    }
  }

  lemma NoEvents(host: Host, c: Conn, out: seq<Bytes>)
    ensures HandleEvents(host, c, [], out) == (c, Ok(out))
  {
  }

  lemma DeliverError(host: Host, c: Conn, i: nat, channel: ChannelId, family: u32, e: Error)
    requires c.channels.Some? && i < |c.channels.value.slots|
    ensures EngineModel.Deliver(host, c, i, channel, family, Err(e)) == (c, Err(e))
  {
  }

  lemma AcceptRefused(t: C.Table, id: ChannelId)
    requires C.AcceptRemoteSpec(t, id).1.Err?
    ensures C.AcceptRemoteSpec(t, id).0 == t
  {
  }

  lemma HalfCloseRefused(t: C.Table, id: ChannelId, direction: C.Direction)
    requires C.HalfCloseSpec(t, id, direction).1.Err?
    ensures C.HalfCloseSpec(t, id, direction).0 == t
  {
  }

  lemma ResetRefused(t: C.Table, id: ChannelId)
    requires C.ResetChannelSpec(t, id).1.Err?
    ensures C.ResetChannelSpec(t, id).0 == t
  {
  }

  lemma ReserveKeepsSize(t: C.Table, i: nat, flow: C.Flow, id: ChannelId)
    requires i < |t.slots|
    ensures |C.ReserveSequenceSpec(WithFlow(t, i, flow), id).0.slots| == |t.slots|
  {
  }
}
