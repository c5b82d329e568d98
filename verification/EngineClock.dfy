/** What time does to a connection: the handshake and drain deadlines, and a gap timer that outlives its message. */
module EngineClock {
  import opened Types
  import opened Sorting
  import opened Wire
  import opened EngineModel
  import opened EngineSteps
  import opened EngineRuns
  import opened EngineSend
  import opened EngineReceive
  import opened EnginePair
  import C = Channels
  import F = FrameCodec
  import H = Hellos
  import P = Replay
  import PT = ReplayText
  import R = Reassembling
  import T = Timers

  // ---------------------------------------------------------------- before the HELLOs have crossed

  predicate Early(c: Conn) { c.state == Created || c.state == Negotiating }

  /** Only the handshake timer is set, for this time. */
  predicate Armed(c: Conn, due: u64) {
    |c.timers.timers| == 1 && c.timers.timers[0].kind == T.Handshake && c.timers.timers[0].due == due
  }

  /** A new connection has no timer, and one whose handshake is under way has exactly that one. */
  predicate Clocked(c: Conn, due: u64) {
    && (c.state == Created ==> c.timers.timers == [])
    && (c.state == Negotiating ==> Armed(c, due))
  }

  /** Still in the same phase with the same timers, or past the handshake. */
  predicate Waits(c: Conn, next: Conn) {
    if next.state == c.state then next.timers == c.timers else !Early(next)
  }

  lemma EarlyFrame(host: Host, c: Conn, f: F.Frame)
    requires Early(c) && Phased(c) && |f.payload| < U64_SPAN
    ensures Waits(c, HandleFrame(host, c, f).0) && HandleFrame(host, c, f).0.now == c.now
  {
    hide PostSpec, P.DecodeAckSpec, P.AcknowledgeSpec, P.RetainedFromSpec, H.DecodeHelloSpec, H.NegotiateSpec, C.NewTable, ReadResume,
         Scheduled, Offers;
    if f.kind == F.Ping && ReadToken(f.payload).Ok? {
      PostFrame(c, F.Pong, CONTROL, U64Bytes(ReadToken(f.payload).value), []);
    }
    ScheduledOnly(c.(state := Draining), T.Drain, CONTROL, DRAIN_TIMEOUT);
    if f.kind == F.Hello { EarlyHello(host, c, f); }
  }

  lemma EarlyHello(host: Host, c: Conn, f: F.Frame)
    ensures var next := HandleHello(host, c, f).0;
            (next == c || next.state == Active) && next.now == c.now
  {
    hide H.DecodeHelloSpec, H.NegotiateSpec, C.NewTable, T.ScheduleSpec;
  }

  lemma LateStep(c: Conn, s: Step)
    requires !Early(c)
    ensures !Early(Apply(c, s))
  {
    hide PostSpec, FlushSpec, Absorb, C.TableApply, C.NewTable, P.AcknowledgeSpec, P.RetrySpec, Adopted, Delivered, Fated;
    match s {
      case Post(kind, channel, payload, extensions) => PostFrame(c, kind, channel, payload, extensions);
      case Write(writable) => WriteFrame(c, writable);
      case Delivery(channel, family, payload, fate) =>
        if Live(c, channel).Some? { DeliveryFields(c, channel, family, payload, fate); }
      case _ =>
    }
  }

  lemma {:induction false} LateRun(c: Conn, ss: seq<Step>)
    requires !Early(c)
    ensures !Early(Run(c, ss))
    decreases |ss|
  {
    hide Early, Apply;
    if ss != [] {
      LateStep(c, ss[0]);
      LateRun(Apply(c, ss[0]), ss[1..]);
    }
  }

  lemma LateFrame(host: Host, c: Conn, f: F.Frame)
    requires !Early(c) && |f.payload| < U64_SPAN
    ensures !Early(HandleFrame(host, c, f).0)
    requires Sane(c)
  {
    hide Early, HandleFrame, Run, Posts, Honest;
    var ss := FrameSteps(host, c, f);
    LateRun(c, ss);
  }

  lemma FrameKept(host: Host, c: Conn, f: F.Frame)
    requires Sane(c) && Phased(c) && |f.payload| < U64_SPAN
    ensures Sane(HandleFrame(host, c, f).0) && Phased(HandleFrame(host, c, f).0)
  {
    hide Sane, Phased, HandleFrame, Run, Posts, Honest;
    var ss := FrameSteps(host, c, f);
    RunSane(c, ss);
    RunPhased(c, ss);
  }

  lemma {:induction false} EarlyEvents(host: Host, c: Conn, start: Conn, events: seq<F.DecodeEvent>, out: seq<Bytes>)
    requires forall e <- events :: e.Decoded? ==> |e.frame.payload| < U64_SPAN
    requires Early(start) && Waits(start, c) && Sane(c) && Phased(c)
    ensures Waits(start, HandleEvents(host, c, events, out).0)
    decreases |events|
  {
    hide HandleFrame, Sane, Phased;
    if events != [] {
      assert events[0] in events;
      match events[0] {
        case NeedMore => EarlyEvents(host, c, start, events[1..], out);
        case Failed(_) =>
        case Decoded(f) =>
          FrameKept(host, c, f);
          if Early(c) { EarlyFrame(host, c, f); } else { LateFrame(host, c, f); }
          var (next, r) := HandleFrame(host, c, f);
          if r.Ok? { EarlyEvents(host, next, start, events[1..], out + r.value); }
      }
    }
  }

  lemma EarlyReceive(host: Host, c: Conn, bytes: Bytes, eof: bool)
    requires Early(c) && Sane(c) && Phased(c)
    ensures Waits(c, ReceiveSpec(host, c, bytes, eof).0)
  {
    hide HandleEvents, F.Drain;
    var (events, rest) := F.Drain(Limits(c.policy), c.buffer + bytes, eof, []);
    DecodedSmall(Limits(c.policy), c.buffer + bytes, eof, []);
    var held := c.(buffer := rest);
    EarlyEvents(host, held, held, events, []);
  }

  /** No call but `start` and the passing of time touches the timers of a connection that stays in this phase. */
  lemma EarlyCall(host: Host, c: Conn, call: Call)
    requires Early(c) && Sane(c) && Phased(c) && Sizable(call) && !call.Start? && !call.AdvanceTime?
    ensures Waits(c, Next(host, c, call))
  {
    hide PostSpec, ReceiveSpec, FlushSpec, LoadSpec, P.EncodeAckSpec, Scheduled, C.Find, U32Bytes, U64Bytes, ResumePayload, Sane;
    match call {
      case Receive(bytes, eof) => EarlyReceive(host, c, bytes, eof);
      case GrantCredit(id, amount) => PostFrame(c, F.Credit, id, U32Bytes(amount % U32_SPAN), []);
      case Acknowledge(ranges) =>
        if P.EncodeAckSpec(1, ranges).Ok? { PostFrame(c, F.Ack, CONTROL, P.EncodeAckSpec(1, ranges).value, []); }
      case Ping(token) => PostFrame(c, F.Ping, CONTROL, U64Bytes(token), []);
      case Resume(request) => PostFrame(c, F.Resume, CONTROL, ResumePayload(request), []);
      case Flush(writable) => WriteFrame(c, writable);
      case Load(text) => EarlyLoad(c, text);
      case GoAway =>
        var c1 := Scheduled(c.(state := Draining), T.Drain, CONTROL, DRAIN_TIMEOUT);
        ScheduledOnly(c.(state := Draining), T.Drain, CONTROL, DRAIN_TIMEOUT);
        PostFrame(c1, F.GoAway, CONTROL, [], []);
      case _ =>
    }
  }

  lemma EarlyLoad(c: Conn, text: string)
    ensures LoadSpec(c, text).0.state == c.state && LoadSpec(c, text).0.timers == c.timers
  {
    hide PT.RestoreSpec;
  }

  /** Time closes a connection whose handshake is under way exactly from the deadline on. */
  lemma EarlyTime(c: Conn, due: u64, now: u64)
    requires Early(c) && Clocked(c, due)
    ensures var next := AdvanceTimeSpec(c, now).0;
            && (c.state == Created ==> next == c.(now := now))
            && (c.state == Negotiating ==> if due <= now then next.state == Closed else next == c.(now := now))
  {
    var ts := c.timers.timers;
    if c.state == Created {
      assert ts[0..] == ts && ts[..0] == [];
    } else if due <= now {
      assert T.Front(ts[1..], now) == 0;
      assert ts[..1] == [ts[0]];
    } else {
      assert ts[0..] == ts && ts[..0] == [];
    }
  }

  lemma CallClocked(host: Host, c: Conn, call: Call, due: u64)
    requires Clocked(c, due) && c.state != Created && Sane(c) && Phased(c) && Sizable(call)
    ensures Clocked(Next(host, c, call), due) && Next(host, c, call).state != Created
  {
    hide Sane, Phased, Run, AdvanceTimeSpec, Honest;
    if !Early(c) {
      hide Next;
      var ss := AsSteps(host, c, call);
      LateRun(c, ss);
    } else if call.AdvanceTime? {
      EarlyTime(c, due, call.now);
    } else if call.Start? {
    } else {
      hide Next;
      EarlyCall(host, c, call);
    }
  }

  lemma {:induction false} StaysClocked(host: Host, c: Conn, calls: seq<Call>, due: u64)
    requires Clocked(c, due) && c.state != Created && Sane(c) && Phased(c) && AllSizable(calls)
    ensures Clocked(After(host, c, calls), due) && After(host, c, calls).state != Created
    decreases |calls|
  {
    hide Clocked, Sane, Phased, Next, Run, Honest;
    if calls != [] {
      var ss := AsSteps(host, c, calls[0]);
      RunSane(c, ss);
      RunPhased(c, ss);
      CallClocked(host, c, calls[0], due);
      StaysClocked(host, Next(host, c, calls[0]), calls[1..], due);
    }
  }

  lemma CallQuiet(host: Host, c: Conn, call: Call)
    requires (c.state == Created ==> c.timers.timers == []) && Sane(c) && Phased(c) && Sizable(call)
    ensures Next(host, c, call).state == Created ==> Next(host, c, call).timers.timers == []
  {
    hide Sane, Phased, Run, AdvanceTimeSpec, StartSpec, Honest;
    var ss := AsSteps(host, c, call);
    if c.state != Created {
      hide Next;
      NeverCreated(c, ss);
    } else if call.AdvanceTime? {
      EarlyTime(c, 0, call.now);
    } else if call.Start? {
      StartArms(host, c);
    } else {
      hide Next;
      EarlyCall(host, c, call);
    }
  }

  lemma {:induction false} NeverCreated(c: Conn, ss: seq<Step>)
    requires c.state != Created
    ensures Run(c, ss).state != Created
    decreases |ss|
  {
    RunStarted(c, ss);
  }

  /** `start` sets the one timer, five seconds ahead, or leaves the connection as it was. */
  lemma StartArms(host: Host, c: Conn)
    requires c.state == Created && c.timers.timers == []
    ensures var next := StartSpec(host, c).0;
            next == c || (next.state == Negotiating && Armed(next, (c.now + 5000) % U64_SPAN))
  {
    hide PostSpec, H.EncodeHelloSpec;
    if H.EncodeHelloSpec(LocalHello(host, c.policy)).Ok? {
      var c1 := Scheduled(c.(state := Negotiating), T.Handshake, CONTROL, HANDSHAKE_TIMEOUT);
      PostFrame(c1, F.Hello, CONTROL, H.EncodeHelloSpec(LocalHello(host, c.policy)).value, []);
      assert ([] + [T.Timer(c.timers.nextId, T.Handshake, CONTROL, (c.now + HANDSHAKE_TIMEOUT) % U64_SPAN)])[1..] == [];
    }
  }

  lemma {:induction false} StaysQuiet(host: Host, c: Conn, calls: seq<Call>)
    requires (c.state == Created ==> c.timers.timers == []) && Sane(c) && Phased(c) && AllSizable(calls)
    ensures After(host, c, calls).state == Created ==> After(host, c, calls).timers.timers == []
    ensures Sane(After(host, c, calls)) && Phased(After(host, c, calls))
    decreases |calls|
  {
    hide Sane, Phased, Next, Run, Honest;
    if calls != [] {
      var ss := AsSteps(host, c, calls[0]);
      RunSane(c, ss);
      RunPhased(c, ss);
      CallQuiet(host, c, calls[0]);
      StaysQuiet(host, Next(host, c, calls[0]), calls[1..]);
    }
  }

  /**
   The handshake deadline, over all runs: whatever is called and received before the start and after it, a
   connection still without the peer's HELLO is closed by the passing of time exactly from five seconds after
   its start on.
   */
  lemma HandshakeDeadline(host: Host, policy: H.Policy, before: seq<Call>, after: seq<Call>, now: u64)
    requires 1 <= policy.replayWindow && AllSizable(before) && AllSizable(after)
    requires After(host, NewConn(policy), before).state == Created
    requires Next(host, After(host, NewConn(policy), before), Start).state == Negotiating
    requires After(host, Next(host, After(host, NewConn(policy), before), Start), after).state == Negotiating
    ensures var c := After(host, NewConn(policy), before);
            var waiting := After(host, Next(host, c, Start), after);
            Next(host, waiting, AdvanceTime(now)).state
            == if (c.now + 5000) % U64_SPAN <= now then Closed else Negotiating
  {
    hide After, NewConn, StartSpec, AdvanceTimeSpec, Sane, Phased, Armed;
    NewSettled(policy);
    NewPhased(policy);
    NewTimers(policy);
    StaysQuiet(host, NewConn(policy), before);
    var c := After(host, NewConn(policy), before);
    var due := (c.now + 5000) % U64_SPAN;
    StartArms(host, c);
    var started := Next(host, c, Start);
    StartKeeps(host, c);
    StaysClocked(host, started, after, due);
    EarlyTime(After(host, started, after), due, now);
  }

  lemma NewTimers(policy: H.Policy)
    requires 1 <= policy.replayWindow
    ensures NewConn(policy).timers.timers == []
  {
  }

  lemma StartKeeps(host: Host, c: Conn)
    requires Sane(c) && Phased(c)
    ensures Sane(Next(host, c, Start)) && Phased(Next(host, c, Start))
  {
    hide Sane, Phased, Next, Run, Honest;
    var ss := AsSteps(host, c, Start);
    RunSane(c, ss);
    RunPhased(c, ss);
  }

  // ---------------------------------------------------------------- draining

  lemma FireDraining(c: Conn, t: T.Timer)
    requires c.state == Draining || c.state == Closed
    ensures var (next, r) := Fire(c, t);
            && (c.state == Closed ==> r.Ok? && next.state == Closed)
            && (c.state == Draining && r.Ok? ==> next.state == if t.kind == T.Drain then Closed else Draining)
  {
    hide PostSpec, P.RetrySpec, HandleReset, Scheduled, U64Bytes;
    var token := if c.now == 0 then 1 else c.now;
    var c1 := Noted(c, Plain(TimerExpired, t.channel));
    PostFrame(c1.(pendingPong := Some(token)), F.Ping, CONTROL, U64Bytes(token), []);
    var c2 := PingSpec(c1.(pendingPong := Some(token)), token).0;
    ScheduledOnly(c2, T.PongDeadline, CONTROL, PONG_TIMEOUT);
    ScheduledOnly(Scheduled(c2, T.PongDeadline, CONTROL, PONG_TIMEOUT), T.Idle, CONTROL, IDLE_PING);
    ResetState(c1, t.channel);
  }

  lemma ResetState(c: Conn, id: ChannelId)
    ensures HandleReset(c, id).state == c.state
  {
  }

  lemma {:induction false} FireAllDraining(c: Conn, ts: seq<T.Timer>, out: seq<Bytes>)
    requires c.state == Draining || c.state == Closed
    requires FireAll(c, ts, out).1.Ok?
    ensures FireAll(c, ts, out).0.state
         == if c.state == Closed || exists t :: t in ts && t.kind == T.Drain then Closed else Draining
    decreases |ts|
  {
    hide Fire;
    if ts != [] {
      FireDraining(c, ts[0]);
      var (next, r) := Fire(c, ts[0]);
      FireAllDraining(next, ts[1..], out + r.value);
      assert ts == [ts[0]] + ts[1..];
    }
  }

  /** Going away, at either end, sets the drain timer one second ahead. */
  lemma GoAwaySets(c: Conn, f: F.Frame)
    ensures var due := (c.now + 1000) % U64_SPAN;
            && GoAwaySpec(c).0.state == Draining && DrainsAt(GoAwaySpec(c).0, due)
            && HandleGoAway(c, f).0.state == Draining && DrainsAt(HandleGoAway(c, f).0, due)
  {
    hide PostSpec;
    var drained := c.(state := Draining);
    var c1 := Scheduled(drained, T.Drain, CONTROL, DRAIN_TIMEOUT);
    ScheduledHas(drained, T.Drain, CONTROL, DRAIN_TIMEOUT);
    PostFrame(c1, F.GoAway, CONTROL, [], []);
  }

  ghost predicate DrainsAt(c: Conn, due: u64) {
    exists t :: t in c.timers.timers && t.kind == T.Drain && t.due == due
  }

  lemma GoAwayTaken(host: Host, d: Conn, f: F.Frame)
    requires f.kind == F.GoAway && |f.payload| < U64_SPAN
    ensures var (next, reply) := HandleFrame(host, d, f);
            && reply == Ok([]) && next.state == Draining && DrainsAt(next, (d.now + 1000) % U64_SPAN)
            && |next.events| == |d.events| + 1 && next.events[|d.events|] == Plain(ClosedDown, f.channel)
            && next.channels == d.channels
  {
    hide DrainsAt;
    assert HandleFrame(host, d, f) == HandleGoAway(d, f);
    GoAwaySets(d, f);
  }

  /** One end goes away and its bytes arrive: both are draining then, each for one second of its own clock. */
  lemma GoAwayCrosses(host: Host, c: Conn, d: Conn)
    requires Settled(c) && GoAwaySpec(c).1.Ok? && d.buffer == [] && 29 <= d.policy.maxFrame
    ensures var (ours, r) := GoAwaySpec(c);
            var (theirs, reply) := ReceiveSpec(host, d, Flat(r.value), false);
            && reply == Ok([]) && ours.state == Draining && theirs.state == Draining
            && DrainsAt(ours, (c.now + 1000) % U64_SPAN) && DrainsAt(theirs, (d.now + 1000) % U64_SPAN)
            && |theirs.events| == |d.events| + 1 && theirs.events[|d.events|] == Plain(ClosedDown, CONTROL)
            && theirs.channels == d.channels
  {
    hide DrainsAt, HandleFrame, HandleGoAway, PostSpec, ReceiveSpec, Settled, Flat;
    var c1 := Scheduled(c.(state := Draining), T.Drain, CONTROL, DRAIN_TIMEOUT);
    SettledFields(c, c1);
    var f := FrameOf(c1, F.GoAway, CONTROL, [], []);
    ShortFits(Limits(c.policy), f);
    Crosses(c1, host, d, F.GoAway, CONTROL, []);
    GoAwaySets(c, f);
    GoAwayTaken(host, d, f);
  }

  /** A draining connection is closed by the passing of time exactly when a drain timer expires, where none fails. */
  lemma DrainIff(c: Conn, now: u64)
    requires c.state == Draining && AdvanceTimeSpec(c, now).1.Ok?
    ensures AdvanceTimeSpec(c, now).0.state
         == if exists t :: t in T.ExpireSpec(c.timers, now).1 && t.kind == T.Drain then Closed else Draining
  {
    hide FireAll, T.ExpireSpec;
    var (timers, expired) := T.ExpireSpec(c.timers, now);
    FireAllDraining(c.(now := now, timers := timers), expired, []);
  }

  /**
   Where one does fail, the timers behind it are forgotten: here an idle timer whose PING is refused, due before
   the drain timer. Time has passed, the connection is still draining, and no drain timer is left to close it.
   */
  lemma DrainForgotten(c: Conn, now: u64)
    requires c.state == Draining && c.timers.timers != [] && c.timers.timers[0].kind == T.Idle
    requires forall t <- c.timers.timers :: t.due <= now
    requires var c1 := Noted(c.(now := now, timers := c.timers.(timers := [])), Plain(TimerExpired, c.timers.timers[0].channel));
             var token := if now == 0 then 1 else now;
             PingSpec(c1.(pendingPong := Some(token)), token).1.Err?
    ensures var (next, r) := AdvanceTimeSpec(c, now);
            r.Err? && next.state == Draining && next.timers.timers == []
  {
    hide PostSpec, U64Bytes;
    var ts := c.timers.timers;
    AllDue(ts, now);
    assert ts[|ts|..] == [] && ts[..|ts|] == ts;
    var c0 := c.(now := now, timers := c.timers.(timers := []));
    var c1 := Noted(c0, Plain(TimerExpired, ts[0].channel));
    var token := if now == 0 then 1 else now;
    PostFrame(c1.(pendingPong := Some(token)), F.Ping, CONTROL, U64Bytes(token), []);
  }

  lemma {:induction false} AllDue(ts: seq<T.Timer>, now: u64)
    requires forall t <- ts :: t.due <= now
    ensures T.Front(ts, now) == |ts|
  {
    if ts != [] {
      assert ts[0] in ts && forall t <- ts[1..] :: t in ts;
      AllDue(ts[1..], now);
    }
  }

  // ---------------------------------------------------------------- the gap timer

  /** Resetting, firing and noting leave a channel that is not live not live. */
  lemma FireGone(c: Conn, t: T.Timer, id: ChannelId)
    requires Live(c, id).None?
    ensures Live(Fire(c, t).0, id).None?
  {
    hide PostSpec, P.RetrySpec, Scheduled, C.ResetChannelSpec, C.Find, U64Bytes;
    var token := if c.now == 0 then 1 else c.now;
    var c1 := Noted(c, Plain(TimerExpired, t.channel));
    PostFrame(c1.(pendingPong := Some(token)), F.Ping, CONTROL, U64Bytes(token), []);
    var c2 := PingSpec(c1.(pendingPong := Some(token)), token).0;
    ScheduledOnly(c2, T.PongDeadline, CONTROL, PONG_TIMEOUT);
    ScheduledOnly(Scheduled(c2, T.PongDeadline, CONTROL, PONG_TIMEOUT), T.Idle, CONTROL, IDLE_PING);
    if c.channels.Some? { ResetGone(c.channels.value, t.channel, id); }
  }

  lemma ResetGone(t: C.Table, channel: ChannelId, id: ChannelId)
    ensures C.Find(t, id).None? || channel == id ==> C.Find(C.ResetChannelSpec(t, channel).0, id).None?
  {
    hide C.NewFragments;
  }

  lemma FireGap(c: Conn, t: T.Timer)
    requires t.kind == T.FragmentGap && c.state != Closed
    ensures Live(Fire(c, t).0, t.channel).None? && Fire(c, t).1.Ok?
  {
    hide C.ResetChannelSpec, C.Find;
    if c.channels.Some? { ResetGone(c.channels.value, t.channel, t.channel); }
  }

  lemma {:induction false} FireAllGone(c: Conn, ts: seq<T.Timer>, out: seq<Bytes>, id: ChannelId)
    requires Live(c, id).None?
    ensures Live(FireAll(c, ts, out).0, id).None?
    decreases |ts|
  {
    hide Fire, Live;
    if ts != [] {
      FireGone(c, ts[0], id);
      var (next, r) := Fire(c, ts[0]);
      if r.Ok? { FireAllGone(next, ts[1..], out + r.value, id); }
    }
  }

  lemma {:induction false} FireAllGap(c: Conn, ts: seq<T.Timer>, out: seq<Bytes>, t: T.Timer)
    requires t in ts && t.kind == T.FragmentGap && FireAll(c, ts, out).1.Ok? && FireAll(c, ts, out).0.state != Closed
    ensures Live(FireAll(c, ts, out).0, t.channel).None?
    decreases |ts|
  {
    hide Fire, Live;
    var (next, r) := Fire(c, ts[0]);
    if c.state == Closed {
      StaysClosed(c, ts, out);
    } else if ts[0] == t {
      FireGap(c, t);
      FireAllGone(next, ts[1..], out + r.value, t.channel);
    } else {
      FireAllGap(next, ts[1..], out + r.value, t);
    }
  }

  lemma {:induction false} StaysClosed(c: Conn, ts: seq<T.Timer>, out: seq<Bytes>)
    requires c.state == Closed
    ensures FireAll(c, ts, out).0.state == Closed
    decreases |ts|
  {
    hide Fire;
    if ts != [] {
      FireClosed(c, ts[0]);
      var (next, r) := Fire(c, ts[0]);
      if r.Ok? { StaysClosed(next, ts[1..], out + r.value); }
    }
  }

  lemma FireClosed(c: Conn, t: T.Timer)
    requires c.state == Closed
    ensures Fire(c, t).0.state == Closed
  {
  }

  /**
   A gap timer that expires resets its channel, whatever has become of the message it was set for, unless a timer
   fails or the connection is closed.
   */
  lemma GapResets(c: Conn, now: u64, t: T.Timer)
    requires t in T.ExpireSpec(c.timers, now).1 && t.kind == T.FragmentGap
    requires AdvanceTimeSpec(c, now).1.Ok? && AdvanceTimeSpec(c, now).0.state != Closed
    ensures Live(AdvanceTimeSpec(c, now).0, t.channel).None?
  {
    hide FireAll, Live, T.ExpireSpec;
    var (timers, expired) := T.ExpireSpec(c.timers, now);
    FireAllGap(c.(now := now, timers := timers), expired, [], t);
  }

  /**
   No gap timer is taken back. A message of more than one fragment arrives and is delivered, and when the gap timers
   set for its fragments expire, its channel is reset all the same.
   */
  lemma DeliveredThenReset(c: Conn, receiver: Host, d: Conn, id: ChannelId, m: Bytes, now: u64)
    requires CanSend(c, id, m) && |m| > MaxFragment(c.capabilities.value)
    requires CanReceive(d, id, c.channels.value.slots[Live(c, id).value].nextSend, m, c.capabilities.value.maxFrame)
    requires |m| < U64_SPAN && SendSpec(c, id, m).1.Ok?
    requires var once := ReceiveSpec(receiver, d, Flat(SendSpec(c, id, m).1.value), false).0;
             && (forall t <- once.timers.timers :: t.due <= now)
             && AdvanceTimeSpec(once, now).1.Ok? && AdvanceTimeSpec(once, now).0.state != Closed
    ensures var once := ReceiveSpec(receiver, d, Flat(SendSpec(c, id, m).1.value), false).0;
            var sequence := c.channels.value.slots[Live(c, id).value].nextSend;
            && |d.events| < |once.events| && once.events[|d.events|] == MessageEvent(id, sequence, m)
            && Live(AdvanceTimeSpec(once, now).0, id).None?
  {
    hide CanSend, CanReceive, SendSpec, ReceiveSpec, Dispatched, AfterDelivery, Live, Flat, AdvanceTimeSpec;
    SenderShape(c, id, m);
    var sequence := c.channels.value.slots[Live(c, id).value].nextSend;
    ExactlyOneMessage(c, receiver, d, id, m);
    var later := SendThenReceive(c, receiver, d, id, m);
    var once := ReceiveSpec(receiver, d, Flat(SendSpec(c, id, m).1.value), false).0;
    DispatchedTimers(receiver, d, later, id, sequence, m);
    var t :| t in later.timers.timers && t.kind == T.FragmentGap && t.channel == id && t.due == (d.now + 1000) % U64_SPAN;
    AllDue(once.timers.timers, now);
    assert once.timers.timers[..|once.timers.timers|] == once.timers.timers;
    GapResets(once, now, t);
  }

  lemma DispatchedTimers(host: Host, d: Conn, later: Conn, id: ChannelId, sequence: u32, m: Bytes)
    requires Live(d, id).Some?
    ensures Dispatched(host, AfterDelivery(d, later, id, m), R.LogicalMessage(id, sequence, m)).0.timers == later.timers
  {
    hide C.Find;
  }

  // ---------------------------------------------------------------- retrying

  /**
   A retry timer hands out every retained frame once more, oldest first, and counts each up, exactly while none of
   them has been tried three times.
   */
  lemma FireRetry(c: Conn, t: T.Timer)
    requires t.kind == T.Retry && c.state != Closed
    ensures var (next, r) := Fire(c, t);
            && (r.Ok? <==> forall e <- c.replay.entries :: e.retries < 3)
            && (r.Ok? ==> r.value == Copies(c.replay.entries) && P.CountedUp(c.replay.entries, next.replay.entries))
            && next.handed == c.handed && next.nextFrame == c.nextFrame
  {
    hide P.RetrySpec;
    P.RetryIff(c.replay, RETRY_LIMIT);
    var (w, r) := P.RetrySpec(c.replay, RETRY_LIMIT);
    if r.Ok? { assert Copies(r.value) == Copies(c.replay.entries); }
  }

  // ---------------------------------------------------------------- keeping alive

  ghost predicate TimerSet(c: Conn, kind: T.Kind, due: u64) {
    exists t :: t in c.timers.timers && t.kind == kind && t.channel == CONTROL && t.due == due
  }

  /** A session that is agreed is probed thirty seconds on. */
  lemma AgreedSets(c: Conn, caps: H.Capabilities)
    requires 1 <= caps.maxChannels
    ensures TimerSet(Agreed(c, caps), T.Idle, (c.now + 30000) % U64_SPAN)
  {
    hide C.NewTable;
    var active := c.(capabilities := Some(caps), state := Active,
                     channels := Some(C.NewTable(caps.maxChannels, caps.window / caps.maxChannels, caps.maxMessage)));
    ScheduledHas(active, T.Idle, CONTROL, IDLE_PING);
    assert T.Timer(c.timers.nextId, T.Idle, CONTROL, (c.now + 30000) % U64_SPAN) in Agreed(c, caps).timers.timers;
  }

  /** A probe that goes out is followed by a deadline in five seconds and by the next probe in thirty. */
  lemma ProbeSets(c: Conn, idle: T.Timer)
    requires idle.kind == T.Idle && c.state != Closed && Fire(c, idle).1.Ok?
    ensures TimerSet(Fire(c, idle).0, T.PongDeadline, (c.now + 5000) % U64_SPAN)
    ensures TimerSet(Fire(c, idle).0, T.Idle, (c.now + 30000) % U64_SPAN)
  {
    hide PostSpec, U64Bytes;
    var token := if c.now == 0 then 1 else c.now;
    var c1 := Noted(c, Plain(TimerExpired, idle.channel)).(pendingPong := Some(token));
    PostFrame(c1, F.Ping, CONTROL, U64Bytes(token), []);
    var c2 := PingSpec(c1, token).0;
    var c3 := Scheduled(c2, T.PongDeadline, CONTROL, PONG_TIMEOUT);
    ScheduledHas(c2, T.PongDeadline, CONTROL, PONG_TIMEOUT);
    ScheduledHas(c3, T.Idle, CONTROL, IDLE_PING);
    assert T.Timer(c2.timers.nextId, T.PongDeadline, CONTROL, (c.now + 5000) % U64_SPAN) in Fire(c, idle).0.timers.timers;
    assert T.Timer(c3.timers.nextId, T.Idle, CONTROL, (c.now + 30000) % U64_SPAN) in Fire(c, idle).0.timers.timers;
  }
}
