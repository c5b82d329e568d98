/** The numbers of the frames a connection hands out, which loads disturb them, and what falls silent. */
module EngineNumbers {
  import opened Types
  import opened Wire
  import opened Sorting
  import opened EngineModel
  import opened EngineSteps
  import opened EngineRuns
  import opened EngineReplay
  import opened EngineSend
  import X = Extensions
  import F = FrameCodec
  import C = Channels
  import R = Reassembling
  import P = Replay
  import PT = ReplayText
  import S = Scheduler
  import ST = SchedulerTheorems
  import H = Hellos
  import T = Timers

  predicate Rising(fs: seq<F.Frame>) {
    forall i, j :: 0 <= i < j < |fs| ==> fs[i].seqNo < fs[j].seqNo
  }

  predicate Below(fs: seq<F.Frame>, n: int) { forall f <- fs :: f.seqNo < n }

  /** What has been handed out rises, and the next number is above all of it. */
  predicate InTurn(c: Conn) { Rising(c.handed) && Below(c.handed, c.nextFrame) }

  lemma RisingSnoc(fs: seq<F.Frame>, f: F.Frame)
    requires Rising(fs) && Below(fs, f.seqNo)
    ensures Rising(fs + [f]) && Below(fs + [f], f.seqNo + 1)
  {
  }

  lemma PostInTurn(c: Conn, kind: F.FrameType, channel: ChannelId, payload: Bytes, extensions: seq<X.Extension>)
    requires Settled(c) && InTurn(c) && c.nextFrame + 1 < U32_SPAN
    ensures InTurn(PostSpec(c, kind, channel, payload, extensions).0)
  {
    hide EmitSpec, PostSpec, F.EncodeSpec, Settled, Open;
    var f := FrameOf(c, kind, channel, payload, extensions);
    SettledFields(c, Numbered(c));
    PostIsEmit(c, kind, channel, payload, extensions);
    EmitOutcome(Numbered(c), f);
    PostFrame(c, kind, channel, payload, extensions);
    RisingSnoc(c.handed, f);
    assert c.handed + [] == c.handed;
  }

  lemma SameTurn(c: Conn, next: Conn)
    requires InTurn(c) && next.handed == c.handed && next.nextFrame == c.nextFrame
    ensures InTurn(next)
  {
  }

  /** The step puts no window in place that would give a number out again. */
  predicate Onward(c: Conn, s: Step) {
    s.Adopt? && c.state == Created ==> Below(c.handed, Adopted(c, s.w).0.nextFrame)
  }

  lemma StepInTurn(c: Conn, s: Step)
    requires Settled(c) && InTurn(c) && Onward(c, s) && c.nextFrame + (if s.Post? then 1 else 0) < U32_SPAN
    ensures InTurn(Apply(c, s))
    ensures !s.Adopt? ==> c.nextFrame <= Apply(c, s).nextFrame <= c.nextFrame + if s.Post? then 1 else 0
  {
    hide Settled, InTurn, PostSpec, FlushSpec, Absorb, C.TableApply, C.NewTable, P.AcknowledgeSpec, P.RetrySpec, Delivered,
         Fated, Adopted;
    match s {
      case Post(kind, channel, payload, extensions) =>
        if kind != F.Data || c.state == Active {
          PostInTurn(c, kind, channel, payload, extensions);
          PostFrame(c, kind, channel, payload, extensions);
        }
      case Write(writable) =>
        WriteFrame(c, writable);
        SameTurn(c, Apply(c, s));
      case Adopt(w) =>
        if c.state == Created { AdoptInTurn(c, w); }
      case Delivery(channel, family, payload, fate) =>
        if Live(c, channel).Some? { DeliveryFields(c, channel, family, payload, fate); }
        SameTurn(c, Apply(c, s));
      case _ =>
        SameTurn(c, Apply(c, s));
    }
  }

  lemma AdoptInTurn(c: Conn, w: Retained)
    requires InTurn(c) && Below(c.handed, Adopted(c, w).0.nextFrame)
    ensures InTurn(Adopted(c, w).0)
  {
    hide Adopted;
    AdoptFrame(c, w);
  }

  lemma {:induction false} RunInTurn(c: Conn, ss: seq<Step>)
    requires Settled(c) && InTurn(c) && c.nextFrame + Posts(ss) < U32_SPAN && forall i :: 0 <= i < |ss| ==> !ss[i].Adopt?
    ensures InTurn(Run(c, ss))
    decreases |ss|
  {
    hide Settled, Apply, InTurn;
    if ss != [] {
      StepInTurn(c, ss[0]);
      StepSettled(c, ss[0]);
      RunInTurn(Apply(c, ss[0]), ss[1..]);
    }
  }

  /** An accepted load continues above every number that has been handed out. */
  predicate Forward(c: Conn, call: Call) {
    call.Load? && LoadSpec(c, call.text).1.Ok? ==> Below(c.handed, LoadSpec(c, call.text).0.nextFrame)
  }

  predicate AllForward(host: Host, c: Conn, calls: seq<Call>)
    requires AllSizable(calls)
    decreases |calls|
  {
    calls == [] || (Forward(c, calls[0]) && AllForward(host, Next(host, c, calls[0]), calls[1..]))
  }

  lemma LoadIs(host: Host, c: Conn, text: string)
    ensures Next(host, c, Load(text)) == LoadSpec(c, text).0
    ensures LoadSpec(c, text).0 == c.(replay := LoadSpec(c, text).0.replay, nextFrame := LoadSpec(c, text).0.nextFrame)
    ensures LoadSpec(c, text).1.Err? ==> LoadSpec(c, text).0.nextFrame == c.nextFrame
  {
    hide PT.RestoreSpec;
    if PT.RestoreSpec(text).Ok? { Capacious(text); }
  }

  lemma CallInTurn(host: Host, c: Conn, call: Call)
    requires Settled(c) && Sane(c) && InTurn(c) && Sizable(call) && Forward(c, call) && c.nextFrame + Cost(c, call) < U32_SPAN
    ensures InTurn(Next(host, c, call)) && Settled(Next(host, c, call)) && Sane(Next(host, c, call))
  {
    hide Settled, Sane, Next, Run, InTurn, Cost, Apply, LoadSpec;
    var ss := AsSteps(host, c, call);
    RunSettled(c, ss);
    RunSane(c, ss);
    if call.Load? {
      LoadIs(host, c, call.text);
      LoadedInTurn(c, LoadSpec(c, call.text).0);
    } else {
      assert forall i :: 0 <= i < |ss| ==> ss[i] in ss;
      RunInTurn(c, ss);
    }
  }

  lemma LoadedInTurn(c: Conn, next: Conn)
    requires InTurn(c) && next.handed == c.handed && (next.nextFrame == c.nextFrame || Below(c.handed, next.nextFrame))
    ensures InTurn(next)
  {
  }

  lemma {:induction false} StaysInTurn(host: Host, c: Conn, calls: seq<Call>)
    requires Settled(c) && Sane(c) && InTurn(c) && AllSizable(calls) && NoWrap(host, c, calls) && AllForward(host, c, calls)
    ensures InTurn(After(host, c, calls))
    decreases |calls|
  {
    hide Settled, Sane, Next, InTurn, Cost, Forward;
    if calls != [] {
      CallInTurn(host, c, calls[0]);
      StaysInTurn(host, Next(host, c, calls[0]), calls[1..]);
    }
  }

  /**
   On every run clear of the end of the frame numbers whose accepted loads all continue above what has been
   handed out, the frames handed out have strictly increasing numbers.
   */
  lemma HandedRise(host: Host, policy: H.Policy, calls: seq<Call>)
    requires 1 <= policy.replayWindow && AllSizable(calls)
    requires NoWrap(host, NewConn(policy), calls) && AllForward(host, NewConn(policy), calls)
    ensures InTurn(After(host, NewConn(policy), calls))
  {
    hide After, NewConn, NoWrap, AllForward, InTurn;
    NewSettled(policy);
    assert InTurn(NewConn(policy)) by { NewInTurn(policy); }
    StaysInTurn(host, NewConn(policy), calls);
  }

  lemma NewInTurn(policy: H.Policy)
    requires 1 <= policy.replayWindow
    ensures InTurn(NewConn(policy))
  {
  }

  /** A load that does not lower the next frame number is such a one. */
  lemma NoLowerIsForward(c: Conn, text: string)
    requires InTurn(c) && LoadSpec(c, text).0.nextFrame >= c.nextFrame
    ensures Forward(c, Load(text))
  {
    hide LoadSpec;
  }

  // ---------------------------------------------------------------- when a frame can be emitted at all

  /** The scheduler takes the frame. */
  predicate HasRoom(c: Conn, f: F.Frame, encoded: Bytes) {
    && c.outbox.queued + |encoded| <= c.outbox.limit
    && (f.kind == F.Data ==>
          var queue := S.Queue(c.outbox, f.channel.number);
          queue == [] || queue[|queue| - 1].sequence < f.seqNo)
  }

  /** Frames are recorded under epoch 1 whatever the window's epoch is, so no other window lets any frame out. */
  lemma EmitsIff(c: Conn, f: F.Frame)
    requires F.EncodeSpec(Limits(c.policy), f).Ok? && F.EncodeSpec(Limits(c.policy), f).value != []
    requires HasRoom(c, f, F.EncodeSpec(Limits(c.policy), f).value) && !P.Contains(c.replay.entries, f.seqNo)
    ensures EmitSpec(c, f).1.Ok? <==> c.replay.epoch == 1
  {
    hide F.EncodeSpec, Drained;
  }

  /** A PING goes out, alone and whole, from any settled connection with epoch 1 and 29 bytes of room. */
  lemma PingGoesOut(c: Conn, token: u64)
    requires Settled(c) && Recorded(c) && c.replay.epoch == 1
    requires 29 <= c.policy.maxFrame && c.outbox.queued + 29 <= c.policy.window
    ensures PingSpec(c, token).0.handed == c.handed + [FrameOf(c, F.Ping, CONTROL, U64Bytes(token), [])]
    ensures PingSpec(c, token).1.Ok?
  {
    hide F.EncodeSpec, EmitSpec, U64Bytes, P.Contains;
    var f := FrameOf(c, F.Ping, CONTROL, U64Bytes(token), []);
    ShortEncodes(Limits(c.policy), f);
    NotContained(c);
    SettledFields(c, Numbered(c));
    EmitsIff(Numbered(c), f);
    EmitOutcome(Numbered(c), f);
  }

  lemma NotContained(c: Conn)
    requires Recorded(c)
    ensures !P.Contains(c.replay.entries, c.nextFrame)
  {
  }

  // ---------------------------------------------------------------- loads that break the order

  /**
   A load into a connection whose frames have risen so far: every later run of forward loads keeps them
   rising exactly when this load is forward too. One PING is enough to show it when it is not.
   */
  lemma RiseIff(host: Host, c: Conn, text: string)
    requires Settled(c) && Sane(c) && InTurn(c) && c.state == Created && LoadSpec(c, text).1.Ok?
    requires LoadSpec(c, text).0.replay.epoch == 1 && 29 <= c.policy.maxFrame && c.outbox.queued + 29 <= c.policy.window
    ensures Forward(c, Load(text)) <==>
              forall more: seq<Call> ::
                AllSizable(more) && NoWrap(host, LoadSpec(c, text).0, more) && AllForward(host, LoadSpec(c, text).0, more) ==>
                  Rising(After(host, LoadSpec(c, text).0, more).handed)
  {
    hide LoadSpec, Settled, Sane, After, NoWrap, AllForward;
    var next := LoadSpec(c, text).0;
    LoadIs(host, c, text);
    SettledFields(c, next);
    SaneFields(c, next);
    if Forward(c, Load(text)) {
      forall more: seq<Call> | AllSizable(more) && NoWrap(host, next, more) && AllForward(host, next, more)
        ensures Rising(After(host, next, more).handed)
      {
        StaysInTurn(host, next, more);
      }
    } else {
      LoadRecorded(c, text);
      PingAgain(host, c, next);
    }
  }

  lemma SaneFields(c: Conn, next: Conn)
    requires next.channels == c.channels
    ensures Sane(c) ==> Sane(next)
  {
  }

  lemma LoadRecorded(c: Conn, text: string)
    requires LoadSpec(c, text).1.Ok?
    ensures Recorded(LoadSpec(c, text).0)
  {
    hide PT.RestoreSpec, Recorded, Adopted;
    LatestFree(c, text);
    Capacious(text);
    PT.AcceptedIsPortable(text);
    AdoptRecorded(c, PT.RestoreSpec(text).value);
  }

  lemma LatestFree(c: Conn, text: string)
    requires LoadSpec(c, text).1.Ok?
    ensures PT.RestoreSpec(text).Ok? && P.Latest(PT.RestoreSpec(text).value) != Some(U32_SPAN - 1)
  {
    hide PT.RestoreSpec;
    Capacious(text);
  }

  /** After a load back, the next PING repeats or falls below a number already handed out. */
  lemma PingAgain(host: Host, c: Conn, next: Conn)
    requires InTurn(c) && Settled(next) && Recorded(next) && next.handed == c.handed && !Below(c.handed, next.nextFrame)
    requires next.replay.epoch == 1 && 29 <= next.policy.maxFrame && next.outbox.queued + 29 <= next.policy.window
    ensures var more := [Call.Ping(0)];
            && AllSizable(more) && NoWrap(host, next, more) && AllForward(host, next, more)
            && !Rising(After(host, next, more).handed)
  {
    hide PingSpec, Settled, Recorded;
    var more := [Call.Ping(0)];
    var f :| f in c.handed && f.seqNo >= next.nextFrame;
    assert f.seqNo < c.nextFrame;
    assert more[1..] == [];
    PingGoesOut(next, 0);
    OneCall(host, next, more[0]);
    var fs := After(host, next, more).handed;
    var i :| 0 <= i < |c.handed| && c.handed[i] == f;
    assert fs[i] == f && fs[|c.handed|].seqNo == next.nextFrame;
  }

  lemma OneCall(host: Host, c: Conn, call: Call)
    requires call.Ping?
    ensures After(host, c, [call]) == PingSpec(c, call.token).0
    ensures NoWrap(host, c, [call]) <==> c.nextFrame + 1 < U32_SPAN
    ensures AllForward(host, c, [call])
  {
    hide PingSpec;
    assert [call][1..] == [];
    var next := Next(host, c, call);
    assert After(host, next, []) == next && NoWrap(host, next, []) && AllForward(host, next, []);
  }

  /** The text of an empty window of the given epoch. */
  function EmptyText(capacity: u64, epoch: u16): string { PT.SerializeSpec(P.Window(capacity, epoch, [])) }

  lemma EmptyLoads(c: Conn, capacity: u64, epoch: u16)
    requires c.state == Created && 1 <= capacity && 1 <= epoch
    ensures LoadSpec(c, EmptyText(capacity, epoch)) == (c.(replay := P.Window(capacity, epoch, []), nextFrame := 1), Ok(()))
  {
    hide PT.RestoreSpec, PT.SerializeSpec;
    PT.PortableRestores(P.Window(capacity, epoch, []));
  }

  /** PING, load of an empty snapshot, PING: number 1 is handed out twice. */
  lemma NumberTwice(host: Host, policy: H.Policy)
    requires 1 <= policy.replayWindow && 29 <= policy.maxFrame && 29 <= policy.window
    ensures var calls := [Call.Ping(9), Load(EmptyText(1, 1)), Call.Ping(9)];
            var handed := After(host, NewConn(policy), calls).handed;
            |handed| == 2 && handed[0].seqNo == handed[1].seqNo == 1
  {
    hide PingSpec, LoadSpec, EmptyText, NewConn, Settled, Recorded;
    var c := NewConn(policy);
    var text := EmptyText(1, 1);
    var calls := [Call.Ping(9), Load(text), Call.Ping(9)];
    NewShape(policy);
    var c1 := PingSpec(c, 9).0;
    PingGoesOut(c, 9);
    PingKeeps(c, 9);
    EmptyLoads(c1, 1, 1);
    var c2 := LoadSpec(c1, text).0;
    LoadRecorded(c1, text);
    SettledFields(c1, c2);
    PingGoesOut(c2, 9);
    ThreeCalls(host, c, calls[0], calls[1], calls[2]);
    NextPing(host, c, 9);
    NextPing(host, c2, 9);
    LoadIs(host, c1, text);
  }

  lemma NewShape(policy: H.Policy)
    requires 1 <= policy.replayWindow
    ensures var c := NewConn(policy);
            && Settled(c) && Recorded(c) && c.replay.epoch == 1 && c.outbox.queued == 0 && c.policy == policy
            && c.state == Created && c.nextFrame == 1 && c.handed == []
  {
    NewSettled(policy);
    NewRecorded(policy);
  }

  lemma PingKeeps(c: Conn, token: u64)
    requires Settled(c)
    ensures var next := PingSpec(c, token).0;
            && Settled(next) && next.state == c.state && next.policy == c.policy
            && next.outbox.queued == c.outbox.queued && next.outbox.limit == c.outbox.limit
  {
    hide EmitSpec, F.EncodeSpec, U64Bytes;
    var f := FrameOf(c, F.Ping, CONTROL, U64Bytes(token), []);
    SettledFields(c, Numbered(c));
    EmitOutcome(Numbered(c), f);
    PostFrame(c, F.Ping, CONTROL, U64Bytes(token), []);
    SettledLimit(c, PingSpec(c, token).0);
  }

  lemma SettledLimit(a: Conn, b: Conn)
    requires Settled(a) && Settled(b) && a.policy == b.policy
    ensures a.outbox.limit == b.outbox.limit == a.policy.window
  {
  }

  lemma NextPing(host: Host, c: Conn, token: u64)
    ensures Next(host, c, Call.Ping(token)) == PingSpec(c, token).0
  {
    hide PingSpec;
  }

  lemma ThreeCalls(host: Host, c: Conn, a: Call, b: Call, d: Call)
    requires Sizable(a) && Sizable(b) && Sizable(d)
    ensures After(host, c, [a, b, d]) == Next(host, Next(host, Next(host, c, a), b), d)
  {
    hide Next;
    assert [a, b, d][1..] == [b, d] && [b, d][1..] == [d] && [d][1..] == [];
    assert After(host, Next(host, Next(host, Next(host, c, a), b), d), []) == Next(host, Next(host, Next(host, c, a), b), d);
    assert After(host, Next(host, Next(host, c, a), b), [d]) == Next(host, Next(host, Next(host, c, a), b), d);
    assert After(host, Next(host, c, a), [b, d]) == After(host, Next(host, Next(host, c, a), b), [d]);
  }

  // ---------------------------------------------------------------- refused loads

  /**
   A load fails exactly after the start, for a text that does not restore, or for a window without a next number.
   Otherwise it puts the window in place and continues right after its newest frame, or at 1.
   */
  lemma LoadFailsIff(c: Conn, text: string)
    ensures LoadSpec(c, text).1.Err? <==>
              || c.state != Created
              || PT.RestoreSpec(text).Err?
              || P.Latest(PT.RestoreSpec(text).value) == Some(U32_SPAN - 1)
    ensures LoadSpec(c, text).1.Ok? ==>
              var next, es := LoadSpec(c, text).0, PT.RestoreSpec(text).value.entries;
              && next == c.(replay := next.replay, nextFrame := next.nextFrame) && next.replay == PT.RestoreSpec(text).value
              && next.nextFrame == if es == [] then 1 else es[|es| - 1].sequence + 1
  {
    hide PT.RestoreSpec;
    if PT.RestoreSpec(text).Ok? { Capacious(text); }
  }

  /** A load that fails has still changed the connection exactly when its text restores to another window. */
  lemma FailedLoadChangesIff(c: Conn, text: string)
    requires LoadSpec(c, text).1.Err?
    ensures LoadSpec(c, text).0 != c <==>
              c.state == Created && PT.RestoreSpec(text).Ok? && PT.RestoreSpec(text).value != c.replay
    ensures LoadSpec(c, text).0 != c ==> LoadSpec(c, text).0 == c.(replay := LoadSpec(c, text).0.replay)
  {
    hide PT.RestoreSpec;
    if PT.RestoreSpec(text).Ok? { Capacious(text); }
  }

  /** Such a text: one frame, with the last number there is. */
  lemma RefusedLoadSticks(policy: H.Policy)
    requires 1 <= policy.replayWindow
    ensures var w := P.Window(2, 1, [P.Entry(1, U32_SPAN - 1, [0], 0)]);
            var (c, r) := LoadSpec(NewConn(policy), PT.SerializeSpec(w));
            r.Err? && c.replay == w != NewConn(policy).replay && c.nextFrame == 1
  {
    hide PT.RestoreSpec, PT.SerializeSpec;
    PT.PortableRestores(P.Window(2, 1, [P.Entry(1, U32_SPAN - 1, [0], 0)]));
  }

  // ---------------------------------------------------------------- windows of another epoch

  function HelloFrame(host: Host, c: Conn): F.Frame
    requires H.EncodeHelloSpec(LocalHello(host, c.policy)).Ok?
  {
    FrameOf(c, F.Hello, CONTROL, H.EncodeHelloSpec(LocalHello(host, c.policy)).value, [])
  }

  /** A connection with a restored window can start exactly when that window's epoch is 1. */
  lemma StartsIff(host: Host, c: Conn, text: string)
    requires c.state == Created && LoadSpec(c, text).1.Ok? && H.EncodeHelloSpec(LocalHello(host, c.policy)).Ok?
    requires var next := LoadSpec(c, text).0;
             var r := F.EncodeSpec(Limits(c.policy), HelloFrame(host, next));
             r.Ok? && r.value != [] && c.outbox.queued + |r.value| <= c.outbox.limit
    ensures StartSpec(host, LoadSpec(c, text).0).1.Ok? <==> LoadSpec(c, text).0.replay.epoch == 1
  {
    hide F.EncodeSpec, EmitSpec, H.EncodeHelloSpec, LoadSpec, P.Contains;
    var next := LoadSpec(c, text).0;
    LoadIs(host, c, text);
    LoadRecorded(c, text);
    NotContained(next);
    var c1 := Scheduled(next.(state := Negotiating), T.Handshake, CONTROL, HANDSHAKE_TIMEOUT);
    EmitsIff(Numbered(c1), HelloFrame(host, next));
  }

  lemma StepMute(c: Conn, s: Step)
    requires Settled(c) && c.replay.epoch != 1 && c.state != Created
    ensures Apply(c, s).handed == c.handed && Apply(c, s).replay.epoch == c.replay.epoch
  {
    hide PostSpec, FlushSpec, Absorb, C.TableApply, C.NewTable, Delivered, Fated, Adopted;
    match s {
      case Post(kind, channel, payload, extensions) => PostMute(c, kind, channel, payload, extensions);
      case Write(writable) => WriteFrame(c, writable);
      case Delivery(channel, family, payload, fate) =>
        if Live(c, channel).Some? { DeliveryFields(c, channel, family, payload, fate); }
      case _ =>
    }
  }

  lemma PostMute(c: Conn, kind: F.FrameType, channel: ChannelId, payload: Bytes, extensions: seq<X.Extension>)
    requires c.replay.epoch != 1
    ensures var (next, r) := PostSpec(c, kind, channel, payload, extensions);
            r.Err? && next.handed == c.handed && next.replay == c.replay
  {
    hide F.EncodeSpec, Enqueued, Drained;
  }

  lemma {:induction false} RunMute(c: Conn, ss: seq<Step>)
    requires Settled(c) && c.replay.epoch != 1 && c.state != Created
    ensures Run(c, ss).handed == c.handed && Run(c, ss).replay.epoch == c.replay.epoch
    decreases |ss|
  {
    hide Settled, Apply;
    if ss != [] {
      StepMute(c, ss[0]);
      StepSettled(c, ss[0]);
      StepStarted(c, ss[0]);
      RunMute(Apply(c, ss[0]), ss[1..]);
    }
  }

  /** Once started with a window of another epoch, a connection never hands out a frame, whatever is called. */
  lemma {:induction false} MuteForever(host: Host, c: Conn, calls: seq<Call>)
    requires Settled(c) && Sane(c) && c.replay.epoch != 1 && c.state != Created && AllSizable(calls)
    ensures After(host, c, calls).handed == c.handed
    decreases |calls|
  {
    hide Settled, Sane, Next, Run;
    if calls != [] {
      var ss := AsSteps(host, c, calls[0]);
      RunMute(c, ss);
      RunSettled(c, ss);
      RunSane(c, ss);
      RunStarted(c, ss);
      MuteForever(host, Next(host, c, calls[0]), calls[1..]);
    }
  }

  /** Such a snapshot: an empty window of epoch 2 loads, and then the connection cannot start. */
  lemma EpochTwoLoads(host: Host, policy: H.Policy)
    requires 1 <= policy.replayWindow
    ensures var (c, r) := LoadSpec(NewConn(policy), EmptyText(1, 2));
            r.Ok? && c.replay.epoch == 2 && StartSpec(host, c).1.Err?
  {
    hide EmptyText, LoadSpec, PostSpec, H.EncodeHelloSpec, NewConn;
    NewShape(policy);
    EmptyLoads(NewConn(policy), 1, 2);
    var c := LoadSpec(NewConn(policy), EmptyText(1, 2)).0;
    var c1 := Scheduled(c.(state := Negotiating), T.Handshake, CONTROL, HANDSHAKE_TIMEOUT);
    if H.EncodeHelloSpec(LocalHello(host, c.policy)).Ok? {
      PostMute(c1, F.Hello, CONTROL, H.EncodeHelloSpec(LocalHello(host, c.policy)).value, []);
    }
  }

  // ---------------------------------------------------------------- what waits only grows

  lemma StepGrows(c: Conn, s: Step)
    requires Settled(c)
    ensures c.outbox.queued <= Apply(c, s).outbox.queued && Apply(c, s).policy == c.policy
  {
    hide Settled, PostSpec, FlushSpec, Absorb, C.TableApply, C.NewTable, P.AcknowledgeSpec, P.RetrySpec, Delivered, Fated, Adopted;
    StepPolicy(c, s);
    match s {
      case Post(kind, channel, payload, extensions) => PostGrows(c, kind, channel, payload, extensions);
      case Write(writable) => FlushNothing(c, writable);
      case Adopt(w) => AdoptFrame(c, w);
      case Delivery(channel, family, payload, fate) =>
        if Live(c, channel).Some? { DeliveryFields(c, channel, family, payload, fate); }
      case _ =>
    }
  }

  lemma PostGrows(c: Conn, kind: F.FrameType, channel: ChannelId, payload: Bytes, extensions: seq<X.Extension>)
    requires Settled(c)
    ensures c.outbox.queued <= PostSpec(c, kind, channel, payload, extensions).0.outbox.queued
  {
    hide EmitSpec, F.EncodeSpec, Settled;
    SettledFields(c, Numbered(c));
    EmitOutcome(Numbered(c), FrameOf(c, kind, channel, payload, extensions));
  }

  lemma {:induction false} RunGrows(c: Conn, ss: seq<Step>)
    requires Settled(c)
    ensures c.outbox.queued <= Run(c, ss).outbox.queued && Run(c, ss).policy == c.policy
    decreases |ss|
  {
    hide Settled, Apply;
    if ss != [] {
      StepGrows(c, ss[0]);
      StepSettled(c, ss[0]);
      RunGrows(Apply(c, ss[0]), ss[1..]);
    }
  }

  /** Stalled data never leaves the outbox: on no run do its bytes become fewer. */
  lemma {:induction false} OutboxOnlyGrows(host: Host, c: Conn, calls: seq<Call>)
    requires Settled(c) && Sane(c) && AllSizable(calls)
    ensures c.outbox.queued <= After(host, c, calls).outbox.queued
    ensures Settled(After(host, c, calls)) && After(host, c, calls).policy == c.policy
    decreases |calls|
  {
    hide Settled, Sane, Next, Run;
    if calls != [] {
      var ss := AsSteps(host, c, calls[0]);
      RunGrows(c, ss);
      RunSettled(c, ss);
      RunSane(c, ss);
      OutboxOnlyGrows(host, Next(host, c, calls[0]), calls[1..]);
    }
  }

  /** So once it leaves no room for a frame, control frames included, that frame is refused for good. */
  lemma LockedOut(host: Host, c: Conn, calls: seq<Call>, f: F.Frame)
    requires Settled(c) && Sane(c) && AllSizable(calls) && F.EncodeSpec(Limits(c.policy), f).Ok?
    requires c.outbox.queued + |F.EncodeSpec(Limits(c.policy), f).value| > c.policy.window
    ensures EmitSpec(After(host, c, calls), f).1.Err?
  {
    hide After, EmitSpec, F.EncodeSpec, Settled, Sane;
    OutboxOnlyGrows(host, c, calls);
    NoRoom(After(host, c, calls), f);
  }

  lemma NoRoom(c: Conn, f: F.Frame)
    requires Settled(c) && F.EncodeSpec(Limits(c.policy), f).Ok?
    requires c.outbox.queued + |F.EncodeSpec(Limits(c.policy), f).value| > c.policy.window
    ensures EmitSpec(c, f).1.Err?
  {
    hide F.EncodeSpec, Drained, ST.AtRest;
  }

  /** A frame that meets a shut gate and is taken adds its bytes. */
  lemma StalledAdds(c: Conn, f: F.Frame)
    requires Settled(c) && EmitSpec(c, f).1.Ok? && EmitSpec(c, f).1.value == []
    ensures EmitSpec(c, f).0.outbox.queued == c.outbox.queued + |F.EncodeSpec(Limits(c.policy), f).value|
  {
    hide F.EncodeSpec, EmitSpec, Open;
    EmitOutcome(c, f);
  }

  // ---------------------------------------------------------------- answers are what was handed out

  function New(c: Conn, next: Conn): seq<F.Frame>
    requires |c.handed| <= |next.handed|
  {
    next.handed[|c.handed|..]
  }

  /** A successful answer consists of exactly the frames newly handed out. */
  ghost predicate AnswersNew(c: Conn, next: Conn, r: Reply) {
    && c.handed <= next.handed && next.policy == c.policy
    && (r.Ok? ==> r.value == Encoded(Limits(c.policy), New(c, next)))
  }

  lemma PostAnswers(c: Conn, kind: F.FrameType, channel: ChannelId, payload: Bytes, extensions: seq<X.Extension>)
    requires Settled(c)
    ensures var (next, r) := PostSpec(c, kind, channel, payload, extensions);
            AnswersNew(c, next, r) && Settled(next)
  {
    hide EmitSpec, F.EncodeSpec, Settled, Open;
    var f := FrameOf(c, kind, channel, payload, extensions);
    SettledFields(c, Numbered(c));
    EmitOutcome(Numbered(c), f);
    PostFrame(c, kind, channel, payload, extensions);
    OneEncoded(Limits(c.policy), f);
    assert c.handed + [] == c.handed;
    assert (c.handed + [f])[|c.handed|..] == [f];
  }

  lemma OneEncoded(limits: F.FrameLimits, f: F.Frame)
    ensures Encoded(limits, [f]) == [Encoding(limits, f)] && Encoded(limits, []) == []
  {
    hide Encoding;
    assert [f][1..] == [];
  }

  lemma {:induction false} EncodedAppend(limits: F.FrameLimits, a: seq<F.Frame>, b: seq<F.Frame>)
    ensures Encoded(limits, a + b) == Encoded(limits, a) + Encoded(limits, b)
  {
    hide Encoding;
    if a == [] {
      assert a + b == b;
    } else {
      assert (a + b)[1..] == a[1..] + b;
      EncodedAppend(limits, a[1..], b);
    }
  }

  lemma NewChain(c: Conn, mid: Conn, next: Conn)
    requires c.handed <= mid.handed <= next.handed
    ensures c.handed <= next.handed && New(c, next) == New(c, mid) + New(mid, next)
  {
  }

  lemma {:induction false} SendFromAnswers(c: Conn, id: ChannelId, sequence: u32, payload: Bytes, size: nat, offset: nat, out: seq<Bytes>)
    requires size >= 1 && Settled(c)
    ensures var (next, r) := SendFrom(c, id, sequence, payload, size, offset, out);
            && c.handed <= next.handed && next.policy == c.policy
            && (r.Ok? ==> r.value == out + Encoded(Limits(c.policy), New(c, next)))
    decreases |payload| - offset
  {
    hide PostSpec, Settled, DataExtensions, Encoding, Encoded;
    if offset >= |payload| {
      assert New(c, c) == [] && out + [] == out;
      OneEncoded(Limits(c.policy), FrameOf(c, F.Data, id, [], []));
    } else {
      var take := Min(size, |payload| - offset);
      var part, es := payload[offset..offset + take], DataExtensions(sequence, offset, |payload|);
      PostAnswers(c, F.Data, id, part, es);
      var (mid, encoded) := PostSpec(c, F.Data, id, part, es);
      if encoded.Ok? {
        SendFromAnswers(mid, id, sequence, payload, size, offset + size, out + encoded.value);
        var next := SendFrom(mid, id, sequence, payload, size, offset + size, out + encoded.value).0;
        NewChain(c, mid, next);
        hide New;
        EncodedAppend(Limits(c.policy), New(c, mid), New(mid, next));
        Assoc(out, encoded.value, Encoded(Limits(c.policy), New(mid, next)));
      }
    }
  }

  /** The answer of a call of the application that emits. */
  function Answer(host: Host, c: Conn, call: Call): Option<Reply>
    requires Sizable(call)
  {
    match call
    case Start => Some(StartSpec(host, c).1)
    case OpenChannel(family, window) =>
      var r := OpenChannelSpec(c, family, window).1;
      Some(if r.Ok? then Ok(r.value.1) else Err(r.error))
    case Send(id, payload) => Some(SendSpec(c, id, payload).1)
    case GrantCredit(id, amount) => Some(GrantCreditSpec(c, id, amount).1)
    case Acknowledge(ranges) => Some(AcknowledgeSpec(c, ranges).1)
    case Ping(token) => Some(PingSpec(c, token).1)
    case Resume(request) => Some(ResumeSpec(c, request).1)
    case HalfClose(id, direction) => Some(HalfCloseSpec(c, id, direction).1)
    case Reset(id) => Some(ResetSpec(c, id).1)
    case GoAway => Some(GoAwaySpec(c).1)
    case _ => None
  }

  /** What an answer says does not depend on the parts that emitting leaves alone. */
  lemma AnswersFields(a: Conn, b: Conn, next: Conn, last: Conn, r: Reply)
    requires AnswersNew(b, next, r)
    requires a.handed == b.handed && a.policy == b.policy && last.handed == next.handed && last.policy == next.policy
    ensures AnswersNew(a, last, r)
  {
  }

  lemma NotedAnswers(c: Conn, kind: F.FrameType, id: ChannelId, payload: Bytes, e: Event)
    requires Settled(c)
    ensures AnswersNew(c, PostNoted(c, kind, id, payload, e).0, PostNoted(c, kind, id, payload, e).1)
  {
    hide EmitSpec, Settled;
    var noted := Noted(c, e);
    SettledFields(c, noted);
    PostAnswers(noted, kind, id, payload, []);
    assert PostNoted(c, kind, id, payload, e) == PostSpec(noted, kind, id, payload, []);
  }

  lemma OpenAnswers(c: Conn, family: u32, window: u64)
    requires Settled(c)
    ensures var (next, r) := OpenChannelSpec(c, family, window);
            AnswersNew(c, next, if r.Ok? then Ok(r.value.1) else Err(r.error))
  {
    hide PostSpec, C.AllocateSpec, C.ActivateSpec, Offers, U32Bytes, Settled, Encoded;
    if c.state == Active && c.channels.Some? && c.capabilities.Some? && C.AllocateSpec(c.channels.value).1.Ok? {
      var (t1, id) := C.AllocateSpec(c.channels.value);
      var c1 := c.(channels := Some(C.ActivateSpec(t1, id.value).0));
      SettledFields(c, c1);
      PostAnswers(c1, F.Open, id.value, U32Bytes(family) + U32Bytes(window % U32_SPAN), []);
      var (c2, out) := PostSpec(c1, F.Open, id.value, U32Bytes(family) + U32Bytes(window % U32_SPAN), []);
      AnswersFields(c, c1, c2, Noted(c2, Plain(ChannelOpened, id.value)), out);
      AnswersFields(c, c1, c2, c2, out);
    }
  }

  lemma SendAnswers(c: Conn, id: ChannelId, payload: Bytes)
    requires Settled(c) && Sane(c) && |payload| < U64_SPAN
    ensures AnswersNew(c, SendSpec(c, id, payload).0, SendSpec(c, id, payload).1)
  {
    hide SendFrom, Settled, C.ReserveSpec, C.ReserveSequenceSpec, C.ReleaseSpec, SaneTable, Encoded;
    if c.state == Active && c.capabilities.Some? && c.channels.Some? && C.Find(c.channels.value, id).Some? {
      var i := C.Find(c.channels.value, id).value;
      if !c.channels.value.slots[i].localClosed && |payload| <= c.capabilities.value.maxMessage
        && C.ReserveSpec(c.channels.value.slots[i].flow, |payload|).1.Ok?
      {
        SendBody(c, id, payload, i);
        var (t, sequence) := C.ReserveSequenceSpec(c.channels.value, id);
        if sequence.Ok? {
          var c1 := c.(channels := Some(t));
          SettledFields(c, c1);
          SendFromAnswers(c1, id, sequence.value, payload, MaxFragment(c.capabilities.value), 0, []);
          var next := SendSpec(c, id, payload).0;
          assert [] + Encoded(Limits(c.policy), New(c1, next)) == Encoded(Limits(c.policy), New(c1, next));
        }
      }
    }
  }

  lemma StartAnswers(host: Host, c: Conn)
    requires Settled(c)
    ensures AnswersNew(c, StartSpec(host, c).0, StartSpec(host, c).1)
  {
    hide PostSpec, H.EncodeHelloSpec, Settled, Encoded;
    if c.state == Created && H.EncodeHelloSpec(LocalHello(host, c.policy)).Ok? {
      var c1 := Scheduled(c.(state := Negotiating), T.Handshake, CONTROL, HANDSHAKE_TIMEOUT);
      SettledFields(c, c1);
      PostAnswers(c1, F.Hello, CONTROL, H.EncodeHelloSpec(LocalHello(host, c.policy)).value, []);
    }
  }

  lemma AcknowledgeAnswers(c: Conn, ranges: seq<P.AckRange>)
    requires Settled(c)
    ensures AnswersNew(c, AcknowledgeSpec(c, ranges).0, AcknowledgeSpec(c, ranges).1)
  {
    hide PostSpec, P.EncodeAckSpec, Settled, Encoded;
    if P.EncodeAckSpec(1, ranges).Ok? { PostAnswers(c, F.Ack, CONTROL, P.EncodeAckSpec(1, ranges).value, []); }
  }

  lemma HalfCloseAnswers(c: Conn, id: ChannelId, direction: C.Direction)
    requires Settled(c)
    ensures AnswersNew(c, HalfCloseSpec(c, id, direction).0, HalfCloseSpec(c, id, direction).1)
  {
    hide PostNoted, C.HalfCloseSpec, Settled, Encoded;
    if c.channels.Some? {
      var c1 := c.(channels := Some(C.HalfCloseSpec(c.channels.value, id, direction).0));
      SettledFields(c, c1);
      NotedAnswers(c1, F.HalfClose, id, [if direction == C.LocalSend then 0 else 1], Plain(HalfClosed, id));
    }
  }

  lemma ResetAnswers(c: Conn, id: ChannelId)
    requires Settled(c)
    ensures AnswersNew(c, ResetSpec(c, id).0, ResetSpec(c, id).1)
  {
    hide PostNoted, C.ResetChannelSpec, Settled, Encoded;
    if c.channels.Some? {
      var c1 := c.(channels := Some(C.ResetChannelSpec(c.channels.value, id).0));
      SettledFields(c, c1);
      NotedAnswers(c1, F.Reset, id, [], Plain(ChannelReset, id));
    }
  }

  lemma GoAwayAnswers(c: Conn)
    requires Settled(c)
    ensures AnswersNew(c, GoAwaySpec(c).0, GoAwaySpec(c).1)
  {
    hide PostSpec, Settled, Encoded;
    var c1 := Scheduled(c.(state := Draining), T.Drain, CONTROL, DRAIN_TIMEOUT);
    SettledFields(c, c1);
    PostAnswers(c1, F.GoAway, CONTROL, [], []);
  }

  /** Every call that emits answers with exactly the encodings of the frames it has handed out, in order. */
  lemma CallAnswers(host: Host, c: Conn, call: Call)
    requires Settled(c) && Sane(c) && Sizable(call) && Answer(host, c, call).Some?
    ensures AnswersNew(c, Next(host, c, call), Answer(host, c, call).value)
  {
    hide PostSpec, OpenChannelSpec, SendSpec, StartSpec, AcknowledgeSpec, HalfCloseSpec, ResetSpec, GoAwaySpec, AnswersNew,
         Settled, Sane, U32Bytes, U64Bytes, ResumePayload;
    match call {
      case Start => StartAnswers(host, c);
      case OpenChannel(family, window) => OpenAnswers(c, family, window);
      case Send(id, payload) => SendAnswers(c, id, payload);
      case GrantCredit(id, amount) => PostAnswers(c, F.Credit, id, U32Bytes(amount % U32_SPAN), []);
      case Acknowledge(ranges) => AcknowledgeAnswers(c, ranges);
      case Ping(token) => PostAnswers(c, F.Ping, CONTROL, U64Bytes(token), []);
      case Resume(request) => PostAnswers(c, F.Resume, CONTROL, ResumePayload(request), []);
      case HalfClose(id, direction) => HalfCloseAnswers(c, id, direction);
      case Reset(id) => ResetAnswers(c, id);
      case GoAway => GoAwayAnswers(c);
    }
  }

  /** Nothing new is handed out, and a successful answer is empty. */
  predicate Silent(c: Conn, next: Conn, r: Reply) {
    next.handed == c.handed && next.policy == c.policy && (r.Ok? ==> r.value == [])
  }

  lemma SilentAnswers(c: Conn, next: Conn, r: Reply)
    requires Silent(c, next, r)
    ensures AnswersNew(c, next, r)
  {
    hide Encoding;
    assert New(c, next) == [];
    assert Encoded(Limits(c.policy), []) == [];
  }

  lemma TableSilent(c: Conn, f: F.Frame)
    ensures Silent(c, HandleOpen(c, f).0, HandleOpen(c, f).1)
    ensures Silent(c, HandleCredit(c, f).0, HandleCredit(c, f).1)
    ensures Silent(c, HandleHalfClose(c, f).0, HandleHalfClose(c, f).1)
    ensures Silent(c, HandleReset(c, f.channel), Ok([]))
  {
    hide C.AcceptRemoteSpec, C.Find, C.GrantSpec, C.HalfCloseSpec, C.ResetChannelSpec, Offers, ReadU32;
  }

  lemma ControlSilent(host: Host, c: Conn, f: F.Frame)
    ensures Silent(c, HandleAck(c, f).0, HandleAck(c, f).1)
    ensures Silent(c, HandlePong(c, f).0, HandlePong(c, f).1)
    ensures Silent(c, HandleGoAway(c, f).0, HandleGoAway(c, f).1)
    ensures Silent(c, HandleHello(host, c, f).0, HandleHello(host, c, f).1)
    ensures HandleResume(c, f).0.handed == c.handed
  {
    hide P.DecodeAckSpec, P.AcknowledgeSpec, P.RetainedFromSpec, ReadResume, ReadToken, H.DecodeHelloSpec, H.NegotiateSpec, C.NewTable;
  }

  lemma DispatchSilent(host: Host, c: Conn, family: u32, message: R.LogicalMessage)
    ensures Silent(c, Dispatch(host, c, family, message).0, Dispatch(host, c, family, message).1)
  {
    hide C.Find;
  }

  lemma DataSilent(host: Host, c: Conn, f: F.Frame)
    requires |f.payload| < U64_SPAN
    ensures Silent(c, HandleData(host, c, f).0, HandleData(host, c, f).1)
  {
    hide Dispatch, Absorb, C.Find, ExtensionU32;
    if c.state == Active && c.channels.Some? && C.Find(c.channels.value, f.channel).Some? {
      var t, i := c.channels.value, C.Find(c.channels.value, f.channel).value;
      var sequence, offset := ExtensionU32(f, EXT_MESSAGE_SEQ), ExtensionU32(f, EXT_FRAGMENT_OFFSET);
      var total, family := ExtensionU32(f, EXT_MESSAGE_TOTAL), ExtensionU32(f, EXT_FAMILY_ID);
      if sequence.Some? && offset.Some? && total.Some? && family.Some? {
        AbsorbNames(t, i, f.channel, sequence.value, offset.value, total.value, f.payload);
        var (t1, outcome) := Absorb(t, i, f.channel, sequence.value, offset.value, total.value, f.payload);
        if outcome.Ok? && outcome.value.Some? {
          var c1 := c.(channels := Some(t1));
          DispatchSilent(host, Delivered(c1, i, f.channel, family.value, outcome.value.value.payload), family.value, outcome.value.value);
        }
      }
    }
  }

  /** A handler answers with exactly the frames it has handed out, but for RESUME, which hands out no new one. */
  lemma FrameAnswers(host: Host, c: Conn, f: F.Frame)
    requires Settled(c) && |f.payload| < U64_SPAN
    ensures var (next, r) := HandleFrame(host, c, f);
            && c.handed <= next.handed
            && (if f.kind == F.Resume then next.handed == c.handed else AnswersNew(c, next, r))
  {
    hide HandleHello, HandleOpen, HandleData, HandleAck, HandleCredit, HandlePong, HandleResume, HandleHalfClose, HandleReset,
         HandleGoAway, PostSpec, Settled, AnswersNew, U64Bytes;
    TableSilent(c, f);
    ControlSilent(host, c, f);
    DataSilent(host, c, f);
    var (next, r) := HandleFrame(host, c, f);
    if f.kind == F.Ping {
      if f.channel.IsControl() && ReadToken(f.payload).Ok? {
        PostAnswers(c, F.Pong, CONTROL, U64Bytes(ReadToken(f.payload).value), []);
        AnswersGrow(c, next, r);
      } else {
        SilentAnswers(c, next, r);
      }
    } else if f.kind != F.Resume {
      SilentAnswers(c, next, r);
    }
  }

  lemma AnswersGrow(c: Conn, next: Conn, r: Reply)
    requires AnswersNew(c, next, r)
    ensures c.handed <= next.handed
  {
  }

  /** The same of a timer that fires, but for a retry, which hands out no new frame. */
  lemma TimerAnswers(c: Conn, t: T.Timer)
    requires Settled(c)
    ensures var (next, r) := Fire(c, t);
            && c.handed <= next.handed
            && (if t.kind == T.Retry && c.state != Closed then next.handed == c.handed else AnswersNew(c, next, r))
  {
    hide PingSpec, P.RetrySpec, HandleReset, Settled, AnswersNew;
    var (next, r) := Fire(c, t);
    var noted := Noted(c, Plain(TimerExpired, t.channel));
    if t.kind == T.Idle && c.state != Closed {
      var token := if c.now == 0 then 1 else c.now;
      var c1 := noted.(pendingPong := Some(token));
      SettledFields(c, c1);
      PostAnswers(c1, F.Ping, CONTROL, U64Bytes(token), []);
      PingIs(c1, token);
      AnswersFields(c, c1, PingSpec(c1, token).0, next, r);
      AnswersGrow(c, next, r);
    } else if t.kind == T.FragmentGap && c.state != Closed && c.channels.Some? {
      TableSilent(noted, F.Frame(F.Reset, 0, t.channel, 0, [], []));
      SilentAnswers(c, next, r);
    } else if t.kind != T.Retry || c.state == Closed {
      SilentAnswers(c, next, r);
    }
  }

  lemma PingIs(c: Conn, token: u64)
    ensures PingSpec(c, token) == PostSpec(c, F.Ping, CONTROL, U64Bytes(token), [])
  {
    hide PostSpec;
  }
}
