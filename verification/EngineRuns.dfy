/** What every run of calls on a connection keeps. */
module EngineRuns {
  import opened Types
  import opened EngineModel
  import opened EngineSteps
  import X = Extensions
  import F = FrameCodec
  import C = Channels
  import R = Reassembling
  import P = Replay
  import PT = ReplayText
  import S = Scheduler
  import ST = SchedulerTheorems
  import H = Hellos

  // ---------------------------------------------------------------- frames are handed out whole or not at all

  /** Nothing that could be written is left waiting. */
  ghost predicate Settled(c: Conn) { ST.AtRest(c.outbox) && c.outbox.limit == c.policy.window }

  /** Whether the gate lets a frame out at once. */
  predicate Open(c: Conn, f: F.Frame) {
    f.kind != F.Data
    || (S.Queue(c.outbox, f.channel.number) == []
        && (S.Expected(c.outbox, f.channel.number) == 0 || S.Expected(c.outbox, f.channel.number) == f.seqNo))
  }

  /**
   With the outbox settled, emitting a frame hands out exactly its encoding, or nothing if the gate is
   shut; what is handed out is what the replay window recorded, and the outbox is settled again.
   */
  lemma EmitOutcome(c: Conn, f: F.Frame)
    requires Settled(c)
    ensures var (next, r) := EmitSpec(c, f);
            && Settled(next)
            && (r.Ok? ==>
                  && F.EncodeSpec(Limits(c.policy), f).Ok?
                  && var encoded := F.EncodeSpec(Limits(c.policy), f).value;
                     && r.value == (if Open(c, f) then [encoded] else [])
                     && next.replay.entries != []
                     && next.replay.entries[|next.replay.entries| - 1] == P.Entry(1, f.seqNo, encoded, 0)
                     && next.outbox.queued == c.outbox.queued + (if Open(c, f) then 0 else |encoded|)
                     && next.handed == c.handed + (if Open(c, f) then [f] else []))
            && (r.Err? ==> next.outbox == c.outbox && next.handed == c.handed)
            && (forall n :: S.Expected(next.outbox, n)
                         == if r.Ok? && Open(c, f) && f.kind == F.Data && n == f.channel.number then S.Next(f.seqNo)
                            else S.Expected(c.outbox, n))
            && (forall n :: S.Queue(next.outbox, n)
                         == if r.Ok? && !Open(c, f) && n == f.channel.number
                            then S.Queue(c.outbox, n) + [ItemOf(f, F.EncodeSpec(Limits(c.policy), f).value)]
                            else S.Queue(c.outbox, n))
  {
    hide F.EncodeSpec, S.DrainSpec, S.EnqueueSpec, ST.AtRest, S.Valid, P.Contains;
    if F.EncodeSpec(Limits(c.policy), f).Ok? {
      var encoded := F.EncodeSpec(Limits(c.policy), f).value;
      var item := ItemOf(f, encoded);
      var (outbox, queued) := Enqueued(c.outbox, item);
      if queued.Ok? {
        ST.PassOrStall(c.outbox, item);
        var (q, items) := Drained(outbox, c.policy.window);
        assert Encodings(items) == if ST.Passes(c.outbox, item) then [encoded] else [];
      } else {
        ST.RefusedSame(c.outbox, item);
      }
    }
  }

  /** A settled outbox has nothing for `flush_outbound`. */
  lemma FlushNothing(c: Conn, writable: nat)
    requires Settled(c)
    ensures FlushSpec(c, writable).1 == [] && Settled(FlushSpec(c, writable).0)
    ensures FlushSpec(c, writable).0.outbox.queued == c.outbox.queued
    ensures forall n :: S.Expected(FlushSpec(c, writable).0.outbox, n) == S.Expected(c.outbox, n)
    ensures forall n :: S.Queue(FlushSpec(c, writable).0.outbox, n) == S.Queue(c.outbox, n)
  {
    var q := c.outbox;
    ST.SweptQueues(q);
    hide S.Valid, S.Ready, S.Round, S.Order;
    S.SizeNothing();
    ST.RoundAtRest(q, S.Order(q), writable);
    ST.SweptReady(q);
    assert q.(control := [], queued := q.queued - 0) == q;
  }

  lemma StepSettled(c: Conn, s: Step)
    requires Settled(c)
    ensures Settled(Apply(c, s))
  {
    hide Settled, PostSpec, FlushSpec, Absorb, C.TableApply, C.NewTable, P.AcknowledgeSpec, P.RetrySpec, Delivered, Fated, Adopted;
    match s {
      case Post(kind, channel, payload, extensions) =>
        SettledFields(c, Numbered(c));
        PostIsEmit(c, kind, channel, payload, extensions);
        EmitOutcome(Numbered(c), FrameOf(c, kind, channel, payload, extensions));
      case Write(writable) => FlushNothing(c, writable);
      case Adopt(w) =>
        AdoptFrame(c, w);
        SettledFields(c, Apply(c, s));
      case Delivery(channel, family, payload, fate) =>
        if Live(c, channel).Some? { DeliveryFields(c, channel, family, payload, fate); }
        SettledFields(c, Apply(c, s));
      case _ => SettledFields(c, Apply(c, s));
    }
  }

  lemma PostIsEmit(c: Conn, kind: F.FrameType, channel: ChannelId, payload: Bytes, extensions: seq<X.Extension>)
    ensures PostSpec(c, kind, channel, payload, extensions) == EmitSpec(Numbered(c), FrameOf(c, kind, channel, payload, extensions))
  {
  }

  lemma SettledFields(c: Conn, next: Conn)
    requires next.outbox == c.outbox && next.policy == c.policy
    ensures Settled(c) ==> Settled(next)
  {
  }

  /** A delivery touches the channel table, the events and the jobs only. */
  lemma DeliveryFields(c: Conn, channel: ChannelId, family: u32, payload: Bytes, fate: Fate)
    requires Live(c, channel).Some?
    ensures var next := Apply(c, Delivery(channel, family, payload, fate));
            next == c.(channels := next.channels, events := next.events, jobs := next.jobs, families := next.families)
  {
  }

  // ---------------------------------------------------------------- calls

  /** The steps of any call. */
  lemma AsSteps(host: Host, c: Conn, call: Call) returns (ss: seq<Step>)
    requires Sane(c) && Sizable(call)
    ensures Run(c, ss) == Next(host, c, call) && Posts(ss) <= Cost(c, call)
    ensures Plainly(call) ==> Ordinary(ss)
    ensures Honest(host, c, ss)
    ensures !call.Load? ==> forall s <- ss :: !s.Adopt?
    ensures call.Load? ==> forall s <- ss :: s.Adopt? && PT.RestoreSpec(call.text) == Ok(s.w)
  {
    hide Run, Posts, Next, Apply, PT.RestoreSpec, Honest;
    match call {
      case Load(text) =>
        LoadStep(host, c, text);
        ss := Same(c);
        MuteHonest(host, c, ss);
        if PT.RestoreSpec(text).Ok? {
          Capacious(text);
          var w: Retained := PT.RestoreSpec(text).value;
          ss := [Adopt(w)];
          One(c, ss[0]);
          assert PT.RestoreSpec(text) == Ok(w);
          assert forall s <- ss :: s == Adopt(w);
          MuteHonest(host, c, ss);
        }
      case Complete(token, channel, sequence, family, response) =>
        CompleteStep(host, c, token, channel, sequence, family, response);
        ss := Same(c);
        if token != 0 && family != 0 {
          ss := [Foreign(channel, sequence, response)];
          One(c, ss[0]);
        }
        MuteHonest(host, c, ss);
      case _ =>
        ss := CallSteps(host, c, call);
        assert forall s <- ss :: !s.Adopt?;
    }
  }

  predicate AllSizable(calls: seq<Call>) { forall i :: 0 <= i < |calls| ==> Sizable(calls[i]) }

  function After(host: Host, c: Conn, calls: seq<Call>): Conn
    requires AllSizable(calls)
    decreases |calls|
  {
    if calls == [] then c else After(host, Next(host, c, calls[0]), calls[1..])
  }

  lemma {:induction false} RunSettled(c: Conn, ss: seq<Step>)
    requires Settled(c)
    ensures Settled(Run(c, ss))
    decreases |ss|
  {
    hide Settled, Apply;
    if ss != [] {
      StepSettled(c, ss[0]);
      RunSettled(Apply(c, ss[0]), ss[1..]);
    }
  }

  lemma {:induction false} StaysSettled(host: Host, c: Conn, calls: seq<Call>)
    requires Settled(c) && Sane(c) && AllSizable(calls)
    ensures Settled(After(host, c, calls)) && Sane(After(host, c, calls))
    decreases |calls|
  {
    hide Settled, Sane, Next, Run;
    if calls != [] {
      var ss := AsSteps(host, c, calls[0]);
      RunSettled(c, ss);
      RunSane(c, ss);
      StaysSettled(host, Next(host, c, calls[0]), calls[1..]);
    }
  }

  lemma NewSettled(policy: H.Policy)
    requires 1 <= policy.replayWindow
    ensures Settled(NewConn(policy)) && Sane(NewConn(policy))
  {
  }

  /**
   On every run, between any two calls: no control frame waits, whatever data waits is stalled, flushing
   yields nothing, and so each frame emitted is handed out whole at once or not at all.
   */
  lemma AlwaysSettled(host: Host, policy: H.Policy, calls: seq<Call>, f: F.Frame, writable: nat)
    requires 1 <= policy.replayWindow && AllSizable(calls)
    ensures var c := After(host, NewConn(policy), calls);
            && c.outbox.control == [] && (forall n :: S.Queue(c.outbox, n) != [] ==> S.Stalled(c.outbox, n))
            && FlushSpec(c, writable).1 == []
            && var r := EmitSpec(c, f).1;
               r.Ok? ==> r.value == if Open(c, f) then [F.EncodeSpec(Limits(c.policy), f).value] else []
  {
    hide After, NewConn, EmitSpec, FlushSpec, Open, F.EncodeSpec;
    NewSettled(policy);
    StaysSettled(host, NewConn(policy), calls);
    var c := After(host, NewConn(policy), calls);
    EmitOutcome(c, f);
    FlushNothing(c, writable);
  }

  lemma StepPolicy(c: Conn, s: Step)
    ensures Apply(c, s).policy == c.policy
  {
    hide PostSpec, FlushSpec, Absorb, C.TableApply, C.NewTable, P.AcknowledgeSpec, P.RetrySpec, Adopted, Delivered, Fated;
    match s {
      case Post(kind, channel, payload, extensions) => PostFrame(c, kind, channel, payload, extensions);
      case Write(writable) => WriteFrame(c, writable);
      case Adopt(w) => AdoptFrame(c, w);
      case Delivery(channel, family, payload, fate) =>
        if Live(c, channel).Some? { DeliveryFields(c, channel, family, payload, fate); }
      case _ =>
    }
  }

  lemma {:induction false} RunPolicy(c: Conn, ss: seq<Step>)
    ensures Run(c, ss).policy == c.policy
    decreases |ss|
  {
    hide Apply;
    if ss != [] {
      StepPolicy(c, ss[0]);
      RunPolicy(Apply(c, ss[0]), ss[1..]);
    }
  }

  lemma {:induction false} KeepsPolicy(host: Host, c: Conn, calls: seq<Call>)
    requires Sane(c) && AllSizable(calls)
    ensures After(host, c, calls).policy == c.policy
    decreases |calls|
  {
    hide Sane, Next, Run;
    if calls != [] {
      var ss := AsSteps(host, c, calls[0]);
      RunPolicy(c, ss);
      RunSane(c, ss);
      KeepsPolicy(host, Next(host, c, calls[0]), calls[1..]);
    }
  }

  // ---------------------------------------------------------------- a channel whose gate has shut

  /** Channel `n` waits for a frame number the connection has already given to something else. */
  predicate Shut(c: Conn, n: u32) { 0 < S.Expected(c.outbox, n) < c.nextFrame }

  lemma PostShut(c: Conn, kind: F.FrameType, channel: ChannelId, payload: Bytes, extensions: seq<X.Extension>, n: u32)
    requires Settled(c) && Shut(c, n) && c.nextFrame + 1 < U32_SPAN
    ensures var (next, r) := PostSpec(c, kind, channel, payload, extensions);
            && Settled(next) && Shut(next, n) && next.nextFrame == c.nextFrame + 1
            && (kind == F.Data && channel.number == n && r.Ok? ==> r.value == [])
  {
    hide EmitSpec, F.EncodeSpec, Settled;
    SettledFields(c, Numbered(c));
    EmitOutcome(Numbered(c), FrameOf(c, kind, channel, payload, extensions));
    PostFrame(c, kind, channel, payload, extensions);
  }

  /** A connection that has left its first state never loads a snapshot again. */
  lemma StepStarted(c: Conn, s: Step)
    requires c.state != Created
    ensures Apply(c, s).state != Created
    ensures s.Adopt? ==> Apply(c, s) == c
  {
    hide PostSpec, FlushSpec, Absorb, C.TableApply, C.NewTable, P.AcknowledgeSpec, P.RetrySpec, Adopted, Delivered, Fated;
    match s {
      case Post(kind, channel, payload, extensions) => PostFrame(c, kind, channel, payload, extensions);
      case Write(writable) => WriteFrame(c, writable);
      case Delivery(channel, family, payload, fate) =>
        if Live(c, channel).Some? { DeliveryFields(c, channel, family, payload, fate); }
      case _ =>
    }
  }

  lemma {:induction false} RunStarted(c: Conn, ss: seq<Step>)
    requires c.state != Created
    ensures Run(c, ss).state != Created
    decreases |ss|
  {
    hide Apply;
    if ss != [] {
      StepStarted(c, ss[0]);
      RunStarted(Apply(c, ss[0]), ss[1..]);
    }
  }

  lemma StepShut(c: Conn, s: Step, n: u32)
    requires Settled(c) && Shut(c, n) && c.state != Created && c.nextFrame + (if s.Post? then 1 else 0) < U32_SPAN
    ensures Shut(Apply(c, s), n)
    ensures c.nextFrame <= Apply(c, s).nextFrame <= c.nextFrame + if s.Post? then 1 else 0
  {
    hide Settled, PostSpec, FlushSpec, Absorb, C.TableApply, C.NewTable, P.AcknowledgeSpec, P.RetrySpec, Delivered, Fated;
    match s {
      case Post(kind, channel, payload, extensions) => PostShut(c, kind, channel, payload, extensions, n);
      case Write(writable) =>
        FlushNothing(c, writable);
        WriteFrame(c, writable);
      case Delivery(channel, family, payload, fate) =>
        if Live(c, channel).Some? { DeliveryFields(c, channel, family, payload, fate); }
      case _ =>
    }
  }

  lemma {:induction false} RunShut(c: Conn, ss: seq<Step>, n: u32)
    requires Settled(c) && Shut(c, n) && c.state != Created && c.nextFrame + Posts(ss) < U32_SPAN
    ensures Shut(Run(c, ss), n)
    decreases |ss|
  {
    hide Settled, Apply, Shut;
    if ss != [] {
      StepShut(c, ss[0], n);
      StepSettled(c, ss[0]);
      StepStarted(c, ss[0]);
      RunShut(Apply(c, ss[0]), ss[1..], n);
    }
  }

  /** No call of the run comes near the end of the frame numbers. */
  predicate NoWrap(host: Host, c: Conn, calls: seq<Call>)
    requires AllSizable(calls)
    decreases |calls|
  {
    calls == [] || (c.nextFrame + Cost(c, calls[0]) < U32_SPAN && NoWrap(host, Next(host, c, calls[0]), calls[1..]))
  }

  lemma {:induction false} ShutFragments(c: Conn, id: ChannelId, sequence: u32, payload: Bytes, size: nat, offset: nat, out: seq<Bytes>)
    requires size >= 1 && Settled(c) && Shut(c, id.number)
    requires c.nextFrame + (if offset < |payload| then |payload| - offset else 0) < U32_SPAN
    ensures var r := SendFrom(c, id, sequence, payload, size, offset, out).1;
            r.Ok? ==> r.value == out
    decreases |payload| - offset
  {
    hide PostSpec, Settled, Shut, DataExtensions;
    if offset < |payload| {
      var take := Min(size, |payload| - offset);
      var part, es := payload[offset..offset + take], DataExtensions(sequence, offset, |payload|);
      PostShut(c, F.Data, id, part, es, id.number);
      var (next, encoded) := PostSpec(c, F.Data, id, part, es);
      if encoded.Ok? {
        assert out + [] == out;
        ShutFragments(next, id, sequence, payload, size, offset + size, out + encoded.value);
      }
    }
  }

  lemma {:induction false} StaysShut(host: Host, c: Conn, calls: seq<Call>, n: u32)
    requires Settled(c) && Sane(c) && Shut(c, n) && c.state != Created
    requires AllSizable(calls) && NoWrap(host, c, calls)
    ensures Shut(After(host, c, calls), n)
    decreases |calls|
  {
    hide Settled, Sane, Next, Run, Shut, Cost;
    if calls != [] {
      var ss := AsSteps(host, c, calls[0]);
      RunShut(c, ss, n);
      RunSettled(c, ss);
      RunSane(c, ss);
      RunStarted(c, ss);
      StaysShut(host, Next(host, c, calls[0]), calls[1..], n);
    }
  }

  /**
   Once any other frame has taken the number a channel waits for, no later `send` on that channel ever
   hands out a byte, whatever calls come in between: it fails, or succeeds with nothing to write.
   */
  lemma ShutForever(host: Host, c: Conn, calls: seq<Call>, id: ChannelId, payload: Bytes)
    requires Settled(c) && Sane(c) && Shut(c, id.number) && c.state != Created
    requires |payload| < U64_SPAN && AllSizable(calls) && NoWrap(host, c, calls)
    requires After(host, c, calls).nextFrame + |payload| < U32_SPAN
    ensures var r := SendSpec(After(host, c, calls), id, payload).1;
            r.Ok? ==> r.value == []
  {
    hide After, NoWrap, Shut, Settled;
    StaysSettled(host, c, calls);
    StaysShut(host, c, calls, id.number);
    SendShut(After(host, c, calls), id, payload);
  }

  lemma SendShut(c: Conn, id: ChannelId, payload: Bytes)
    requires Settled(c) && Sane(c) && Shut(c, id.number) && |payload| < U64_SPAN && c.nextFrame + |payload| < U32_SPAN
    ensures SendSpec(c, id, payload).1.Ok? ==> SendSpec(c, id, payload).1.value == []
  {
    hide SendFrom, Settled, C.ReserveSpec, C.ReserveSequenceSpec, SaneTable;
    if SendSpec(c, id, payload).1.Ok? {
      var i := C.Find(c.channels.value, id).value;
      SendBody(c, id, payload, i);
      var (t, sequence) := C.ReserveSequenceSpec(c.channels.value, id);
      var c1 := c.(channels := Some(t));
      SettledFields(c, c1);
      ShutFragments(c1, id, sequence.value, payload, MaxFragment(c.capabilities.value), 0, []);
    }
  }

  /** How a gate shuts: the channel has handed out a frame, and then something else takes the next number. */
  lemma GateShuts(c: Conn, n: u32, kind: F.FrameType, channel: ChannelId, payload: Bytes, extensions: seq<X.Extension>)
    requires Settled(c) && 0 < S.Expected(c.outbox, n) == c.nextFrame && c.nextFrame + 1 < U32_SPAN
    requires kind != F.Data || channel.number != n
    ensures Shut(PostSpec(c, kind, channel, payload, extensions).0, n)
  {
    hide EmitSpec, F.EncodeSpec, Settled;
    SettledFields(c, Numbered(c));
    EmitOutcome(Numbered(c), FrameOf(c, kind, channel, payload, extensions));
    PostFrame(c, kind, channel, payload, extensions);
  }

  // ---------------------------------------------------------------- a gate is open or shut for good

  /** The gate of channel `id` lets the next frame through. */
  predicate GateOpen(c: Conn, id: ChannelId) {
    && S.Queue(c.outbox, id.number) == []
    && (S.Expected(c.outbox, id.number) == 0 || S.Expected(c.outbox, id.number) == c.nextFrame)
  }

  /** Nothing has been sent on any channel. */
  predicate Unused(c: Conn) {
    forall n: u32 :: S.Expected(c.outbox, n) == 0 && S.Queue(c.outbox, n) == []
  }

  /** No channel waits for a frame that is still to come, unless it is the very next; what is queued waits in vain. */
  ghost predicate Gated(c: Conn) {
    && (forall n :: S.Expected(c.outbox, n) <= c.nextFrame && (S.Queue(c.outbox, n) != [] ==> Shut(c, n)))
    && (c.state == Created ==> Unused(c))
  }

  lemma PostGated(c: Conn, kind: F.FrameType, channel: ChannelId, payload: Bytes, extensions: seq<X.Extension>)
    requires Settled(c) && Gated(c) && c.nextFrame + 1 < U32_SPAN && (kind == F.Data ==> c.state == Active)
    ensures Gated(PostSpec(c, kind, channel, payload, extensions).0)
  {
    hide EmitSpec, F.EncodeSpec, Settled;
    SettledFields(c, Numbered(c));
    EmitOutcome(Numbered(c), FrameOf(c, kind, channel, payload, extensions));
    PostFrame(c, kind, channel, payload, extensions);
    var next := PostSpec(c, kind, channel, payload, extensions).0;
    forall n
      ensures S.Expected(next.outbox, n) <= next.nextFrame && (S.Queue(next.outbox, n) != [] ==> Shut(next, n))
    {
      assert S.Expected(c.outbox, n) <= c.nextFrame && (S.Queue(c.outbox, n) != [] ==> Shut(c, n));
    }
  }

  lemma SameGates(c: Conn, next: Conn)
    requires Gated(c) && next.nextFrame == c.nextFrame && (next.state == Created ==> c.state == Created)
    requires forall n :: S.Expected(next.outbox, n) == S.Expected(c.outbox, n) && S.Queue(next.outbox, n) == S.Queue(c.outbox, n)
    ensures Gated(next)
  {
  }

  lemma UnusedGated(c: Conn)
    requires Unused(c)
    ensures Gated(c)
  {
  }

  lemma StepGated(c: Conn, s: Step)
    requires Settled(c) && Gated(c) && c.nextFrame + (if s.Post? then 1 else 0) < U32_SPAN
    ensures Gated(Apply(c, s))
    ensures !s.Adopt? ==> c.nextFrame <= Apply(c, s).nextFrame <= c.nextFrame + if s.Post? then 1 else 0
  {
    hide Settled, Gated, PostSpec, FlushSpec, Absorb, C.TableApply, C.NewTable, P.AcknowledgeSpec, P.RetrySpec, Delivered,
         Fated, Adopted;
    match s {
      case Post(kind, channel, payload, extensions) =>
        if kind != F.Data || c.state == Active {
          PostGated(c, kind, channel, payload, extensions);
          PostFrame(c, kind, channel, payload, extensions);
        }
      case Write(writable) =>
        FlushNothing(c, writable);
        WriteFrame(c, writable);
        SameGates(c, Apply(c, s));
      case Adopt(w) =>
        if c.state == Created {
          AdoptFrame(c, w);
          AdoptGated(c, Apply(c, s));
        }
      case Delivery(channel, family, payload, fate) =>
        if Live(c, channel).Some? { DeliveryFields(c, channel, family, payload, fate); }
        SameGates(c, Apply(c, s));
      case _ =>
        SameGates(c, Apply(c, s));
    }
  }

  lemma AdoptGated(c: Conn, next: Conn)
    requires Gated(c) && c.state == Created && next.outbox == c.outbox
    ensures Gated(next)
  {
    UnusedGated(next);
  }

  lemma {:induction false} RunGated(c: Conn, ss: seq<Step>)
    requires Settled(c) && Gated(c) && c.nextFrame + Posts(ss) < U32_SPAN && forall i :: 0 <= i < |ss| ==> !ss[i].Adopt?
    ensures Gated(Run(c, ss))
    decreases |ss|
  {
    hide Settled, Apply, Gated;
    if ss != [] {
      StepGated(c, ss[0]);
      StepSettled(c, ss[0]);
      RunGated(Apply(c, ss[0]), ss[1..]);
    }
  }

  lemma CallGated(host: Host, c: Conn, call: Call)
    requires Settled(c) && Sane(c) && Gated(c) && Sizable(call) && c.nextFrame + Cost(c, call) < U32_SPAN
    ensures Gated(Next(host, c, call)) && Settled(Next(host, c, call)) && Sane(Next(host, c, call))
  {
    hide Settled, Sane, Next, Run, Gated, Cost, Apply, PT.RestoreSpec;
    var ss := AsSteps(host, c, call);
    RunSettled(c, ss);
    RunSane(c, ss);
    if call.Load? {
      LoadStep(host, c, call.text);
      if PT.RestoreSpec(call.text).Ok? {
        Capacious(call.text);
        StepGated(c, Adopt(PT.RestoreSpec(call.text).value));
      }
    } else {
      assert forall i :: 0 <= i < |ss| ==> ss[i] in ss;
      RunGated(c, ss);
    }
  }

  lemma {:induction false} StaysGated(host: Host, c: Conn, calls: seq<Call>)
    requires Settled(c) && Sane(c) && Gated(c)
    requires AllSizable(calls) && NoWrap(host, c, calls)
    ensures Gated(After(host, c, calls))
    decreases |calls|
  {
    hide Settled, Sane, Next, Gated, Cost;
    if calls != [] {
      CallGated(host, c, calls[0]);
      StaysGated(host, Next(host, c, calls[0]), calls[1..]);
    }
  }

  /**
   On every run clear of the end of the frame numbers, snapshots loaded or not: each channel's gate is
   open, or it has shut, and then for good.
   */
  lemma OpenOrShut(host: Host, policy: H.Policy, calls: seq<Call>, id: ChannelId)
    requires 1 <= policy.replayWindow && AllSizable(calls) && NoWrap(host, NewConn(policy), calls)
    ensures var c := After(host, NewConn(policy), calls);
            && (GateOpen(c, id) <==> !Shut(c, id.number))
            && (Shut(c, id.number) ==> c.state != Created)
  {
    hide After, NoWrap, Settled, Sane, NewConn;
    NewSettled(policy);
    NewUnused(policy);
    UnusedGated(NewConn(policy));
    StaysGated(host, NewConn(policy), calls);
  }

  lemma NewUnused(policy: H.Policy)
    requires 1 <= policy.replayWindow
    ensures Unused(NewConn(policy))
  {
  }

  // ---------------------------------------------------------------- phases and capabilities

  predicate TableFits(t: C.Table, caps: H.Capabilities) {
    && LegalCaps(caps)
    && |t.slots| == caps.maxChannels && t.window == caps.window / caps.maxChannels && t.maxMessage == caps.maxMessage
  }

  /** Capabilities and the channel table come together, and only then can the connection be active. */
  predicate Phased(c: Conn) {
    && (c.capabilities.Some? <==> c.channels.Some?)
    && (c.capabilities.Some? ==> TableFits(c.channels.value, c.capabilities.value))
    && (c.capabilities.Some? ==> Within(c.capabilities.value, c.policy))
    && (c.state == Created || c.state == Negotiating ==> c.capabilities.None?)
    && (c.state == Active ==> c.capabilities.Some?)
  }

  lemma TableShape(t: C.Table, op: C.TableOp)
    requires !op.Update?
    ensures var next := C.TableApply(t, op);
            |next.slots| == |t.slots| && next.window == t.window && next.maxMessage == t.maxMessage
  {
  }

  lemma AbsorbShape(t: C.Table, i: nat, channel: ChannelId, sequence: u32, offset: u32, total: u32, bytes: Bytes)
    requires i < |t.slots| && |bytes| < U64_SPAN
    ensures var next := Absorb(t, i, channel, sequence, offset, total, bytes).0;
            && |next.slots| == |t.slots| && next.window == t.window && next.maxMessage == t.maxMessage
            && (forall j :: 0 <= j < |t.slots| ==>
                  && next.slots[j].id == t.slots[j].id && next.slots[j].state == t.slots[j].state
                  && next.slots[j].nextRecv == t.slots[j].nextRecv && next.slots[j].remoteClosed == t.slots[j].remoteClosed)
  {
    hide R.InsertSpec, C.ReserveSpec, C.ReleaseSpec;
  }

  /** Capabilities, once there, never change; a connection once started is never merely created again. */
  /** Same capabilities, phase and policy, and a table of the same shape. */
  predicate SamePhase(c: Conn, next: Conn) {
    && next.capabilities == c.capabilities && next.state == c.state && next.policy == c.policy
    && (next.channels.Some? <==> c.channels.Some?)
    && (c.channels.Some? ==>
          var t, u := c.channels.value, next.channels.value;
          |u.slots| == |t.slots| && u.window == t.window && u.maxMessage == t.maxMessage)
  }

  lemma SamePhased(c: Conn, next: Conn)
    requires Phased(c) && SamePhase(c, next)
    ensures Phased(next)
  {
    hide LegalCaps, Within;
  }

  lemma DeliveryPhase(c: Conn, channel: ChannelId, family: u32, payload: Bytes, fate: Fate)
    requires Live(c, channel).Some?
    ensures SamePhase(c, Apply(c, Delivery(channel, family, payload, fate)))
  {
  }

  lemma StepSamePhase(c: Conn, s: Step)
    requires !s.Agree? && !s.Turn?
    ensures SamePhase(c, Apply(c, s))
  {
    hide PostSpec, FlushSpec, Absorb, C.TableApply, P.AcknowledgeSpec, P.RetrySpec, Adopted, Delivered, Fated;
    match s {
      case Post(kind, channel, payload, extensions) => PostFrame(c, kind, channel, payload, extensions);
      case Write(writable) => WriteFrame(c, writable);
      case Adopt(w) => AdoptFrame(c, w);
      case Table(op) =>
        if c.channels.Some? && !op.Update? { TableShape(c.channels.value, op); }
      case Fragment(channel, sequence, offset, total, bytes) =>
        if Live(c, channel).Some? && |bytes| < U64_SPAN {
          AbsorbShape(c.channels.value, Live(c, channel).value, channel, sequence, offset, total, bytes);
        }
      case Delivery(channel, family, payload, fate) =>
        if Live(c, channel).Some? { DeliveryPhase(c, channel, family, payload, fate); }
      case _ =>
    }
  }

  lemma StepPhased(c: Conn, s: Step)
    requires Phased(c)
    ensures var next := Apply(c, s);
            && Phased(next)
            && (c.capabilities.Some? ==> next.capabilities == c.capabilities)
            && (next.capabilities != c.capabilities ==> s.Agree?)
            && (c.state != Created ==> next.state != Created)
  {
    if s.Agree? || s.Turn? {
      hide LegalCaps, Within;
    } else {
      hide Apply;
      StepSamePhase(c, s);
      SamePhased(c, Apply(c, s));
    }
  }

  lemma {:induction false} RunPhased(c: Conn, ss: seq<Step>)
    requires Phased(c)
    ensures var next := Run(c, ss);
            && Phased(next)
            && (c.capabilities.Some? ==> next.capabilities == c.capabilities)
            && (c.state != Created ==> next.state != Created)
    decreases |ss|
  {
    hide Phased, Apply;
    if ss != [] {
      StepPhased(c, ss[0]);
      RunPhased(Apply(c, ss[0]), ss[1..]);
    }
  }

  lemma {:induction false} StaysPhased(host: Host, c: Conn, calls: seq<Call>)
    requires Phased(c) && Sane(c) && AllSizable(calls)
    ensures var next := After(host, c, calls);
            && Phased(next) && Sane(next)
            && (c.capabilities.Some? ==> next.capabilities == c.capabilities)
    decreases |calls|
  {
    hide Phased, Sane, Next, Run;
    if calls != [] {
      var ss := AsSteps(host, c, calls[0]);
      RunPhased(c, ss);
      RunSane(c, ss);
      StaysPhased(host, Next(host, c, calls[0]), calls[1..]);
    }
  }

  lemma {:induction false} AfterAppend(host: Host, c: Conn, a: seq<Call>, b: seq<Call>)
    requires AllSizable(a) && AllSizable(b)
    ensures AllSizable(a + b) && After(host, c, a + b) == After(host, After(host, c, a), b)
    decreases |a|
  {
    hide Next;
    if a == [] {
      assert a + b == b;
    } else {
      assert (a + b)[1..] == a[1..] + b;
      AfterAppend(host, Next(host, c, a[0]), a[1..], b);
    }
  }

  /**
   On every run the capability set is set at most once and never altered, its limits are legal, and the
   connection is active only once it is set, also where RESUME has revived a closed connection.
   */
  lemma CapabilitiesOnce(host: Host, policy: H.Policy, calls: seq<Call>, more: seq<Call>)
    requires 1 <= policy.replayWindow && AllSizable(calls) && AllSizable(more) && AllSizable(calls + more)
    ensures var c, later := After(host, NewConn(policy), calls), After(host, NewConn(policy), calls + more);
            && (c.capabilities.Some? ==>
                  later.capabilities == c.capabilities && LegalCaps(c.capabilities.value) && Within(c.capabilities.value, policy))
            && (c.state == Active ==> c.capabilities.Some? && c.channels.Some?)
            && (c.state == Created || c.state == Negotiating ==> c.capabilities.None?)
  {
    hide After, NewConn;
    NewSettled(policy);
    assert Phased(NewConn(policy)) by { NewPhased(policy); }
    StaysPhased(host, NewConn(policy), calls);
    KeepsPolicy(host, NewConn(policy), calls);
    assert NewConn(policy).policy == policy by { NewPhased(policy); }
    AfterAppend(host, NewConn(policy), calls, more);
    StaysPhased(host, After(host, NewConn(policy), calls), more);
  }

  lemma NewPhased(policy: H.Policy)
    requires 1 <= policy.replayWindow
    ensures Phased(NewConn(policy)) && NewConn(policy).policy == policy
  {
  }
}
