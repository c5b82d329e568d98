/** Two new connections: the HELLOs cross, a channel is opened, and a whole conversation follows. */
module EngineMeet {
  import opened Types
  import opened Wire
  import opened EngineModel
  import opened EngineSteps
  import opened EngineRuns
  import opened EngineReplay
  import opened EngineLedger
  import opened EngineSend
  import opened EngineReceive
  import opened EngineTalk
  import opened EngineNumbers
  import opened EnginePair
  import Bits
  import F = FrameCodec
  import C = Channels
  import H = Hellos
  import P = Replay
  import S = Scheduler
  import T = Timers

  // ---------------------------------------------------------------- before any data

  /** Nothing but control frames has been emitted, and no input is left over. */
  ghost predicate Clean(c: Conn) {
    && Settled(c) && Sane(c) && Phased(c) && Recorded(c) && c.replay.epoch == 1
    && c.outbox.queued == 0 && Unused(c) && c.buffer == []
  }

  lemma NewClean(policy: H.Policy)
    requires 1 <= policy.replayWindow
    ensures var c := NewConn(policy);
            Clean(c) && c.policy == policy && c.state == Created && c.nextFrame == 1 && c.events == [] && c.capabilities.None?
  {
    NewSettled(policy);
    NewPhased(policy);
    NewRecorded(policy);
    NewUnused(policy);
  }

  lemma CleanFields(c: Conn, next: Conn)
    requires Clean(c) && Sane(next) && Phased(next) && next.policy == c.policy
    requires next.replay == c.replay && next.nextFrame == c.nextFrame && next.outbox == c.outbox && next.buffer == c.buffer
    ensures Clean(next)
  {
    SettledFields(c, next);
    SameRecorded(c, next);
  }

  lemma CleanNoted(c: Conn, e: Event)
    requires Clean(c)
    ensures Clean(Noted(c, e))
  {
    hide Settled, Recorded, Unused;
    CleanFields(c, Noted(c, e));
  }

  lemma PostClean(c: Conn, kind: F.FrameType, channel: ChannelId, payload: Bytes)
    requires Clean(c) && kind != F.Data && c.nextFrame + 1 < U32_SPAN
    ensures var next := PostSpec(c, kind, channel, payload, []).0;
            && Clean(next) && next.nextFrame == c.nextFrame + 1
            && next == c.(replay := next.replay, outbox := next.outbox, handed := next.handed, nextFrame := next.nextFrame)
  {
    hide Settled, Sane, Phased, Recorded, PostSpec, EmitSpec, F.EncodeSpec;
    var f := FrameOf(c, kind, channel, payload, []);
    var step := Post(kind, channel, payload, []);
    OnPost(c, kind, channel, payload, []);
    StepSettled(c, step);
    StepSane(c, step);
    StepPhased(c, step);
    PostRecorded(c, kind, channel, payload, []);
    PostEpoch(c, kind, channel, payload, []);
    PostFrame(c, kind, channel, payload, []);
    SettledFields(c, Numbered(c));
    PostIsEmit(c, kind, channel, payload, []);
    EmitOutcome(Numbered(c), f);
    assert forall n :: S.Expected(Numbered(c).outbox, n) == S.Expected(c.outbox, n);
    assert forall n :: S.Queue(Numbered(c).outbox, n) == S.Queue(c.outbox, n);
  }

  // ---------------------------------------------------------------- the handshake

  /** A connection that is about to send its HELLO. */
  function Begun(policy: H.Policy): Conn
    requires 1 <= policy.replayWindow
  {
    Scheduled(NewConn(policy).(state := Negotiating), T.Handshake, CONTROL, HANDSHAKE_TIMEOUT)
  }

  function HelloPayload(host: Host, policy: H.Policy): Bytes
    requires H.EncodeHelloSpec(LocalHello(host, policy)).Ok?
  {
    H.EncodeHelloSpec(LocalHello(host, policy)).value
  }

  lemma BegunClean(policy: H.Policy)
    requires 1 <= policy.replayWindow
    ensures var c := Begun(policy);
            && Clean(c) && c.policy == policy && c.state == Negotiating && c.nextFrame == 1 && c.events == []
            && c.capabilities.None?
  {
    NewClean(policy);
    hide Settled, Recorded, NewConn;
    CleanFields(NewConn(policy), Begun(policy));
  }

  lemma Started(host: Host, policy: H.Policy)
    requires 1 <= policy.replayWindow && StartSpec(host, NewConn(policy)).1.Ok?
    ensures H.EncodeHelloSpec(LocalHello(host, policy)).Ok?
    ensures StartSpec(host, NewConn(policy)) == PostSpec(Begun(policy), F.Hello, CONTROL, HelloPayload(host, policy), [])
    ensures var c := StartSpec(host, NewConn(policy)).0;
            && Clean(c) && c.policy == policy && c.state == Negotiating && c.nextFrame == 2 && c.events == []
            && c.capabilities.None?
  {
    hide PostSpec, H.EncodeHelloSpec, Clean;
    NewClean(policy);
    assert H.EncodeHelloSpec(LocalHello(host, policy)).Ok?;
    BegunClean(policy);
    PostClean(Begun(policy), F.Hello, CONTROL, HelloPayload(host, policy));
  }

  /** Two sides that can start, and whose HELLOs fit into a frame of the other. */
  ghost predicate CanMeet(a: Host, p: H.Policy, b: Host, q: H.Policy) {
    && 1 <= p.replayWindow && 1 <= q.replayWindow
    && H.Fits32(p) && H.Fits32(q)
    && |a.plugins| < 0x1_0000 && |b.plugins| < 0x1_0000
    && var ours, theirs := StartSpec(a, NewConn(p)).1, StartSpec(b, NewConn(q)).1;
       && ours.Ok? && |Flat(ours.value)| <= q.maxFrame
       && theirs.Ok? && |Flat(theirs.value)| <= p.maxFrame
  }

  lemma CanMeetBack(a: Host, p: H.Policy, b: Host, q: H.Policy)
    requires CanMeet(a, p, b, q)
    ensures CanMeet(b, q, a, p)
  {
  }

  /** The bytes of the other side's HELLO, received. */
  function Greeted(a: Host, p: H.Policy, b: Host, q: H.Policy): (Conn, Reply)
    requires 1 <= p.replayWindow && 1 <= q.replayWindow && StartSpec(b, NewConn(q)).1.Ok?
  {
    ReceiveSpec(a, StartSpec(a, NewConn(p)).0, Flat(StartSpec(b, NewConn(q)).1.value), false)
  }

  function Agreement(a: Host, p: H.Policy, b: Host, q: H.Policy): Result<H.Capabilities> {
    H.NegotiateSpec(LocalHello(a, p), LocalHello(b, q))
  }

  /** A HELLO, received: what both sides said decides. */
  lemma HelloCrosses(a: Host, p: H.Policy, b: Host, q: H.Policy)
    requires CanMeet(a, p, b, q)
    ensures Agreement(a, p, b, q).Ok? ==> 1 <= Agreement(a, p, b, q).value.maxChannels
    ensures var c := StartSpec(a, NewConn(p)).0;
            Greeted(a, p, b, q)
            == match Agreement(a, p, b, q)
               case Ok(caps) => Quiet(Agreed(c, caps))
               case Err(e) => Ended((c, Err(e)))
  {
    hide StartSpec, NewConn, Begun, PostSpec, H.EncodeHelloSpec, H.DecodeHelloSpec, H.NegotiateSpec, H.OverWire, ReceiveSpec,
         HandleFrame, Flat, Settled, Sane, Phased, Recorded, Unused, Agreed, H.DistinctFamilies;
    Started(a, p);
    Started(b, q);
    BegunClean(q);
    var c := StartSpec(a, NewConn(p)).0;
    var payload := HelloPayload(b, q);
    var f := FrameOf(Begun(q), F.Hello, CONTROL, payload, []);
    HandedSize(Begun(q), F.Hello, CONTROL, payload);
    Crosses(Begun(q), a, c, F.Hello, CONTROL, payload);
    var mine, yours := LocalHello(a, p), LocalHello(b, q);
    H.HelloRoundTrip(mine);
    H.HelloRoundTrip(yours);
    H.NegotiateOverWire(mine, yours);
    if Agreement(a, p, b, q).Ok? { SomeChannels(mine, yours); }
    assert HandleFrame(a, c, f) == HandleHello(a, c, f) by { HelloFrameHandled(a, c, f); }
    HelloHandled(a, c, f, H.OverWire(yours));
  }

  lemma HelloFrameHandled(host: Host, c: Conn, f: F.Frame)
    requires f.kind == F.Hello && |f.payload| < U64_SPAN
    ensures HandleFrame(host, c, f) == HandleHello(host, c, f)
  {
    hide HandleHello;
  }

  lemma HelloHandled(host: Host, c: Conn, f: F.Frame, peer: H.Hello)
    requires c.state == Negotiating && H.DecodeHelloSpec(f.payload) == Ok(peer)
    requires H.NegotiateSpec(LocalHello(host, c.policy), peer).Ok? ==>
               1 <= H.NegotiateSpec(LocalHello(host, c.policy), peer).value.maxChannels
    ensures HandleHello(host, c, f)
         == match H.NegotiateSpec(LocalHello(host, c.policy), peer)
            case Ok(caps) => Quiet(Agreed(c, caps))
            case Err(e) => (c, Err(e))
  {
    hide H.DecodeHelloSpec, H.NegotiateSpec, Agreed;
  }

  /** A side whose handshake has succeeded: a fresh table, and nothing sent but the HELLO. */
  ghost predicate Ready(c: Conn, policy: H.Policy, caps: H.Capabilities) {
    && Clean(c) && c.policy == policy && c.state == Active && c.capabilities == Some(caps) && c.nextFrame == 2
    && LegalCaps(caps) && Within(caps, policy)
    && c.channels == Some(C.NewTable(caps.maxChannels, caps.window / caps.maxChannels, caps.maxMessage))
    && (forall e <- c.events :: e.kind != MessageDelivered && e.kind != PluginResponse)
  }

  lemma AgreedReady(host: Host, policy: H.Policy, caps: H.Capabilities)
    requires 1 <= policy.replayWindow && StartSpec(host, NewConn(policy)).1.Ok?
    requires LegalCaps(caps) && Within(caps, policy)
    ensures Ready(Agreed(StartSpec(host, NewConn(policy)).0, caps), policy, caps)
  {
    hide StartSpec, NewConn, Begun, PostSpec, Settled, Sane, Recorded, Unused, C.NewTable, Run, Apply;
    Started(host, policy);
    var c := StartSpec(host, NewConn(policy)).0;
    var next := Agreed(c, caps);
    var ss := AgreedSteps(c, caps);
    RunSane(c, ss);
    RunPhased(c, ss);
    CleanFields(c, next);
    assert c.events == [];
  }

  lemma AgreementLegal(a: Host, p: H.Policy, b: Host, q: H.Policy)
    requires Agreement(a, p, b, q).Ok? && H.Fits32(p) && H.Fits32(q)
    ensures LegalCaps(Agreement(a, p, b, q).value)
    ensures Within(Agreement(a, p, b, q).value, p) && Within(Agreement(a, p, b, q).value, q)
  {
    hide H.AllMatches, H.TranscriptHash, Bits.And64, Bits.Or64, Bits.Not64;
  }

  /**
   The HELLOs of two new connections cross as bytes. Either both become active with the same capability set,
   transcript hash included, and a table of free channels each; or both report the same error and neither is
   active.
   */
  lemma Handshake(a: Host, p: H.Policy, b: Host, q: H.Policy)
    requires CanMeet(a, p, b, q)
    ensures var (ours, reply) := Greeted(a, p, b, q);
            var (theirs, answer) := Greeted(b, q, a, p);
            match Agreement(a, p, b, q)
            case Ok(caps) => reply == answer == Ok([]) && Ready(ours, p, caps) && Ready(theirs, q, caps)
            case Err(e) => reply == answer == Err(e) && ours.state != Active && theirs.state != Active
  {
    hide Greeted, Ready, StartSpec, NewConn, Agreement, Agreed;
    CanMeetBack(a, p, b, q);
    HelloCrosses(a, p, b, q);
    HelloCrosses(b, q, a, p);
    AgreementBack(a, p, b, q);
    Started(a, p);
    Started(b, q);
    if Agreement(a, p, b, q).Ok? {
      AgreementLegal(a, p, b, q);
      AgreedReady(a, p, Agreement(a, p, b, q).value);
      AgreedReady(b, q, Agreement(a, p, b, q).value);
    }
  }

  lemma AgreementBack(a: Host, p: H.Policy, b: Host, q: H.Policy)
    requires CanMeet(a, p, b, q)
    ensures Agreement(b, q, a, p) == Agreement(a, p, b, q)
  {
    hide StartSpec, NewConn, H.EncodeHelloSpec, H.DecodeHelloSpec, H.NegotiateSpec, H.DistinctFamilies, PostSpec, Flat;
    Started(a, p);
    Started(b, q);
    H.HelloRoundTrip(LocalHello(a, p));
    H.HelloRoundTrip(LocalHello(b, q));
    H.NegotiateSymmetric(LocalHello(a, p), LocalHello(b, q));
  }

  // ---------------------------------------------------------------- the first channel

  const FIRST: ChannelId := ChannelId(1, 1)

  lemma FreshTable(caps: H.Capabilities)
    requires LegalCaps(caps)
    ensures var t := C.NewTable(caps.maxChannels, caps.window / caps.maxChannels, caps.maxMessage);
            && |t.slots| == caps.maxChannels && C.FirstFree(t.slots) == 0
            && t.slots[0].state == C.Free && t.slots[0].id == ChannelId(1, 0)
            && C.AllocateSpec(t).1 == Ok(FIRST)
            && t.window == caps.window / caps.maxChannels && t.maxMessage == caps.maxMessage
  {
    Quotient(caps.window, caps.maxChannels);
    FreshSlots(caps.maxChannels, caps.window / caps.maxChannels, caps.maxMessage);
    FirstAllocated(C.NewTable(caps.maxChannels, caps.window / caps.maxChannels, caps.maxMessage));
  }

  lemma FreshSlots(channels: u16, window: u64, maxMessage: nat)
    requires channels >= 1
    ensures var t := C.NewTable(channels, window, maxMessage);
            && |t.slots| == channels && t.slots[0].state == C.Free && t.slots[0].id == ChannelId(1, 0)
            && t.window == window && t.maxMessage == maxMessage
  {
  }

  lemma FirstAllocated(t: C.Table)
    requires t.slots != [] && t.slots[0].state == C.Free && t.slots[0].id == ChannelId(1, 0)
    ensures C.FirstFree(t.slots) == 0 && C.AllocateSpec(t).1 == Ok(FIRST)
  {
    hide C.NewLifetime;
  }

  /** The table after `allocate` and `activate`. */
  function Activated(t: C.Table): C.Table { C.ActivateSpec(C.AllocateSpec(t).0, FIRST).0 }

  lemma FirstActivated(c: Conn, policy: H.Policy, caps: H.Capabilities)
    requires Ready(c, policy, caps)
    ensures c.channels.Some?
    ensures var t := c.channels.value;
            && C.AllocateSpec(t).1 == Ok(FIRST) && C.ActivateSpec(C.AllocateSpec(t).0, FIRST).1.Ok?
            && Clean(c.(channels := Some(Activated(t)))) && Activated(t).window == caps.window / caps.maxChannels
  {
    hide Settled, Recorded, Unused, C.NewTable, C.AllocateSpec, C.ActivateSpec, C.NewLifetime, Apply, Run;
    FreshTable(caps);
    var t := c.channels.value;
    OpenedIds(t);
    OpenedTable(t);
    OpenedWindow(t);
    var t1 := C.AllocateSpec(t).0;
    var ss := [Table(C.TableOp.Allocate), Table(C.TableOp.Activate(FIRST))];
    Two(c, ss[0], ss[1]);
    OnTable(c, ss[0].op);
    OnTable(c.(channels := Some(t1)), ss[1].op);
    RunSane(c, ss);
    RunPhased(c, ss);
    CleanFields(c, c.(channels := Some(Activated(t))));
  }

  lemma OpenBody(c: Conn, family: u32, window: u64)
    requires c.state == Active && c.channels.Some? && c.capabilities.Some? && Offers(c.capabilities.value, family)
    requires C.AllocateSpec(c.channels.value).1 == Ok(FIRST)
    requires C.ActivateSpec(C.AllocateSpec(c.channels.value).0, FIRST).1.Ok?
    ensures var c1 := c.(channels := Some(Activated(c.channels.value)));
            var (c2, out) := PostSpec(c1, F.Open, FIRST, U32Bytes(family) + U32Bytes(window % U32_SPAN), []);
            out.Ok? ==> OpenChannelSpec(c, family, window) == (Noted(c2, Plain(ChannelOpened, FIRST)), Ok((FIRST, out.value)))
  {
    hide PostSpec, C.AllocateSpec, C.ActivateSpec, Offers, U32Bytes;
  }

  /** With a family both sides offer, opening the first channel succeeds. */
  lemma FirstOpens(c: Conn, policy: H.Policy, caps: H.Capabilities, family: u32, window: u64)
    requires Ready(c, policy, caps) && Offers(caps, family)
    ensures var (next, r) := OpenChannelSpec(c, family, window);
            && r.Ok? && r.value.0 == FIRST && Clean(next) && next.policy == policy && next.state == Active
            && next.capabilities == Some(caps) && next.nextFrame == 3
            && next.channels.Some? && next.channels.value.window == caps.window / caps.maxChannels
  {
    hide PostSpec, OpenChannelSpec, Offers, U32Bytes, Settled, Sane, Phased, Recorded, Unused, C.NewTable, C.AllocateSpec, C.ActivateSpec,
         Activated, Clean, LegalCaps, Within;
    FirstActivated(c, policy, caps);
    var c1 := c.(channels := Some(Activated(c.channels.value)));
    var payload := U32Bytes(family) + U32Bytes(window % U32_SPAN);
    PostClean(c1, F.Open, FIRST, payload);
    ControlGoesOut(c1, F.Open, FIRST, payload);
    OpenBody(c, family, window);
    var c2 := PostSpec(c1, F.Open, FIRST, payload, []).0;
    CleanNoted(c2, Plain(ChannelOpened, FIRST));
  }

  lemma OpenedIds(t: C.Table)
    requires SaneTable(t)
    ensures forall i :: 0 <= i < |t.slots| ==> t.slots[i].id.number == i + 1
  {
    forall i | 0 <= i < |t.slots|
      ensures t.slots[i].id.number == i + 1
    {
      assert SaneSlot(t, i);
    }
  }

  lemma OpenedWindow(t: C.Table)
    requires C.AllocateSpec(t).1.Ok?
    ensures C.ActivateSpec(C.AllocateSpec(t).0, C.AllocateSpec(t).1.value).0.window == t.window
  {
  }

  /** A short control frame goes out from a clean connection with legal limits. */
  lemma ControlGoesOut(c: Conn, kind: F.FrameType, channel: ChannelId, payload: Bytes)
    requires Clean(c) && c.capabilities.Some? && kind != F.Data && |payload| <= 8 && channel.number <= F.MAX_CHANNEL_NO
    ensures PostSpec(c, kind, channel, payload, []).1.Ok?
  {
    hide F.EncodeSpec, EmitSpec, P.Contains, Sane, Unused;
    var f := FrameOf(c, kind, channel, payload, []);
    ShortEncodes(Limits(c.policy), f);
    NotContained(c);
    SettledFields(c, Numbered(c));
    EmitsIff(Numbered(c), f);
  }

  /** The bytes that announce the first channel. */
  function Announcement(a: Host, p: H.Policy, b: Host, q: H.Policy, family: u32, window: u64): Bytes
    requires 1 <= p.replayWindow && 1 <= q.replayWindow && StartSpec(b, NewConn(q)).1.Ok?
  {
    var r := OpenChannelSpec(Greeted(a, p, b, q).0, family, window).1;
    if r.Ok? then Flat(r.value.1) else []
  }

  /** Both sides after one has opened the first channel and the other has received what it handed out. */
  function Opened(a: Host, p: H.Policy, b: Host, q: H.Policy, family: u32, window: u64): (Conn, Conn)
    requires 1 <= p.replayWindow && 1 <= q.replayWindow
    requires StartSpec(a, NewConn(p)).1.Ok? && StartSpec(b, NewConn(q)).1.Ok?
  {
    (OpenChannelSpec(Greeted(a, p, b, q).0, family, window).0,
     ReceiveSpec(b, Greeted(b, q, a, p).0, Announcement(a, p, b, q, family, window), false).0)
  }

  /** A channel in use for the first time on either side. */
  ghost predicate FirstUse(c: Conn, d: Conn, caps: H.Capabilities) {
    && Paired(c, d, FIRST, 0) && c.capabilities == Some(caps)
    && SendSlot(c, FIRST).nextSend == 1 && c.nextFrame == 3
    && c.channels.Some? && c.channels.value.window == caps.window / caps.maxChannels
    && d.channels.Some? && d.channels.value.window == caps.window / caps.maxChannels
    && SendSlot(d, FIRST).fragments == C.NewFragments(caps.maxMessage)
    && (forall e <- d.events :: e.kind != MessageDelivered && e.kind != PluginResponse)
  }

  lemma ReadyPair(host: Host, c: Conn, p: H.Policy, d: Conn, q: H.Policy, caps: H.Capabilities, family: u32, window: u64)
    requires Ready(c, p, caps) && Ready(d, q, caps) && Offers(caps, family)
    ensures OpenChannelSpec(c, family, window).1.Ok?
    ensures var (ours, r) := OpenChannelSpec(c, family, window);
            FirstUse(ours, ReceiveSpec(host, d, Flat(r.value.1), false).0, caps)
  {
    hide OpenChannelSpec, ReceiveSpec, Offers, Settled, Sane, Phased, Recorded, Unused, C.NewTable, Flat, C.AllocateSpec;
    FreshTable(caps);
    FirstOpens(c, p, caps, family, window);
    OpenIsAccepted(host, c, d, family, window);
    var (ours, r) := OpenChannelSpec(c, family, window);
    var theirs := ReceiveSpec(host, d, Flat(r.value.1), false).0;
    UnusedOpen(ours, FIRST);
  }

  lemma UnusedOpen(c: Conn, id: ChannelId)
    requires Unused(c)
    ensures GateOpen(c, id)
  {
  }

  /**
   Two new connections that can meet and agree, and a family both offer: the first channel opens at one side,
   its bytes open it at the other, and both are ready for a conversation.
   */
  lemma FirstPairs(a: Host, p: H.Policy, b: Host, q: H.Policy, family: u32, window: u64)
    requires CanMeet(a, p, b, q) && Agreement(a, p, b, q).Ok? && Offers(Agreement(a, p, b, q).value, family)
    ensures var (c, d) := Opened(a, p, b, q, family, window);
            FirstUse(c, d, Agreement(a, p, b, q).value)
  {
    hide Greeted, Ready, StartSpec, NewConn, Agreement, OpenChannelSpec, ReceiveSpec, Offers, FirstUse, Flat;
    Handshake(a, p, b, q);
    ReadyPair(b, Greeted(a, p, b, q).0, p, Greeted(b, q, a, p).0, q, Agreement(a, p, b, q).value, family, window);
  }

  // ---------------------------------------------------------------- a conversation from nothing

  /** Messages within what was agreed, and few enough that no number comes round. */
  predicate Modest(caps: H.Capabilities, ms: seq<Bytes>)
    requires 1 <= caps.maxChannels
  {
    && (forall m <- ms :: |m| <= caps.maxMessage && |m| <= caps.window / caps.maxChannels)
    && 3 + Total(ms) < U32_SPAN && 1 + |ms| < U32_SPAN
  }

  lemma FirstSized(c: Conn, d: Conn, caps: H.Capabilities, ms: seq<Bytes>)
    requires FirstUse(c, d, caps) && 1 <= caps.maxChannels && Modest(caps, ms)
    ensures AllSized(c, d, FIRST, ms) && Got(d.events, FIRST) == []
  {
    hide Settled, Sane, Phased, Recorded, GateOpen, Live;
    PairedShape(c, d, FIRST, 0);
    NothingGot(d.events, FIRST);
  }

  lemma {:induction false} NothingGot(events: seq<Event>, id: ChannelId)
    requires forall e <- events :: e.kind != MessageDelivered && e.kind != PluginResponse
    ensures Got(events, id) == [] && Deliveries(events, id) == [] && Responses(events, id) == []
    decreases |events|
  {
    if events != [] {
      assert events[|events| - 1] in events;
      NothingGot(events[..|events| - 1], id);
    }
  }

  /**
   Handshake, channel, messages, from two new connections and all as bytes: the messages before the first
   empty one arrive at the other side, whole, in order, once each, numbered from 1, and no other does.
   */
  lemma Conversation(a: Host, p: H.Policy, b: Host, q: H.Policy, family: u32, window: u64, ms: seq<Bytes>)
    requires CanMeet(a, p, b, q) && Agreement(a, p, b, q).Ok? && Offers(Agreement(a, p, b, q).value, family)
    requires 1 <= Agreement(a, p, b, q).value.maxChannels && Modest(Agreement(a, p, b, q).value, ms)
    requires AllMild(b, FIRST, 1, BeforeEmpty(ms))
    ensures forall m <- ms :: |m| < U64_SPAN
    ensures var (c, d) := Opened(a, p, b, q, family, window);
            Got(Exchange(b, c, d, FIRST, ms).1.events, FIRST) == Labelled(1, BeforeEmpty(ms))
  {
    hide Opened, StartSpec, NewConn, Agreement, Offers, Exchange, AllMild, Got, Paired, AllSized, Labelled, Modest;
    var (c, d) := Opened(a, p, b, q, family, window);
    FirstPairs(a, p, b, q, family, window);
    FirstSized(c, d, Agreement(a, p, b, q).value, ms);
    MessagesArrive(b, c, d, FIRST, ms);
    assert [] + Labelled(1, BeforeEmpty(ms)) == Labelled(1, BeforeEmpty(ms));
  }

  // ---------------------------------------------------------------- answers nobody asked for

  /** The receiving side's calls up to here. */
  function Opening(hello: Bytes, open: Bytes): (calls: seq<Call>)
    ensures AllSizable(calls)
  {
    [Start, Receive(hello, false), Receive(open, false)]
  }

  function OpeningOf(a: Host, p: H.Policy, b: Host, q: H.Policy, family: u32, window: u64): (calls: seq<Call>)
    requires 1 <= p.replayWindow && 1 <= q.replayWindow
    requires StartSpec(a, NewConn(p)).1.Ok? && StartSpec(b, NewConn(q)).1.Ok?
    ensures AllSizable(calls)
  {
    Opening(Flat(StartSpec(a, NewConn(p)).1.value), Announcement(a, p, b, q, family, window))
  }

  lemma OpeningReaches(a: Host, p: H.Policy, b: Host, q: H.Policy, family: u32, window: u64)
    requires 1 <= p.replayWindow && 1 <= q.replayWindow
    requires StartSpec(a, NewConn(p)).1.Ok? && StartSpec(b, NewConn(q)).1.Ok?
    ensures After(b, NewConn(q), OpeningOf(a, p, b, q, family, window)) == Opened(a, p, b, q, family, window).1
  {
    hide StartSpec, NewConn, ReceiveSpec, After, Announcement, Flat;
    var calls := OpeningOf(a, p, b, q, family, window);
    ThreeCalls(b, NewConn(q), calls[0], calls[1], calls[2]);
  }

  /**
   A message that was never delivered is answered, and answered again: on the channel just opened two calls of
   `complete_plugin` from outside, for any number, are both accepted.
   */
  lemma AnsweredUnasked(a: Host, p: H.Policy, b: Host, q: H.Policy, family: u32, window: u64, n: u32, response: Bytes)
    requires CanMeet(a, p, b, q) && Agreement(a, p, b, q).Ok? && Offers(Agreement(a, p, b, q).value, family)
    ensures var claim := Complete(1, FIRST, n, 7, response);
            var d := After(b, NewConn(q), OpeningOf(a, p, b, q, family, window));
            var c := Next(b, Next(b, d, claim), claim);
            Deliveries(c.events, FIRST) == [] && Responses(c.events, FIRST) == [n, n]
  {
    hide StartSpec, NewConn, After, OpeningOf, Opened, Agreement, Offers, Next, Deliveries, Responses, FirstUse;
    var (c, d) := Opened(a, p, b, q, family, window);
    FirstPairs(a, p, b, q, family, window);
    OpeningReaches(a, p, b, q, family, window);
    FirstLive(c, d, Agreement(a, p, b, q).value);
    ClaimTwice(b, d, FIRST, n, response);
    assert [] + [n] + [n] == [n, n];
  }

  lemma ClaimTwice(host: Host, c: Conn, id: ChannelId, sequence: u32, response: Bytes)
    requires Live(c, id).Some?
    ensures var claim := Complete(1, id, sequence, 7, response);
            var next := Next(host, Next(host, c, claim), claim);
            && Deliveries(next.events, id) == Deliveries(c.events, id)
            && Responses(next.events, id) == Responses(c.events, id) + [sequence] + [sequence]
  {
    hide Next, Deliveries, Responses;
    ClaimAnswers(host, c, id, sequence, response);
    var once := Next(host, c, Complete(1, id, sequence, 7, response));
    LiveFields(c, once, id);
    ClaimAnswers(host, once, id, sequence, response);
  }

  lemma FirstLive(c: Conn, d: Conn, caps: H.Capabilities)
    requires FirstUse(c, d, caps)
    ensures Live(d, FIRST).Some? && Deliveries(d.events, FIRST) == [] && Responses(d.events, FIRST) == []
  {
    PairedShape(c, d, FIRST, 0);
    NothingGot(d.events, FIRST);
  }
}
