/** Whole conversations on one channel: messages one after another, what breaks them off, and what never arrives. */
module EngineTalk {
  import opened Types
  import opened Sorting
  import opened Wire
  import opened EngineModel
  import opened EngineSteps
  import opened EngineRuns
  import opened EngineReplay
  import opened EngineSend
  import opened EngineReceive
  import F = FrameCodec
  import C = Channels
  import R = Reassembling
  import S = Scheduler
  import X = Extensions

  // ---------------------------------------------------------------- the two ends between messages

  /** The sender's side of a channel that is in use: everything `CanSend` asks for but the payload. */
  ghost predicate SenderOpen(c: Conn, id: ChannelId) {
    && Settled(c) && Sane(c) && Phased(c) && Recorded(c) && c.replay.epoch == 1 && GateOpen(c, id)
    && c.state == Active && Live(c, id).Some?
    && !c.channels.value.slots[Live(c, id).value].localClosed
    && c.outbox.queued + c.capabilities.value.maxFrame <= c.policy.window
  }

  /** The receiver's side: open, idle between batches, and with no fragment of any message from `from` on. */
  ghost predicate ReceiverOpen(d: Conn, id: ChannelId, from: int, maxFrame: nat) {
    && d.state == Active && Sane(d) && Live(d, id).Some? && d.buffer == [] && maxFrame <= d.policy.maxFrame
    && !d.channels.value.slots[Live(d, id).value].remoteClosed
    && forall k <- d.channels.value.slots[Live(d, id).value].fragments.pending :: k < from
  }

  function SendSlot(c: Conn, id: ChannelId): C.Slot
    requires Live(c, id).Some?
  {
    c.channels.value.slots[Live(c, id).value]
  }

  /** Both ends are ready, and the receiver waits for number `SendSlot.nextSend - lag`. */
  ghost predicate Paired(c: Conn, d: Conn, id: ChannelId, lag: int) {
    && SenderOpen(c, id)
    && ReceiverOpen(d, id, SendSlot(c, id).nextSend, c.capabilities.value.maxFrame)
    && SendSlot(d, id).nextRecv == SendSlot(c, id).nextSend - lag
  }

  /** A message both ends have room for. */
  predicate Sized(c: Conn, d: Conn, id: ChannelId, m: Bytes)
    requires c.capabilities.Some? && Live(c, id).Some? && Live(d, id).Some?
  {
    && |m| <= c.capabilities.value.maxMessage
    && |m| <= c.channels.value.window && |m| <= d.channels.value.window
    && SendSlot(d, id).fragments.retained + |m| <= SendSlot(d, id).fragments.limit
  }

  function Total(ms: seq<Bytes>): nat {
    if ms == [] then 0 else |ms[0]| + Total(ms[1..])
  }

  /** Messages both ends have room for, and numbers for all of them. */
  ghost predicate AllSized(c: Conn, d: Conn, id: ChannelId, ms: seq<Bytes>) {
    && c.capabilities.Some? && Live(c, id).Some? && Live(d, id).Some?
    && (forall m <- ms :: Sized(c, d, id, m))
    && c.nextFrame + Total(ms) < U32_SPAN && SendSlot(c, id).nextSend + |ms| < U32_SPAN
  }

  lemma MaySendOne(c: Conn, d: Conn, id: ChannelId, ms: seq<Bytes>, lag: nat)
    requires Paired(c, d, id, lag) && AllSized(c, d, id, ms) && ms != [] && ms[0] != []
    ensures CanSend(c, id, ms[0]) && |ms[0]| < U64_SPAN
    ensures CanTake(d, id, SendSlot(c, id).nextSend, ms[0], c.capabilities.value.maxFrame)
    ensures SendSlot(d, id).nextRecv == SendSlot(c, id).nextSend - lag
    ensures lag == 0 ==> CanReceive(d, id, SendSlot(c, id).nextSend, ms[0], c.capabilities.value.maxFrame)
  {
    hide Settled, Sane, Recorded, GateOpen, R.ValidStore;
    assert ms[0] in ms;
    CapsFit(c);
  }

  lemma CapsFit(c: Conn)
    requires Phased(c) && c.state == Active
    ensures c.capabilities.Some? && LegalCaps(c.capabilities.value)
  {
  }

  /** What `send` leaves at the sender. */
  lemma SenderKeeps(c: Conn, id: ChannelId, m: Bytes)
    requires CanSend(c, id, m) && |m| < U64_SPAN
    ensures var next := SendSpec(c, id, m).0;
            && SenderOpen(next, id) && Live(next, id) == Live(c, id)
            && next.capabilities == c.capabilities && next.channels.Some? && c.channels.Some?
            && next.channels.value.window == c.channels.value.window
            && SendSlot(next, id).nextSend == SendSlot(c, id).nextSend + 1
            && c.nextFrame < next.nextFrame <= c.nextFrame + |m|
            && S.Expected(next.outbox, id.number) == next.nextFrame
  {
    hide SendSpec, Settled, Sane, Recorded, GateOpen, Phased;
    SendHandsOut(c, id, m);
    SenderShape(c, id, m);
    var t := c.channels.value;
    var c1 := c.(channels := Some(C.ReserveSequenceSpec(t, id).0));
    var next := SendSpec(c, id, m).0;
    var step := Table(C.TableOp.ReserveSequence(id));
    OnTable(c, step.op);
    StepSane(c, step);
    StepPhased(c, step);
    SendsShape(c1, next, id, |Sent(c, id, m)|);
    SameSides(c1, next);
    ReservedSlot(t, id);
    SlotCounter(c, id, m);
  }

  lemma SlotCounter(c: Conn, id: ChannelId, m: Bytes)
    requires CanSend(c, id, m)
    ensures SendSlot(c, id).nextSend < U32_SPAN - 1 && c.channels.Some?
    ensures c.state == Active && c.capabilities.Some? && !SendSlot(c, id).localClosed
    ensures c.outbox.queued + c.capabilities.value.maxFrame <= c.policy.window
  {
  }

  lemma SameSides(a: Conn, b: Conn)
    requires a.channels == b.channels && a.capabilities == b.capabilities && a.state == b.state && a.policy == b.policy
    ensures Sane(a) ==> Sane(b)
    ensures Phased(a) ==> Phased(b)
  {
  }

  lemma ReservedSlot(t: C.Table, id: ChannelId)
    requires C.Find(t, id).Some? && t.slots[C.Find(t, id).value].nextSend < U32_SPAN - 1
    ensures var next := C.ReserveSequenceSpec(t, id).0;
            var i := C.Find(t, id).value;
            && C.Find(next, id) == Some(i) && next.window == t.window
            && next.slots[i] == t.slots[i].(nextSend := t.slots[i].nextSend + 1)
  {
  }

  // ---------------------------------------------------------------- the receiver after a delivery

  /** The plugin that `send` names does not ask for the connection to be closed over this message. */
  predicate Mild(host: Host, message: R.LogicalMessage) {
    var r := host.respond(7, message);
    r.Err? ==> r.error.action != CloseConnection
  }

  lemma DispatchedKeeps(host: Host, c: Conn, message: R.LogicalMessage)
    requires Mild(host, message) && c.state == Active
    ensures var next := Dispatched(host, c, message).0;
            && next.channels == c.channels && next.buffer == c.buffer && next.policy == c.policy && next.state == Active
  {
    hide C.Find;
    var response := host.respond(7, message);
  }

  lemma DeliveredSlot(d: Conn, later: Conn, id: ChannelId, m: Bytes)
    requires Live(d, id).Some?
    ensures var next := AfterDelivery(d, later, id, m);
            && Live(next, id) == Live(d, id) && next.channels.Some? && next.channels.value.window == d.channels.value.window
            && SendSlot(next, id) == SendSlot(d, id).(nextRecv := (SendSlot(d, id).nextRecv + 1) % U32_SPAN)
            && next.state == d.state && next.buffer == d.buffer && next.policy == d.policy
  {
  }

  /** The receiver's side carries over to any state with the same table. */
  lemma ReceiverFields(d: Conn, next: Conn, id: ChannelId, from: int, more: int, maxFrame: nat)
    requires ReceiverOpen(d, id, from, maxFrame) && from <= more
    requires Live(next, id) == Live(d, id) && next.channels.Some? && Sane(next)
    requires SendSlot(next, id).fragments == SendSlot(d, id).fragments
    requires SendSlot(next, id).remoteClosed == SendSlot(d, id).remoteClosed
    requires next.state == Active && next.buffer == d.buffer && next.policy == d.policy
    ensures ReceiverOpen(next, id, more, maxFrame)
  {
    hide Sane;
  }

  // ---------------------------------------------------------------- message after message

  /** Each message is sent, and what was handed out for it is received. */
  function Exchange(host: Host, c: Conn, d: Conn, id: ChannelId, ms: seq<Bytes>): (Conn, Conn)
    requires forall m <- ms :: |m| < U64_SPAN
    decreases |ms|
  {
    if ms == [] then (c, d)
    else
      assert ms[0] in ms;
      var (c1, r) := SendSpec(c, id, ms[0]);
      var d1 := if r.Ok? then ReceiveSpec(host, d, Flat(r.value), false).0 else d;
      Exchange(host, c1, d1, id, ms[1..])
  }

  /** The messages delivered on channel `id`, with their numbers. */
  function Got(events: seq<Event>, id: ChannelId): seq<(u32, Bytes)> {
    if events == [] then []
    else
      var last := events[|events| - 1];
      Got(events[..|events| - 1], id)
      + if last.kind == MessageDelivered && last.channel == id then [(last.sequence, last.payload)] else []
  }

  lemma GotSnoc(events: seq<Event>, e: Event, id: ChannelId)
    ensures Got(events + [e], id)
         == Got(events, id) + if e.kind == MessageDelivered && e.channel == id then [(e.sequence, e.payload)] else []
  {
    assert (events + [e])[..|events|] == events;
  }

  lemma {:induction false} GotNoMore(events: seq<Event>, n: nat, id: ChannelId)
    requires n <= |events| && forall k :: n <= k < |events| ==> events[k].kind != MessageDelivered
    ensures Got(events, id) == Got(events[..n], id)
    decreases |events|
  {
    if n == |events| {
      assert events[..n] == events;
    } else {
      var shorter := events[..|events| - 1];
      GotNoMore(shorter, n, id);
      assert shorter[..n] == events[..n];
      assert Got(shorter, id) + [] == Got(shorter, id);
    }
  }

  function Labelled(n: int, ms: seq<Bytes>): seq<(int, Bytes)>
    decreases |ms|
  {
    if ms == [] then [] else [(n, ms[0])] + Labelled(n + 1, ms[1..])
  }

  /** The plugin closes over none of the messages, numbered from `n` on. */
  predicate AllMild(host: Host, id: ChannelId, n: int, ms: seq<Bytes>)
    decreases |ms|
  {
    ms == []
    || ((0 <= n < U32_SPAN ==> Mild(host, R.LogicalMessage(id, n, ms[0]))) && AllMild(host, id, n + 1, ms[1..]))
  }

  /** The messages in front of the first empty one. */
  function BeforeEmpty(ms: seq<Bytes>): (front: seq<Bytes>)
    ensures |front| <= |ms|
  {
    if ms == [] || ms[0] == [] then [] else [ms[0]] + BeforeEmpty(ms[1..])
  }

  /** One message across: both ends are ready for the next, and it is the one event of its kind. */
  lemma OneExchange(host: Host, c: Conn, d: Conn, id: ChannelId, ms: seq<Bytes>)
    requires Paired(c, d, id, 0) && AllSized(c, d, id, ms) && ms != [] && ms[0] != []
    requires Mild(host, R.LogicalMessage(id, SendSlot(c, id).nextSend, ms[0]))
    ensures |ms[0]| < U64_SPAN && SendSpec(c, id, ms[0]).1.Ok?
    ensures var c1 := SendSpec(c, id, ms[0]).0;
            var d1 := ReceiveSpec(host, d, Flat(SendSpec(c, id, ms[0]).1.value), false).0;
            && Paired(c1, d1, id, 0) && AllSized(c1, d1, id, ms[1..])
            && SendSlot(c1, id).nextSend == SendSlot(c, id).nextSend + 1
            && Got(d1.events, id) == Got(d.events, id) + [(SendSlot(c, id).nextSend, ms[0])]
  {
    hide SendSpec, ReceiveSpec, CanSend, CanTake, SenderOpen, ReceiverOpen, Dispatched, AfterDelivery, Live, Flat, Got, Sized, Mild;
    var m := ms[0];
    MaySendOne(c, d, id, ms, 0);
    PairedShape(c, d, id, 0);
    SenderKeeps(c, id, m);
    var c1 := SendSpec(c, id, m).0;
    var later := SendThenReceive(c, host, d, id, m);
    var mid := AfterDelivery(d, later, id, m);
    DeliveredSlot(d, later, id, m);
    var message := R.LogicalMessage(id, SendSlot(c, id).nextSend, m);
    DispatchedKeeps(host, mid, message);
    var d1 := ReceiveSpec(host, d, Flat(SendSpec(c, id, m).1.value), false).0;
    LiveFields(mid, d1, id);
    DeliveredStaysSane(d, later, id, m);
    SaneChannels(mid, d1);
    ReceiverFields(d, d1, id, SendSlot(c, id).nextSend, SendSlot(c1, id).nextSend, c.capabilities.value.maxFrame);
    StillSized(c, d, c1, d1, id, ms);
    GotDelivery(host, d, later, id, m, message);
  }

  lemma PairedShape(c: Conn, d: Conn, id: ChannelId, lag: int)
    requires Paired(c, d, id, lag)
    ensures Live(c, id).Some? && Live(d, id).Some? && c.capabilities.Some? && Sane(d) && d.state == Active
    ensures c.channels.Some? && d.channels.Some?
  {
  }

  lemma SaneChannels(a: Conn, b: Conn)
    requires a.channels == b.channels && Sane(a)
    ensures Sane(b)
  {
  }

  lemma DeliveredStaysSane(d: Conn, later: Conn, id: ChannelId, m: Bytes)
    requires Sane(d) && Live(d, id).Some?
    ensures Sane(AfterDelivery(d, later, id, m))
  {
    hide Delivered;
    SaneChannels(d, d.(timers := later.timers));
    DeliveredSane(d.(timers := later.timers), Live(d, id).value, id, 7, m);
  }

  lemma StillSized(c: Conn, d: Conn, c1: Conn, d1: Conn, id: ChannelId, ms: seq<Bytes>)
    requires AllSized(c, d, id, ms) && ms != []
    requires Live(c1, id).Some? && Live(d1, id).Some? && c1.capabilities == c.capabilities
    requires c1.channels.value.window == c.channels.value.window && d1.channels.value.window == d.channels.value.window
    requires SendSlot(d1, id).fragments == SendSlot(d, id).fragments
    requires SendSlot(c1, id).nextSend == SendSlot(c, id).nextSend + 1 && c1.nextFrame <= c.nextFrame + |ms[0]|
    ensures AllSized(c1, d1, id, ms[1..])
  {
    hide Live, R.ValidStore;
    forall m | m in ms[1..]
      ensures Sized(c1, d1, id, m)
    {
      assert m in ms;
    }
  }

  lemma GotDelivery(host: Host, d: Conn, later: Conn, id: ChannelId, m: Bytes, message: R.LogicalMessage)
    requires Live(d, id).Some?
    ensures var mid := AfterDelivery(d, later, id, m);
            Got(Dispatched(host, mid, message).0.events, id) == Got(d.events, id) + [(SendSlot(d, id).nextRecv, m)]
  {
    hide Dispatched;
    var mid := AfterDelivery(d, later, id, m);
    DispatchedEvents(host, mid, message);
    GotNoMore(Dispatched(host, mid, message).0.events, |mid.events|, id);
    GotSnoc(d.events, MessageEvent(id, SendSlot(d, id).nextRecv, m), id);
  }

  lemma SizedSmall(c: Conn, d: Conn, id: ChannelId, m: Bytes)
    requires c.capabilities.Some? && Live(c, id).Some? && Live(d, id).Some? && Sized(c, d, id, m) && Sane(d)
    ensures |m| < U64_SPAN
  {
  }

  // ---------------------------------------------------------------- an empty send

  /** An empty `send` takes a number and hands out nothing. */
  lemma EmptySend(c: Conn, id: ChannelId)
    requires SenderOpen(c, id) && SendSlot(c, id).nextSend < U32_SPAN - 1
    ensures c.channels.Some?
    ensures SendSpec(c, id, []) == (c.(channels := Some(C.ReserveSequenceSpec(c.channels.value, id).0)), Ok([]))
  {
    hide Settled, Sane, Recorded, GateOpen, C.ReserveSequenceSpec, C.Find;
    ReservesAll(c, Live(c, id).value, id, 0);
    SendBody(c, id, [], Live(c, id).value);
  }

  /** After it the sender is one number ahead of the receiver. */
  lemma EmptySendLags(c: Conn, d: Conn, id: ChannelId, lag: nat)
    requires Paired(c, d, id, lag) && SendSlot(c, id).nextSend < U32_SPAN - 1
    ensures Paired(SendSpec(c, id, []).0, d, id, lag + 1)
  {
    hide SendSpec, Settled, Sane, Recorded, GateOpen, Phased;
    EmptySend(c, id);
    var next := SendSpec(c, id, []).0;
    var step := Table(C.TableOp.ReserveSequence(id));
    OnTable(c, step.op);
    StepSane(c, step);
    StepPhased(c, step);
    SettledFields(c, next);
    SameRecorded(c, next);
    SameGate(c, next, id);
    ReservedSlot(c.channels.value, id);
  }

  lemma NothingReceived(host: Host, d: Conn)
    requires d.buffer == []
    ensures ReceiveSpec(host, d, Flat([]), false) == (d, Ok([]))
  {
    assert Flat([]) == [] && d.buffer + [] == [];
    assert F.DecodeStep(Limits(d.policy), [], false) == F.More;
    assert [F.NeedMore][1..] == [];
    NoEvent(host, d, []);
    assert d.(buffer := []) == d;
  }

  /** An empty message: nothing crosses, and the receiver falls one behind. */
  lemma OneEmpty(host: Host, c: Conn, d: Conn, id: ChannelId, ms: seq<Bytes>, lag: nat)
    requires Paired(c, d, id, lag) && AllSized(c, d, id, ms) && ms != [] && ms[0] == []
    ensures SendSpec(c, id, []).1 == Ok([]) && ReceiveSpec(host, d, Flat([]), false).0 == d
    ensures var c1 := SendSpec(c, id, []).0;
            Paired(c1, d, id, lag + 1) && AllSized(c1, d, id, ms[1..])
  {
    hide SendSpec, ReceiveSpec, Flat, Sized, Settled, Sane, Recorded, GateOpen, Phased, C.ReserveSequenceSpec;
    NothingReceived(host, d);
    EmptySend(c, id);
    EmptySendLags(c, d, id, lag);
    ReservedSlot(c.channels.value, id);
    StillSized(c, d, SendSpec(c, id, []).0, d, id, ms);
  }

  /** One message sent with the receiver behind: refused, and the receiver is still where it was. */
  lemma OneInVain(host: Host, c: Conn, d: Conn, id: ChannelId, ms: seq<Bytes>, lag: nat)
    requires Paired(c, d, id, lag) && lag > 0 && AllSized(c, d, id, ms) && ms != [] && ms[0] != []
    ensures |ms[0]| < U64_SPAN && SendSpec(c, id, ms[0]).1.Ok?
    ensures var c1 := SendSpec(c, id, ms[0]).0;
            var (d1, r) := ReceiveSpec(host, d, Flat(SendSpec(c, id, ms[0]).1.value), false);
            && r == Err(Error(Message, SequenceError, ResetChannel))
            && Paired(c1, d1, id, lag + 1) && AllSized(c1, d1, id, ms[1..])
            && Got(d1.events, id) == Got(d.events, id)
  {
    hide SendSpec, ReceiveSpec, CanSend, CanTake, SenderOpen, ReceiverOpen, Live, Flat, Got, Sized;
    var m := ms[0];
    MaySendOne(c, d, id, ms, lag);
    PairedShape(c, d, id, lag);
    SenderKeeps(c, id, m);
    var c1 := SendSpec(c, id, m).0;
    var later := SendOutOfStep(c, host, d, id, m);
    var refusal := Error(Message, SequenceError, ResetChannel);
    var d1 := Diagnosed(d.(timers := later.timers), refusal);
    LiveFields(d, d1, id);
    SaneChannels(d, d1);
    ReceiverFields(d, d1, id, SendSlot(c, id).nextSend, SendSlot(c1, id).nextSend, c.capabilities.value.maxFrame);
    StillSized(c, d, c1, d1, id, ms);
    GotSnoc(d.events, Event(Diagnostic, CONTROL, 0, [], Some(refusal)), id);
    assert Got(d.events, id) + [] == Got(d.events, id);
  }

  /** With the receiver behind, or an empty message to come first, nothing arrives. */
  lemma {:induction false} SentInVain(host: Host, c: Conn, d: Conn, id: ChannelId, ms: seq<Bytes>, lag: nat)
    requires Paired(c, d, id, lag) && AllSized(c, d, id, ms)
    requires lag > 0 || ms == [] || ms[0] == []
    ensures forall m <- ms :: |m| < U64_SPAN
    ensures var (c1, d1) := Exchange(host, c, d, id, ms);
            Paired(c1, d1, id, lag + |ms|) && Got(d1.events, id) == Got(d.events, id)
    decreases |ms|
  {
    hide SendSpec, ReceiveSpec, Paired, Got, Live, Flat;
    PairedShape(c, d, id, lag);
    forall m | m in ms
      ensures |m| < U64_SPAN
    {
      SizedSmall(c, d, id, m);
    }
    if ms != [] {
      if ms[0] == [] { OneEmpty(host, c, d, id, ms, lag); } else { OneInVain(host, c, d, id, ms, lag); }
      var (c1, r) := SendSpec(c, id, ms[0]);
      SentInVain(host, c1, ReceiveSpec(host, d, Flat(r.value), false).0, id, ms[1..], lag + 1);
    }
  }

  /**
   Message after message, each sent and received: those before the first empty one arrive, whole, in order,
   once each, under consecutive numbers, and no other does. With none empty both ends are ready for more.
   */
  lemma {:induction false} MessagesArrive(host: Host, c: Conn, d: Conn, id: ChannelId, ms: seq<Bytes>)
    requires Paired(c, d, id, 0) && AllSized(c, d, id, ms)
    requires AllMild(host, id, SendSlot(c, id).nextSend, BeforeEmpty(ms))
    ensures forall m <- ms :: |m| < U64_SPAN
    ensures var (c1, d1) := Exchange(host, c, d, id, ms);
            && Paired(c1, d1, id, |ms| - |BeforeEmpty(ms)|)
            && Got(d1.events, id) == Got(d.events, id) + Labelled(SendSlot(c, id).nextSend, BeforeEmpty(ms))
    decreases |ms|
  {
    hide SendSpec, ReceiveSpec, Paired, Got, Live, Flat, Mild;
    forall m | m in ms
      ensures |m| < U64_SPAN
    {
      PairedShape(c, d, id, 0);
      SizedSmall(c, d, id, m);
    }
    PairedShape(c, d, id, 0);
    var n := SendSlot(c, id).nextSend;
    if ms == [] || ms[0] == [] {
      SentInVain(host, c, d, id, ms, 0);
      assert Got(d.events, id) + [] == Got(d.events, id);
    } else {
      var front := BeforeEmpty(ms[1..]);
      assert BeforeEmpty(ms)[0] == ms[0] && BeforeEmpty(ms)[1..] == front;
      OneExchange(host, c, d, id, ms);
      var c1 := SendSpec(c, id, ms[0]).0;
      var d1 := ReceiveSpec(host, d, Flat(SendSpec(c, id, ms[0]).1.value), false).0;
      MessagesArrive(host, c1, d1, id, ms[1..]);
      Assoc(Got(d.events, id), [(n, ms[0])], Labelled(n + 1, front));
    }
  }

  /** After one empty `send` no later message on that channel ever arrives, however many are sent. */
  lemma EmptySendSilences(host: Host, c: Conn, d: Conn, id: ChannelId, ms: seq<Bytes>)
    requires Paired(c, d, id, 0) && SendSlot(c, id).nextSend < U32_SPAN - 1
    requires AllSized(SendSpec(c, id, []).0, d, id, ms)
    ensures forall m <- ms :: |m| < U64_SPAN
    ensures Got(Exchange(host, SendSpec(c, id, []).0, d, id, ms).1.events, id) == Got(d.events, id)
  {
    hide SendSpec, Paired, AllSized, Exchange, Got;
    EmptySendLags(c, d, id, 0);
    SentInVain(host, SendSpec(c, id, []).0, d, id, ms, 1);
  }

  // ---------------------------------------------------------------- a message, then anything else

  /** Once a message has gone out, the next frame for anything else shuts the channel's gate. */
  lemma SendThenOtherShuts(c: Conn, id: ChannelId, m: Bytes, kind: F.FrameType, channel: ChannelId, payload: Bytes, es: seq<X.Extension>)
    requires CanSend(c, id, m) && |m| < U64_SPAN && c.nextFrame + |m| + 1 < U32_SPAN
    requires kind != F.Data || channel.number != id.number
    ensures var next := PostSpec(SendSpec(c, id, m).0, kind, channel, payload, es).0;
            Shut(next, id.number) && Settled(next) && Sane(next) && next.state == Active
  {
    hide SendSpec, PostSpec, Settled, Sane, CanSend;
    SenderKeeps(c, id, m);
    var sent := SendSpec(c, id, m).0;
    SenderParts(sent, id);
    GateShuts(sent, id.number, kind, channel, payload, es);
    var step := Post(kind, channel, payload, es);
    OnPost(sent, kind, channel, payload, es);
    StepSettled(sent, step);
    StepSane(sent, step);
    PostFrame(sent, kind, channel, payload, es);
  }

  lemma SenderParts(c: Conn, id: ChannelId)
    requires SenderOpen(c, id)
    ensures Settled(c) && Sane(c) && c.state == Active
  {
  }

  /** A message, a PING, and then nothing more on that channel, whatever is called and whatever is sent. */
  lemma OneMessageOnly(host: Host, c: Conn, id: ChannelId, m: Bytes, token: u64, calls: seq<Call>, more: Bytes)
    requires CanSend(c, id, m) && |m| < U64_SPAN && c.nextFrame + |m| + 1 < U32_SPAN
    requires var pinged := PingSpec(SendSpec(c, id, m).0, token).0;
             && |more| < U64_SPAN && AllSizable(calls) && NoWrap(host, pinged, calls)
             && After(host, pinged, calls).nextFrame + |more| < U32_SPAN
    ensures var r := SendSpec(After(host, PingSpec(SendSpec(c, id, m).0, token).0, calls), id, more).1;
            r.Ok? ==> r.value == []
  {
    hide SendSpec, PostSpec, CanSend, After, NoWrap, Settled, Sane, Shut;
    SendThenOtherShuts(c, id, m, F.Ping, CONTROL, U64Bytes(token), []);
    ShutForever(host, PingSpec(SendSpec(c, id, m).0, token).0, calls, id, more);
  }
}
