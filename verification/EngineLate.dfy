/** Fragments that come too late: none is ever kept, and a message that has arrived cannot arrive again. */
module EngineLate {
  import opened Types
  import opened EngineModel
  import opened EngineSteps
  import opened EngineRuns
  import opened EngineSend
  import opened EngineReceive
  import C = Channels
  import F = FrameCodec
  import H = Hellos
  import P = Replay
  import R = Reassembling

  // ---------------------------------------------------------------- what a DATA frame needs

  /** The four extensions of a fragment are there. */
  predicate Labelled(f: F.Frame) {
    && ExtensionU32(f, EXT_MESSAGE_SEQ).Some? && ExtensionU32(f, EXT_FRAGMENT_OFFSET).Some?
    && ExtensionU32(f, EXT_MESSAGE_TOTAL).Some? && ExtensionU32(f, EXT_FAMILY_ID).Some?
  }

  /**
   A DATA frame that is refused before its fragment is looked at leaves the connection as it was: outside the
   active state, on an id that is not live, on a half the peer has closed, without one of its four extensions,
   and of a message that has already been delivered.
   */
  lemma DataRefusals(host: Host, c: Conn, f: F.Frame)
    requires Phased(c) && f.kind == F.Data && |f.payload| < U64_SPAN
    ensures var (next, r) := HandleFrame(host, c, f);
            var slot := if Live(c, f.channel).Some? then Some(c.channels.value.slots[Live(c, f.channel).value]) else None;
            && (c.state != Active ==> next == c && r == Err(StateError()))
            && (c.state == Active && slot.None? ==> next == c && r == Err(ChannelError(StaleGeneration)))
            && (c.state == Active && slot.Some? && slot.value.remoteClosed ==> next == c && r == Err(ChannelError(IllegalState)))
            && (c.state == Active && slot.Some? && !slot.value.remoteClosed && !Labelled(f) ==>
                  next == c && r == Err(Error(Message, MalformedTlv, ResetChannel)))
            && (c.state == Active && slot.Some? && !slot.value.remoteClosed && Labelled(f)
                && ExtensionU32(f, EXT_MESSAGE_SEQ).value < slot.value.nextRecv ==>
                  next == c && r == Err(Error(Message, SequenceError, ResetChannel)))
  {
    hide ExtensionU32, Absorb, Deliver, C.Find;
    assert HandleFrame(host, c, f) == HandleData(host, c, f);
  }

  // ---------------------------------------------------------------- no fragment of the past, on any run

  /** The slot holds fragments only of messages it still waits for. */
  predicate SlotAhead(s: C.Slot) { forall k <- s.fragments.pending :: s.nextRecv <= k }

  predicate TableAhead(t: C.Table) { forall i :: 0 <= i < |t.slots| ==> SlotAhead(t.slots[i]) }

  predicate Ahead(c: Conn) { c.channels.Some? ==> TableAhead(c.channels.value) }

  /** A table operation leaves a slot's counter and fragments alone, or empties the slot. */
  lemma TableOpAhead(t: C.Table, op: C.TableOp)
    requires TableAhead(t) && !op.Update?
    ensures TableAhead(C.TableApply(t, op))
  {
    hide SlotAhead;
    NothingAhead(t);
    var next := C.TableApply(t, op);
    forall i | 0 <= i < |next.slots|
      ensures SlotAhead(next.slots[i])
    {
      OneSlotAhead(t, op, i);
    }
  }

  lemma NothingAhead(t: C.Table)
    ensures C.NewFragments(t.maxMessage).pending == map[]
  {
  }

  lemma OneSlotAhead(t: C.Table, op: C.TableOp, i: nat)
    requires TableAhead(t) && !op.Update? && i < |t.slots|
    ensures i < |C.TableApply(t, op).slots| && SlotAhead(C.TableApply(t, op).slots[i])
  {
    hide C.NewFragments;
    NothingAhead(t);
    assert SlotAhead(t.slots[i]);
  }

  lemma NewTableAhead(channels: u16, window: u64, maxMessage: nat)
    ensures TableAhead(C.NewTable(channels, window, maxMessage))
  {
  }

  lemma WithAhead(t: C.Table, i: nat, s: C.Slot)
    requires TableAhead(t) && i < |t.slots| && SlotAhead(s)
    ensures TableAhead(C.With(t, i, s))
  {
    hide SlotAhead;
  }

  lemma AbsorbAhead(t: C.Table, i: nat, channel: ChannelId, sequence: u32, offset: u32, total: u32, bytes: Bytes)
    requires TableAhead(t) && i < |t.slots| && |bytes| < U64_SPAN && t.slots[i].nextRecv <= sequence
    ensures TableAhead(Absorb(t, i, channel, sequence, offset, total, bytes).0)
  {
    hide R.InsertSpec, C.ReserveSpec, C.ReleaseSpec;
    InsertNames(t.slots[i].fragments, channel, sequence, offset, total, bytes);
    assert SlotAhead(t.slots[i]);
    var next := Absorb(t, i, channel, sequence, offset, total, bytes).0;
    assert SlotAhead(next.slots[i]);
    forall j | 0 <= j < |next.slots|
      ensures SlotAhead(next.slots[j])
    {
      assert SlotAhead(t.slots[j]);
    }
  }

  lemma DeliveryAhead(c: Conn, channel: ChannelId, family: u32, payload: Bytes, fate: Fate)
    requires Ahead(c) && Live(c, channel).Some?
    requires var slot := c.channels.value.slots[Live(c, channel).value]; slot.nextRecv !in slot.fragments.pending
    ensures Ahead(Apply(c, Delivery(channel, family, payload, fate)))
  {
    hide C.Find;
    var t, i := c.channels.value, Live(c, channel).value;
    assert SlotAhead(t.slots[i]);
    WithAhead(t, i, t.slots[i].(nextRecv := (t.slots[i].nextRecv + 1) % U32_SPAN));
  }

  lemma StepAhead(host: Host, c: Conn, s: Step)
    requires Ahead(c) && HonestStep(host, c, s)
    ensures Ahead(Apply(c, s))
  {
    hide TableAhead, PostSpec, FlushSpec, Absorb, C.TableApply, C.NewTable, P.AcknowledgeSpec, P.RetrySpec, Adopted, Delivered,
         Fated;
    match s {
      case Post(kind, channel, payload, extensions) => PostFrame(c, kind, channel, payload, extensions);
      case Write(writable) => WriteFrame(c, writable);
      case Adopt(w) => AdoptFrame(c, w);
      case Table(op) =>
        if c.channels.Some? && !op.Update? { TableOpAhead(c.channels.value, op); }
      case Fragment(channel, sequence, offset, total, bytes) =>
        if Live(c, channel).Some? && |bytes| < U64_SPAN {
          AbsorbAhead(c.channels.value, Live(c, channel).value, channel, sequence, offset, total, bytes);
        }
      case Delivery(channel, family, payload, fate) =>
        if Live(c, channel).Some? { DeliveryAhead(c, channel, family, payload, fate); }
      case Agree(caps) =>
        if LegalCaps(caps) {
          Quotient(caps.window, caps.maxChannels);
          NewTableAhead(caps.maxChannels, caps.window / caps.maxChannels, caps.maxMessage);
        }
      case _ =>
    }
  }

  lemma {:induction false} RunAhead(host: Host, c: Conn, ss: seq<Step>)
    requires Ahead(c) && Honest(host, c, ss)
    ensures Ahead(Run(c, ss))
    decreases |ss|
  {
    hide Ahead, Apply, HonestStep;
    if ss != [] {
      StepAhead(host, c, ss[0]);
      RunAhead(host, Apply(c, ss[0]), ss[1..]);
    }
  }

  lemma {:induction false} StaysAhead(host: Host, c: Conn, calls: seq<Call>)
    requires Sane(c) && Ahead(c) && AllSizable(calls)
    ensures Ahead(After(host, c, calls))
    decreases |calls|
  {
    hide Sane, Ahead, Next, Run, Cost, Honest;
    if calls != [] {
      var ss := AsSteps(host, c, calls[0]);
      RunAhead(host, c, ss);
      RunSane(c, ss);
      StaysAhead(host, Next(host, c, calls[0]), calls[1..]);
    }
  }

  /**
   On every run no channel holds a fragment of a message it has already delivered: what counts against the
   budget can still become a message.
   */
  lemma NothingStale(host: Host, policy: H.Policy, calls: seq<Call>, id: ChannelId, k: u32)
    requires 1 <= policy.replayWindow && AllSizable(calls)
    requires Live(After(host, NewConn(policy), calls), id).Some?
    ensures var c := After(host, NewConn(policy), calls);
            var slot := c.channels.value.slots[Live(c, id).value];
            k in slot.fragments.pending ==> slot.nextRecv <= k
  {
    hide After, NewConn, C.Find;
    NewSettled(policy);
    assert Ahead(NewConn(policy)) by { NewPhased(policy); NewAhead(policy); }
    StaysAhead(host, NewConn(policy), calls);
    var c := After(host, NewConn(policy), calls);
    assert SlotAhead(c.channels.value.slots[Live(c, id).value]);
  }

  lemma NewAhead(policy: H.Policy)
    requires 1 <= policy.replayWindow
    ensures Ahead(NewConn(policy))
  {
  }

  // ---------------------------------------------------------------- the same message again

  /** The receiver is past this number, and otherwise able to take a message in. */
  ghost predicate Past(d: Conn, id: ChannelId, sequence: u32, maxFrame: nat) {
    && d.state == Active && Phased(d) && d.buffer == [] && maxFrame <= d.policy.maxFrame && Live(d, id).Some?
    && !d.channels.value.slots[Live(d, id).value].remoteClosed
    && sequence < d.channels.value.slots[Live(d, id).value].nextRecv
  }

  /** The bytes of a message the receiver is past: refused at the first fragment, and nothing is kept. */
  lemma SendTooLate(c: Conn, receiver: Host, d: Conn, id: ChannelId, m: Bytes)
    requires CanSend(c, id, m)
    requires Past(d, id, c.channels.value.slots[Live(c, id).value].nextSend, c.capabilities.value.maxFrame)
    ensures |m| < U64_SPAN && SendSpec(c, id, m).1.Ok?
    ensures var refusal := Error(Message, SequenceError, ResetChannel);
            ReceiveSpec(receiver, d, Flat(SendSpec(c, id, m).1.value), false) == (Diagnosed(d, refusal), Err(refusal))
  {
    hide CanSend, SendSpec, HandleEvents, F.Drain, F.EncodeSpec, Sent, Sends, HandleFrame, DataExtensions, Live, Phased;
    SenderShape(c, id, m);
    CapsOf(c, id, m);
    var caps := c.capabilities.value;
    var sequence := c.channels.value.slots[Live(c, id).value].nextSend;
    var fs := Sent(c, id, m);
    SentPieces(c, id, m);
    SendHandsOut(c, id, m);
    PiecesAreData(c.nextFrame, id, sequence, m, MaxFragment(caps), 0);
    DecodesBack(Limits(c.policy), Limits(d.policy), caps.maxFrame, fs, []);
    var whole := Flat(Encoded(Limits(c.policy), fs));
    assert d.buffer + whole == whole;
    assert [] + Events(fs) == Events(fs);
    DecodedSmall(Limits(d.policy), whole, false, []);
    assert d.(buffer := []) == d;
    var f := fs[0];
    assert Events(fs) == [F.Decoded(f)] + Events(fs[1..]);
    assert Events(fs)[0] == F.Decoded(f) && forall e <- Events(fs[1..]) :: e in Events(fs);
    FirstEvent(receiver, d, f, Events(fs[1..]), []);
    var take := Min(MaxFragment(caps), |m|);
    assert f == F.Frame(F.Data, 0, id, c.nextFrame, DataExtensions(sequence, 0, |m|), m[0..take]);
    DataNames(f, sequence, 0, |m|);
    DataRefusals(receiver, d, f);
  }

  /**
   A message that has arrived cannot arrive again: its bytes, received a second time, are refused, deliver
   nothing, and leave everything but the diagnostic as it was.
   */
  lemma ArrivesOnce(c: Conn, receiver: Host, d: Conn, id: ChannelId, m: Bytes)
    requires CanSend(c, id, m) && Phased(d)
    requires CanReceive(d, id, c.channels.value.slots[Live(c, id).value].nextSend, m, c.capabilities.value.maxFrame)
    requires |m| < U64_SPAN && SendSpec(c, id, m).1.Ok?
    requires ReceiveSpec(receiver, d, Flat(SendSpec(c, id, m).1.value), false).0.state == Active
    ensures var bytes := Flat(SendSpec(c, id, m).1.value);
            var once := ReceiveSpec(receiver, d, bytes, false).0;
            var refusal := Error(Message, SequenceError, ResetChannel);
            ReceiveSpec(receiver, once, bytes, false) == (Diagnosed(once, refusal), Err(refusal))
  {
    hide CanSend, CanTake, SendSpec, ReceiveSpec, Dispatched, Live, Flat, Phased, AfterDelivery;
    SenderShape(c, id, m);
    var sequence := c.channels.value.slots[Live(c, id).value].nextSend;
    var later := SendThenReceive(c, receiver, d, id, m);
    SequenceSmall(c, id, m);
    PastDelivery(receiver, d, later, id, sequence, m, c.capabilities.value.maxFrame);
    SendTooLate(c, receiver, ReceiveSpec(receiver, d, Flat(SendSpec(c, id, m).1.value), false).0, id, m);
  }

  lemma SequenceSmall(c: Conn, id: ChannelId, m: Bytes)
    requires CanSend(c, id, m)
    ensures c.channels.Some? && Live(c, id).Some?
    ensures c.channels.value.slots[Live(c, id).value].nextSend < U32_SPAN - 1
  {
  }

  lemma PastDelivery(host: Host, d: Conn, later: Conn, id: ChannelId, sequence: u32, m: Bytes, maxFrame: nat)
    requires CanReceive(d, id, sequence, m, maxFrame) && Phased(d) && sequence < U32_SPAN - 1 && Live(d, id).Some?
    requires var next := Dispatched(host, AfterDelivery(d, later, id, m), R.LogicalMessage(id, sequence, m)).0; next.state == Active
    ensures Past(Dispatched(host, AfterDelivery(d, later, id, m), R.LogicalMessage(id, sequence, m)).0, id, sequence, maxFrame)
  {
    hide R.ValidStore;
    var mid := AfterDelivery(d, later, id, m);
    var message := R.LogicalMessage(id, sequence, m);
    DispatchedTable(host, mid, message);
    LiveFields(mid, Dispatched(host, mid, message).0, id);
  }

  lemma DispatchedTable(host: Host, c: Conn, message: R.LogicalMessage)
    ensures var next := Dispatched(host, c, message).0;
            && next.channels == c.channels && next.buffer == c.buffer && next.policy == c.policy && next.capabilities == c.capabilities
  {
    hide C.Find;
  }
}
