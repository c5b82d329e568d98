/** What the engine refuses: exactly when, and that a refusal leaves the connection as it was. */
module EngineChecks {
  import opened Types
  import opened Wire
  import opened EngineModel
  import opened EngineSteps
  import opened EngineRuns
  import C = Channels
  import F = FrameCodec
  import R = Reassembling
  import X = Extensions

  // ---------------------------------------------------------------- opening

  /** The table would take a remote OPEN for this id: a free slot, and the generation after its last. */
  predicate NextLifetime(t: C.Table, id: ChannelId) {
    && C.InRange(t, id) && t.slots[id.number - 1].state == C.Free
    && id.generation == (t.slots[id.number - 1].id.generation + 1) % 0x100
  }

  /**
   An OPEN is accepted exactly in the active state, with eight bytes that name an agreed family, for the next
   lifetime of a free slot. The channel is then live, fresh, and the only thing that has changed in the table;
   otherwise nothing has.
   */
  lemma PeerOpenIff(host: Host, c: Conn, f: F.Frame)
    requires Phased(c) && f.kind == F.Open && |f.payload| < U64_SPAN
    ensures var (next, r) := HandleFrame(host, c, f);
            && (r.Ok? <==>
                  && c.state == Active && |f.payload| == 8 && Offers(c.capabilities.value, ReadU32(f.payload, 0))
                  && NextLifetime(c.channels.value, f.channel))
            && (r.Ok? ==>
                  && r.value == [] && next.channels.Some?
                  && next == Noted(c.(channels := next.channels), Plain(ChannelOpened, f.channel))
                  && Live(next, f.channel) == Some(f.channel.number - 1) && Live(c, f.channel).None?
                  && C.OnlySlot(c.channels.value, next.channels.value, f.channel.number - 1)
                  && next.channels.value.slots[f.channel.number - 1] == C.NewLifetime(c.channels.value, f.channel, C.Open))
            && (r.Err? ==> next == c)
            && (c.state == Active && |f.payload| == 8 && !Offers(c.capabilities.value, ReadU32(f.payload, 0)) ==>
                  r == Err(Error(Plugin, PluginDecode, ResetChannel)))
  {
    hide C.AcceptRemoteSpec, C.Find, C.NewLifetime, Offers;
    if c.state == Active && |f.payload| == 8 {
      C.AcceptIff(c.channels.value, f.channel);
      var (t, accepted) := C.AcceptRemoteSpec(c.channels.value, f.channel);
      assert accepted.Ok? <==> NextLifetime(c.channels.value, f.channel);
    }
  }

  /** `open_channel` may start a lifetime: active, a family that was agreed, and a slot to allocate. */
  predicate MayOpen(c: Conn, family: u32) {
    && c.state == Active && c.channels.Some? && c.capabilities.Some? && Offers(c.capabilities.value, family)
    && C.AllocateSpec(c.channels.value).1.Ok?
  }

  /**
   `open_channel` starts a lifetime exactly when it may, and fails without any change when it may not. Once it
   has started one, the channel is open, whether or not its OPEN could be emitted.
   */
  lemma OpenChannelIff(c: Conn, family: u32, window: u64)
    requires Phased(c) && Sane(c)
    ensures var (next, r) := OpenChannelSpec(c, family, window);
            && (!MayOpen(c, family) ==> next == c && r.Err?)
            && (c.state == Active && !Offers(c.capabilities.value, family) ==> r == Err(Error(Plugin, PluginDecode, RejectMessage)))
            && (MayOpen(c, family) ==>
                  var id := C.AllocateSpec(c.channels.value).1.value;
                  && Live(c, id).None? && Live(next, id) == Some(id.number - 1) && next.channels.Some?
                  && C.OnlySlot(c.channels.value, next.channels.value, id.number - 1)
                  && next.channels.value.slots[id.number - 1] == C.NewLifetime(c.channels.value, id, C.Open)
                  && (r.Ok? ==> r.value.0 == id))
  {
    hide PostSpec, C.AllocateSpec, C.ActivateSpec, C.Find, C.NewLifetime, Offers, U32Bytes;
    if c.state == Active && Offers(c.capabilities.value, family) {
      var t := c.channels.value;
      Numbering(t);
      C.AllocateIff(t);
      if C.AllocateSpec(t).1.Ok? {
        var (t1, id) := C.AllocateSpec(t);
        ActivatedSlot(t, t1, id.value);
        var c1 := c.(channels := Some(C.ActivateSpec(t1, id.value).0));
        PostFrame(c1, F.Open, id.value, U32Bytes(family) + U32Bytes(window % U32_SPAN), []);
      }
    }
  }

  lemma Numbering(t: C.Table)
    requires SaneTable(t)
    ensures C.NumberedSlots(t)
  {
    forall i | 0 <= i < |t.slots|
      ensures t.slots[i].id.number == i + 1
    {
      assert SaneSlot(t, i);
    }
  }

  lemma ActivatedSlot(t: C.Table, t1: C.Table, id: ChannelId)
    requires 1 <= id.number && C.OnlySlot(t, t1, id.number - 1) && t1.slots[id.number - 1] == C.NewLifetime(t, id, C.Opening)
    requires C.Find(t1, id) == Some(id.number - 1)
    ensures var (t2, r) := C.ActivateSpec(t1, id);
            && r.Ok? && C.Find(t2, id) == Some(id.number - 1)
            && C.OnlySlot(t, t2, id.number - 1) && t2.slots[id.number - 1] == C.NewLifetime(t, id, C.Open)
  {
    hide C.NewFragments;
  }

  // ---------------------------------------------------------------- sending

  /** `send` may take a number for a message of this size. */
  predicate MaySendSize(c: Conn, id: ChannelId, size: nat) {
    && c.state == Active && c.capabilities.Some? && Live(c, id).Some?
    && var slot := c.channels.value.slots[Live(c, id).value];
       && !slot.localClosed && size <= c.capabilities.value.maxMessage && size <= c.channels.value.window
       && slot.nextSend < U32_SPAN - 1
  }

  /** Why not: the first of its conditions that fails. */
  function SendRefusal(c: Conn, id: ChannelId, size: nat): Error {
    if c.state != Active || c.capabilities.None? then StateError()
    else if Live(c, id).None? then ChannelError(StaleGeneration)
    else if c.channels.value.slots[Live(c, id).value].localClosed then ChannelError(IllegalState)
    else if size > c.capabilities.value.maxMessage then Error(Message, ResourceLimit, RejectMessage)
    else if size > c.channels.value.window then Error(Channel, WouldBlock, NoAction)
    else ChannelError(ResourceLimit)
  }

  /**
   `send` takes a number for its message exactly when the connection is active, the channel live and not closed
   for sending, the message within the agreed size and the channel's window, and a number is left. Otherwise it
   fails and changes nothing, reserved credit included.
   */
  lemma SendIff(c: Conn, id: ChannelId, payload: Bytes)
    requires Phased(c) && Sane(c) && |payload| < U64_SPAN
    ensures var (next, r) := SendSpec(c, id, payload);
            if MaySendSize(c, id, |payload|) then
              && next.channels.Some? && Live(next, id) == Live(c, id)
              && C.OnlySlot(c.channels.value, next.channels.value, Live(c, id).value)
              && next.channels.value.slots[Live(c, id).value]
                 == c.channels.value.slots[Live(c, id).value].(nextSend := c.channels.value.slots[Live(c, id).value].nextSend + 1)
            else next == c && r == Err(SendRefusal(c, id, |payload|))
  {
    hide C.Find;
    if MaySendSize(c, id, |payload|) {
      SendKeepsTable(c, id, payload, Live(c, id).value);
    } else if c.state == Active && Live(c, id).Some? {
      var t, i := c.channels.value, Live(c, id).value;
      assert SaneSlot(t, i);
      var (flow, reserve) := C.ReserveSpec(t.slots[i].flow, |payload|);
      C.ReserveRelease(t.slots[i].flow, |payload|);
      if reserve.Ok? { RefusedReleases(c, t, i, id, flow, |payload|); }
    }
  }

  /** The credit of a refused message goes back. */
  lemma RefusedReleases(c: Conn, t: C.Table, i: nat, id: ChannelId, flow: C.Flow, size: u64)
    requires c.channels == Some(t) && i < |t.slots| && C.Find(t, id) == Some(i)
    requires C.ReleaseSpec(flow, size) == (t.slots[i].flow, Ok(()))
    ensures C.Find(WithFlow(t, i, flow), id) == Some(i)
    ensures Released(c.(channels := Some(WithFlow(t, i, flow))), i, size) == c
  {
    var held := WithFlow(t, i, flow);
    assert WithFlow(held, i, t.slots[i].flow).slots == t.slots;
  }

  lemma {:induction false} SendFromTable(c: Conn, id: ChannelId, sequence: u32, payload: Bytes, size: nat, offset: nat, out: seq<Bytes>)
    requires size >= 1
    ensures SendFrom(c, id, sequence, payload, size, offset, out).0.channels == c.channels
    decreases |payload| - offset
  {
    hide PostSpec, DataExtensions;
    if offset < |payload| {
      var take := Min(size, |payload| - offset);
      var part, es := payload[offset..offset + take], DataExtensions(sequence, offset, |payload|);
      PostFrame(c, F.Data, id, part, es);
      var (next, encoded) := PostSpec(c, F.Data, id, part, es);
      if encoded.Ok? { SendFromTable(next, id, sequence, payload, size, offset + size, out + encoded.value); }
    }
  }

  lemma SendKeepsTable(c: Conn, id: ChannelId, payload: Bytes, i: nat)
    requires Phased(c) && Sane(c) && |payload| < U64_SPAN && MaySendSize(c, id, |payload|) && Live(c, id) == Some(i)
    ensures var next := SendSpec(c, id, payload).0;
            && next.channels.Some? && Live(next, id) == Some(i) && C.OnlySlot(c.channels.value, next.channels.value, i)
            && next.channels.value.slots[i] == c.channels.value.slots[i].(nextSend := c.channels.value.slots[i].nextSend + 1)
  {
    hide SendFrom;
    var t := c.channels.value;
    assert SaneSlot(t, i);
    var (flow, reserve) := C.ReserveSpec(t.slots[i].flow, |payload|);
    C.ReserveRelease(t.slots[i].flow, |payload|);
    var (t1, sequence) := C.ReserveSequenceSpec(WithFlow(t, i, flow), id);
    var c1 := c.(channels := Some(t1));
    SendFromTable(c1, id, sequence.value, payload, MaxFragment(c.capabilities.value), 0, []);
  }

  // ---------------------------------------------------------------- frames out of place

  /** The frames that belong to the connection, and how long the payload of each must be where it is fixed. */
  predicate OutOfPlace(f: F.Frame) {
    || (f.kind == F.Ack && !f.channel.IsControl())
    || ((f.kind == F.Ping || f.kind == F.Pong) && (!f.channel.IsControl() || |f.payload| != 8))
    || (f.kind == F.Resume && (!f.channel.IsControl() || |f.payload| != 22))
    || (f.kind == F.HalfClose && |f.payload| != 1)
    || (f.kind == F.Credit && |f.payload| != 4)
    || (f.kind == F.Open && |f.payload| != 8)
  }

  /** A frame on the wrong channel or of the wrong size, and a HELLO at the wrong time, fail without any change. */
  lemma OutOfPlaceRefused(host: Host, c: Conn, f: F.Frame)
    requires |f.payload| < U64_SPAN && (OutOfPlace(f) || (f.kind == F.Hello && c.state != Negotiating))
    ensures HandleFrame(host, c, f).0 == c && HandleFrame(host, c, f).1.Err?
  {
  }

  // ---------------------------------------------------------------- dispatching

  /**
   What becomes of a delivered message: without its plugin it is dropped with an error; with an executor it waits there
   exactly when there is room; without one the plugin is asked at once. A token is used up whenever the plugin is there.
   */
  lemma DispatchIff(host: Host, c: Conn, family: u32, message: R.LogicalMessage)
    ensures var (next, r) := Dispatch(host, c, family, message);
            && (!host.available(family) ==> next == c && r == Err(Error(Plugin, PluginDecode, RejectMessage)))
            && (host.available(family) ==> next.nextToken == (c.nextToken + 1) % U64_SPAN)
            && (host.available(family) && host.executor.Some? ==>
                  && (r.Ok? <==> |c.jobs| < host.executor.value)
                  && (r.Ok? ==> next.jobs == c.jobs + [Job(c.nextToken, family, message)])
                  && (r.Err? ==> next.jobs == c.jobs && r == Err(Error(Internal, WouldBlock, NoAction)))
                  && next.events == c.events)
            && (host.available(family) && host.executor.None? ==>
                  && next.jobs == c.jobs
                  && var answer := host.respond(family, message);
                     var answered := answer.Ok? && Live(c, message.channel).Some? && c.nextToken != 0 && family != 0;
                     next.events == c.events + if answered then [Response(message.channel, message.sequence, answer.value)] else [])
  {
    hide C.Find;
    assert c.events + [] == c.events;
  }

  /** The required extension types the codec knows are the four the engine reads. */
  lemma KnownAreRead(kind: u16)
    ensures X.KnownRequired(kind) <==>
              kind == EXT_MESSAGE_SEQ || kind == EXT_FRAGMENT_OFFSET || kind == EXT_MESSAGE_TOTAL || kind == EXT_FAMILY_ID
  {
  }

  // ---------------------------------------------------------------- payloads

  /** A fragment names its message in extension 1, its offset in 2, the whole size in 3 and the plugin in 4, all required. */
  lemma DataLayout(sequence: u32, offset: nat, total: nat)
    ensures var es := DataExtensions(sequence, offset, total);
            && |es| == 4 && (forall i :: 0 <= i < 4 ==> es[i].kind == i + 1 && es[i].required && |es[i].value| == 4)
            && Value(es[0].value) == sequence && Value(es[1].value) == offset % U32_SPAN
            && Value(es[2].value) == total % U32_SPAN && Value(es[3].value) == 7
  {
    hide U32Bytes, Value;
    BigEndian(0, 0, sequence, 0);
    BigEndian(0, 0, offset % U32_SPAN, 0);
    BigEndian(0, 0, total % U32_SPAN, 0);
    BigEndian(0, 0, 7, 0);
  }

  /** A RESUME carries the transcript hash, the epoch and the number to go on from. */
  lemma ResumeLayout(r: ResumeRequest)
    requires |r.hash| == 16
    ensures var bs := ResumePayload(r);
            |bs| == 22 && bs[..16] == r.hash && Value(bs[16..18]) == r.epoch && Value(bs[18..22]) == r.first
  {
    hide U16Bytes, U32Bytes, Value;
    BigEndian(r.epoch, 0, r.first, 0);
    var bs := ResumePayload(r);
    assert bs[16..18] == U16Bytes(r.epoch) && bs[18..22] == U32Bytes(r.first);
  }
}
