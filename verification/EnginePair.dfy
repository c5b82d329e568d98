/** The two ends of a connection: what one call at one end does when its bytes reach the other. */
module EnginePair {
  import opened Types
  import opened Wire
  import opened Sorting
  import opened EngineModel
  import opened EngineSteps
  import opened EngineRuns
  import opened EngineReplay
  import opened EngineSend
  import opened EngineReceive
  import F = FrameCodec
  import C = Channels
  import P = Replay
  import T = Timers
  import X = Extensions
  import CT = CodecTheorems

  // ---------------------------------------------------------------- one frame across

  /** A frame without extensions reaches the other end as it was made. */
  lemma BareFrameCrosses(limits: F.FrameLimits, reader: F.FrameLimits, f: F.Frame)
    requires F.EncodeSpec(limits, f).Ok? && f.extensions == [] && limits.maxHeader < 0x1_0000
    requires |F.EncodeSpec(limits, f).value| <= reader.maxFrame
    ensures F.DecodeStep(reader, F.EncodeSpec(limits, f).value, false) == F.Got(f, |F.EncodeSpec(limits, f).value|)
  {
    hide F.EncodeSpec, F.DecodeStep;
    assert X.Canonical([]) == [] && X.WriteExtensionsSpec([]).Ok? && X.WriteExtensionsSpec([]).value == [];
    CT.EncodeDecode(limits, reader, f, [], false);
    assert F.EncodeSpec(limits, f).value + [] == F.EncodeSpec(limits, f).value;
    assert CT.Sorted(f) == f;
  }

  lemma PayloadSmall(limits: F.FrameLimits, f: F.Frame)
    requires F.EncodeSpec(limits, f).Ok?
    ensures |f.payload| < U32_SPAN
  {
    hide F.Unsealed, F.Seal, X.WriteExtensionsSpec;
  }

  /** Receiving bytes that decode to one frame is handling that frame. */
  lemma ReceiveDecoded(host: Host, d: Conn, bs: Bytes, f: F.Frame)
    requires d.buffer == [] && F.DecodeStep(Limits(d.policy), bs, false) == F.Got(f, |bs|) && |f.payload| < U64_SPAN
    ensures ReceiveSpec(host, d, bs, false) == Ended(HandleFrame(host, d, f))
  {
    hide F.DecodeStep, HandleEvents, HandleFrame, Ended;
    assert d.buffer + bs == bs;
    assert [] + [F.Decoded(f)] == [F.Decoded(f)];
    OnlyEvent(host, d, f);
    assert d.(buffer := []) == d;
  }

  lemma FlatOne(bs: Bytes)
    ensures Flat([bs]) == bs
  {
    var none: seq<Bytes> := [];
    assert [bs][1..] == none && Flat(none) == [];
  }

  /** Receiving the encoding of one such frame is handling that frame. */
  lemma ReceiveOne(host: Host, d: Conn, limits: F.FrameLimits, f: F.Frame)
    requires F.EncodeSpec(limits, f).Ok? && f.extensions == [] && limits.maxHeader < 0x1_0000
    requires d.buffer == [] && |F.EncodeSpec(limits, f).value| <= d.policy.maxFrame
    ensures |f.payload| < U64_SPAN
    ensures ReceiveSpec(host, d, Flat([F.EncodeSpec(limits, f).value]), false) == Ended(HandleFrame(host, d, f))
  {
    hide F.EncodeSpec, F.DecodeStep, ReceiveSpec, HandleFrame, Ended, Flat;
    PayloadSmall(limits, f);
    var bs := F.EncodeSpec(limits, f).value;
    BareFrameCrosses(limits, Limits(d.policy), f);
    FlatOne(bs);
    ReceiveDecoded(host, d, bs, f);
  }

  /** A control frame that is emitted, and its bytes received at the other end. */
  lemma Crosses(c: Conn, host: Host, d: Conn, kind: F.FrameType, channel: ChannelId, payload: Bytes)
    requires Settled(c) && kind != F.Data && PostSpec(c, kind, channel, payload, []).1.Ok?
    requires d.buffer == [] && |Encoding(Limits(c.policy), FrameOf(c, kind, channel, payload, []))| <= d.policy.maxFrame
    ensures |payload| < U64_SPAN
    ensures ReceiveSpec(host, d, Flat(PostSpec(c, kind, channel, payload, []).1.value), false)
         == Ended(HandleFrame(host, d, FrameOf(c, kind, channel, payload, [])))
  {
    hide F.EncodeSpec, EmitSpec, ReceiveSpec, HandleFrame, Ended, Flat;
    var f := FrameOf(c, kind, channel, payload, []);
    SettledFields(c, Numbered(c));
    EmitOutcome(Numbered(c), f);
    ReceiveOne(host, d, Limits(c.policy), f);
  }

  // ---------------------------------------------------------------- keeping alive

  lemma TokenReads(token: u64)
    ensures ReadToken(U64Bytes(token)) == Ok(token)
  {
    hide U64Bytes, ReadU64;
    U64Inverse(token, [], []);
    assert [] + U64Bytes(token) + [] == U64Bytes(token);
  }

  /** The idle timer sends a PING and sets the deadline for its token. */
  lemma IdlePings(c: Conn, idle: T.Timer)
    requires idle.kind == T.Idle && c.state != Closed && Fire(c, idle).1.Ok?
    ensures var token := if c.now == 0 then 1 else c.now;
            var c1 := Noted(c, Plain(TimerExpired, idle.channel)).(pendingPong := Some(token));
            var (next, r) := Fire(c, idle);
            && PostSpec(c1, F.Ping, CONTROL, U64Bytes(token), []).1 == r
            && next.pendingPong == Some(token) && next.state == c.state && next.buffer == c.buffer && next.policy == c.policy
  {
    hide EmitSpec, U64Bytes;
    var token := if c.now == 0 then 1 else c.now;
    var c1 := Noted(c, Plain(TimerExpired, idle.channel)).(pendingPong := Some(token));
    PostFrame(c1, F.Ping, CONTROL, U64Bytes(token), []);
  }

  /** A PING, received. */
  lemma PingAnswered(host: Host, d: Conn, f: F.Frame, token: u64)
    requires f.kind == F.Ping && f.channel == CONTROL && f.payload == U64Bytes(token)
    ensures HandleFrame(host, d, f) == PostSpec(d, F.Pong, CONTROL, U64Bytes(token), [])
  {
    hide PostSpec, U64Bytes;
    TokenReads(token);
  }

  /** A PONG, received. */
  lemma PongTaken(host: Host, c: Conn, f: F.Frame, token: u64)
    requires f.kind == F.Pong && f.channel == CONTROL && f.payload == U64Bytes(token)
    ensures var (next, r) := HandleFrame(host, c, f);
            && r == Ok([]) && next.state == c.state
            && next.pendingPong == if c.pendingPong == Some(token) then None else c.pendingPong
  {
    hide U64Bytes;
    TokenReads(token);
  }

  /**
   The idle timer's PING goes over, is answered, and the PONG comes back, all as bytes: the deadline is
   lifted, and its timer then leaves the connection as it is. Without the PONG, or with that of any other
   token, the deadline closes it.
   */
  lemma KeepAlive(here: Host, c: Conn, there: Host, d: Conn, idle: T.Timer, deadline: T.Timer, other: u64)
    requires Settled(c) && Settled(d) && c.buffer == [] && d.buffer == [] && c.state != Closed
    requires 29 <= c.policy.maxFrame && 29 <= d.policy.maxFrame
    requires idle.kind == T.Idle && deadline.kind == T.PongDeadline && Fire(c, idle).1.Ok?
    requires ReceiveSpec(there, d, Flat(Fire(c, idle).1.value), false).1.Ok?
    ensures var (waiting, ping) := Fire(c, idle);
            var pong := ReceiveSpec(there, d, Flat(ping.value), false).1;
            var (lifted, r) := ReceiveSpec(here, waiting, Flat(pong.value), false);
            && r == Ok([]) && Fire(lifted, deadline).1.Ok? && Fire(lifted, deadline).0.state == c.state
            && Fire(waiting, deadline).1.Err? && Fire(waiting, deadline).0.state == Closed
    ensures var waiting, wrong := Fire(c, idle).0, PostSpec(d, F.Pong, CONTROL, U64Bytes(other), []).1;
            wrong.Ok? && other != (if c.now == 0 then 1 else c.now) ==>
              var unmoved := ReceiveSpec(here, waiting, Flat(wrong.value), false).0;
              Fire(unmoved, deadline).1.Err? && Fire(unmoved, deadline).0.state == Closed
  {
    hide PostSpec, ReceiveSpec, HandleFrame, U64Bytes, Settled, Fire, Flat, Encoding;
    var token := if c.now == 0 then 1 else c.now;
    var c1 := Noted(c, Plain(TimerExpired, idle.channel)).(pendingPong := Some(token));
    IdlePings(c, idle);
    SettledFields(c, c1);
    var ping, pong := FrameOf(c1, F.Ping, CONTROL, U64Bytes(token), []), FrameOf(d, F.Pong, CONTROL, U64Bytes(token), []);
    ShortFits(Limits(c.policy), ping);
    ShortFits(Limits(d.policy), pong);
    Crosses(c1, there, d, F.Ping, CONTROL, U64Bytes(token));
    PingAnswered(there, d, ping, token);
    var waiting := Fire(c, idle).0;
    Crosses(d, here, waiting, F.Pong, CONTROL, U64Bytes(token));
    PongTaken(here, waiting, pong, token);
    var lifted := ReceiveSpec(here, waiting, Flat(ReceiveSpec(there, d, Flat(Fire(c, idle).1.value), false).1.value), false).0;
    DeadlineFires(lifted, deadline);
    DeadlineFires(waiting, deadline);
    var wrong := PostSpec(d, F.Pong, CONTROL, U64Bytes(other), []).1;
    if wrong.Ok? && other != token {
      WrongPong(here, waiting, d, token, other);
      DeadlineFires(ReceiveSpec(here, waiting, Flat(wrong.value), false).0, deadline);
    }
  }

  /** The PONG of another token goes over, and the one that is owed still is. */
  lemma WrongPong(host: Host, c: Conn, d: Conn, token: u64, other: u64)
    requires Settled(d) && c.buffer == [] && 29 <= c.policy.maxFrame && c.pendingPong == Some(token) && other != token
    requires PostSpec(d, F.Pong, CONTROL, U64Bytes(other), []).1.Ok?
    ensures var next := ReceiveSpec(host, c, Flat(PostSpec(d, F.Pong, CONTROL, U64Bytes(other), []).1.value), false).0;
            next.pendingPong == Some(token) && next.state == c.state
  {
    hide PostSpec, ReceiveSpec, HandleFrame, U64Bytes, Settled, Flat, Encoding;
    var pong := FrameOf(d, F.Pong, CONTROL, U64Bytes(other), []);
    ShortFits(Limits(d.policy), pong);
    Crosses(d, host, c, F.Pong, CONTROL, U64Bytes(other));
    PongTaken(host, c, pong, other);
  }

  /** The deadline timer closes a live connection exactly while a PONG is still owed. */
  lemma DeadlineFires(c: Conn, deadline: T.Timer)
    requires deadline.kind == T.PongDeadline && c.state != Closed
    ensures var (next, r) := Fire(c, deadline);
            if c.pendingPong.Some? then r.Err? && next.state == Closed else r.Ok? && next.state == c.state
  {
  }

  // ---------------------------------------------------------------- acknowledging

  /**
   Ranges acknowledged at one end, received as bytes at the other, retire there exactly the frames they
   name, whatever order they were given in; ranges its window cannot take leave the window as it was.
   */
  lemma AcknowledgementCrosses(c: Conn, host: Host, d: Conn, ranges: seq<P.AckRange>)
    requires Settled(c) && AcknowledgeSpec(c, ranges).1.Ok? && d.buffer == []
    requires |Flat(AcknowledgeSpec(c, ranges).1.value)| <= d.policy.maxFrame
    ensures var (next, reply) := ReceiveSpec(host, d, Flat(AcknowledgeSpec(c, ranges).1.value), false);
            && (reply.Ok? <==> d.replay.epoch == 1 && P.EachFits(ranges, P.Latest(d.replay)))
            && (reply.Err? ==> next.replay == d.replay)
            && (reply.Ok? ==>
                  forall e :: e in next.replay.entries <==> e in d.replay.entries && !P.Acked(ranges, e.sequence))
  {
    hide P.EncodeAckSpec, P.EachFits, P.Acked, PostSpec, ReceiveSpec, HandleFrame, Settled, P.Latest;
    var payload := P.EncodeAckSpec(1, ranges).value;
    var f := FrameOf(c, F.Ack, CONTROL, payload, []);
    HandedSize(c, F.Ack, CONTROL, payload);
    Crosses(c, host, d, F.Ack, CONTROL, payload);
    AckHandled(d, ranges, f);
    AckFrame(host, d, f);
  }

  /** What is handed out for one control frame is its encoding. */
  lemma HandedSize(c: Conn, kind: F.FrameType, channel: ChannelId, payload: Bytes)
    requires Settled(c) && kind != F.Data && PostSpec(c, kind, channel, payload, []).1.Ok?
    ensures Flat(PostSpec(c, kind, channel, payload, []).1.value) == Encoding(Limits(c.policy), FrameOf(c, kind, channel, payload, []))
  {
    hide F.EncodeSpec, EmitSpec;
    var f := FrameOf(c, kind, channel, payload, []);
    SettledFields(c, Numbered(c));
    EmitOutcome(Numbered(c), f);
    FlatOne(Encoding(Limits(c.policy), f));
  }

  lemma AckFrame(host: Host, d: Conn, f: F.Frame)
    requires f.kind == F.Ack && |f.payload| < U64_SPAN
    ensures HandleFrame(host, d, f) == HandleAck(d, f)
  {
    hide HandleAck;
  }

  lemma AckHandled(d: Conn, ranges: seq<P.AckRange>, f: F.Frame)
    requires P.EncodeAckSpec(1, ranges).Ok? && f.channel == CONTROL && f.payload == P.EncodeAckSpec(1, ranges).value
    ensures var (next, reply) := HandleAck(d, f);
            && (reply.Ok? <==> d.replay.epoch == 1 && P.EachFits(ranges, P.Latest(d.replay)))
            && (reply.Err? ==> next == d)
            && (reply.Ok? ==>
                  forall e :: e in next.replay.entries <==> e in d.replay.entries && !P.Acked(ranges, e.sequence))
  {
    hide P.EncodeAckSpec, P.DecodeAckSpec, P.AcknowledgeSpec, P.PairwiseApart, P.EachFits, P.Acked;
    P.AckEncodeDecode(1, ranges);
    var rs := SortBy(P.First, ranges);
    P.AcknowledgeExact(d.replay, 1, rs);
    P.SameRanges(ranges);
    P.SortApart(ranges);
    SameFit(rs, ranges, P.Latest(d.replay));
    assert P.DecodeAckSpec(f.payload) == Ok((1, rs));
    assert HandleAck(d, f).1.Ok? <==> P.AcknowledgeSpec(d.replay, 1, rs).1.Ok?;
    forall n: u32
      ensures P.Acked(rs, n) <==> P.Acked(ranges, n)
    {
      P.SameNames(ranges, n);
    }
  }

  lemma SameFit(a: seq<P.AckRange>, b: seq<P.AckRange>, latest: Option<u32>)
    requires forall r :: r in a <==> r in b
    ensures P.EachFits(a, latest) <==> P.EachFits(b, latest)
  {
  }

  // ---------------------------------------------------------------- opening

  /** The two tables agree about the slot the opener takes first. */
  predicate InLockstep(c: Conn, d: Conn) {
    && c.channels.Some? && d.channels.Some?
    && var i := C.FirstFree(c.channels.value.slots);
       i < |c.channels.value.slots| == |d.channels.value.slots|
       && d.channels.value.slots[i].state == C.Free
       && d.channels.value.slots[i].id == c.channels.value.slots[i].id
  }

  lemma OpenedTable(t: C.Table)
    requires C.AllocateSpec(t).1.Ok?
    requires forall i :: 0 <= i < |t.slots| ==> t.slots[i].id.number == i + 1
    ensures var (t1, r) := C.AllocateSpec(t);
            var t2 := C.ActivateSpec(t1, r.value).0;
            && C.ActivateSpec(t1, r.value).1.Ok?
            && C.Find(t2, r.value) == Some(C.FirstFree(t.slots))
            && t2.slots[C.FirstFree(t.slots)] == C.NewLifetime(t, r.value, C.Open)
            && r.value.number == C.FirstFree(t.slots) + 1
            && r.value.generation == t.slots[C.FirstFree(t.slots)].id.generation + 1
  {
  }

  lemma AcceptedSane(t: C.Table, id: ChannelId)
    requires SaneTable(t)
    ensures SaneTable(C.AcceptRemoteSpec(t, id).0)
  {
    TableSane(t, C.TableOp.AcceptRemote(id));
  }

  lemma AcceptedTable(t: C.Table, id: ChannelId)
    requires C.InRange(t, id) && t.slots[id.number - 1].state == C.Free
    requires id.generation == t.slots[id.number - 1].id.generation + 1
    ensures var (next, r) := C.AcceptRemoteSpec(t, id);
            && r.Ok? && C.Find(next, id) == Some(id.number - 1)
            && next.slots[id.number - 1] == C.NewLifetime(t, id, C.Open) && next.window == t.window
  {
  }

  lemma FamilyReads(family: u32, rest: Bytes)
    ensures ReadU32(U32Bytes(family) + rest, 0) == family
  {
    hide U32Bytes, ReadU32;
    U32Inverse(family, [], rest);
    assert [] + U32Bytes(family) + rest == U32Bytes(family) + rest;
  }

  lemma Ids(c: Conn)
    requires Sane(c) && c.channels.Some?
    ensures forall i :: 0 <= i < |c.channels.value.slots| ==> c.channels.value.slots[i].id.number == i + 1
  {
    forall i | 0 <= i < |c.channels.value.slots|
      ensures c.channels.value.slots[i].id.number == i + 1
    {
      assert SaneSlot(c.channels.value, i);
    }
  }

  /**
   A channel opened at one end is accepted at the other from the bytes handed out, under the same id, and
   both ends start its lifetime alike: open, with both counters at 1, all credit there and nothing stored.
   */
  lemma OpenIsAccepted(host: Host, c: Conn, d: Conn, family: u32, window: u64)
    requires Settled(c) && Sane(c) && Sane(d) && InLockstep(c, d) && d.buffer == [] && 29 <= d.policy.maxFrame
    requires d.state == Active && d.capabilities.Some? && Offers(d.capabilities.value, family)
    requires OpenChannelSpec(c, family, window).1.Ok?
    ensures var (ours, r) := OpenChannelSpec(c, family, window);
            var id := r.value.0;
            var (theirs, reply) := ReceiveSpec(host, d, Flat(r.value.1), false);
            && reply == Ok([])
            && Live(ours, id).Some? && Live(theirs, id) == Live(ours, id)
            && ours.channels.value.slots[Live(ours, id).value] == C.NewLifetime(c.channels.value, id, C.Open)
            && theirs.channels.value.slots[Live(ours, id).value] == C.NewLifetime(d.channels.value, id, C.Open)
            && theirs == Noted(d.(channels := theirs.channels), Plain(ChannelOpened, id)) && Sane(theirs)
            && theirs.channels.value.window == d.channels.value.window
  {
    hide U32Bytes, PostSpec, C.AllocateSpec, C.ActivateSpec, C.NewLifetime, C.Find, Offers, ReceiveSpec, HandleFrame, Settled, Flat;
    Ids(c);
    var t := c.channels.value;
    var (t1, r) := C.AllocateSpec(t);
    OpenedTable(t);
    var payload := U32Bytes(family) + U32Bytes(window % U32_SPAN);
    var c1 := c.(channels := Some(C.ActivateSpec(t1, r.value).0));
    var f := FrameOf(c1, F.Open, r.value, payload, []);
    SettledFields(c, c1);
    ShortFits(Limits(c.policy), f);
    Crosses(c1, host, d, F.Open, r.value, payload);
    PostFrame(c1, F.Open, r.value, payload, []);
    OpenHandled(host, d, f, r.value, family, U32Bytes(window % U32_SPAN));
  }

  lemma OpenHandled(host: Host, d: Conn, f: F.Frame, id: ChannelId, family: u32, rest: Bytes)
    requires f.kind == F.Open && f.channel == id && f.payload == U32Bytes(family) + rest && |rest| == 4
    requires d.state == Active && d.channels.Some? && d.capabilities.Some? && Offers(d.capabilities.value, family)
    requires C.InRange(d.channels.value, id) && d.channels.value.slots[id.number - 1].state == C.Free
    requires id.generation == d.channels.value.slots[id.number - 1].id.generation + 1
    ensures var (next, reply) := HandleFrame(host, d, f);
            && reply == Ok([]) && Live(next, id) == Some(id.number - 1)
            && next.channels.value.slots[id.number - 1] == C.NewLifetime(d.channels.value, id, C.Open)
            && next == Noted(d.(channels := next.channels), Plain(ChannelOpened, id))
            && next.channels.value.window == d.channels.value.window && (Sane(d) ==> Sane(next))
  {
    hide U32Bytes, ReadU32, C.AcceptRemoteSpec, C.NewLifetime, C.Find, Offers, SaneTable;
    FamilyReads(family, rest);
    AcceptedTable(d.channels.value, id);
    if Sane(d) { AcceptedSane(d.channels.value, id); }
  }

  // ---------------------------------------------------------------- closing halves

  /** The two ends' views of one channel: what one has closed for sending the other has closed for receiving. */
  predicate Mirrored(a: C.Slot, b: C.Slot) {
    && a.localClosed == b.remoteClosed && a.remoteClosed == b.localClosed
    && C.StateMatches(a) && C.StateMatches(b)
    && a.state != C.Opening && b.state != C.Opening
  }

  function Halved(s: C.Slot, direction: C.Direction): C.Slot {
    if direction == C.LocalSend
    then s.(localClosed := true, state := if s.remoteClosed then C.Closing else C.LocalClosed)
    else s.(remoteClosed := true, state := if s.localClosed then C.Closing else C.RemoteClosed)
  }

  predicate CanHalve(s: C.Slot) { s.state == C.Open || s.state == C.LocalClosed || s.state == C.RemoteClosed }

  lemma HalfClosedSlot(t: C.Table, id: ChannelId, direction: C.Direction)
    requires C.Find(t, id).Some?
    ensures var (next, r) := C.HalfCloseSpec(t, id, direction);
            var i := C.Find(t, id).value;
            && (r.Ok? <==> CanHalve(t.slots[i]))
            && (r.Ok? ==> C.Find(next, id) == Some(i) && next.slots[i] == Halved(t.slots[i], direction))
  {
  }

  lemma HalvesMirror(a: C.Slot, b: C.Slot, direction: C.Direction)
    requires Mirrored(a, b)
    ensures CanHalve(a) && C.Live(a) && C.Live(b) ==> CanHalve(b)
    ensures CanHalve(b) && C.Live(a) && C.Live(b) ==> CanHalve(a)
    ensures CanHalve(a) ==> Mirrored(Halved(a, direction), Halved(b, if direction == C.LocalSend then C.RemoteSend else C.LocalSend))
  {
  }

  lemma LiveSlot(c: Conn, id: ChannelId)
    requires Live(c, id).Some?
    ensures C.Live(c.channels.value.slots[Live(c, id).value])
  {
  }

  /** The payload of a HALF_CLOSE frame: which half its sender closed. */
  function HalfByte(direction: C.Direction): Bytes { [if direction == C.LocalSend then 0 else 1] }

  /** One end's sending half is the other end's receiving half. */
  lemma HalfCloseHandled(host: Host, d: Conn, f: F.Frame, id: ChannelId, direction: C.Direction)
    requires f.kind == F.HalfClose && f.channel == id && f.payload == HalfByte(direction) && d.channels.Some?
    ensures var theirs := if direction == C.LocalSend then C.RemoteSend else C.LocalSend;
            var (t, r) := C.HalfCloseSpec(d.channels.value, id, theirs);
            HandleFrame(host, d, f)
            == if r.Ok? then (Noted(d.(channels := Some(t)), Plain(HalfClosed, id)), Ok([])) else (d, Err(r.error))
  {
    hide C.HalfCloseSpec;
    assert f.payload[0] == 0 <==> direction == C.LocalSend;
    assert HandleFrame(host, d, f) == HandleHalfClose(d, f);
    var (t, r) := C.HalfCloseSpec(d.channels.value, id, if f.payload[0] == 0 then C.RemoteSend else C.LocalSend);
    assert r.Ok? ==> HandleHalfClose(d, f) == (Noted(d.(channels := Some(t)), Plain(HalfClosed, id)), Ok([]));
    assert r.Err? ==> HandleHalfClose(d, f) == (d, Err(r.error));
  }

  /** Emitting the HALF_CLOSE leaves the closed table as it is. */
  lemma HalfCloseSends(c: Conn, id: ChannelId, direction: C.Direction)
    requires HalfCloseSpec(c, id, direction).1.Ok?
    ensures c.channels.Some? && C.HalfCloseSpec(c.channels.value, id, direction).1.Ok?
    ensures var noted := Noted(c.(channels := Some(C.HalfCloseSpec(c.channels.value, id, direction).0)), Plain(HalfClosed, id));
            var (next, r) := HalfCloseSpec(c, id, direction);
            && PostSpec(noted, F.HalfClose, id, HalfByte(direction), []) == (next, r)
            && next.channels == noted.channels && next.state == c.state && next.capabilities == c.capabilities
  {
    hide EmitSpec, C.HalfCloseSpec;
    var noted := Noted(c.(channels := Some(C.HalfCloseSpec(c.channels.value, id, direction).0)), Plain(HalfClosed, id));
    PostFrame(noted, F.HalfClose, id, HalfByte(direction), []);
  }

  /**
   Closing a half at one end, its bytes received at the other: accepted there too, and the two ends' views
   of the channel stay mirror images.
   */
  lemma HalfCloseMirrors(host: Host, c: Conn, d: Conn, id: ChannelId, direction: C.Direction)
    requires Settled(c) && Live(c, id).Some? && Live(d, id).Some? && d.buffer == [] && 29 <= d.policy.maxFrame
    requires Mirrored(c.channels.value.slots[Live(c, id).value], d.channels.value.slots[Live(d, id).value])
    requires HalfCloseSpec(c, id, direction).1.Ok?
    ensures var (ours, r) := HalfCloseSpec(c, id, direction);
            var (theirs, reply) := ReceiveSpec(host, d, Flat(r.value), false);
            && reply == Ok([]) && theirs == Noted(d.(channels := theirs.channels), Plain(HalfClosed, id))
            && ours.state == c.state && ours.capabilities == c.capabilities
            && Live(ours, id) == Live(c, id) && Live(theirs, id) == Live(d, id)
            && ours.channels.value.slots[Live(c, id).value] == Halved(c.channels.value.slots[Live(c, id).value], direction)
            && Mirrored(ours.channels.value.slots[Live(c, id).value], theirs.channels.value.slots[Live(d, id).value])
  {
    hide C.HalfCloseSpec, Mirrored, CanHalve, Halved, HandleFrame, C.Find, PostSpec, ReceiveSpec, HalfCloseSpec, Settled, Flat;
    var opposite := if direction == C.LocalSend then C.RemoteSend else C.LocalSend;
    HalfCloseSends(c, id, direction);
    HalfClosedSlot(c.channels.value, id, direction);
    HalfClosedSlot(d.channels.value, id, opposite);
    LiveSlot(c, id);
    LiveSlot(d, id);
    HalvesMirror(c.channels.value.slots[Live(c, id).value], d.channels.value.slots[Live(d, id).value], direction);
    var noted := Noted(c.(channels := Some(C.HalfCloseSpec(c.channels.value, id, direction).0)), Plain(HalfClosed, id));
    SettledFields(c, noted);
    var f := FrameOf(noted, F.HalfClose, id, HalfByte(direction), []);
    ShortFits(Limits(c.policy), f);
    Crosses(noted, host, d, F.HalfClose, id, HalfByte(direction));
    HalfCloseHandled(host, d, f, id, direction);
  }

  /**
   Once a sender has closed its half and the other end has heard of it, both refuse the rest: `send` fails
   without change, and bytes of a fragment that still arrive are noted as an error and nothing more.
   */
  lemma ClosedHalfIsShut(host: Host, c: Conn, d: Conn, id: ChannelId, payload: Bytes, late: Bytes, f: F.Frame)
    requires Settled(c) && Live(c, id).Some? && Live(d, id).Some? && d.buffer == [] && 29 <= d.policy.maxFrame
    requires Mirrored(c.channels.value.slots[Live(c, id).value], d.channels.value.slots[Live(d, id).value])
    requires HalfCloseSpec(c, id, C.LocalSend).1.Ok? && c.state == Active && d.state == Active && c.capabilities.Some?
    requires |payload| < U64_SPAN && |f.payload| < U64_SPAN && f.kind == F.Data && f.channel == id
    requires F.DecodeStep(Limits(d.policy), late, false) == F.Got(f, |late|)
    ensures var (ours, r) := HalfCloseSpec(c, id, C.LocalSend);
            var theirs := ReceiveSpec(host, d, Flat(r.value), false).0;
            && SendSpec(ours, id, payload) == (ours, Err(ChannelError(IllegalState)))
            && ReceiveSpec(host, theirs, late, false)
               == (Diagnosed(theirs, ChannelError(IllegalState)), Err(ChannelError(IllegalState)))
  {
    hide HalfCloseSpec, ReceiveSpec, SendSpec, HandleFrame, Mirrored, F.DecodeStep, Settled, Live, Flat, Halved;
    HalfCloseMirrors(host, c, d, id, C.LocalSend);
    var (ours, r) := HalfCloseSpec(c, id, C.LocalSend);
    var theirs := ReceiveSpec(host, d, Flat(r.value), false).0;
    BothClosed(ours, theirs, c, id);
    SendRefused(ours, id, payload);
    DataRefused(host, theirs, f, id);
    ReceiveDecoded(host, theirs, late, f);
  }

  lemma BothClosed(ours: Conn, theirs: Conn, c: Conn, id: ChannelId)
    requires Live(ours, id).Some? && Live(theirs, id).Some? && Live(c, id) == Live(ours, id)
    requires ours.channels.value.slots[Live(ours, id).value] == Halved(c.channels.value.slots[Live(c, id).value], C.LocalSend)
    requires Mirrored(ours.channels.value.slots[Live(ours, id).value], theirs.channels.value.slots[Live(theirs, id).value])
    ensures ours.channels.value.slots[Live(ours, id).value].localClosed
    ensures theirs.channels.value.slots[Live(theirs, id).value].remoteClosed
  {
  }

  lemma SendRefused(c: Conn, id: ChannelId, payload: Bytes)
    requires |payload| < U64_SPAN && c.state == Active && c.capabilities.Some? && Live(c, id).Some?
    requires c.channels.value.slots[Live(c, id).value].localClosed
    ensures SendSpec(c, id, payload) == (c, Err(ChannelError(IllegalState)))
  {
    hide SendFrom;
  }

  lemma DataRefused(host: Host, d: Conn, f: F.Frame, id: ChannelId)
    requires |f.payload| < U64_SPAN && f.kind == F.Data && f.channel == id && d.state == Active && Live(d, id).Some?
    requires d.channels.value.slots[Live(d, id).value].remoteClosed
    ensures HandleFrame(host, d, f) == (d, Err(ChannelError(IllegalState)))
  {
    hide Absorb, Deliver, ExtensionU32;
  }

  // ---------------------------------------------------------------- resetting

  /** Afterwards `id` is not live, and every slot but the one it may have been live in is as it was. */
  predicate Without(c: Conn, next: Conn, id: ChannelId) {
    && Live(next, id).None? && c.channels.Some? == next.channels.Some?
    && (c.channels.Some? ==>
          && |next.channels.value.slots| == |c.channels.value.slots|
          && forall j :: 0 <= j < |c.channels.value.slots| && Live(c, id) != Some(j) ==>
               next.channels.value.slots[j] == c.channels.value.slots[j])
  }

  lemma ResetWithout(c: Conn, t: C.Table, id: ChannelId)
    requires c.channels.Some? && t == C.ResetChannelSpec(c.channels.value, id).0
    ensures Without(c, c.(channels := Some(t)), id)
  {
    hide C.NewFragments;
  }

  lemma WithoutNoted(c: Conn, next: Conn, id: ChannelId, e: Event)
    requires Without(c, next, id)
    ensures Without(c, Noted(next, e), id)
  {
  }

  lemma WithoutNone(c: Conn, next: Conn, id: ChannelId)
    requires c.channels.None? && next.channels.None?
    ensures Without(c, next, id)
  {
  }

  /** A RESET, received. */
  lemma ResetHandled(host: Host, d: Conn, f: F.Frame)
    requires f.kind == F.Reset && |f.payload| < U64_SPAN
    ensures var (next, reply) := HandleFrame(host, d, f);
            && reply == Ok([]) && Without(d, next, f.channel)
            && next == Noted(d.(channels := next.channels), Plain(ChannelReset, f.channel))
  {
    hide C.ResetChannelSpec, Without;
    assert HandleFrame(host, d, f) == (HandleReset(d, f.channel), Ok([]));
    if d.channels.Some? {
      var t := C.ResetChannelSpec(d.channels.value, f.channel).0;
      ResetWithout(d, t, f.channel);
      WithoutNoted(d, d.(channels := Some(t)), f.channel, Plain(ChannelReset, f.channel));
    } else {
      WithoutNone(d, HandleReset(d, f.channel), f.channel);
    }
  }

  /** Emitting the RESET leaves the table without the channel. */
  lemma ResetSends(c: Conn, id: ChannelId)
    requires ResetSpec(c, id).1.Ok?
    ensures c.channels.Some? && C.ResetChannelSpec(c.channels.value, id).1.Ok?
    ensures var noted := Noted(c.(channels := Some(C.ResetChannelSpec(c.channels.value, id).0)), Plain(ChannelReset, id));
            && PostSpec(noted, F.Reset, id, [], []) == ResetSpec(c, id) && ResetSpec(c, id).0.channels == noted.channels
  {
    hide EmitSpec, C.ResetChannelSpec;
    var noted := Noted(c.(channels := Some(C.ResetChannelSpec(c.channels.value, id).0)), Plain(ChannelReset, id));
    PostFrame(noted, F.Reset, id, [], []);
  }

  lemma OurTable(c: Conn, next: Conn, last: Conn, id: ChannelId)
    requires Without(c, next, id) && last.channels == next.channels
    ensures Without(c, last, id)
  {
  }

  /**
   Resetting a channel at one end, its bytes received at the other: neither end has it live any more, and at either
   no other channel has changed. A peer that had it not live either takes the frame all the same, without an error.
   */
  lemma ResetCrosses(host: Host, c: Conn, d: Conn, id: ChannelId)
    requires Settled(c) && ResetSpec(c, id).1.Ok? && d.buffer == [] && 29 <= d.policy.maxFrame
    ensures var (ours, r) := ResetSpec(c, id);
            var (theirs, reply) := ReceiveSpec(host, d, Flat(r.value), false);
            && reply == Ok([]) && Without(c, ours, id) && Without(d, theirs, id)
            && theirs == Noted(d.(channels := theirs.channels), Plain(ChannelReset, id))
  {
    hide C.ResetChannelSpec, HandleFrame, PostSpec, ReceiveSpec, ResetSpec, Settled, Flat, Without;
    ResetSends(c, id);
    var t := C.ResetChannelSpec(c.channels.value, id).0;
    var noted := Noted(c.(channels := Some(t)), Plain(ChannelReset, id));
    ResetWithout(c, t, id);
    OurTable(c, c.(channels := Some(t)), ResetSpec(c, id).0, id);
    SettledFields(c, noted);
    var f := FrameOf(noted, F.Reset, id, [], []);
    ShortFits(Limits(c.policy), f);
    Crosses(noted, host, d, F.Reset, id, []);
    ResetHandled(host, d, f);
  }

  // ---------------------------------------------------------------- credit and resume

  /** The bytes of a granted credit are refused by every peer, whose table stays as it was. */
  lemma CreditCrosses(c: Conn, host: Host, d: Conn, id: ChannelId, amount: u64)
    requires Settled(c) && Sane(d) && GrantCreditSpec(c, id, amount).1.Ok? && d.buffer == [] && 29 <= d.policy.maxFrame
    ensures var (next, r) := ReceiveSpec(host, d, Flat(GrantCreditSpec(c, id, amount).1.value), false);
            r.Err? && next == Ended((d, r)).0 && next.channels == d.channels
  {
    hide PostSpec, ReceiveSpec, HandleCredit, U32Bytes, Settled, Sane;
    var payload := U32Bytes(amount % U32_SPAN);
    var f := FrameOf(c, F.Credit, id, payload, []);
    ShortFits(Limits(c.policy), f);
    Crosses(c, host, d, F.Credit, id, payload);
    CreditRefused(d, f);
    assert HandleFrame(host, d, f) == HandleCredit(d, f);
  }

  /** A PING that is received is answered with a PONG for its token. */
  lemma PingCrosses(c: Conn, host: Host, d: Conn, token: u64)
    requires Settled(c) && PingSpec(c, token).1.Ok? && d.buffer == [] && 29 <= d.policy.maxFrame
    ensures ReceiveSpec(host, d, Flat(PingSpec(c, token).1.value), false)
         == Ended(PostSpec(d, F.Pong, CONTROL, U64Bytes(token), []))
  {
    hide PostSpec, ReceiveSpec, HandleFrame, U64Bytes, Settled;
    var payload := U64Bytes(token);
    ShortFits(Limits(c.policy), FrameOf(c, F.Ping, CONTROL, payload, []));
    Crosses(c, host, d, F.Ping, CONTROL, payload);
    PingAnswered(host, d, FrameOf(c, F.Ping, CONTROL, payload, []), token);
  }

  /** A RESUME, received. */
  lemma ResumeHandled(host: Host, d: Conn, request: ResumeRequest, f: F.Frame) returns (k: nat)
    requires P.Ascending(d.replay.entries) && |request.hash| == 16
    requires f.kind == F.Resume && f.channel == CONTROL && f.payload == ResumePayload(request) && |f.payload| < U64_SPAN
    ensures P.CutAt(d.replay.entries, request.first, k)
    ensures var (next, reply) := HandleFrame(host, d, f);
            && (reply.Ok? <==> Resumable(d, request))
            && (reply.Ok? ==> next == Noted(d.(state := Active), Plain(Resumed, CONTROL)) && reply.value == Copies(d.replay.entries[k..]))
            && (reply.Err? ==> next == d)
  {
    hide ResumePayload, ReadResume, P.RetainedFromSpec, P.CutAt, P.Ascending;
    ResumeReads(request);
    k := P.ResumeIff(d.replay, request.epoch, request.first);
    assert HandleFrame(host, d, f) == HandleResume(d, f);
  }

  /** Hash and epoch are the connection's own, and what is asked for is still retained, or is what comes next. */
  predicate Resumable(d: Conn, request: ResumeRequest) {
    var es := d.replay.entries;
    && d.capabilities.Some? && d.capabilities.value.hash == request.hash && request.epoch == d.replay.epoch
    && es != [] && es[0].sequence <= request.first <= es[|es| - 1].sequence + 1
  }

  /**
   The bytes of a RESUME at a peer: honoured exactly when the peer can, which is then active and hands out
   exactly the encodings it recorded from there on. Its window stays as it was either way.
   */
  lemma ResumeCrosses(c: Conn, host: Host, d: Conn, request: ResumeRequest) returns (k: nat)
    requires Settled(c) && Recorded(d) && |request.hash| == 16 && d.buffer == [] && 43 <= d.policy.maxFrame
    requires ResumeSpec(c, request).1.Ok?
    ensures P.CutAt(d.replay.entries, request.first, k)
    ensures var (next, reply) := ReceiveSpec(host, d, Flat(ResumeSpec(c, request).1.value), false);
            && (reply.Ok? <==> Resumable(d, request))
            && (reply.Ok? ==> next.state == Active && reply.value == Copies(d.replay.entries[k..]))
            && next.replay == d.replay
  {
    assert |ResumePayload(request)| == 22;
    hide PostSpec, ReceiveSpec, HandleFrame, ResumePayload, P.CutAt, P.Ascending, Settled, Resumable, Copies;
    var payload := ResumePayload(request);
    var f := FrameOf(c, F.Resume, CONTROL, payload, []);
    ShortFits(Limits(c.policy), f);
    Crosses(c, host, d, F.Resume, CONTROL, payload);
    k := ResumeHandled(host, d, request, f);
  }
}
