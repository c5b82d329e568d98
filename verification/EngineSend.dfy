/** Sending a message in fragments and receiving it whole at the other end. */
module EngineSend {
  import opened Types
  import opened Wire
  import opened Sorting
  import opened EngineModel
  import opened EngineSteps
  import opened EngineRuns
  import opened EngineReplay
  import X = Extensions
  import F = FrameCodec
  import CT = CodecTheorems
  import C = Channels
  import P = Replay
  import S = Scheduler
  import Crc

  // ---------------------------------------------------------------- the fragments

  /** The frames the loop of `send` makes from `offset` on, the first of them numbered `n`. */
  function Pieces(n: u32, id: ChannelId, sequence: u32, payload: Bytes, size: nat, offset: nat): seq<F.Frame>
    requires size >= 1
    decreases |payload| - offset
  {
    if offset >= |payload| then []
    else
      var take := Min(size, |payload| - offset);
      [F.Frame(F.Data, 0, id, n, DataExtensions(sequence, offset, |payload|), payload[offset..offset + take])]
      + Pieces((n + 1) % U32_SPAN, id, sequence, payload, size, offset + size)
  }

  function Contents(fs: seq<F.Frame>): Bytes {
    if fs == [] then [] else fs[0].payload + Contents(fs[1..])
  }

  /** The fragments tile the message. */
  lemma {:induction false} PiecesTile(n: u32, id: ChannelId, sequence: u32, payload: Bytes, size: nat, offset: nat)
    requires size >= 1
    ensures Contents(Pieces(n, id, sequence, payload, size, offset)) == if offset < |payload| then payload[offset..] else []
    ensures |Pieces(n, id, sequence, payload, size, offset)| <= (if offset < |payload| then |payload| - offset else 0)
    decreases |payload| - offset
  {
    hide DataExtensions;
    if offset < |payload| {
      PiecesTile((n + 1) % U32_SPAN, id, sequence, payload, size, offset + size);
      var take := Min(size, |payload| - offset);
      assert payload[offset..] == payload[offset..offset + take] + payload[offset + take..];
    }
  }

  /** The frame of the stretch of the message at `at`. */
  function PieceAt(n: int, id: ChannelId, sequence: u32, payload: Bytes, size: nat, at: nat): F.Frame
    requires at < |payload| && size >= 1
  {
    F.Frame(F.Data, 0, id, n % U32_SPAN, DataExtensions(sequence, at, |payload|), payload[at..Min(at + size, |payload|)])
  }

  lemma Stretch(k: nat, size: nat)
    requires k > 0
    ensures k * size == (k - 1) * size + size
  {
  }

  /** Fragment `k` is the `k`-th stretch of the size, under the next frame number each, with its place in the message. */
  lemma {:induction false} PiecesAt(n: u32, id: ChannelId, sequence: u32, payload: Bytes, size: nat, offset: nat, k: nat)
    requires size >= 1 && k < |Pieces(n, id, sequence, payload, size, offset)|
    ensures offset + k * size < |payload|
    ensures Pieces(n, id, sequence, payload, size, offset)[k] == PieceAt(n + k, id, sequence, payload, size, offset + k * size)
    decreases k
  {
    hide DataExtensions;
    if k > 0 {
      var next := (n + 1) % U32_SPAN;
      Stretch(k, size);
      PiecesAt(next, id, sequence, payload, size, offset + size, k - 1);
      SameNumber(n, k);
    }
  }

  lemma SameNumber(n: u32, k: nat)
    requires k > 0
    ensures ((n + 1) % U32_SPAN + (k - 1)) % U32_SPAN == (n + k) % U32_SPAN
  {
  }

  // ---------------------------------------------------------------- they fit

  lemma DataSorted(sequence: u32, offset: nat, total: nat)
    ensures X.Canonical(DataExtensions(sequence, offset, total)) == DataExtensions(sequence, offset, total)
    ensures X.WritableKinds(DataExtensions(sequence, offset, total)) && X.RequiredKnown(DataExtensions(sequence, offset, total))
  {
    hide U32Bytes;
    var es := DataExtensions(sequence, offset, total);
    forall i, j | 0 <= i < j < |es|
      ensures X.Rank(es[i]) <= X.Rank(es[j])
    {
    }
    SortedIsFixed(X.Rank, es);
  }

  lemma SmallWritten(e: X.Extension)
    requires e.kind < X.REQUIRED_BIT && |e.value| == 4
    ensures |X.WriteOne(e)| == 7
  {
    UlebOne(4);
  }

  lemma DataWritten(sequence: u32, offset: nat, total: nat)
    ensures X.WriteExtensionsSpec(DataExtensions(sequence, offset, total)).Ok?
    ensures |X.WriteExtensionsSpec(DataExtensions(sequence, offset, total)).value| == 28
  {
    hide U32Bytes, X.WriteOne, X.Canonical;
    DataSorted(sequence, offset, total);
    var es := DataExtensions(sequence, offset, total);
    forall i | 0 <= i < 4
      ensures |es[i].value| == 4 && es[i].kind < X.REQUIRED_BIT && |X.WriteOne(es[i])| == 7
    {
      SmallWritten(es[i]);
    }
    assert es[1..][1..] == es[2..] && es[2..][1..] == es[3..] && es[3..][1..] == [];
    assert |X.WriteAll([])| == 0;
    assert |X.WriteAll(es[3..])| == 7;
    assert |X.WriteAll(es[2..])| == 14;
    assert |X.WriteAll(es[1..])| == 21;
  }

  /** Half a frame of payload plus at most 53 bytes around it: 128 bytes are more than enough. */
  lemma FragmentFits(limits: F.FrameLimits, maxFrame: nat, f: F.Frame, sequence: u32, offset: nat, total: nat)
    requires 128 <= maxFrame <= limits.maxFrame && 28 <= limits.maxHeader
    requires f.flags == 0 && f.channel.number <= F.MAX_CHANNEL_NO
    requires f.extensions == DataExtensions(sequence, offset, total)
    requires |f.payload| <= Max(1, maxFrame / 2) && |f.payload| < U32_SPAN
    ensures F.EncodeSpec(limits, f).Ok?
    ensures 0 < |F.EncodeSpec(limits, f).value| <= maxFrame
  {
    hide Crc.Crc32c, X.WriteExtensionsSpec, F.FixedPrefix, DataExtensions;
    DataWritten(sequence, offset, total);
    UlebShort(|f.payload|);
  }

  /** A control frame without extensions and with a short payload always encodes. */
  lemma ShortEncodes(limits: F.FrameLimits, f: F.Frame)
    requires f.flags == 0 && f.channel.number <= F.MAX_CHANNEL_NO && f.extensions == [] && |f.payload| < 128
    ensures F.EncodeSpec(limits, f).Ok? <==> 21 + |f.payload| <= limits.maxFrame
    ensures F.EncodeSpec(limits, f).Ok? ==> |F.EncodeSpec(limits, f).value| == 21 + |f.payload|
  {
    hide F.FixedPrefix, F.Seal;
    assert X.Canonical([]) == [] && X.WriteExtensionsSpec([]) == Ok([]);
    UlebOne(|f.payload|);
    SealSize(F.Unsealed(f, []));
  }

  lemma SealSize(body: Bytes)
    ensures |F.Seal(body)| == |body| + 4
  {
  }

  lemma ShortFits(limits: F.FrameLimits, f: F.Frame)
    requires f.extensions == [] && |f.payload| < 128
    ensures |Encoding(limits, f)| <= 21 + |f.payload|
  {
    if F.EncodeSpec(limits, f).Ok? {
      EncodedShape(limits, f);
      ShortEncodes(limits, f);
    }
  }

  lemma EncodedShape(limits: F.FrameLimits, f: F.Frame)
    requires F.EncodeSpec(limits, f).Ok?
    ensures f.flags == 0 && f.channel.number <= F.MAX_CHANNEL_NO
  {
    hide F.Unsealed, F.Seal, X.WriteExtensionsSpec;
  }

  // ---------------------------------------------------------------- the sender

  /** A frame that encodes, on an open gate with room in the outbox, is handed out. */
  lemma PostHandsOut(c: Conn, id: ChannelId, payload: Bytes, es: seq<X.Extension>)
    requires Settled(c) && Recorded(c) && c.replay.epoch == 1 && GateOpen(c, id) && c.nextFrame + 1 < U32_SPAN
    requires var r := F.EncodeSpec(Limits(c.policy), FrameOf(c, F.Data, id, payload, es));
             r.Ok? && r.value != [] && c.outbox.queued + |r.value| <= c.policy.window
    ensures var encoded := F.EncodeSpec(Limits(c.policy), FrameOf(c, F.Data, id, payload, es)).value;
            var (next, r) := PostSpec(c, F.Data, id, payload, es);
            && r == Ok([encoded])
            && Sends(c, next, id, 1) && next.handed == c.handed + [FrameOf(c, F.Data, id, payload, es)]
  {
    hide F.EncodeSpec, EmitSpec, PostSpec, Recorded, Settled;
    var f := FrameOf(c, F.Data, id, payload, es);
    PostOk(c, id, payload, es);
    SettledFields(c, Numbered(c));
    PostRecorded(c, F.Data, id, payload, es);
    PostFrame(c, F.Data, id, payload, es);
    PostEpoch(c, F.Data, id, payload, es);
    PostIsEmit(c, F.Data, id, payload, es);
    EmitOutcome(Numbered(c), f);
  }

  lemma PostEpoch(c: Conn, kind: F.FrameType, id: ChannelId, payload: Bytes, es: seq<X.Extension>)
    ensures PostSpec(c, kind, id, payload, es).0.replay.epoch == c.replay.epoch
  {
    hide F.EncodeSpec, Enqueued, Drained;
  }

  lemma PostOk(c: Conn, id: ChannelId, payload: Bytes, es: seq<X.Extension>)
    requires Settled(c) && Recorded(c) && c.replay.epoch == 1 && GateOpen(c, id) && c.nextFrame + 1 < U32_SPAN
    requires var r := F.EncodeSpec(Limits(c.policy), FrameOf(c, F.Data, id, payload, es));
             r.Ok? && r.value != [] && c.outbox.queued + |r.value| <= c.policy.window
    ensures PostSpec(c, F.Data, id, payload, es).1.Ok?
  {
    hide F.EncodeSpec, Drained, P.Startable;
  }

  /** What `send` needs to hand out a whole message at once, the gate aside. */
  ghost predicate MaySend(c: Conn, id: ChannelId, payload: Bytes) {
    && Settled(c) && Sane(c) && Phased(c) && Recorded(c) && c.replay.epoch == 1
    && c.state == Active && Live(c, id).Some?
    && var slot := c.channels.value.slots[Live(c, id).value];
       && !slot.localClosed && slot.nextSend < U32_SPAN - 1
       && 0 < |payload| <= c.capabilities.value.maxMessage && |payload| <= c.channels.value.window
       && c.nextFrame + |payload| < U32_SPAN
       && c.outbox.queued + c.capabilities.value.maxFrame <= c.policy.window
  }

  ghost predicate CanSend(c: Conn, id: ChannelId, payload: Bytes) { MaySend(c, id, payload) && GateOpen(c, id) }

  function Encoding(limits: F.FrameLimits, f: F.Frame): Bytes {
    var r := F.EncodeSpec(limits, f);
    if r.Ok? then r.value else []
  }

  function Encoded(limits: F.FrameLimits, fs: seq<F.Frame>): seq<Bytes> {
    if fs == [] then [] else [Encoding(limits, fs[0])] + Encoded(limits, fs[1..])
  }

  predicate Fits(limits: F.FrameLimits, maxFrame: nat, f: F.Frame) {
    F.EncodeSpec(limits, f).Ok? && 0 < |Encoding(limits, f)| <= maxFrame
  }

  predicate AllFit(limits: F.FrameLimits, maxFrame: nat, fs: seq<F.Frame>) {
    forall f <- fs :: Fits(limits, maxFrame, f)
  }

  lemma {:induction false} PiecesFit(limits: F.FrameLimits, maxFrame: nat, n: u32, id: ChannelId, sequence: u32, payload: Bytes, offset: nat)
    requires 128 <= maxFrame <= limits.maxFrame && 28 <= limits.maxHeader
    requires id.number <= F.MAX_CHANNEL_NO && |payload| < U32_SPAN
    ensures AllFit(limits, maxFrame, Pieces(n, id, sequence, payload, Max(1, maxFrame / 2), offset))
    decreases |payload| - offset
  {
    hide F.EncodeSpec, DataExtensions;
    var size := Max(1, maxFrame / 2);
    if offset < |payload| {
      var take := Min(size, |payload| - offset);
      FragmentFits(limits, maxFrame,
                   F.Frame(F.Data, 0, id, n, DataExtensions(sequence, offset, |payload|), payload[offset..offset + take]),
                   sequence, offset, |payload|);
      PiecesFit(limits, maxFrame, (n + 1) % U32_SPAN, id, sequence, payload, offset + size);
    }
  }

  /** What handing out `n` frames of channel `id` through its open gate leaves behind. */
  ghost predicate Sends(c: Conn, next: Conn, id: ChannelId, n: nat) {
    && c.nextFrame + n < U32_SPAN && (n == 0 ==> next == c)
    && next == c.(replay := next.replay, outbox := next.outbox, handed := next.handed, nextFrame := c.nextFrame + n)
    && Settled(next) && Recorded(next) && next.replay.epoch == 1 && GateOpen(next, id)
    && next.outbox.queued == c.outbox.queued
    && (n > 0 ==> S.Expected(next.outbox, id.number) == next.nextFrame)
    && (forall k :: k != id.number ==>
          S.Expected(next.outbox, k) == S.Expected(c.outbox, k) && S.Queue(next.outbox, k) == S.Queue(c.outbox, k))
  }

  lemma EncodedNone(limits: F.FrameLimits)
    ensures Encoded(limits, []) == []
  {
  }

  lemma FitsCons(limits: F.FrameLimits, maxFrame: nat, f: F.Frame, fs: seq<F.Frame>)
    requires AllFit(limits, maxFrame, [f] + fs)
    ensures F.EncodeSpec(limits, f).Ok? && Encoding(limits, f) == F.EncodeSpec(limits, f).value && 0 < |Encoding(limits, f)| <= maxFrame
    ensures AllFit(limits, maxFrame, fs) && Encoded(limits, [f] + fs) == [Encoding(limits, f)] + Encoded(limits, fs)
  {
    hide F.EncodeSpec;
    assert f in [f] + fs && Fits(limits, maxFrame, f);
    assert ([f] + fs)[1..] == fs;
    assert forall g <- fs :: g in [f] + fs;
  }

  lemma {:induction false} SendFromHandsOut(c: Conn, id: ChannelId, sequence: u32, payload: Bytes, size: nat, offset: nat, out: seq<Bytes>, maxFrame: nat)
    requires size >= 1
    requires Settled(c) && Recorded(c) && c.replay.epoch == 1 && GateOpen(c, id)
    requires c.nextFrame + (if offset < |payload| then |payload| - offset else 0) < U32_SPAN
    requires c.outbox.queued + maxFrame <= c.policy.window
    requires AllFit(Limits(c.policy), maxFrame, Pieces(c.nextFrame, id, sequence, payload, size, offset))
    ensures var fs := Pieces(c.nextFrame, id, sequence, payload, size, offset);
            var (next, r) := SendFrom(c, id, sequence, payload, size, offset, out);
            && r == Ok(out + Encoded(Limits(c.policy), fs))
            && Sends(c, next, id, |fs|) && next.handed == c.handed + fs
    decreases |payload| - offset
  {
    hide F.EncodeSpec, DataExtensions, PostSpec, Settled, Recorded, GateOpen, Sends, AllFit, Encoded, Encoding;
    EncodedNone(Limits(c.policy));
    var fs := Pieces(c.nextFrame, id, sequence, payload, size, offset);
    if offset >= |payload| {
      assert out + [] == out && c.handed + [] == c.handed;
      SendsNothing(c, id);
    } else {
      var take := Min(size, |payload| - offset);
      var part, es := payload[offset..offset + take], DataExtensions(sequence, offset, |payload|);
      var f := FrameOf(c, F.Data, id, part, es);
      var rest := Pieces((c.nextFrame + 1) % U32_SPAN, id, sequence, payload, size, offset + size);
      assert fs == [f] + rest;
      FitsCons(Limits(c.policy), maxFrame, f, rest);
      PostHandsOut(c, id, part, es);
      var (next, r) := PostSpec(c, F.Data, id, part, es);
      SendsShape(c, next, id, 1);
      SendFromHandsOut(next, id, sequence, payload, size, offset + size, out + r.value, maxFrame);
      Assoc(out, r.value, Encoded(Limits(c.policy), rest));
      Assoc(c.handed, [f], rest);
      SendsOn(c, next, SendFrom(c, id, sequence, payload, size, offset, out).0, id, |rest|);
    }
  }

  lemma SendsNothing(c: Conn, id: ChannelId)
    requires Settled(c) && Recorded(c) && c.replay.epoch == 1 && GateOpen(c, id)
    ensures Sends(c, c, id, 0)
  {
  }

  lemma SendsShape(c: Conn, next: Conn, id: ChannelId, n: nat)
    requires Sends(c, next, id, n)
    ensures Settled(next) && Recorded(next) && next.replay.epoch == 1 && GateOpen(next, id)
    ensures next.nextFrame == c.nextFrame + n && next.outbox.queued == c.outbox.queued && next.policy == c.policy
  {
  }

  lemma SendsOn(c: Conn, mid: Conn, next: Conn, id: ChannelId, n: nat)
    requires Sends(c, mid, id, 1) && Sends(mid, next, id, n)
    ensures Sends(c, next, id, n + 1)
  {
  }

  /** What the sender hands out, frame by frame. */
  function Sent(c: Conn, id: ChannelId, payload: Bytes): seq<F.Frame>
    requires c.capabilities.Some? && Live(c, id).Some?
  {
    Pieces(c.nextFrame, id, c.channels.value.slots[Live(c, id).value].nextSend, payload, MaxFragment(c.capabilities.value), 0)
  }

  /**
   The fragments of a message are its stretches of half an agreed frame, at least one byte each, in order, under the
   next frame numbers and the channel's next message number, each with its place and the size of the whole.
   */
  lemma SentAt(c: Conn, id: ChannelId, payload: Bytes, k: nat)
    requires c.capabilities.Some? && Live(c, id).Some? && k < |Sent(c, id, payload)|
    ensures var size := Max(1, c.capabilities.value.maxFrame / 2);
            && k * size < |payload|
            && Sent(c, id, payload)[k]
               == PieceAt(c.nextFrame + k, id, c.channels.value.slots[Live(c, id).value].nextSend, payload, size, k * size)
  {
    hide Pieces, PieceAt;
    PiecesAt(c.nextFrame, id, c.channels.value.slots[Live(c, id).value].nextSend, payload, MaxFragment(c.capabilities.value), 0, k);
  }

  /** The checks pass and the sequence is taken; what is left is the fragment loop. */
  lemma SendReserves(c: Conn, id: ChannelId, payload: Bytes) returns (c1: Conn)
    requires CanSend(c, id, payload)
    ensures |payload| < U64_SPAN && c.channels.Some?
    ensures c1 == c.(channels := Some(C.ReserveSequenceSpec(c.channels.value, id).0))
    ensures Settled(c1) && Recorded(c1) && GateOpen(c1, id) && id.number <= F.MAX_CHANNEL_NO
    ensures SendSpec(c, id, payload)
         == SendFrom(c1, id, c.channels.value.slots[Live(c, id).value].nextSend, payload, MaxFragment(c.capabilities.value), 0, [])
  {
    hide Settled, Recorded, GateOpen, SendFrom, SaneTable, SendSpec;
    var i := Live(c, id).value;
    ReservesAll(c, i, id, |payload|);
    SendBody(c, id, payload, i);
    c1 := c.(channels := Some(C.ReserveSequenceSpec(c.channels.value, id).0));
    SettledFields(c, c1);
    SameRecorded(c, c1);
    SameGate(c, c1, id);
    ChannelSmall(c, i, id);
  }

  lemma CapsOf(c: Conn, id: ChannelId, payload: Bytes)
    requires CanSend(c, id, payload)
    ensures 128 <= c.capabilities.value.maxFrame <= c.policy.maxFrame && 0 < |payload| < U32_SPAN
    ensures c.nextFrame + |payload| < U32_SPAN && c.outbox.queued + c.capabilities.value.maxFrame <= c.policy.window
    ensures c.replay.epoch == 1
  {
  }

  lemma SenderShape(c: Conn, id: ChannelId, m: Bytes)
    requires CanSend(c, id, m)
    ensures c.capabilities.Some? && Live(c, id).Some?
  {
  }

  lemma SentPieces(c: Conn, id: ChannelId, m: Bytes)
    requires c.capabilities.Some? && Live(c, id).Some?
    ensures Sent(c, id, m)
         == Pieces(c.nextFrame, id, c.channels.value.slots[Live(c, id).value].nextSend, m, MaxFragment(c.capabilities.value), 0)
  {
  }

  /** `send` hands out the encodings of the fragments, all of them, each within the negotiated frame size. */
  lemma SendHandsOut(c: Conn, id: ChannelId, payload: Bytes)
    requires CanSend(c, id, payload)
    ensures |payload| < U64_SPAN
    ensures AllFit(Limits(c.policy), c.capabilities.value.maxFrame, Sent(c, id, payload))
    ensures SendSpec(c, id, payload).1 == Ok(Encoded(Limits(c.policy), Sent(c, id, payload)))
    ensures Contents(Sent(c, id, payload)) == payload && Sent(c, id, payload) != []
    ensures |Sent(c, id, payload)| <= |payload|
    ensures var c1 := c.(channels := Some(C.ReserveSequenceSpec(c.channels.value, id).0));
            var next := SendSpec(c, id, payload).0;
            Sends(c1, next, id, |Sent(c, id, payload)|) && next.handed == c.handed + Sent(c, id, payload)
  {
    hide F.EncodeSpec, Settled, Recorded, GateOpen, SendFrom, Pieces, CanSend, SendSpec, Live, Contents, Sent, Sends;
    SenderShape(c, id, payload);
    var caps := c.capabilities.value;
    var sequence := c.channels.value.slots[Live(c, id).value].nextSend;
    var c1 := SendReserves(c, id, payload);
    CapsOf(c, id, payload);
    SentPieces(c, id, payload);
    PiecesFit(Limits(c.policy), caps.maxFrame, c.nextFrame, id, sequence, payload, 0);
    SendFromHandsOut(c1, id, sequence, payload, MaxFragment(caps), 0, [], caps.maxFrame);
    PiecesTile(c.nextFrame, id, sequence, payload, MaxFragment(caps), 0);
    assert payload[0..] == payload;
    NoContents();
    assert [] + Encoded(Limits(c.policy), Sent(c, id, payload)) == Encoded(Limits(c.policy), Sent(c, id, payload));
  }

  /** With all else in place, what `send` hands out is the whole message or nothing, as the gate decides. */
  lemma SendAllOrNothing(c: Conn, id: ChannelId, payload: Bytes)
    requires MaySend(c, id, payload) && (GateOpen(c, id) <==> !Shut(c, id.number))
    ensures |payload| < U64_SPAN && c.capabilities.Some? && Live(c, id).Some?
    ensures var r := SendSpec(c, id, payload).1;
            && (GateOpen(c, id) ==> r == Ok(Encoded(Limits(c.policy), Sent(c, id, payload))) && r.value != [])
            && (!GateOpen(c, id) && r.Ok? ==> r.value == [])
  {
    hide SendSpec, Settled, Recorded, GateOpen, Shut, Sent, Encoded;
    if GateOpen(c, id) {
      SendHandsOut(c, id, payload);
      SomeEncoded(Limits(c.policy), Sent(c, id, payload));
    } else {
      SendShut(c, id, payload);
    }
  }

  lemma SomeEncoded(limits: F.FrameLimits, fs: seq<F.Frame>)
    requires fs != []
    ensures Encoded(limits, fs) != []
  {
  }

  lemma NoContents()
    ensures Contents([]) == []
  {
  }

  lemma SameGate(c: Conn, next: Conn, id: ChannelId)
    requires GateOpen(c, id) && next.outbox == c.outbox && next.nextFrame == c.nextFrame
    ensures GateOpen(next, id)
  {
  }

  lemma ChannelSmall(c: Conn, i: nat, id: ChannelId)
    requires Sane(c) && Live(c, id) == Some(i)
    ensures id.number <= F.MAX_CHANNEL_NO
  {
    assert SaneSlot(c.channels.value, i);
  }

  /** Between calls all of a channel's credit is there, so any payload within the window can be reserved. */
  lemma ReservesAll(c: Conn, i: nat, id: ChannelId, amount: u64)
    requires Sane(c) && Live(c, id) == Some(i) && amount <= c.channels.value.window
    ensures C.ReserveSpec(c.channels.value.slots[i].flow, amount).1.Ok?
    ensures var n := c.channels.value.slots[i].nextSend;
            n < U32_SPAN - 1 ==> C.ReserveSequenceSpec(c.channels.value, id).1 == Ok(n)
  {
    assert SaneSlot(c.channels.value, i);
  }

  // ---------------------------------------------------------------- the wire between

  function Flat(chunks: seq<Bytes>): Bytes {
    if chunks == [] then [] else chunks[0] + Flat(chunks[1..])
  }

  function Events(fs: seq<F.Frame>): seq<F.DecodeEvent> {
    if fs == [] then [] else [F.Decoded(fs[0])] + Events(fs[1..])
  }

  /** Every fragment is a DATA frame with the four extensions of its place in the message. */
  ghost predicate DataFrames(fs: seq<F.Frame>) {
    forall f <- fs :: f.kind == F.Data && exists sequence, offset, total :: f.extensions == DataExtensions(sequence, offset, total)
  }

  lemma {:induction false} PiecesAreData(n: u32, id: ChannelId, sequence: u32, payload: Bytes, size: nat, offset: nat)
    requires size >= 1
    ensures DataFrames(Pieces(n, id, sequence, payload, size, offset))
    decreases |payload| - offset
  {
    hide DataExtensions;
    if offset < |payload| {
      PiecesAreData((n + 1) % U32_SPAN, id, sequence, payload, size, offset + size);
    }
  }

  /** The peer's decoder turns the bytes back into the very frames. */
  lemma {:induction false} DecodesBack(limits: F.FrameLimits, reader: F.FrameLimits, maxFrame: nat, fs: seq<F.Frame>, events: seq<F.DecodeEvent>)
    requires fs != [] && DataFrames(fs) && AllFit(limits, maxFrame, fs)
    requires maxFrame <= reader.maxFrame && 28 <= reader.maxHeader && limits.maxHeader < 0x1_0000
    ensures F.Drain(reader, Flat(Encoded(limits, fs)), false, events) == (events + Events(fs), [])
    decreases |fs|
  {
    hide F.EncodeSpec, F.DecodeStep, DataExtensions;
    var f, rest := fs[0], fs[1..];
    assert f in fs;
    var bs, post := F.EncodeSpec(limits, f).value, Flat(Encoded(limits, rest));
    assert Flat(Encoded(limits, fs)) == bs + post;
    DecodesOne(limits, reader, f, post);
    if rest == [] {
      assert post == [];
      assert events + [F.Decoded(f)] == events + Events(fs);
    } else {
      assert rest[0] in fs;
      assert (bs + post)[|bs|..] == post;
      assert post != [] by { FirstByte(limits, maxFrame, rest); }
      DecodesBack(limits, reader, maxFrame, rest, events + [F.Decoded(f)]);
      assert (events + [F.Decoded(f)]) + Events(rest) == events + Events(fs);
    }
  }

  lemma FirstByte(limits: F.FrameLimits, maxFrame: nat, fs: seq<F.Frame>)
    requires fs != [] && AllFit(limits, maxFrame, fs)
    ensures Flat(Encoded(limits, fs)) != []
  {
    hide F.EncodeSpec;
    assert fs[0] in fs;
  }

  lemma DecodesOne(limits: F.FrameLimits, reader: F.FrameLimits, f: F.Frame, post: Bytes)
    requires F.EncodeSpec(limits, f).Ok? && |F.EncodeSpec(limits, f).value| <= reader.maxFrame && 28 <= reader.maxHeader
    requires limits.maxHeader < 0x1_0000
    requires exists sequence, offset, total :: f.extensions == DataExtensions(sequence, offset, total)
    ensures F.DecodeStep(reader, F.EncodeSpec(limits, f).value + post, false) == F.Got(f, |F.EncodeSpec(limits, f).value|)
  {
    hide F.EncodeSpec, F.DecodeStep, DataExtensions, X.WriteExtensionsSpec, X.Canonical, X.RequiredKnown;
    var sequence, offset, total :| f.extensions == DataExtensions(sequence, offset, total);
    DataSorted(sequence, offset, total);
    DataWritten(sequence, offset, total);
    CT.EncodeDecode(limits, reader, f, post, false);
    assert CT.Sorted(f) == f;
  }
}
