/** How the bytes from the peer are cut into calls of `receive` does not matter. */
module EngineChunks {
  import opened Types
  import opened Wire
  import opened Sorting
  import opened EngineModel
  import opened EngineSteps
  import opened EngineRuns
  import opened EngineSend
  import opened EngineReceive
  import X = Extensions
  import F = FrameCodec
  import CT = CodecTheorems
  import C = Channels
  import R = Reassembling
  import P = Replay
  import H = Hellos

  /** The same connection with other undecoded bytes. */
  function Holding(c: Conn, bytes: Bytes): Conn { c.(buffer := bytes) }

  function Beside(r: (Conn, Reply), bytes: Bytes): (Conn, Reply) { (Holding(r.0, bytes), r.1) }

  lemma PostBeside(c: Conn, bytes: Bytes, kind: F.FrameType, channel: ChannelId, payload: Bytes, es: seq<X.Extension>)
    ensures PostSpec(Holding(c, bytes), kind, channel, payload, es) == Beside(PostSpec(c, kind, channel, payload, es), bytes)
  {
    hide F.EncodeSpec, P.RecordSpec, Enqueued, Drained;
  }

  lemma AnswerBeside(host: Host, c: Conn, bytes: Bytes, job: Job)
    ensures AnswerSpec(host, Holding(c, bytes), job) == (Holding(AnswerSpec(host, c, job).0, bytes), AnswerSpec(host, c, job).1)
  {
    hide C.Find;
  }

  lemma DispatchBeside(host: Host, c: Conn, bytes: Bytes, family: u32, message: R.LogicalMessage)
    ensures Dispatch(host, Holding(c, bytes), family, message) == Beside(Dispatch(host, c, family, message), bytes)
  {
    hide AnswerSpec;
    AnswerBeside(host, c.(nextToken := (c.nextToken + 1) % U64_SPAN), bytes, Job(c.nextToken, family, message));
  }

  lemma DeliverBeside(host: Host, c: Conn, bytes: Bytes, i: nat, channel: ChannelId, family: u32, outcome: R.Outcome)
    requires c.channels.Some? && i < |c.channels.value.slots|
    ensures Deliver(host, Holding(c, bytes), i, channel, family, outcome) == Beside(Deliver(host, c, i, channel, family, outcome), bytes)
  {
    hide Dispatch;
    match outcome {
      case Err(_) =>
      case Ok(None) =>
      case Ok(Some(message)) =>
        var t := c.channels.value;
        var next := t.slots[i].nextRecv;
        if message.sequence == next {
          var t1 := C.With(t, i, t.slots[i].(nextRecv := (next + 1) % U32_SPAN));
          var c1 := Noted(c.(channels := Some(t1), families := c.families[|c.events| := family]),
                          Event(MessageDelivered, channel, message.sequence, message.payload, None));
          DispatchBeside(host, c1, bytes, family, message);
        }
    }
  }

  lemma DataBeside(host: Host, c: Conn, bytes: Bytes, f: F.Frame)
    requires |f.payload| < U64_SPAN
    ensures HandleData(host, Holding(c, bytes), f) == Beside(HandleData(host, c, f), bytes)
  {
    hide Deliver, Absorb, C.Find, ExtensionU32;
    if c.state == Active && c.channels.Some? && C.Find(c.channels.value, f.channel).Some? {
      var t, i := c.channels.value, C.Find(c.channels.value, f.channel).value;
      var sequence, offset := ExtensionU32(f, EXT_MESSAGE_SEQ), ExtensionU32(f, EXT_FRAGMENT_OFFSET);
      var total, family := ExtensionU32(f, EXT_MESSAGE_TOTAL), ExtensionU32(f, EXT_FAMILY_ID);
      if sequence.Some? && offset.Some? && total.Some? && family.Some? {
        AbsorbNames(t, i, f.channel, sequence.value, offset.value, total.value, f.payload);
        var (t1, outcome) := Absorb(t, i, f.channel, sequence.value, offset.value, total.value, f.payload);
        DeliverBeside(host, c.(channels := Some(t1)), bytes, i, f.channel, family.value, outcome);
      }
    }
  }

  lemma HelloBeside(host: Host, c: Conn, bytes: Bytes, f: F.Frame)
    ensures HandleHello(host, Holding(c, bytes), f) == Beside(HandleHello(host, c, f), bytes)
  {
    hide H.DecodeHelloSpec, H.NegotiateSpec, C.NewTable;
  }

  lemma PingBeside(c: Conn, bytes: Bytes, f: F.Frame)
    ensures HandlePing(Holding(c, bytes), f) == Beside(HandlePing(c, f), bytes)
  {
    hide PostSpec;
    if ReadToken(f.payload).Ok? {
      PostBeside(c, bytes, F.Pong, CONTROL, U64Bytes(ReadToken(f.payload).value), []);
    }
  }

  lemma TableBeside(c: Conn, bytes: Bytes, f: F.Frame)
    ensures HandleOpen(Holding(c, bytes), f) == Beside(HandleOpen(c, f), bytes)
    ensures HandleCredit(Holding(c, bytes), f) == Beside(HandleCredit(c, f), bytes)
    ensures HandleHalfClose(Holding(c, bytes), f) == Beside(HandleHalfClose(c, f), bytes)
    ensures HandleReset(Holding(c, bytes), f.channel) == Holding(HandleReset(c, f.channel), bytes)
  {
    hide C.AcceptRemoteSpec, C.Find, C.GrantSpec, C.HalfCloseSpec, C.ResetChannelSpec, Offers, ReadU32;
  }

  lemma ControlBeside(c: Conn, bytes: Bytes, f: F.Frame)
    ensures HandleAck(Holding(c, bytes), f) == Beside(HandleAck(c, f), bytes)
    ensures HandlePong(Holding(c, bytes), f) == Beside(HandlePong(c, f), bytes)
    ensures HandleResume(Holding(c, bytes), f) == Beside(HandleResume(c, f), bytes)
    ensures HandleGoAway(Holding(c, bytes), f) == Beside(HandleGoAway(c, f), bytes)
  {
    hide P.DecodeAckSpec, P.AcknowledgeSpec, P.RetainedFromSpec, ReadResume, ReadToken;
  }

  /** No handler looks at the undecoded bytes. */
  lemma FrameBeside(host: Host, c: Conn, bytes: Bytes, f: F.Frame)
    requires |f.payload| < U64_SPAN
    ensures HandleFrame(host, Holding(c, bytes), f) == Beside(HandleFrame(host, c, f), bytes)
  {
    hide HandleHello, HandleOpen, HandleData, HandleAck, HandleCredit, HandlePing, HandlePong, HandleResume, HandleHalfClose,
         HandleReset, HandleGoAway;
    TableBeside(c, bytes, f);
    ControlBeside(c, bytes, f);
    match f.kind {
      case Hello => HelloBeside(host, c, bytes, f);
      case Data => DataBeside(host, c, bytes, f);
      case Ping => PingBeside(c, bytes, f);
      case _ =>
    }
  }

  lemma FrameKeepsBuffer(host: Host, c: Conn, f: F.Frame)
    requires |f.payload| < U64_SPAN
    ensures HandleFrame(host, c, f).0.buffer == c.buffer
  {
    hide HandleFrame;
    FrameBeside(host, c, c.buffer, f);
    assert Holding(c, c.buffer) == c;
  }

  lemma FrameKeeps(host: Host, c: Conn, f: F.Frame)
    requires Sane(c) && |f.payload| < U64_SPAN
    ensures var next := HandleFrame(host, c, f).0;
            Sane(next) && next.policy == c.policy && next.buffer == c.buffer
  {
    hide HandleFrame, Sane, Run, Posts;
    var ss := FrameSteps(host, c, f);
    RunSane(c, ss);
    RunPolicy(c, ss);
    FrameKeepsBuffer(host, c, f);
  }

  // ---------------------------------------------------------------- a batch is its frames and its error

  predicate Small(fs: seq<F.Frame>) { forall f <- fs :: |f.payload| < U64_SPAN }

  /** Handling what a stream means: its frames in order, then the error that ends it, if any. */
  function HandleReading(host: Host, c: Conn, fs: seq<F.Frame>, error: Option<Error>, out: seq<Bytes>): (Conn, Reply)
    requires Small(fs)
    decreases |fs|
  {
    if fs == [] then
      if error.Some? then (Diagnosed(c, error.value).(state := Closed), Err(error.value)) else (c, Ok(out))
    else
      var (next, r) := HandleFrame(host, c, fs[0]);
      if r.Err? then Ended((next, r)) else HandleReading(host, next, fs[1..], error, out + r.value)
  }

  predicate FailsLast(events: seq<F.DecodeEvent>) {
    forall i :: 0 <= i < |events| - 1 ==> !events[i].Failed?
  }

  lemma {:induction false} DrainFailsLast(limits: F.FrameLimits, buffer: Bytes, eof: bool, events: seq<F.DecodeEvent>)
    requires forall e <- events :: !e.Failed?
    ensures FailsLast(F.Drain(limits, buffer, eof, events).0)
    decreases |buffer|
  {
    hide F.DecodeStep;
    match F.DecodeStep(limits, buffer, eof) {
      case More =>
      case Bad(_) =>
      case Got(f, n) =>
        if n < |buffer| { DrainFailsLast(limits, buffer[n..], eof, events + [F.Decoded(f)]); }
    }
  }

  lemma {:induction false} FramesSmall(events: seq<F.DecodeEvent>)
    requires forall e <- events :: e.Decoded? ==> |e.frame.payload| < U64_SPAN
    ensures Small(CT.Frames(events))
  {
    if events != [] {
      assert events[0] in events;
      FramesSmall(events[1..]);
    }
  }

  lemma {:induction false} EventsAreReading(host: Host, c: Conn, events: seq<F.DecodeEvent>, out: seq<Bytes>)
    requires FailsLast(events) && forall e <- events :: e.Decoded? ==> |e.frame.payload| < U64_SPAN
    ensures Small(CT.Frames(events))
    ensures HandleEvents(host, c, events, out) == HandleReading(host, c, CT.Frames(events), CT.FirstError(events), out)
    decreases |events|
  {
    hide HandleFrame, Diagnosed;
    FramesSmall(events);
    if events != [] {
      assert events[0] in events;
      var rest := events[1..];
      match events[0] {
        case NeedMore => EventsAreReading(host, c, rest, out);
        case Failed(e) =>
          assert |events| == 1 by { FailsLastIsLast(events); }
          assert rest == [] && CT.Frames(rest) == [];
        case Decoded(f) =>
          var (next, r) := HandleFrame(host, c, f);
          FramesSmall(rest);
          assert ([f] + CT.Frames(rest))[1..] == CT.Frames(rest);
          if r.Ok? { EventsAreReading(host, next, rest, out + r.value); }
      }
    }
  }

  lemma FailsLastIsLast(events: seq<F.DecodeEvent>)
    requires FailsLast(events) && events != [] && events[0].Failed?
    ensures |events| == 1
  {
  }

  /** `receive` in terms of what the whole stream so far means. */
  lemma ReceiveReads(host: Host, c: Conn, bytes: Bytes, eof: bool)
    ensures var r := CT.Read(Limits(c.policy), c.buffer + bytes, eof);
            Small(r.frames) && ReceiveSpec(host, c, bytes, eof) == HandleReading(host, Holding(c, r.rest), r.frames, r.error, [])
  {
    hide F.Drain, HandleEvents, HandleReading;
    var limits, whole := Limits(c.policy), c.buffer + bytes;
    var (events, rest) := F.Drain(limits, whole, eof, []);
    CT.DrainReads(limits, whole, eof, []);
    assert CT.Frames([]) == [] && CT.FirstError([]).None?;
    var nothing: seq<F.Frame> := [];
    assert nothing + CT.Read(limits, whole, eof).frames == CT.Read(limits, whole, eof).frames;
    DecodedSmall(limits, whole, eof, []);
    DrainFailsLast(limits, whole, eof, []);
    EventsAreReading(host, Holding(c, rest), events, []);
  }

  lemma {:induction false} ReadingBeside(host: Host, c: Conn, bytes: Bytes, fs: seq<F.Frame>, error: Option<Error>, out: seq<Bytes>)
    requires Small(fs)
    ensures HandleReading(host, Holding(c, bytes), fs, error, out) == Beside(HandleReading(host, c, fs, error, out), bytes)
    decreases |fs|
  {
    hide HandleFrame;
    if fs != [] {
      assert fs[0] in fs;
      FrameBeside(host, c, bytes, fs[0]);
      var (next, r) := HandleFrame(host, c, fs[0]);
      if r.Ok? { ReadingBeside(host, next, bytes, fs[1..], error, out + r.value); }
    }
  }

  /** Frames handled without failure, then the rest of the stream. */
  lemma {:induction false} ReadingAppend(host: Host, c: Conn, a: seq<F.Frame>, b: seq<F.Frame>, error: Option<Error>, out: seq<Bytes>)
    requires Sane(c) && Small(a) && Small(b) && HandleReading(host, c, a, None, out).1.Ok?
    ensures var (mid, first) := HandleReading(host, c, a, None, out);
            && Small(a + b) && Sane(mid) && mid.policy == c.policy && mid.buffer == c.buffer
            && HandleReading(host, c, a + b, error, out) == HandleReading(host, mid, b, error, first.value)
    decreases |a|
  {
    hide HandleFrame, Sane, Diagnosed;
    assert Small(a + b);
    if a == [] {
      assert a + b == b;
    } else {
      assert a[0] in a && (a + b)[0] == a[0] && (a + b)[1..] == a[1..] + b;
      FrameKeeps(host, c, a[0]);
      var (next, r) := HandleFrame(host, c, a[0]);
      ReadingAppend(host, next, a[1..], b, error, out + r.value);
    }
  }

  /** What is handed out accumulates. */
  lemma {:induction false} ReadingOut(host: Host, c: Conn, fs: seq<F.Frame>, error: Option<Error>, out: seq<Bytes>)
    requires Small(fs)
    ensures var (next, r) := HandleReading(host, c, fs, error, []);
            HandleReading(host, c, fs, error, out) == (next, if r.Ok? then Ok(out + r.value) else r)
    decreases |fs|
  {
    hide HandleFrame, Diagnosed;
    var nothing: seq<Bytes> := [];
    if fs == [] {
      assert out + nothing == out;
    } else {
      assert fs[0] in fs;
      var (next, r) := HandleFrame(host, c, fs[0]);
      if r.Ok? {
        assert nothing + r.value == r.value;
        ReadingOut(host, next, fs[1..], error, out + r.value);
        ReadingOut(host, next, fs[1..], error, r.value);
        var last := HandleReading(host, next, fs[1..], error, []).1;
        if last.Ok? { Assoc(out, r.value, last.value); }
      }
    }
  }

  /**
   One call or two: once the first part of a stream has been received without failure, receiving the rest
   leaves the connection exactly as receiving everything at once would have, with the same answers and,
   if it fails, the same failure.
   */
  lemma ReceiveInTwo(host: Host, c: Conn, a: Bytes, b: Bytes, eof: bool)
    requires Sane(c) && ReceiveSpec(host, c, a, false).1.Ok?
    ensures var (mid, first) := ReceiveSpec(host, c, a, false);
            var (end, second) := ReceiveSpec(host, mid, b, eof);
            && Sane(mid) && mid.policy == c.policy
            && ReceiveSpec(host, c, a + b, eof) == (end, if second.Ok? then Ok(first.value + second.value) else second)
  {
    hide ReceiveSpec, HandleReading, Sane, CT.Read;
    var limits := Limits(c.policy);
    var r1 := CT.Read(limits, c.buffer + a, false);
    ReceiveReads(host, c, a, false);
    NoErrorIfOk(host, Holding(c, r1.rest), r1.frames, r1.error, []);
    SaneHolding(c, r1.rest);
    ReadingAppend(host, Holding(c, r1.rest), r1.frames, [], None, []);
    var (mid, first) := ReceiveSpec(host, c, a, false);
    ReceiveReads(host, mid, b, eof);
    var r2 := CT.Read(limits, r1.rest + b, eof);
    CT.ReadAppend(limits, c.buffer + a, b, eof);
    assert c.buffer + (a + b) == c.buffer + a + b;
    ReceiveReads(host, c, a + b, eof);
    SaneHolding(c, r2.rest);
    ReadingBeside(host, Holding(c, r1.rest), r2.rest, r1.frames, None, []);
    assert Holding(Holding(c, r1.rest), r2.rest) == Holding(c, r2.rest);
    ReadingAppend(host, Holding(c, r2.rest), r1.frames, r2.frames, r2.error, []);
    ReadingOut(host, Holding(mid, r2.rest), r2.frames, r2.error, first.value);
  }

  lemma SaneHolding(c: Conn, bytes: Bytes)
    requires Sane(c)
    ensures Sane(Holding(c, bytes)) && Holding(c, bytes).policy == c.policy && Holding(c, bytes).buffer == bytes
  {
  }

  lemma {:induction false} NoErrorIfOk(host: Host, c: Conn, fs: seq<F.Frame>, error: Option<Error>, out: seq<Bytes>)
    requires Small(fs) && HandleReading(host, c, fs, error, out).1.Ok?
    ensures error.None?
    decreases |fs|
  {
    hide HandleFrame;
    if fs != [] {
      assert fs[0] in fs;
      var (next, r) := HandleFrame(host, c, fs[0]);
      NoErrorIfOk(host, next, fs[1..], error, out + r.value);
    }
  }

  // ---------------------------------------------------------------- any number of chunks

  /** Receiving chunk after chunk, the end of input on the last or not, stopping at a failure. */
  function ReceiveAll(host: Host, c: Conn, chunks: seq<Bytes>, eof: bool, out: seq<Bytes>): (Conn, Reply)
    decreases |chunks|
  {
    if chunks == [] then (c, Ok(out))
    else
      var (next, r) := ReceiveSpec(host, c, chunks[0], eof && |chunks| == 1);
      if r.Err? then (next, r) else ReceiveAll(host, next, chunks[1..], eof, out + r.value)
  }

  lemma ReceiveFails(host: Host, c: Conn, a: Bytes, b: Bytes, eof: bool)
    requires Sane(c) && ReceiveSpec(host, c, a, false).1.Err?
    ensures Beside(ReceiveSpec(host, c, a + b, eof), []) == Beside(ReceiveSpec(host, c, a, false), [])
  {
    hide ReceiveSpec, HandleReading, Sane, CT.Read;
    var limits := Limits(c.policy);
    var r1 := CT.Read(limits, c.buffer + a, false);
    var r := CT.Read(limits, c.buffer + (a + b), eof);
    ReceiveReads(host, c, a, false);
    ReceiveReads(host, c, a + b, eof);
    CT.ReadAppend(limits, c.buffer + a, b, eof);
    assert c.buffer + (a + b) == c.buffer + a + b;
    ReadingBeside(host, c, r1.rest, r1.frames, r1.error, []);
    ReadingBeside(host, c, r.rest, r.frames, r.error, []);
    HeldOver(HandleReading(host, c, r1.frames, r1.error, []), r1.rest, []);
    HeldOver(HandleReading(host, c, r.frames, r.error, []), r.rest, []);
    if r1.error.Some? {
      assert r.frames == r1.frames;
    } else {
      var more := CT.Read(limits, r1.rest + b, eof);
      PrefixSmall(r1.frames, more.frames);
      FailsEarly(host, c, r1.frames, more.frames, r.error, []);
    }
  }

  lemma HeldOver(r: (Conn, Reply), a: Bytes, b: Bytes)
    ensures Beside(Beside(r, a), b) == Beside(r, b)
  {
  }

  lemma PrefixSmall(a: seq<F.Frame>, b: seq<F.Frame>)
    requires Small(a + b)
    ensures Small(a) && Small(b)
  {
    assert forall f <- b :: f in a + b;
  }

  /** A handler that fails decides, whatever would have followed. */
  lemma {:induction false} FailsEarly(host: Host, c: Conn, a: seq<F.Frame>, b: seq<F.Frame>, error: Option<Error>, out: seq<Bytes>)
    requires Small(a) && Small(b) && HandleReading(host, c, a, None, out).1.Err?
    ensures Small(a + b) && HandleReading(host, c, a + b, error, out) == HandleReading(host, c, a, None, out)
    decreases |a|
  {
    hide HandleFrame, Diagnosed;
    assert Small(a + b);
    if a != [] {
      assert a[0] in a && (a + b)[0] == a[0] && (a + b)[1..] == a[1..] + b;
      var (next, r) := HandleFrame(host, c, a[0]);
      if r.Ok? { FailsEarly(host, next, a[1..], b, error, out + r.value); }
    }
  }

  /**
   However the bytes are cut into calls, the end of input on the last of them or not: all of them succeed
   exactly when one call with the whole stream does, the answers are the same in the same order, and so is
   the connection afterwards; otherwise the first failure is the same, and so is the connection but for the
   undecoded bytes it is left with.
   */
  lemma {:induction false} ReceiveChunked(host: Host, c: Conn, chunks: seq<Bytes>, eof: bool)
    requires Sane(c) && chunks != []
    ensures var (end, r) := ReceiveAll(host, c, chunks, eof, []);
            var (once, whole) := ReceiveSpec(host, c, CT.Flatten(chunks), eof);
            Beside((end, r), []) == Beside((once, whole), []) && (whole.Ok? ==> end == once)
    decreases |chunks|
  {
    hide ReceiveSpec, Sane;
    var rest := CT.Flatten(chunks[1..]);
    var nothing: seq<Bytes> := [];
    assert CT.Flatten(chunks) == chunks[0] + rest;
    if |chunks| == 1 {
      var (next, first) := ReceiveSpec(host, c, chunks[0], eof);
      assert rest == [] && chunks[0] + rest == chunks[0];
      if first.Ok? {
        assert nothing + first.value == first.value;
        assert ReceiveAll(host, next, [], eof, first.value) == (next, Ok(first.value));
      }
    } else {
      var (next, first) := ReceiveSpec(host, c, chunks[0], false);
      if first.Err? {
        ReceiveFails(host, c, chunks[0], rest, eof);
      } else {
        assert nothing + first.value == first.value;
        ReceiveInTwo(host, c, chunks[0], rest, eof);
        ReceiveChunked(host, next, chunks[1..], eof);
        ReceiveAllOut(host, next, chunks[1..], eof, first.value);
      }
    }
  }

  lemma {:induction false} ReceiveAllOut(host: Host, c: Conn, chunks: seq<Bytes>, eof: bool, out: seq<Bytes>)
    ensures var (next, r) := ReceiveAll(host, c, chunks, eof, []);
            ReceiveAll(host, c, chunks, eof, out) == (next, if r.Ok? then Ok(out + r.value) else r)
    decreases |chunks|
  {
    hide ReceiveSpec;
    var nothing: seq<Bytes> := [];
    if chunks == [] {
      assert out + nothing == out;
    } else {
      var (next, r) := ReceiveSpec(host, c, chunks[0], eof && |chunks| == 1);
      if r.Ok? {
        assert nothing + r.value == r.value;
        ReceiveAllOut(host, next, chunks[1..], eof, out + r.value);
        ReceiveAllOut(host, next, chunks[1..], eof, r.value);
        var last := ReceiveAll(host, next, chunks[1..], eof, []).1;
        if last.Ok? { Assoc(out, r.value, last.value); }
      }
    }
  }

  /**
   A message sent at one end and cut up on the way in whatever manner: the other end delivers it once, and
   no other message, whatever its plugin then answers.
   */
  lemma OneMessageHoweverCut(c: Conn, receiver: Host, d: Conn, id: ChannelId, m: Bytes, chunks: seq<Bytes>)
    requires CanSend(c, id, m)
    requires CanReceive(d, id, c.channels.value.slots[Live(c, id).value].nextSend, m, c.capabilities.value.maxFrame)
    requires |m| < U64_SPAN && SendSpec(c, id, m).1.Ok?
    requires chunks != [] && CT.Flatten(chunks) == Flat(SendSpec(c, id, m).1.value)
    ensures var sequence := c.channels.value.slots[Live(c, id).value].nextSend;
            var n, events := |d.events|, ReceiveAll(receiver, d, chunks, false, []).0.events;
            && n < |events| && events[..n] == d.events
            && events[n] == MessageEvent(id, sequence, m)
            && forall k :: n < k < |events| ==> events[k].kind != MessageDelivered
  {
    hide ReceiveSpec, SendSpec, CanSend, Live, Sane, ReceiveAll, CanTake;
    SenderShape(c, id, m);
    ReceiverSane(d, id, c.channels.value.slots[Live(c, id).value].nextSend, m, c.capabilities.value.maxFrame);
    ReceiveChunked(receiver, d, chunks, false);
    ExactlyOneMessage(c, receiver, d, id, m);
  }

  lemma ReceiverSane(d: Conn, id: ChannelId, sequence: u32, m: Bytes, maxFrame: nat)
    requires CanReceive(d, id, sequence, m, maxFrame)
    ensures Sane(d)
  {
  }
}
