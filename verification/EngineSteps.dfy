/**
 Every call on a connection is a sequence of a few kinds of small steps. What the steps keep is then kept
 by every run of calls.
 */
module EngineSteps {
  import opened Types
  import opened Wire
  import opened EngineModel
  import X = Extensions
  import F = FrameCodec
  import C = Channels
  import R = Reassembling
  import P = Replay
  import PT = ReplayText
  import H = Hellos
  import T = Timers

  /** What becomes of a message once it is delivered. */
  datatype Fate = Lost | Queued(job: Job) | Answered(response: Bytes)

  datatype Step =
    | Post(kind: F.FrameType, channel: ChannelId, payload: Bytes, extensions: seq<X.Extension>)
    | Write(writable: nat)
    | Retire(epoch: u16, ranges: seq<P.AckRange>)
    | Retry
    | Adopt(w: Retained)
    | Table(op: C.TableOp)
    | Fragment(channel: ChannelId, sequence: u32, offset: u32, total: u32, bytes: Bytes)
    | Delivery(channel: ChannelId, family: u32, payload: Bytes, fate: Fate)
    | Answer(k: nat, reply: Option<Bytes>)
    | Foreign(channel: ChannelId, sequence: u32, response: Bytes)
    | Note(e: Event)
    | Agree(caps: H.Capabilities)
    | Turn(to: Phase)
    | Misc(timers: T.Wheel, buffer: Bytes, nextToken: u64, now: u64, pendingPong: Option<u64>)

  predicate LegalCaps(caps: H.Capabilities) {
    && 128 <= caps.maxFrame <= caps.window < U32_SPAN
    && 1 <= caps.maxMessage < U32_SPAN
    && 1 <= caps.maxChannels
  }

  /** What was agreed is within the connection's own policy. */
  predicate Within(caps: H.Capabilities, p: H.Policy) {
    caps.maxFrame <= p.maxFrame && caps.maxMessage <= p.maxMessage && caps.window <= p.window
  }

  predicate LegalTurn(c: Conn, to: Phase) {
    match to
    case Created => false
    case Negotiating => c.state == Created
    case Active => c.capabilities.Some?
    case Draining => true
    case Closed => true
  }

  function Live(c: Conn, id: ChannelId): (i: Option<nat>)
    ensures i.Some? ==> c.channels.Some? && i.value < |c.channels.value.slots|
  {
    if c.channels.None? then None else C.Find(c.channels.value, id)
  }

  function Response(channel: ChannelId, sequence: u32, response: Bytes): Event {
    Event(PluginResponse, channel, sequence, response, None)
  }

  function Delivered(c: Conn, i: nat, channel: ChannelId, family: u32, payload: Bytes): Conn
    requires c.channels.Some? && i < |c.channels.value.slots|
  {
    var t := c.channels.value;
    var next := t.slots[i].nextRecv;
    Noted(c.(channels := Some(C.With(t, i, t.slots[i].(nextRecv := (next + 1) % U32_SPAN))),
             families := c.families[|c.events| := family]),
          Event(MessageDelivered, channel, next, payload, None))
  }

  function Fated(c: Conn, channel: ChannelId, sequence: u32, fate: Fate): Conn {
    match fate
    case Lost => c
    case Queued(job) =>
      if job.message.channel == channel && job.message.sequence == sequence then c.(jobs := c.jobs + [job]) else c
    case Answered(response) => Noted(c, Response(channel, sequence, response))
  }

  function Without(jobs: seq<Job>, k: nat): seq<Job>
    requires k < |jobs|
  {
    jobs[..k] + jobs[k + 1..]
  }

  /** A step that does not apply changes nothing. */
  function Apply(c: Conn, s: Step): Conn {
    match s
    case Post(kind, channel, payload, extensions) =>
      if kind == F.Data && c.state != Active then c else PostSpec(c, kind, channel, payload, extensions).0
    case Write(writable) => FlushSpec(c, writable).0
    case Retire(epoch, ranges) => c.(replay := P.AcknowledgeSpec(c.replay, epoch, ranges).0)
    case Retry => c.(replay := P.RetrySpec(c.replay, RETRY_LIMIT).0)
    case Adopt(w) => if c.state == Created then Adopted(c, w).0 else c
    case Table(op) =>
      if c.channels.None? || op.Update? || op.Retire? then c
      else c.(channels := Some(C.TableApply(c.channels.value, op)))
    case Fragment(channel, sequence, offset, total, bytes) =>
      if Live(c, channel).None? || |bytes| >= U64_SPAN then c
      else c.(channels := Some(Absorb(c.channels.value, Live(c, channel).value, channel, sequence, offset, total, bytes).0))
    case Delivery(channel, family, payload, fate) =>
      if Live(c, channel).None? then c
      else
        var i := Live(c, channel).value;
        Fated(Delivered(c, i, channel, family, payload), channel, c.channels.value.slots[i].nextRecv, fate)
    case Answer(k, reply) =>
      if k >= |c.jobs| then c
      else
        var m := c.jobs[k].message;
        var c1 := c.(jobs := Without(c.jobs, k));
        if reply.None? || Live(c, m.channel).None? then c1 else Noted(c1, Response(m.channel, m.sequence, reply.value))
    case Foreign(channel, sequence, response) =>
      if Live(c, channel).None? then c else Noted(c, Response(channel, sequence, response))
    case Note(e) => if e.kind == MessageDelivered || e.kind == PluginResponse then c else Noted(c, e)
    case Agree(caps) =>
      if c.state != Negotiating || !LegalCaps(caps) || !Within(caps, c.policy) then c
      else
        c.(capabilities := Some(caps), state := Active,
           channels := Some(C.NewTable(caps.maxChannels, caps.window / caps.maxChannels, caps.maxMessage)))
    case Turn(to) => if LegalTurn(c, to) then c.(state := to) else c
    case Misc(timers, buffer, nextToken, now, pendingPong) =>
      c.(timers := timers, buffer := buffer, nextToken := nextToken, now := now, pendingPong := pendingPong)
  }

  function Run(c: Conn, ss: seq<Step>): Conn
    decreases |ss|
  {
    if ss == [] then c else Run(Apply(c, ss[0]), ss[1..])
  }

  /** How many frames the steps number. */
  function Posts(ss: seq<Step>): nat {
    if ss == [] then 0 else (if ss[0].Post? then 1 else 0) + Posts(ss[1..])
  }

  /** Steps of any call but `load_replay_snapshot` and a completion from outside. */
  predicate Ordinary(ss: seq<Step>) { forall i :: 0 <= i < |ss| ==> !ss[i].Adopt? && !ss[i].Foreign? }

  lemma {:induction false} RunAppend(c: Conn, a: seq<Step>, b: seq<Step>)
    ensures Run(c, a + b) == Run(Run(c, a), b)
    ensures Posts(a + b) == Posts(a) + Posts(b)
    decreases |a|
  {
    hide Apply;
    if a == [] {
      assert a + b == b;
    } else {
      assert (a + b)[1..] == a[1..] + b;
      RunAppend(Apply(c, a[0]), a[1..], b);
    }
  }

  lemma Nothing(c: Conn)
    ensures Run(c, []) == c && Posts([]) == 0 && Ordinary([])
  {
  }

  lemma One(c: Conn, s: Step)
    ensures Run(c, [s]) == Apply(c, s) && Posts([s]) == (if s.Post? then 1 else 0)
  {
    hide Apply;
    assert [s][1..] == [];
    assert Posts([]) == 0;
  }

  lemma Two(c: Conn, a: Step, b: Step)
    ensures Run(c, [a, b]) == Apply(Apply(c, a), b)
    ensures Posts([a, b]) == (if a.Post? then 1 else 0) + (if b.Post? then 1 else 0)
  {
    hide Apply, Run, Posts;
    One(c, a);
    One(Apply(c, a), b);
    RunAppend(c, [a], [b]);
    assert [a] + [b] == [a, b];
  }

  lemma Three(c: Conn, a: Step, b: Step, d: Step)
    ensures Run(c, [a, b, d]) == Apply(Apply(Apply(c, a), b), d)
    ensures Posts([a, b, d]) == (if a.Post? then 1 else 0) + (if b.Post? then 1 else 0) + (if d.Post? then 1 else 0)
  {
    hide Apply, Run, Posts;
    Two(c, a, b);
    One(Apply(Apply(c, a), b), d);
    RunAppend(c, [a, b], [d]);
    assert [a, b] + [d] == [a, b, d];
  }

  // ---------------------------------------------------------------- credit is whole between steps

  predicate SaneSlot(t: C.Table, i: nat)
    requires i < |t.slots|
  {
    t.slots[i].id.number == i + 1 && t.slots[i].flow == C.NewFlow(t.window)
  }

  predicate SaneTable(t: C.Table) {
    && t.window < U32_SPAN && |t.slots| < 0x1_0000
    && forall i :: 0 <= i < |t.slots| ==> SaneSlot(t, i)
  }

  predicate Sane(c: Conn) { c.channels.Some? ==> SaneTable(c.channels.value) }

  /** Taking in a fragment gives back all the credit it took. */
  lemma AbsorbFlow(t: C.Table, i: nat, channel: ChannelId, sequence: u32, offset: u32, total: u32, bytes: Bytes)
    requires SaneTable(t) && i < |t.slots| && |bytes| < U64_SPAN
    ensures SaneTable(Absorb(t, i, channel, sequence, offset, total, bytes).0)
  {
    hide R.InsertSpec;
    assert SaneSlot(t, i);
    C.ReserveRelease(t.slots[i].flow, |bytes|);
    var next := Absorb(t, i, channel, sequence, offset, total, bytes).0;
    forall j | 0 <= j < |next.slots|
      ensures SaneSlot(next, j)
    {
      assert SaneSlot(t, j);
    }
  }

  lemma TableSane(t: C.Table, op: C.TableOp)
    requires SaneTable(t) && !op.Update?
    ensures SaneTable(C.TableApply(t, op))
  {
    var next := C.TableApply(t, op);
    forall i | 0 <= i < |next.slots|
      ensures SaneSlot(next, i)
    {
      assert SaneSlot(t, i);
    }
  }

  lemma NewTableSane(caps: H.Capabilities)
    requires LegalCaps(caps)
    ensures (Quotient(caps.window, caps.maxChannels);
             SaneTable(C.NewTable(caps.maxChannels, caps.window / caps.maxChannels, caps.maxMessage)))
  {
    Quotient(caps.window, caps.maxChannels);
  }

  lemma Quotient(a: nat, b: nat)
    requires b >= 1
    ensures 0 <= a / b <= a
  {
  }

  /** Handing out frames touches the outbox, the replay window and the history only. */
  lemma EmitFrame(c: Conn, f: F.Frame)
    ensures var next := EmitSpec(c, f).0;
            next == c.(replay := next.replay, outbox := next.outbox, handed := next.handed)
  {
    hide F.EncodeSpec, P.RecordSpec, Enqueued, Drained;
  }

  lemma PostFrame(c: Conn, kind: F.FrameType, channel: ChannelId, payload: Bytes, extensions: seq<X.Extension>)
    ensures var next := PostSpec(c, kind, channel, payload, extensions).0;
            next == c.(replay := next.replay, outbox := next.outbox, handed := next.handed,
                       nextFrame := (c.nextFrame + 1) % U32_SPAN)
  {
    hide EmitSpec;
    EmitFrame(Numbered(c), FrameOf(c, kind, channel, payload, extensions));
  }

  lemma AdoptFrame(c: Conn, w: Retained)
    ensures var next := Adopted(c, w).0;
            next == c.(replay := w, nextFrame := next.nextFrame)
  {
  }

  lemma StepSane(c: Conn, s: Step)
    requires Sane(c)
    ensures Sane(Apply(c, s))
  {
    hide SaneTable, PostSpec, FlushSpec, Adopted, P.AcknowledgeSpec, P.RetrySpec, Absorb, C.TableApply, C.NewTable;
    match s {
      case Post(kind, channel, payload, extensions) => PostFrame(c, kind, channel, payload, extensions);
      case Write(writable) => WriteFrame(c, writable);
      case Adopt(w) => AdoptFrame(c, w);
      case Table(op) =>
        if c.channels.Some? && !op.Update? { TableSane(c.channels.value, op); }
      case Fragment(channel, sequence, offset, total, bytes) =>
        if Live(c, channel).Some? && |bytes| < U64_SPAN {
          AbsorbFlow(c.channels.value, Live(c, channel).value, channel, sequence, offset, total, bytes);
        }
      case Delivery(channel, family, payload, fate) =>
        if Live(c, channel).Some? { DeliveredSane(c, Live(c, channel).value, channel, family, payload); }
      case Agree(caps) =>
        if LegalCaps(caps) { NewTableSane(caps); }
      case _ =>
    }
  }

  lemma WriteFrame(c: Conn, writable: nat)
    ensures var next := FlushSpec(c, writable).0;
            next == c.(outbox := next.outbox)
  {
  }

  lemma DeliveredSane(c: Conn, i: nat, channel: ChannelId, family: u32, payload: Bytes)
    requires Sane(c) && c.channels.Some? && i < |c.channels.value.slots|
    ensures Sane(Delivered(c, i, channel, family, payload))
  {
    var t, next := c.channels.value, Delivered(c, i, channel, family, payload).channels.value;
    forall j | 0 <= j < |next.slots|
      ensures SaneSlot(next, j)
    {
      assert SaneSlot(t, j);
    }
  }

  lemma {:induction false} RunSane(c: Conn, ss: seq<Step>)
    requires Sane(c)
    ensures Sane(Run(c, ss))
    decreases |ss|
  {
    hide Sane, Apply;
    if ss != [] {
      StepSane(c, ss[0]);
      RunSane(Apply(c, ss[0]), ss[1..]);
    }
  }

  // ---------------------------------------------------------------- the calls as steps

  /** `ss` is what happened from `c` to `next`, with at most `n` frames numbered. */
  predicate Explains(c: Conn, ss: seq<Step>, next: Conn, n: nat) {
    Run(c, ss) == next && Ordinary(ss) && Mute(ss) && Posts(ss) <= n
  }

  /** No fragment is taken in, no message is delivered and no plugin answers. */
  predicate Mute(ss: seq<Step>) { forall i :: 0 <= i < |ss| ==> !ss[i].Fragment? && !ss[i].Delivery? && !ss[i].Answer? }

  /**
   A fragment is of a message still to come; a message that is delivered has left its fragments; and what a
   step says in the name of a plugin is what that plugin answers to the message in question.
   */
  predicate HonestStep(host: Host, c: Conn, s: Step) {
    match s
    case Fragment(channel, sequence, _, _, _) =>
      Live(c, channel).None? || sequence >= c.channels.value.slots[Live(c, channel).value].nextRecv
    case Delivery(channel, family, payload, fate) =>
      Live(c, channel).None?
      || var slot := c.channels.value.slots[Live(c, channel).value];
         slot.nextRecv !in slot.fragments.pending
         && var message := R.LogicalMessage(channel, c.channels.value.slots[Live(c, channel).value].nextRecv, payload);
         (match fate
          case Lost => true
          case Queued(job) => job.message == message && job.family == family
          case Answered(response) => host.respond(family, message) == Ok(response))
    case Answer(k, reply) =>
      k >= |c.jobs| || reply.None? || host.respond(c.jobs[k].family, c.jobs[k].message) == Ok(reply.value)
    case _ => true
  }

  predicate Honest(host: Host, c: Conn, ss: seq<Step>)
    decreases |ss|
  {
    ss == [] || (HonestStep(host, c, ss[0]) && Honest(host, Apply(c, ss[0]), ss[1..]))
  }

  /** The same where messages are delivered and plugins answer. */
  predicate Tells(host: Host, c: Conn, ss: seq<Step>, next: Conn, n: nat) {
    Run(c, ss) == next && Ordinary(ss) && Honest(host, c, ss) && Posts(ss) <= n
  }

  lemma {:induction false} MuteHonest(host: Host, c: Conn, ss: seq<Step>)
    requires Mute(ss)
    ensures Honest(host, c, ss)
    decreases |ss|
  {
    hide Apply;
    if ss != [] { MuteHonest(host, Apply(c, ss[0]), ss[1..]); }
  }

  lemma {:induction false} HonestAppend(host: Host, c: Conn, a: seq<Step>, b: seq<Step>)
    requires Honest(host, c, a) && Honest(host, Run(c, a), b)
    ensures Honest(host, c, a + b)
    decreases |a|
  {
    hide Apply, HonestStep;
    if a == [] {
      assert a + b == b;
    } else {
      assert (a + b)[1..] == a[1..] + b;
      HonestAppend(host, Apply(c, a[0]), a[1..], b);
    }
  }

  lemma Told(host: Host, c: Conn, ss: seq<Step>, next: Conn, n: nat)
    requires Explains(c, ss, next, n)
    ensures Tells(host, c, ss, next, n)
  {
    hide Run, Posts, Honest;
    MuteHonest(host, c, ss);
  }

  lemma JoinedTold(host: Host, c: Conn, a: seq<Step>, mid: Conn, m: nat, b: seq<Step>, next: Conn, n: nat)
    requires Tells(host, c, a, mid, m) && Tells(host, mid, b, next, n)
    ensures Tells(host, c, a + b, next, m + n)
  {
    hide Run, Posts, Honest;
    RunAppend(c, a, b);
    HonestAppend(host, c, a, b);
  }

  lemma LooserTold(host: Host, c: Conn, ss: seq<Step>, next: Conn, m: nat, n: nat)
    requires Tells(host, c, ss, next, m) && m <= n
    ensures Tells(host, c, ss, next, n)
  {
  }

  lemma Joined(c: Conn, a: seq<Step>, mid: Conn, m: nat, b: seq<Step>, next: Conn, n: nat)
    requires Explains(c, a, mid, m) && Explains(mid, b, next, n)
    ensures Explains(c, a + b, next, m + n)
  {
    hide Run, Posts;
    RunAppend(c, a, b);
  }

  lemma Same(c: Conn) returns (ss: seq<Step>)
    ensures ss == [] && Explains(c, ss, c, 0)
  {
    ss := [];
    Nothing(c);
  }

  function Timed(c: Conn, kind: T.Kind, channel: ChannelId, delay: u64): Step {
    var s := Scheduled(c, kind, channel, delay);
    Misc(s.timers, c.buffer, c.nextToken, c.now, c.pendingPong)
  }

  lemma OnTurn(c: Conn, to: Phase)
    requires LegalTurn(c, to)
    ensures Apply(c, Turn(to)) == c.(state := to)
  {
  }

  lemma OnTimed(c: Conn, kind: T.Kind, channel: ChannelId, delay: u64)
    ensures Apply(c, Timed(c, kind, channel, delay)) == Scheduled(c, kind, channel, delay)
    ensures !Timed(c, kind, channel, delay).Post?
  {
  }

  lemma TimedOrdinary(c: Conn, kind: T.Kind, channel: ChannelId, delay: u64)
    ensures Timed(c, kind, channel, delay).Misc?
  {
  }

  lemma OnMisc(c: Conn, timers: T.Wheel, buffer: Bytes, nextToken: u64, now: u64, pendingPong: Option<u64>)
    ensures Apply(c, Misc(timers, buffer, nextToken, now, pendingPong))
         == c.(timers := timers, buffer := buffer, nextToken := nextToken, now := now, pendingPong := pendingPong)
  {
  }

  lemma OnNote(c: Conn, e: Event)
    requires e.kind != MessageDelivered && e.kind != PluginResponse
    ensures Apply(c, Note(e)) == Noted(c, e)
  {
  }

  lemma OnPost(c: Conn, kind: F.FrameType, channel: ChannelId, payload: Bytes, extensions: seq<X.Extension>)
    requires kind == F.Data ==> c.state == Active
    ensures Apply(c, Post(kind, channel, payload, extensions)) == PostSpec(c, kind, channel, payload, extensions).0
  {
    hide PostSpec;
  }

  lemma OnTable(c: Conn, op: C.TableOp)
    requires !op.Update? && !op.Retire?
    ensures Apply(c, Table(op)) == if c.channels.None? then c else c.(channels := Some(C.TableApply(c.channels.value, op)))
  {
    hide C.TableApply;
  }

  lemma Single(c: Conn, s: Step)
    requires !s.Adopt? && !s.Foreign? && !s.Fragment? && !s.Delivery? && !s.Answer?
    ensures Explains(c, [s], Apply(c, s), if s.Post? then 1 else 0)
  {
    hide Run, Posts, Apply;
    One(c, s);
  }

  lemma PostedSteps(c: Conn, kind: F.FrameType, channel: ChannelId, payload: Bytes, extensions: seq<X.Extension>)
    requires kind == F.Data ==> c.state == Active
    ensures Explains(c, [Post(kind, channel, payload, extensions)], PostSpec(c, kind, channel, payload, extensions).0, 1)
  {
    hide Run, Posts, PostSpec;
    One(c, Post(kind, channel, payload, extensions));
  }

  /** An event noted between numbering and emitting might as well have been noted afterwards. */
  lemma NotedSteps(c: Conn, kind: F.FrameType, id: ChannelId, payload: Bytes, e: Event) returns (ss: seq<Step>)
    requires e.kind != MessageDelivered && e.kind != PluginResponse && kind != F.Data
    ensures Explains(c, ss, PostNoted(c, kind, id, payload, e).0, 1)
  {
    EmitNoted(c, kind, id, payload, e);
    hide Run, Posts, PostSpec, PostNoted;
    ss := [Post(kind, id, payload, []), Note(e)];
    Two(c, ss[0], ss[1]);
  }

  lemma EmitNoted(c: Conn, kind: F.FrameType, id: ChannelId, payload: Bytes, e: Event)
    ensures PostNoted(c, kind, id, payload, e).0 == Noted(PostSpec(c, kind, id, payload, []).0, e)
  {
    hide F.EncodeSpec, P.RecordSpec, Enqueued, Drained;
  }

  lemma StartSteps(host: Host, c: Conn) returns (ss: seq<Step>)
    ensures Explains(c, ss, StartSpec(host, c).0, 1)
  {
    hide Run, Posts, PostSpec, H.EncodeHelloSpec, Apply, Scheduled, Timed;
    ss := Same(c);
    if c.state == Created && H.EncodeHelloSpec(LocalHello(host, c.policy)).Ok? {
      var payload := H.EncodeHelloSpec(LocalHello(host, c.policy)).value;
      var c1 := c.(state := Negotiating);
      OnTurn(c, Negotiating);
      OnTimed(c1, T.Handshake, CONTROL, HANDSHAKE_TIMEOUT);
      var c2 := Scheduled(c1, T.Handshake, CONTROL, HANDSHAKE_TIMEOUT);
      OnPost(c2, F.Hello, CONTROL, payload, []);
      ss := [Turn(Negotiating), Timed(c1, T.Handshake, CONTROL, HANDSHAKE_TIMEOUT), Post(F.Hello, CONTROL, payload, [])];
      Three(c, ss[0], ss[1], ss[2]);
      TimedOrdinary(c1, T.Handshake, CONTROL, HANDSHAKE_TIMEOUT);
    }
  }

  lemma OpenChannelSteps(c: Conn, family: u32, window: u64) returns (ss: seq<Step>)
    ensures Explains(c, ss, OpenChannelSpec(c, family, window).0, 1)
  {
    hide Run, Posts, PostSpec, C.AllocateSpec, C.ActivateSpec, Offers, U32Bytes, Apply;
    ss := Same(c);
    if c.state == Active && c.channels.Some? && c.capabilities.Some? && Offers(c.capabilities.value, family)
      && C.AllocateSpec(c.channels.value).1.Ok?
    {
      var (t1, id) := C.AllocateSpec(c.channels.value);
      var first := [Table(C.TableOp.Allocate), Table(C.TableOp.Activate(id.value))];
      Two(c, first[0], first[1]);
      OnTable(c, first[0].op);
      OnTable(c.(channels := Some(t1)), first[1].op);
      var c1 := c.(channels := Some(C.ActivateSpec(t1, id.value).0));
      ss := first;
      assert Explains(c, first, c1, 0);
      if C.ActivateSpec(t1, id.value).1.Ok? {
        var payload := U32Bytes(family) + U32Bytes(window % U32_SPAN);
        var rest := [Post(F.Open, id.value, payload, []), Note(Plain(ChannelOpened, id.value))];
        Two(c1, rest[0], rest[1]);
        OnPost(c1, F.Open, id.value, payload, []);
        OnNote(PostSpec(c1, F.Open, id.value, payload, []).0, Plain(ChannelOpened, id.value));
        var posted := PostSpec(c1, F.Open, id.value, payload, []);
        if posted.1.Ok? {
          Joined(c, first, c1, 0, rest, Noted(posted.0, Plain(ChannelOpened, id.value)), 1);
          ss := first + rest;
        } else {
          PostedSteps(c1, F.Open, id.value, payload, []);
          Joined(c, first, c1, 0, [rest[0]], posted.0, 1);
          ss := first + [rest[0]];
        }
      }
    }
  }

  // ---------------------------------------------------------------- send

  /** Frames go out the same whatever the channel table holds. */
  lemma PostOtherTable(c: Conn, t: Option<C.Table>, kind: F.FrameType, channel: ChannelId, payload: Bytes, extensions: seq<X.Extension>)
    ensures var (next, r) := PostSpec(c, kind, channel, payload, extensions);
            PostSpec(c.(channels := t), kind, channel, payload, extensions) == (next.(channels := t), r)
  {
    hide F.EncodeSpec, P.RecordSpec, Enqueued, Drained;
  }

  lemma {:induction false} SendOtherTable(c: Conn, t: Option<C.Table>, id: ChannelId, sequence: u32, payload: Bytes, size: nat, offset: nat, out: seq<Bytes>)
    requires size >= 1
    ensures var (next, r) := SendFrom(c, id, sequence, payload, size, offset, out);
            && SendFrom(c.(channels := t), id, sequence, payload, size, offset, out) == (next.(channels := t), r)
            && next.channels == c.channels
    decreases |payload| - offset
  {
    hide PostSpec, DataExtensions;
    if offset < |payload| {
      var take := Min(size, |payload| - offset);
      var part, es := payload[offset..offset + take], DataExtensions(sequence, offset, |payload|);
      PostOtherTable(c, t, F.Data, id, part, es);
      PostFrame(c, F.Data, id, part, es);
      var (next, encoded) := PostSpec(c, F.Data, id, part, es);
      if encoded.Ok? {
        SendOtherTable(next, t, id, sequence, payload, size, offset + size, out + encoded.value);
      }
    }
  }

  lemma {:induction false} SendFromSteps(c: Conn, id: ChannelId, sequence: u32, payload: Bytes, size: nat, offset: nat, out: seq<Bytes>)
    returns (ss: seq<Step>)
    requires size >= 1 && c.state == Active
    ensures Explains(c, ss, SendFrom(c, id, sequence, payload, size, offset, out).0, if offset < |payload| then |payload| - offset else 0)
    decreases |payload| - offset
  {
    hide Run, Posts, PostSpec, DataExtensions, Explains;
    ss := Same(c);
    if offset < |payload| {
      var take := Min(size, |payload| - offset);
      var part, es := payload[offset..offset + take], DataExtensions(sequence, offset, |payload|);
      PostedSteps(c, F.Data, id, part, es);
      PostFrame(c, F.Data, id, part, es);
      var (next, encoded) := PostSpec(c, F.Data, id, part, es);
      var first := [Post(F.Data, id, part, es)];
      if encoded.Err? {
        ss := first;
        Looser(c, ss, next, 1, |payload| - offset);
      } else {
        var rest := SendFromSteps(next, id, sequence, payload, size, offset + size, out + encoded.value);
        var n := if offset + size < |payload| then |payload| - (offset + size) else 0;
        Joined(c, first, next, 1, rest, SendFrom(c, id, sequence, payload, size, offset, out).0, n);
        ss := first + rest;
        Looser(c, ss, SendFrom(c, id, sequence, payload, size, offset, out).0, 1 + n, |payload| - offset);
      }
    }
  }

  lemma Looser(c: Conn, ss: seq<Step>, next: Conn, m: nat, n: nat)
    requires Explains(c, ss, next, m) && m <= n
    ensures Explains(c, ss, next, n)
  {
  }

  /** Reserving credit and giving it back leaves only the sequence number taken. */
  lemma ReservedTable(t: C.Table, i: nat, id: ChannelId, amount: u64)
    requires SaneTable(t) && C.Find(t, id) == Some(i) && C.ReserveSpec(t.slots[i].flow, amount).1.Ok?
    ensures var t0 := WithFlow(t, i, C.ReserveSpec(t.slots[i].flow, amount).0);
            var (t1, r) := C.ReserveSequenceSpec(t0, id);
            && i < |t1.slots|
            && WithFlow(t1, i, C.ReleaseSpec(t1.slots[i].flow, amount).0) == C.ReserveSequenceSpec(t, id).0
            && r == C.ReserveSequenceSpec(t, id).1
            && (r.Err? ==> C.ReserveSequenceSpec(t, id).0 == t)
  {
    assert SaneSlot(t, i);
    C.ReserveRelease(t.slots[i].flow, amount);
    var t0 := WithFlow(t, i, C.ReserveSpec(t.slots[i].flow, amount).0);
    assert C.Find(t0, id) == Some(i);
    var t1 := C.ReserveSequenceSpec(t0, id).0;
    assert t.slots[i := t.slots[i]] == t.slots;
    assert WithFlow(t1, i, t.slots[i].flow).slots == C.ReserveSequenceSpec(t, id).0.slots;
  }

  /** What a successful reservation leaves `send` to do, the credit aside. */
  lemma SendBody(c: Conn, id: ChannelId, payload: Bytes, i: nat)
    requires Sane(c) && |payload| < U64_SPAN
    requires c.state == Active && c.capabilities.Some? && c.channels.Some? && C.Find(c.channels.value, id) == Some(i)
    requires !c.channels.value.slots[i].localClosed && |payload| <= c.capabilities.value.maxMessage
    requires C.ReserveSpec(c.channels.value.slots[i].flow, |payload|).1.Ok?
    ensures var (t, sequence) := C.ReserveSequenceSpec(c.channels.value, id);
            var c1 := c.(channels := Some(t));
            && (sequence.Err? ==> SendSpec(c, id, payload) == (c, Err(sequence.error)))
            && (sequence.Ok? ==>
                  SendSpec(c, id, payload)
                  == SendFrom(c1, id, sequence.value, payload, MaxFragment(c.capabilities.value), 0, []))
  {
    hide SendFrom, C.ReserveSpec, C.ReserveSequenceSpec, C.ReleaseSpec, SaneTable, C.Find;
    var t := c.channels.value;
    ReservedTable(t, i, id, |payload|);
    var t0 := WithFlow(t, i, C.ReserveSpec(t.slots[i].flow, |payload|).0);
    var (t1, sequence) := C.ReserveSequenceSpec(t0, id);
    var c1 := c.(channels := Some(t1));
    if sequence.Ok? {
      var c2 := c.(channels := Some(C.ReserveSequenceSpec(t, id).0));
      SendOtherTable(c1, c2.channels, id, sequence.value, payload, MaxFragment(c.capabilities.value), 0, []);
      assert c1.(channels := c2.channels) == c2;
    }
  }

  lemma SendSteps(c: Conn, id: ChannelId, payload: Bytes) returns (ss: seq<Step>)
    requires Sane(c) && |payload| < U64_SPAN
    ensures Explains(c, ss, SendSpec(c, id, payload).0, |payload|)
  {
    hide Run, Posts, SendFrom, C.ReserveSpec, C.ReserveSequenceSpec, C.ReleaseSpec, SaneTable;
    ss := Same(c);
    if c.state == Active && c.capabilities.Some? && c.channels.Some? && C.Find(c.channels.value, id).Some? {
      var t, i := c.channels.value, C.Find(c.channels.value, id).value;
      if !t.slots[i].localClosed && |payload| <= c.capabilities.value.maxMessage && C.ReserveSpec(t.slots[i].flow, |payload|).1.Ok? {
        SendBody(c, id, payload, i);
        var (t1, sequence) := C.ReserveSequenceSpec(t, id);
        if sequence.Ok? {
          var first := [Table(C.TableOp.ReserveSequence(id))];
          Single(c, first[0]);
          var c1 := c.(channels := Some(t1));
          var rest := SendFromSteps(c1, id, sequence.value, payload, MaxFragment(c.capabilities.value), 0, []);
          Joined(c, first, c1, 0, rest, SendSpec(c, id, payload).0, |payload|);
          ss := first + rest;
        }
      }
    }
  }

  // ---------------------------------------------------------------- frames of the peer as steps

  lemma CapsLegal(local: H.Hello, payload: Bytes)
    requires H.DecodeHelloSpec(payload).Ok?
    requires H.NegotiateSpec(local, H.DecodeHelloSpec(payload).value).Ok?
    ensures var caps := H.NegotiateSpec(local, H.DecodeHelloSpec(payload).value).value;
            LegalCaps(caps) && Within(caps, local.limits)
  {
    hide H.AllMatches, H.TranscriptHash, H.ReadDescriptors, ReadU16, ReadU32, ReadU64;
  }

  lemma AgreedSteps(c: Conn, caps: H.Capabilities) returns (ss: seq<Step>)
    requires c.state == Negotiating && LegalCaps(caps) && Within(caps, c.policy)
    ensures Explains(c, ss, Agreed(c, caps), 0)
  {
    hide Run, Posts, C.NewTable, Apply, Scheduled, Timed;
    var c1 := c.(capabilities := Some(caps), state := Active,
                 channels := Some(C.NewTable(caps.maxChannels, caps.window / caps.maxChannels, caps.maxMessage)));
    OnAgree(c, caps);
    OnTimed(c1, T.Idle, CONTROL, IDLE_PING);
    TimedOrdinary(c1, T.Idle, CONTROL, IDLE_PING);
    OnNote(Scheduled(c1, T.Idle, CONTROL, IDLE_PING), Plain(Negotiated, CONTROL));
    ss := [Agree(caps), Timed(c1, T.Idle, CONTROL, IDLE_PING), Note(Plain(Negotiated, CONTROL))];
    Three(c, ss[0], ss[1], ss[2]);
  }

  lemma OnAgree(c: Conn, caps: H.Capabilities)
    requires c.state == Negotiating && LegalCaps(caps) && Within(caps, c.policy)
    ensures Apply(c, Agree(caps))
         == c.(capabilities := Some(caps), state := Active,
               channels := Some(C.NewTable(caps.maxChannels, caps.window / caps.maxChannels, caps.maxMessage)))
  {
    hide C.NewTable;
  }

  lemma HelloSteps(host: Host, c: Conn, f: F.Frame) returns (ss: seq<Step>)
    ensures Explains(c, ss, HandleHello(host, c, f).0, 0)
  {
    hide Run, Posts, Explains, H.DecodeHelloSpec, H.NegotiateSpec, Agreed;
    ss := Same(c);
    if c.state == Negotiating && H.DecodeHelloSpec(f.payload).Ok? {
      var local, peer := LocalHello(host, c.policy), H.DecodeHelloSpec(f.payload).value;
      if H.NegotiateSpec(local, peer).Ok? {
        CapsLegal(local, f.payload);
        SomeChannels(local, peer);
        ss := AgreedSteps(c, H.NegotiateSpec(local, peer).value);
      }
    }
  }

  lemma OpenSteps(c: Conn, f: F.Frame) returns (ss: seq<Step>)
    ensures Explains(c, ss, HandleOpen(c, f).0, 0)
  {
    hide Run, Posts, C.AcceptRemoteSpec, Offers, Apply;
    ss := Same(c);
    if HandleOpen(c, f).1.Ok? {
      ss := [Table(C.TableOp.AcceptRemote(f.channel)), Note(Plain(ChannelOpened, f.channel))];
      Two(c, ss[0], ss[1]);
      OnTable(c, ss[0].op);
      OnNote(Apply(c, ss[0]), Plain(ChannelOpened, f.channel));
    }
  }

  /** A completed message carries the names it was inserted under. */
  lemma InsertNames(s: R.Reassembly, channel: ChannelId, sequence: u32, offset: u32, total: u32, bytes: Bytes)
    ensures var r := R.InsertSpec(s, channel, sequence, offset, total, bytes).1;
            r.Ok? && r.value.Some? ==> r.value.value.channel == channel && r.value.value.sequence == sequence
    ensures var (next, r) := R.InsertSpec(s, channel, sequence, offset, total, bytes);
            && (r.Ok? && r.value.Some? ==> sequence !in next.pending)
            && forall k <- next.pending :: k == sequence || k in s.pending
  {
    hide R.ScanRanges, R.Reaches, R.PasteAll;
  }

  lemma AbsorbNames(t: C.Table, i: nat, channel: ChannelId, sequence: u32, offset: u32, total: u32, bytes: Bytes)
    requires i < |t.slots| && |bytes| < U64_SPAN
    ensures var (next, r) := Absorb(t, i, channel, sequence, offset, total, bytes);
            && (r.Ok? && r.value.Some? ==> r.value.value.channel == channel && r.value.value.sequence == sequence)
            && |next.slots| == |t.slots| && next.window == t.window && next.maxMessage == t.maxMessage
            && next.slots[i].nextRecv == t.slots[i].nextRecv
            && (r.Ok? && r.value.Some? ==> sequence !in next.slots[i].fragments.pending)
            && C.Find(next, channel) == C.Find(t, channel)
            && (C.ReserveSpec(t.slots[i].flow, |bytes|).1.Err? ==> next == t)
  {
    hide R.InsertSpec, C.ReserveSpec, C.ReleaseSpec;
    InsertNames(t.slots[i].fragments, channel, sequence, offset, total, bytes);
  }

  /** Asking the plugin of a live channel ends in a response event or in none. */
  lemma AnswerSteps(host: Host, c: Conn, job: Job) returns (reply: Option<Bytes>)
    ensures reply.Some? ==> Live(c, job.message.channel).Some? && host.respond(job.family, job.message) == Ok(reply.value)
    ensures AnswerSpec(host, c, job).0
         == if reply.None? then c else Noted(c, Response(job.message.channel, job.message.sequence, reply.value))
  {
    hide C.Find;
    reply := None;
    match host.respond(job.family, job.message) {
      case Err(_) =>
      case Ok(response) =>
        if Live(c, job.message.channel).Some? && job.token != 0 && job.family != 0 {
          reply := Some(response);
        }
    }
  }

  function WithToken(c: Conn, token: u64): Conn { c.(nextToken := token) }

  /** What dispatching a delivered message amounts to, the token counter aside. */
  lemma DispatchFate(host: Host, c: Conn, family: u32, message: R.LogicalMessage) returns (fate: Fate, token: u64)
    requires Live(c, message.channel).Some?
    ensures Dispatch(host, c, family, message).0 == WithToken(Fated(c, message.channel, message.sequence, fate), token)
    ensures fate.Queued? ==> fate.job.message == message && fate.job.family == family
    ensures fate.Answered? ==> host.respond(family, message) == Ok(fate.response)
  {
    hide C.Find;
    fate, token := Lost, c.nextToken;
    if host.available(family) {
      token := (c.nextToken + 1) % U64_SPAN;
      var job := Job(c.nextToken, family, message);
      if host.executor.Some? {
        if |c.jobs| < host.executor.value { fate := Queued(job); }
      } else {
        var c1 := WithToken(c, token);
        var reply := AnswerSteps(host, c1, job);
        if reply.Some? { fate := Answered(reply.value); }
      }
    }
  }

  lemma StillLive(c: Conn, i: nat, channel: ChannelId, family: u32, payload: Bytes)
    requires Live(c, channel) == Some(i)
    ensures Live(Delivered(c, i, channel, family, payload), channel) == Some(i)
  {
  }

  lemma DeliverSteps(host: Host, c: Conn, i: nat, channel: ChannelId, family: u32, outcome: R.Outcome) returns (ss: seq<Step>)
    requires Live(c, channel) == Some(i)
    requires outcome.Ok? && outcome.value.Some? ==>
               outcome.value.value.channel == channel
               && outcome.value.value.sequence !in c.channels.value.slots[i].fragments.pending
    ensures Tells(host, c, ss, Deliver(host, c, i, channel, family, outcome).0, 0)
  {
    hide Run, Posts, Dispatch, C.Find, Fated, Apply, Timed, Honest;
    ss := Same(c);
    Told(host, c, ss, c, 0);
    match outcome {
      case Err(_) =>
      case Ok(None) =>
        ss := [Timed(c, T.FragmentGap, channel, FRAGMENT_GAP)];
        One(c, ss[0]);
        OnTimed(c, T.FragmentGap, channel, FRAGMENT_GAP);
        TimedOrdinary(c, T.FragmentGap, channel, FRAGMENT_GAP);
        Told(host, c, ss, Deliver(host, c, i, channel, family, outcome).0, 0);
      case Ok(Some(message)) =>
        if message.sequence == c.channels.value.slots[i].nextRecv {
          ss := DeliveredSteps(host, c, i, family, message);
        }
    }
  }

  lemma DeliveredSteps(host: Host, c: Conn, i: nat, family: u32, message: R.LogicalMessage) returns (ss: seq<Step>)
    requires Live(c, message.channel) == Some(i) && message.sequence == c.channels.value.slots[i].nextRecv
    requires message.sequence !in c.channels.value.slots[i].fragments.pending
    ensures Tells(host, c, ss, Dispatch(host, Delivered(c, i, message.channel, family, message.payload), family, message).0, 0)
  {
    hide Run, Posts, Dispatch, C.Find, Fated, Apply, Honest;
    var channel := message.channel;
    var c1 := Delivered(c, i, channel, family, message.payload);
    StillLive(c, i, channel, family, message.payload);
    var fate, token := DispatchFate(host, c1, family, message);
    FatedMisc(c1, channel, message.sequence, fate, token);
    OnDelivery(c, i, channel, family, message.payload, fate);
    ss := [Delivery(channel, family, message.payload, fate), Misc(c.timers, c.buffer, token, c.now, c.pendingPong)];
    Two(c, ss[0], ss[1]);
    HonestDelivery(host, c, ss[0], ss[1]);
  }

  lemma HonestDelivery(host: Host, c: Conn, a: Step, b: Step)
    requires HonestStep(host, c, a) && b.Misc?
    ensures Honest(host, c, [a, b])
  {
    hide Apply;
    assert [a, b][1..] == [b] && [b][1..] == [];
    assert Honest(host, Apply(Apply(c, a), b), []);
    assert Honest(host, Apply(c, a), [b]);
  }

  lemma FatedMisc(c: Conn, channel: ChannelId, sequence: u32, fate: Fate, token: u64)
    ensures Apply(Fated(c, channel, sequence, fate), Misc(c.timers, c.buffer, token, c.now, c.pendingPong))
         == WithToken(Fated(c, channel, sequence, fate), token)
  {
  }

  lemma FragmentTold(host: Host, c: Conn, s: Step)
    requires s.Fragment? && HonestStep(host, c, s)
    ensures Tells(host, c, [s], Apply(c, s), 0)
  {
    hide Apply;
    One(c, s);
    assert [s][1..] == [];
    assert Honest(host, Apply(c, s), []);
  }

  lemma DataSteps(host: Host, c: Conn, f: F.Frame) returns (ss: seq<Step>)
    requires |f.payload| < U64_SPAN
    ensures Tells(host, c, ss, HandleData(host, c, f).0, 0)
  {
    hide Run, Posts, Explains, Tells, Deliver, Absorb, C.Find, ExtensionU32;
    ss := Same(c);
    Told(host, c, ss, c, 0);
    if c.state == Active && c.channels.Some? && C.Find(c.channels.value, f.channel).Some? {
      var t, i := c.channels.value, C.Find(c.channels.value, f.channel).value;
      var sequence, offset := ExtensionU32(f, EXT_MESSAGE_SEQ), ExtensionU32(f, EXT_FRAGMENT_OFFSET);
      var total, family := ExtensionU32(f, EXT_MESSAGE_TOTAL), ExtensionU32(f, EXT_FAMILY_ID);
      if !t.slots[i].remoteClosed && sequence.Some? && offset.Some? && total.Some? && family.Some?
        && sequence.value >= t.slots[i].nextRecv
      {
        AbsorbNames(t, i, f.channel, sequence.value, offset.value, total.value, f.payload);
        var (t1, outcome) := Absorb(t, i, f.channel, sequence.value, offset.value, total.value, f.payload);
        var c1 := c.(channels := Some(t1));
        var first := [Fragment(f.channel, sequence.value, offset.value, total.value, f.payload)];
        FragmentTold(host, c, first[0]);
        var rest := DeliverSteps(host, c1, i, f.channel, family.value, outcome);
        JoinedTold(host, c, first, c1, 0, rest, HandleData(host, c, f).0, 0);
        ss := first + rest;
      }
    }
  }

  /** On any state a run can reach, a CREDIT frame is always refused and changes nothing. */
  lemma CreditRefused(c: Conn, f: F.Frame)
    requires Sane(c)
    ensures HandleCredit(c, f).0 == c && HandleCredit(c, f).1.Err?
  {
    hide C.GrantSpec, ReadU32;
    if c.channels.Some? && |f.payload| == 4 && C.Find(c.channels.value, f.channel).Some? {
      var t, i := c.channels.value, C.Find(c.channels.value, f.channel).value;
      assert SaneSlot(t, i);
      C.GrantIff(t.slots[i].flow, ReadU32(f.payload, 0));
      assert t.slots[i := t.slots[i]] == t.slots;
    }
  }

  lemma AckSteps(c: Conn, f: F.Frame) returns (ss: seq<Step>)
    ensures Explains(c, ss, HandleAck(c, f).0, 0)
  {
    hide Run, Posts, P.DecodeAckSpec, P.AcknowledgeSpec;
    ss := Same(c);
    if f.channel.IsControl() && P.DecodeAckSpec(f.payload).Ok? {
      var (epoch, ranges) := P.DecodeAckSpec(f.payload).value;
      ss := [Retire(epoch, ranges)];
      One(c, ss[0]);
    }
  }

  lemma PingSteps(c: Conn, f: F.Frame) returns (ss: seq<Step>)
    ensures Explains(c, ss, HandlePing(c, f).0, 1)
  {
    hide Run, Posts, PostSpec;
    ss := Same(c);
    if f.channel.IsControl() && ReadToken(f.payload).Ok? {
      PostedSteps(c, F.Pong, CONTROL, U64Bytes(ReadToken(f.payload).value), []);
      ss := [Post(F.Pong, CONTROL, U64Bytes(ReadToken(f.payload).value), [])];
    }
  }

  lemma PongSteps(c: Conn, f: F.Frame) returns (ss: seq<Step>)
    ensures Explains(c, ss, HandlePong(c, f).0, 0)
  {
    hide Run, Posts, Apply;
    ss := Same(c);
    if f.channel.IsControl() && ReadToken(f.payload).Ok? {
      var token := ReadToken(f.payload).value;
      var pong := if c.pendingPong == Some(token) then None else c.pendingPong;
      ss := [Misc(c.timers, c.buffer, c.nextToken, c.now, pong), Note(Event(PongReceived, CONTROL, token % U32_SPAN, [], None))];
      Two(c, ss[0], ss[1]);
      OnMisc(c, c.timers, c.buffer, c.nextToken, c.now, pong);
      OnNote(c.(pendingPong := pong), ss[1].e);
    }
  }

  lemma ResumeSteps(c: Conn, f: F.Frame) returns (ss: seq<Step>)
    ensures Explains(c, ss, HandleResume(c, f).0, 0)
  {
    hide Run, Posts, ReadResume, P.RetainedFromSpec, Apply;
    ss := Same(c);
    if HandleResume(c, f).1.Ok? {
      ss := [Turn(Active), Note(Plain(Resumed, CONTROL))];
      Two(c, ss[0], ss[1]);
      OnTurn(c, Active);
      OnNote(Apply(c, ss[0]), Plain(Resumed, CONTROL));
    }
  }

  lemma PeerHalfCloseSteps(c: Conn, f: F.Frame) returns (ss: seq<Step>)
    ensures Explains(c, ss, HandleHalfClose(c, f).0, 0)
  {
    hide Run, Posts, C.HalfCloseSpec, Apply;
    ss := Same(c);
    if HandleHalfClose(c, f).1.Ok? {
      var direction := if f.payload[0] == 0 then C.RemoteSend else C.LocalSend;
      ss := [Table(C.TableOp.HalfClose(f.channel, direction)), Note(Plain(HalfClosed, f.channel))];
      Two(c, ss[0], ss[1]);
      OnTable(c, ss[0].op);
      OnNote(Apply(c, ss[0]), Plain(HalfClosed, f.channel));
    }
  }

  lemma PeerResetSteps(c: Conn, id: ChannelId) returns (ss: seq<Step>)
    ensures Explains(c, ss, HandleReset(c, id), 0)
  {
    hide Run, Posts, C.ResetChannelSpec, Apply;
    ss := [Table(C.TableOp.Reset(id)), Note(Plain(ChannelReset, id))];
    Two(c, ss[0], ss[1]);
    OnTable(c, ss[0].op);
    OnNote(Apply(c, ss[0]), Plain(ChannelReset, id));
  }

  lemma PeerGoAwaySteps(c: Conn, f: F.Frame) returns (ss: seq<Step>)
    ensures Explains(c, ss, HandleGoAway(c, f).0, 0)
  {
    hide Run, Posts, Apply, Scheduled, Timed;
    var c1 := c.(state := Draining);
    OnTurn(c, Draining);
    OnTimed(c1, T.Drain, CONTROL, DRAIN_TIMEOUT);
    OnNote(Scheduled(c1, T.Drain, CONTROL, DRAIN_TIMEOUT), Plain(ClosedDown, f.channel));
    TimedOrdinary(c1, T.Drain, CONTROL, DRAIN_TIMEOUT);
    ss := [Turn(Draining), Timed(c1, T.Drain, CONTROL, DRAIN_TIMEOUT), Note(Plain(ClosedDown, f.channel))];
    Three(c, ss[0], ss[1], ss[2]);
  }

  lemma FrameSteps(host: Host, c: Conn, f: F.Frame) returns (ss: seq<Step>)
    requires Sane(c) && |f.payload| < U64_SPAN
    ensures Tells(host, c, ss, HandleFrame(host, c, f).0, 1)
  {
    hide Explains, Tells, HandleHello, HandleOpen, HandleData, HandleAck, HandleCredit, HandlePing, HandlePong, HandleResume,
         HandleHalfClose, HandleReset, HandleGoAway;
    var next := HandleFrame(host, c, f).0;
    if f.kind == F.Data {
      ss := DataSteps(host, c, f);
      LooserTold(host, c, ss, next, 0, 1);
    } else {
      match f.kind {
        case Hello => ss := HelloSteps(host, c, f);
        case Open => ss := OpenSteps(c, f);
        case Ack => ss := AckSteps(c, f);
        case Credit =>
          CreditRefused(c, f);
          ss := Same(c);
        case Ping => ss := PingSteps(c, f);
        case Pong => ss := PongSteps(c, f);
        case Resume => ss := ResumeSteps(c, f);
        case HalfClose => ss := PeerHalfCloseSteps(c, f);
        case Reset => ss := PeerResetSteps(c, f.channel);
        case GoAway => ss := PeerGoAwaySteps(c, f);
      }
      if f.kind != F.Ping {
        Looser(c, ss, next, 0, 1);
      }
      Told(host, c, ss, next, 1);
    }
  }

  lemma OnDelivery(c: Conn, i: nat, channel: ChannelId, family: u32, payload: Bytes, fate: Fate)
    requires Live(c, channel) == Some(i)
    ensures Apply(c, Delivery(channel, family, payload, fate))
         == Fated(Delivered(c, i, channel, family, payload), channel, c.channels.value.slots[i].nextRecv, fate)
  {
    hide Fated, Delivered, C.Find;
  }

  lemma FailedSteps(c: Conn, e: Error, closing: bool) returns (ss: seq<Step>)
    ensures Explains(c, ss, Diagnosed(c, e).(state := if closing then Closed else c.state), 0)
  {
    hide Run, Posts, Apply;
    var note := Note(Event(Diagnostic, CONTROL, 0, [], Some(e)));
    ss := [note];
    One(c, note);
    OnNote(c, note.e);
    OnTurn(Diagnosed(c, e), Closed);
    if closing {
      ss := [note, Turn(Closed)];
      Two(c, note, Turn(Closed));
    }
  }

  lemma {:induction false} EventsSteps(host: Host, c: Conn, events: seq<F.DecodeEvent>, out: seq<Bytes>) returns (ss: seq<Step>)
    requires Sane(c) && forall e <- events :: e.Decoded? ==> |e.frame.payload| < U64_SPAN
    ensures Tells(host, c, ss, HandleEvents(host, c, events, out).0, |events|)
    decreases |events|
  {
    hide Explains, Tells, HandleFrame, Sane, Diagnosed;
    if events == [] {
      ss := Same(c);
      Told(host, c, ss, c, 0);
    } else {
      assert events[0] in events;
      var last := HandleEvents(host, c, events, out).0;
      match events[0] {
        case NeedMore =>
          ss := EventsSteps(host, c, events[1..], out);
          LooserTold(host, c, ss, last, |events| - 1, |events|);
        case Failed(e) =>
          ss := FailedSteps(c, e, true);
          Told(host, c, ss, last, 0);
          LooserTold(host, c, ss, last, 0, |events|);
        case Decoded(f) =>
          var first := FrameSteps(host, c, f);
          var (next, produced) := HandleFrame(host, c, f);
          if produced.Err? {
            var rest := FailedSteps(next, produced.error, produced.error.action == CloseConnection);
            Told(host, next, rest, last, 0);
            JoinedTold(host, c, first, next, 1, rest, last, 0);
            ss := first + rest;
            LooserTold(host, c, ss, last, 1, |events|);
          } else {
            ToldSane(host, c, first, next, 1);
            var rest := EventsSteps(host, next, events[1..], out + produced.value);
            JoinedTold(host, c, first, next, 1, rest, last, |events| - 1);
            ss := first + rest;
          }
      }
    }
  }

  lemma ToldSane(host: Host, c: Conn, ss: seq<Step>, next: Conn, n: nat)
    requires Sane(c) && Tells(host, c, ss, next, n)
    ensures Sane(next)
  {
    hide Run, Posts, Honest;
    RunSane(c, ss);
  }

  lemma {:induction false} FewEvents(limits: F.FrameLimits, buffer: Bytes, eof: bool, events: seq<F.DecodeEvent>)
    ensures |F.Drain(limits, buffer, eof, events).0| <= |events| + |buffer| + 1
    decreases |buffer|
  {
    hide F.DecodeStep;
    match F.DecodeStep(limits, buffer, eof) {
      case More =>
      case Bad(_) =>
      case Got(f, n) =>
        if n < |buffer| { FewEvents(limits, buffer[n..], eof, events + [F.Decoded(f)]); }
    }
  }

  lemma ReceiveSteps(host: Host, c: Conn, bytes: Bytes, eof: bool) returns (ss: seq<Step>)
    requires Sane(c)
    ensures Tells(host, c, ss, ReceiveSpec(host, c, bytes, eof).0, |c.buffer| + |bytes| + 1)
  {
    hide Explains, Tells, HandleEvents, F.Drain;
    var whole := c.buffer + bytes;
    var (events, rest) := F.Drain(Limits(c.policy), whole, eof, []);
    DecodedSmall(Limits(c.policy), whole, eof, []);
    FewEvents(Limits(c.policy), whole, eof, []);
    var first := Misc(c.timers, rest, c.nextToken, c.now, c.pendingPong);
    var c1 := c.(buffer := rest);
    Single(c, first);
    Told(host, c, [first], c1, 0);
    var more := EventsSteps(host, c1, events, []);
    JoinedTold(host, c, [first], c1, 0, more, ReceiveSpec(host, c, bytes, eof).0, |events|);
    ss := [first] + more;
    LooserTold(host, c, ss, ReceiveSpec(host, c, bytes, eof).0, |events|, |c.buffer| + |bytes| + 1);
  }

  // ---------------------------------------------------------------- time as steps

  lemma FireSteps(c: Conn, t: T.Timer) returns (ss: seq<Step>)
    ensures Explains(c, ss, Fire(c, t).0, 1)
  {
    hide Run, Posts, P.RetrySpec, Explains, HandleReset, PingSpec, Fire, Apply;
    var note := Note(Plain(TimerExpired, t.channel));
    var c1 := Noted(c, Plain(TimerExpired, t.channel));
    Single(c, note);
    OnNote(c, note.e);
    var rest := Kindled(c, c1, t);
    Joined(c, [note], c1, 0, rest, Fire(c, t).0, 1);
    ss := [note] + rest;
  }

  lemma OnRetry(c: Conn)
    ensures Apply(c, Step.Retry) == c.(replay := P.RetrySpec(c.replay, RETRY_LIMIT).0)
  {
    hide P.RetrySpec;
  }

  /** What a timer does after its event has been noted. */
  lemma Kindled(c: Conn, c1: Conn, t: T.Timer) returns (ss: seq<Step>)
    requires c1 == Noted(c, Plain(TimerExpired, t.channel))
    ensures Explains(c1, ss, Fire(c, t).0, 1)
  {
    hide Run, Posts, P.RetrySpec, HandleReset, PingSpec, Apply;
    ss := Same(c1);
    if c.state != Closed {
      match t.kind {
        case Handshake =>
          if c.state == Negotiating { ss := FailedSteps(c1, ConnectionError(Timeout), true); }
        case Retry =>
          ss := [Step.Retry];
          One(c1, Step.Retry);
          OnRetry(c1);
        case Idle =>
          ss := IdleSteps(c, c1);
        case PongDeadline =>
          if c.pendingPong.Some? {
            var first := FailedSteps(c1, ConnectionError(Timeout), true);
            var mid := Diagnosed(c1, ConnectionError(Timeout)).(state := Closed);
            Single(mid, Note(Plain(ClosedDown, CONTROL)));
            OnNote(mid, Plain(ClosedDown, CONTROL));
            Joined(c1, first, mid, 0, [Note(Plain(ClosedDown, CONTROL))], Fire(c, t).0, 0);
            ss := first + [Note(Plain(ClosedDown, CONTROL))];
          }
        case Drain =>
          if c.state == Draining {
            ss := [Turn(Closed), Note(Plain(ClosedDown, CONTROL))];
            Two(c1, ss[0], ss[1]);
            OnTurn(c1, Closed);
            OnNote(c1.(state := Closed), Plain(ClosedDown, CONTROL));
          }
        case FragmentGap =>
          if c.channels.Some? { ss := PeerResetSteps(c1, t.channel); }
      }
    }
  }

  /** The idle timer: a ping, and two more timers if it went out. */
  lemma IdleSteps(c: Conn, c1: Conn) returns (ss: seq<Step>)
    ensures var token := if c.now == 0 then 1 else c.now;
            var (c2, ping) := PingSpec(c1.(pendingPong := Some(token)), token);
            Explains(c1, ss,
                     if ping.Err? then c2
                     else Scheduled(Scheduled(c2, T.PongDeadline, CONTROL, PONG_TIMEOUT), T.Idle, CONTROL, IDLE_PING), 1)
  {
    hide Run, Posts, PostSpec, Scheduled, Apply;
    var token := if c.now == 0 then 1 else c.now;
    var pend := Misc(c1.timers, c1.buffer, c1.nextToken, c1.now, Some(token));
    var post := Post(F.Ping, CONTROL, U64Bytes(token), []);
    var mid := c1.(pendingPong := Some(token));
    OnMisc(c1, c1.timers, c1.buffer, c1.nextToken, c1.now, Some(token));
    OnPost(mid, F.Ping, CONTROL, U64Bytes(token), []);
    var (c2, ping) := PingSpec(mid, token);
    if ping.Err? {
      ss := [pend, post];
      Two(c1, pend, post);
    } else {
      var last := Scheduled(Scheduled(c2, T.PongDeadline, CONTROL, PONG_TIMEOUT), T.Idle, CONTROL, IDLE_PING);
      TimedOnly(c2);
      var timers := Misc(last.timers, c2.buffer, c2.nextToken, c2.now, c2.pendingPong);
      OnMisc(c2, last.timers, c2.buffer, c2.nextToken, c2.now, c2.pendingPong);
      ss := [pend, post, timers];
      Three(c1, pend, post, timers);
    }
  }

  lemma TimedOnly(c: Conn)
    ensures var last := Scheduled(Scheduled(c, T.PongDeadline, CONTROL, PONG_TIMEOUT), T.Idle, CONTROL, IDLE_PING);
            last == c.(timers := last.timers)
  {
  }

  lemma {:induction false} FireAllSteps(c: Conn, timers: seq<T.Timer>, out: seq<Bytes>) returns (ss: seq<Step>)
    ensures Explains(c, ss, FireAll(c, timers, out).0, |timers|)
    decreases |timers|
  {
    hide Explains, Fire;
    if timers == [] {
      ss := Same(c);
    } else {
      var (next, r) := Fire(c, timers[0]);
      ss := FireSteps(c, timers[0]);
      if r.Err? {
        Looser(c, ss, next, 1, |timers|);
      } else {
        var rest := FireAllSteps(next, timers[1..], out + r.value);
        Joined(c, ss, next, 1, rest, FireAll(c, timers, out).0, |timers| - 1);
        ss := ss + rest;
      }
    }
  }

  lemma AdvanceTimeSteps(c: Conn, now: u64) returns (ss: seq<Step>)
    ensures Explains(c, ss, AdvanceTimeSpec(c, now).0, |c.timers.timers|)
  {
    hide Explains, FireAll;
    var (timers, expired) := T.ExpireSpec(c.timers, now);
    var first := Misc(timers, c.buffer, c.nextToken, now, c.pendingPong);
    var c1 := c.(now := now, timers := timers);
    Single(c, first);
    var rest := FireAllSteps(c1, expired, []);
    Joined(c, [first], c1, 0, rest, AdvanceTimeSpec(c, now).0, |expired|);
    ss := [first] + rest;
    Looser(c, ss, AdvanceTimeSpec(c, now).0, |expired|, |c.timers.timers|);
  }

  // ---------------------------------------------------------------- every call as steps

  /** A bound on the frames one call numbers. */
  function Cost(c: Conn, call: Call): nat {
    match call
    case Send(_, payload) => |payload|
    case Receive(bytes, _) => |c.buffer| + |bytes| + 1
    case AdvanceTime(_) => |c.timers.timers|
    case _ => 1
  }

  lemma RunJobSteps(host: Host, c: Conn, k: nat) returns (ss: seq<Step>)
    ensures Tells(host, c, ss, RunJobSpec(host, c, k).0, 0)
  {
    hide Run, Posts, AnswerSpec, Honest;
    ss := Same(c);
    Told(host, c, ss, c, 0);
    if k < |c.jobs| {
      var c1 := c.(jobs := Without(c.jobs, k));
      var reply := AnswerSteps(host, c1, c.jobs[k]);
      ss := [Step.Answer(k, reply)];
      One(c, ss[0]);
      HonestOne(host, c, ss[0]);
    }
  }

  lemma HonestOne(host: Host, c: Conn, s: Step)
    requires HonestStep(host, c, s)
    ensures Honest(host, c, [s])
  {
    hide Apply;
    assert [s][1..] == [];
    assert Honest(host, Apply(c, s), []);
  }

  lemma OwnHalfCloseSteps(c: Conn, id: ChannelId, direction: C.Direction) returns (ss: seq<Step>)
    ensures Explains(c, ss, HalfCloseSpec(c, id, direction).0, 1)
  {
    hide Run, Posts, C.HalfCloseSpec, PostNoted, Explains, Apply;
    ss := Same(c);
    if c.channels.Some? && C.HalfCloseSpec(c.channels.value, id, direction).1.Ok? {
      var c1 := c.(channels := Some(C.HalfCloseSpec(c.channels.value, id, direction).0));
      var first := [Table(C.TableOp.HalfClose(id, direction))];
      Single(c, first[0]);
      OnTable(c, first[0].op);
      var rest := NotedSteps(c1, F.HalfClose, id, [if direction == C.LocalSend then 0 else 1], Plain(HalfClosed, id));
      Joined(c, first, c1, 0, rest, HalfCloseSpec(c, id, direction).0, 1);
      ss := first + rest;
    } else {
      Looser(c, ss, c, 0, 1);
    }
  }

  lemma OwnResetSteps(c: Conn, id: ChannelId) returns (ss: seq<Step>)
    ensures Explains(c, ss, ResetSpec(c, id).0, 1)
  {
    hide Run, Posts, C.ResetChannelSpec, PostNoted, Explains, Apply;
    ss := Same(c);
    if c.channels.Some? && C.ResetChannelSpec(c.channels.value, id).1.Ok? {
      var c1 := c.(channels := Some(C.ResetChannelSpec(c.channels.value, id).0));
      var first := [Table(C.TableOp.Reset(id))];
      Single(c, first[0]);
      OnTable(c, first[0].op);
      var rest := NotedSteps(c1, F.Reset, id, [], Plain(ChannelReset, id));
      Joined(c, first, c1, 0, rest, ResetSpec(c, id).0, 1);
      ss := first + rest;
    } else {
      Looser(c, ss, c, 0, 1);
    }
  }

  lemma OwnGoAwaySteps(c: Conn) returns (ss: seq<Step>)
    ensures Explains(c, ss, GoAwaySpec(c).0, 1)
  {
    hide Run, Posts, Apply, Scheduled, Timed, PostSpec;
    var c1 := c.(state := Draining);
    OnTurn(c, Draining);
    OnTimed(c1, T.Drain, CONTROL, DRAIN_TIMEOUT);
    OnPost(Scheduled(c1, T.Drain, CONTROL, DRAIN_TIMEOUT), F.GoAway, CONTROL, [], []);
    TimedOrdinary(c1, T.Drain, CONTROL, DRAIN_TIMEOUT);
    ss := [Turn(Draining), Timed(c1, T.Drain, CONTROL, DRAIN_TIMEOUT), Post(F.GoAway, CONTROL, [], [])];
    Three(c, ss[0], ss[1], ss[2]);
  }

  lemma AcknowledgeSteps(c: Conn, ranges: seq<P.AckRange>) returns (ss: seq<Step>)
    ensures Explains(c, ss, AcknowledgeSpec(c, ranges).0, 1)
  {
    hide Run, Posts, PostSpec, P.EncodeAckSpec;
    ss := Same(c);
    if P.EncodeAckSpec(1, ranges).Ok? {
      PostedSteps(c, F.Ack, CONTROL, P.EncodeAckSpec(1, ranges).value, []);
      ss := [Post(F.Ack, CONTROL, P.EncodeAckSpec(1, ranges).value, [])];
    }
  }

  /** `Ordinary` holds of every call but two. */
  predicate Plainly(call: Call) { !call.Load? && !call.Complete? }

  lemma CallSteps(host: Host, c: Conn, call: Call) returns (ss: seq<Step>)
    requires Sane(c) && Sizable(call) && Plainly(call)
    ensures Tells(host, c, ss, Next(host, c, call), Cost(c, call))
  {
    hide Explains, Tells, ReceiveSpec, RunJobSpec, Sane, Next;
    if call.Receive? {
      ss := ReceiveSteps(host, c, call.bytes, call.eof);
      NextReceive(host, c, call);
    } else if call.RunJob? {
      ss := RunJobSteps(host, c, call.k);
      NextRunJob(host, c, call);
      LooserTold(host, c, ss, Next(host, c, call), 0, 1);
    } else {
      ss := MuteSteps(host, c, call);
      Told(host, c, ss, Next(host, c, call), Cost(c, call));
    }
  }

  lemma NextReceive(host: Host, c: Conn, call: Call)
    requires call.Receive?
    ensures Next(host, c, call) == ReceiveSpec(host, c, call.bytes, call.eof).0
  {
    hide ReceiveSpec;
  }

  lemma NextRunJob(host: Host, c: Conn, call: Call)
    requires call.RunJob?
    ensures Next(host, c, call) == RunJobSpec(host, c, call.k).0
  {
    hide RunJobSpec;
  }

  lemma MuteSteps(host: Host, c: Conn, call: Call) returns (ss: seq<Step>)
    requires Sane(c) && Sizable(call) && Plainly(call) && !call.Receive? && !call.RunJob?
    ensures Explains(c, ss, Next(host, c, call), Cost(c, call))
  {
    hide Explains, StartSpec, OpenChannelSpec, SendSpec, AcknowledgeSpec, AdvanceTimeSpec,
         FlushSpec, HalfCloseSpec, ResetSpec, GoAwaySpec, PostSpec, Sane;
    match call {
      case Start => ss := StartSteps(host, c);
      case OpenChannel(family, window) => ss := OpenChannelSteps(c, family, window);
      case Send(id, payload) => ss := SendSteps(c, id, payload);
      case GrantCredit(id, amount) =>
        PostedSteps(c, F.Credit, id, U32Bytes(amount % U32_SPAN), []);
        ss := [Post(F.Credit, id, U32Bytes(amount % U32_SPAN), [])];
      case Acknowledge(ranges) => ss := AcknowledgeSteps(c, ranges);
      case Ping(token) =>
        PostedSteps(c, F.Ping, CONTROL, U64Bytes(token), []);
        ss := [Post(F.Ping, CONTROL, U64Bytes(token), [])];
      case Resume(request) =>
        PostedSteps(c, F.Resume, CONTROL, ResumePayload(request), []);
        ss := [Post(F.Resume, CONTROL, ResumePayload(request), [])];
      case AdvanceTime(now) => ss := AdvanceTimeSteps(c, now);
      case Flush(writable) =>
        ss := [Write(writable)];
        Single(c, ss[0]);
        Looser(c, ss, FlushSpec(c, writable).0, 0, 1);
      case HalfClose(id, direction) => ss := OwnHalfCloseSteps(c, id, direction);
      case Reset(id) => ss := OwnResetSteps(c, id);
      case GoAway => ss := OwnGoAwaySteps(c);
    }
  }

  /** The two calls left over. */
  lemma LoadStep(host: Host, c: Conn, text: string)
    ensures Next(host, c, Load(text))
         == if PT.RestoreSpec(text).Ok? then (Capacious(text); Apply(c, Adopt(PT.RestoreSpec(text).value))) else c
  {
    hide PT.RestoreSpec, Adopted;
    if PT.RestoreSpec(text).Ok? { Capacious(text); }
  }

  lemma CompleteStep(host: Host, c: Conn, token: u64, channel: ChannelId, sequence: u32, family: u32, response: Bytes)
    ensures Next(host, c, Complete(token, channel, sequence, family, response))
         == if token == 0 || family == 0 then c else Apply(c, Foreign(channel, sequence, response))
  {
    hide C.Find;
  }
}
