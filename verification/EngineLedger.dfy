/** Which messages a channel delivers, which responses follow them, and what stays silent after a reset. */
module EngineLedger {
  import opened Types
  import opened EngineModel
  import opened EngineSteps
  import opened EngineRuns
  import C = Channels
  import F = FrameCodec
  import H = Hellos
  import P = Replay
  import R = Reassembling
  import X = Extensions

  /** The numbers of the events of one kind on channel `id`, in order. */
  function Numbers(events: seq<Event>, kind: EventKind, id: ChannelId): seq<u32> {
    if events == [] then []
    else
      var last := events[|events| - 1];
      Numbers(events[..|events| - 1], kind, id) + if last.kind == kind && last.channel == id then [last.sequence] else []
  }

  function Deliveries(events: seq<Event>, id: ChannelId): seq<u32> { Numbers(events, MessageDelivered, id) }
  function Responses(events: seq<Event>, id: ChannelId): seq<u32> { Numbers(events, PluginResponse, id) }

  /** The numbers of the messages of channel `id` that wait for their plugin. */
  function Waiting(jobs: seq<Job>, id: ChannelId): multiset<u32> {
    if jobs == [] then multiset{}
    else
      var m := jobs[|jobs| - 1].message;
      Waiting(jobs[..|jobs| - 1], id) + if m.channel == id then multiset{m.sequence} else multiset{}
  }

  lemma NumbersSnoc(events: seq<Event>, e: Event, kind: EventKind, id: ChannelId)
    ensures Numbers(events + [e], kind, id)
         == Numbers(events, kind, id) + if e.kind == kind && e.channel == id then [e.sequence] else []
  {
    assert (events + [e])[..|events|] == events;
  }

  lemma WaitingSnoc(jobs: seq<Job>, job: Job, id: ChannelId)
    ensures Waiting(jobs + [job], id)
         == Waiting(jobs, id) + if job.message.channel == id then multiset{job.message.sequence} else multiset{}
  {
    assert (jobs + [job])[..|jobs|] == jobs;
  }

  lemma {:induction false} WaitingWithout(jobs: seq<Job>, k: nat, id: ChannelId)
    requires k < |jobs|
    ensures Waiting(jobs, id)
         == Waiting(Without(jobs, k), id) + if jobs[k].message.channel == id then multiset{jobs[k].message.sequence} else multiset{}
    decreases |jobs|
  {
    var n := |jobs| - 1;
    WithoutLast(jobs, k);
    if k < n {
      hide Without;
      WaitingWithout(jobs[..n], k, id);
      WaitingSnoc(Without(jobs[..n], k), jobs[n], id);
    }
  }

  lemma WithoutLast(jobs: seq<Job>, k: nat)
    requires k < |jobs|
    ensures var n := |jobs| - 1;
            Without(jobs, k) == if k == n then jobs[..n] else Without(jobs[..n], k) + [jobs[n]]
  {
  }

  /** 1, 2, 3, ... as 32-bit numbers. */
  function Counting(n: nat): (s: seq<u32>)
    ensures |s| == n
  {
    seq(n, i => (i + 1) % U32_SPAN)
  }

  lemma CountingNext(n: nat)
    ensures Counting(n) + [(n + 1) % U32_SPAN] == Counting(n + 1)
  {
  }

  /** At every moment so far, each response had its own earlier delivery. */
  ghost predicate Follows(events: seq<Event>, id: ChannelId) {
    forall n :: 0 <= n <= |events| ==>
      multiset(Responses(events[..n], id)) <= multiset(Deliveries(events[..n], id))
  }

  lemma FollowsSnoc(events: seq<Event>, e: Event, id: ChannelId)
    requires Follows(events, id)
    requires multiset(Responses(events + [e], id)) <= multiset(Deliveries(events + [e], id))
    ensures Follows(events + [e], id)
  {
    var all := events + [e];
    forall n | 0 <= n <= |all|
      ensures multiset(Responses(all[..n], id)) <= multiset(Deliveries(all[..n], id))
    {
      if n <= |events| {
        assert all[..n] == events[..n];
      } else {
        assert all[..n] == all;
      }
    }
  }

  /** `id` names the lifetime its slot is in, or has been in last. */
  predicate Current(c: Conn, id: ChannelId) {
    && c.channels.Some? && C.InRange(c.channels.value, id)
    && c.channels.value.slots[id.number - 1].id == id
    && c.channels.value.slots[id.number - 1].state != C.Free
  }

  function NextRecv(c: Conn, id: ChannelId): u32
    requires Current(c, id)
  {
    c.channels.value.slots[id.number - 1].nextRecv
  }

  /** Responses given, responses still due and `extra` find distinct deliveries. */
  ghost predicate Owed(r: seq<u32>, due: multiset<u32>, extra: multiset<u32>, d: seq<u32>) {
    multiset(r) + due + extra <= multiset(d)
  }

  lemma OwedDelivery(r: seq<u32>, due: multiset<u32>, d: seq<u32>, n: u32)
    requires Owed(r, due, multiset{}, d)
    ensures Owed(r, due, multiset{n}, d + [n]) && Owed(r, due, multiset{}, d + [n])
    ensures multiset(r) <= multiset(d + [n])
  {
  }

  lemma OwedResponse(r: seq<u32>, due: multiset<u32>, d: seq<u32>, n: u32)
    requires Owed(r, due, multiset{n}, d)
    ensures Owed(r + [n], due, multiset{}, d) && Owed(r, due + multiset{n}, multiset{}, d)
    ensures multiset(r + [n]) <= multiset(d)
  {
  }

  lemma OwedBase(r: seq<u32>, due: multiset<u32>, d: seq<u32>)
    requires Owed(r, due, multiset{}, d)
    ensures multiset(r) <= multiset(d) && multiset(r) + due <= multiset(d)
  {
    assert multiset(r) + due + multiset{} == multiset(r) + due;
  }

  lemma OwedLess(r: seq<u32>, due: multiset<u32>, d: seq<u32>, n: u32)
    requires Owed(r, due + multiset{n}, multiset{}, d)
    ensures Owed(r, due, multiset{n}, d) && Owed(r, due, multiset{}, d)
  {
  }

  /** The account of one channel id. */
  ghost predicate Ledger(c: Conn, id: ChannelId) {
    var d := Deliveries(c.events, id);
    && d == Counting(|d|)
    && (if Current(c, id) then NextRecv(c, id) == (|d| + 1) % U32_SPAN else d == [])
    && Owed(Responses(c.events, id), Waiting(c.jobs, id), multiset{}, d)
    && Follows(c.events, id)
  }

  /** The ledger reads the events, the jobs, and what the table says of `id`. */
  lemma SameLedger(c: Conn, next: Conn, id: ChannelId)
    requires Ledger(c, id)
    requires next.events == c.events && next.jobs == c.jobs
    requires Current(next, id) <==> Current(c, id)
    requires Current(c, id) ==> NextRecv(next, id) == NextRecv(c, id)
    ensures Ledger(next, id)
  {
  }

  /** One slot under a table operation: its lifetime goes on with its counter, or a new one starts at 1. */
  lemma SlotCounter(t: C.Table, op: C.TableOp, i: nat)
    requires SaneTable(t) && i < |t.slots| && !op.Update? && !op.Retire?
    ensures i < |C.TableApply(t, op).slots|
    ensures var a, b := t.slots[i], C.TableApply(t, op).slots[i];
            if a.state != C.Free then b.id == a.id && b.nextRecv == a.nextRecv && b.state != C.Free
            else b.state != C.Free ==> b.nextRecv == 1
  {
    hide C.NewFragments;
    assert SaneSlot(t, i);
  }

  /** A table operation leaves a lifetime's counter alone, or starts a lifetime whose counter is 1. */
  lemma TableCounter(c: Conn, op: C.TableOp, id: ChannelId)
    requires Sane(c) && c.channels.Some? && !op.Update? && !op.Retire?
    ensures var next := c.(channels := Some(C.TableApply(c.channels.value, op)));
            && (Current(c, id) ==> Current(next, id) && NextRecv(next, id) == NextRecv(c, id))
            && (!Current(c, id) && Current(next, id) ==> NextRecv(next, id) == 1)
  {
    hide SaneTable, C.TableApply;
    var t := c.channels.value;
    TableShape(t, op);
    if C.InRange(t, id) {
      SlotCounter(t, op, id.number - 1);
    }
  }

  lemma TableLedger(c: Conn, op: C.TableOp, id: ChannelId)
    requires Sane(c) && Ledger(c, id) && c.channels.Some? && !op.Update? && !op.Retire?
    ensures Ledger(c.(channels := Some(C.TableApply(c.channels.value, op))), id)
  {
    hide Sane, C.TableApply, Current, NextRecv, Follows, Deliveries, Responses, Waiting;
    TableCounter(c, op, id);
  }

  /** An event that is no delivery and no response. */
  lemma NoteLedger(c: Conn, e: Event, id: ChannelId)
    requires Ledger(c, id) && e.kind != MessageDelivered && e.kind != PluginResponse
    ensures Ledger(Noted(c, e), id)
  {
    hide Numbers, Follows, Owed;
    OtherEvent(c, e, id);
    OwedBase(Responses(c.events, id), Waiting(c.jobs, id), Deliveries(c.events, id));
    FollowsSnoc(c.events, e, id);
  }

  /** A live id is the current one of its slot. */
  lemma LiveCurrent(c: Conn, id: ChannelId)
    requires Sane(c) && Live(c, id).Some?
    ensures Current(c, id) && Live(c, id).value == id.number - 1
  {
    assert SaneSlot(c.channels.value, id.number - 1);
  }

  lemma Successor(n: nat)
    ensures ((n + 1) % U32_SPAN + 1) % U32_SPAN == (n + 2) % U32_SPAN
  {
  }

  lemma DeliveredShape(c: Conn, channel: ChannelId, family: u32, payload: Bytes)
    requires Sane(c) && Live(c, channel).Some?
    ensures Current(c, channel)
    ensures var next := Delivered(c, Live(c, channel).value, channel, family, payload);
            && next.events == c.events + [Event(MessageDelivered, channel, NextRecv(c, channel), payload, None)]
            && next.jobs == c.jobs
            && Current(next, channel) && NextRecv(next, channel) == (NextRecv(c, channel) + 1) % U32_SPAN
  {
    LiveCurrent(c, channel);
  }

  /** The delivery itself: the next number, and no response yet. */
  lemma DeliveredLedger(c: Conn, channel: ChannelId, family: u32, payload: Bytes, id: ChannelId)
    requires Sane(c) && Ledger(c, id) && Live(c, channel).Some?
    ensures Current(c, channel)
    ensures var next := Delivered(c, Live(c, channel).value, channel, family, payload);
            && Ledger(next, id)
            && (channel == id ==>
                  Owed(Responses(next.events, id), Waiting(next.jobs, id), multiset{NextRecv(c, channel)}, Deliveries(next.events, id)))
  {
    hide Numbers, Follows, Waiting, Counting, Delivered, Sane, Current, NextRecv, Live, Owed;
    DeliveredShape(c, channel, family, payload);
    var next := Delivered(c, Live(c, channel).value, channel, family, payload);
    var e := Event(MessageDelivered, channel, NextRecv(c, channel), payload, None);
    NumbersSnoc(c.events, e, MessageDelivered, id);
    NumbersSnoc(c.events, e, PluginResponse, id);
    var d, r := Numbers(c.events, MessageDelivered, id), Numbers(c.events, PluginResponse, id);
    assert r + [] == r && d + [] == d;
    OwedBase(r, Waiting(c.jobs, id), d);
    if channel == id {
      CountingNext(|d|);
      Successor(|d|);
      OwedDelivery(r, Waiting(c.jobs, id), d, NextRecv(c, channel));
    } else {
      OtherCounter(c, Live(c, channel).value, channel, family, payload, id);
    }
    FollowsSnoc(c.events, e, id);
  }

  lemma OtherCounter(c: Conn, i: nat, channel: ChannelId, family: u32, payload: Bytes, id: ChannelId)
    requires Sane(c) && Live(c, channel) == Some(i) && channel != id
    ensures var next := Delivered(c, i, channel, family, payload);
            && (Current(next, id) <==> Current(c, id))
            && (Current(c, id) ==> NextRecv(next, id) == NextRecv(c, id))
  {
    LiveCurrent(c, channel);
    if C.InRange(c.channels.value, id) {
      assert SaneSlot(c.channels.value, id.number - 1);
    }
  }

  /** A response takes the place of a delivery that waits for one. */
  lemma ResponseLedger(c: Conn, channel: ChannelId, sequence: u32, response: Bytes, id: ChannelId)
    requires Ledger(c, id)
    requires channel == id ==>
               Owed(Responses(c.events, id), Waiting(c.jobs, id), multiset{sequence}, Deliveries(c.events, id))
    ensures Ledger(Noted(c, Response(channel, sequence, response)), id)
  {
    hide Numbers, Follows, Waiting, Counting, Owed;
    var e := Response(channel, sequence, response);
    NumbersSnoc(c.events, e, MessageDelivered, id);
    NumbersSnoc(c.events, e, PluginResponse, id);
    var d, r := Numbers(c.events, MessageDelivered, id), Numbers(c.events, PluginResponse, id);
    assert r + [] == r && d + [] == d;
    if channel == id {
      OwedResponse(r, Waiting(c.jobs, id), d, sequence);
    } else {
      OwedBase(r, Waiting(c.jobs, id), d);
    }
    FollowsSnoc(c.events, e, id);
  }

  lemma QueuedLedger(c: Conn, job: Job, id: ChannelId)
    requires Ledger(c, id)
    requires job.message.channel == id ==>
               Owed(Responses(c.events, id), Waiting(c.jobs, id), multiset{job.message.sequence}, Deliveries(c.events, id))
    ensures Ledger(c.(jobs := c.jobs + [job]), id)
  {
    hide Numbers, Follows, Waiting, Counting, Owed;
    WaitingSnoc(c.jobs, job, id);
    var w := Waiting(c.jobs, id);
    assert w + multiset{} == w;
    if job.message.channel == id {
      OwedResponse(Responses(c.events, id), w, Deliveries(c.events, id), job.message.sequence);
    }
  }

  lemma DeliveryLedger(c: Conn, channel: ChannelId, family: u32, payload: Bytes, fate: Fate, id: ChannelId)
    requires Sane(c) && Ledger(c, id) && Live(c, channel).Some?
    ensures Ledger(Apply(c, Delivery(channel, family, payload, fate)), id)
  {
    hide Ledger, Sane, Delivered, Apply, Live, Numbers, Waiting;
    var i := Live(c, channel).value;
    DeliveredLedger(c, channel, family, payload, id);
    LiveCurrent(c, channel);
    OnDelivery(c, i, channel, family, payload, fate);
    FatedLedger(Delivered(c, i, channel, family, payload), channel, NextRecv(c, channel), fate, id);
  }

  lemma FatedLedger(c: Conn, channel: ChannelId, sequence: u32, fate: Fate, id: ChannelId)
    requires Ledger(c, id)
    requires channel == id ==>
               Owed(Responses(c.events, id), Waiting(c.jobs, id), multiset{sequence}, Deliveries(c.events, id))
    ensures Ledger(Fated(c, channel, sequence, fate), id)
  {
    hide Ledger, Numbers, Waiting, Owed;
    match fate {
      case Lost =>
      case Queued(job) =>
        if job.message.channel == channel && job.message.sequence == sequence {
          QueuedLedger(c, job, id);
        }
      case Answered(response) =>
        ResponseLedger(c, channel, sequence, response, id);
    }
  }

  lemma AnswerLedger(c: Conn, k: nat, reply: Option<Bytes>, id: ChannelId)
    requires Ledger(c, id) && k < |c.jobs|
    ensures Ledger(Apply(c, Answer(k, reply)), id)
  {
    hide Numbers, Follows, Waiting, Counting, Owed;
    var m := c.jobs[k].message;
    var mid := c.(jobs := Without(c.jobs, k));
    WaitingWithout(c.jobs, k, id);
    var w := Waiting(mid.jobs, id);
    assert w + multiset{} == w;
    if m.channel == id {
      OwedLess(Responses(c.events, id), w, Deliveries(c.events, id), m.sequence);
    }
    assert Ledger(mid, id);
    if reply.Some? && Live(c, m.channel).Some? {
      ResponseLedger(mid, m.channel, m.sequence, reply.value, id);
    }
  }

  lemma StepLedger(c: Conn, s: Step, id: ChannelId)
    requires Sane(c) && Phased(c) && Ledger(c, id) && !s.Foreign?
    ensures Ledger(Apply(c, s), id)
  {
    hide Ledger, Sane, PostSpec, FlushSpec, Absorb, C.TableApply, C.NewTable, P.AcknowledgeSpec, P.RetrySpec, Adopted,
         Delivered, Fated;
    match s {
      case Post(kind, channel, payload, extensions) =>
        PostFrame(c, kind, channel, payload, extensions);
        SameLedger(c, Apply(c, s), id);
      case Write(writable) =>
        WriteFrame(c, writable);
        SameLedger(c, Apply(c, s), id);
      case Adopt(w) =>
        AdoptFrame(c, w);
        SameLedger(c, Apply(c, s), id);
      case Table(op) =>
        if c.channels.Some? && !op.Update? && !op.Retire? { TableLedger(c, op, id); }
      case Fragment(channel, sequence, offset, total, bytes) =>
        if Live(c, channel).Some? && |bytes| < U64_SPAN {
          AbsorbShape(c.channels.value, Live(c, channel).value, channel, sequence, offset, total, bytes);
          SameLedger(c, Apply(c, s), id);
        }
      case Delivery(channel, family, payload, fate) =>
        if Live(c, channel).Some? { DeliveryLedger(c, channel, family, payload, fate, id); }
      case Answer(k, reply) =>
        if k < |c.jobs| { AnswerLedger(c, k, reply, id); }
      case Note(e) =>
        if e.kind != MessageDelivered && e.kind != PluginResponse { NoteLedger(c, e, id); }
      case Agree(caps) =>
        if c.state == Negotiating && LegalCaps(caps) && Within(caps, c.policy) { AgreeLedger(c, caps, id); }
      case _ =>
        SameLedger(c, Apply(c, s), id);
    }
  }

  lemma AgreeLedger(c: Conn, caps: H.Capabilities, id: ChannelId)
    requires Phased(c) && Ledger(c, id) && c.state == Negotiating && LegalCaps(caps) && Within(caps, c.policy)
    ensures Ledger(Apply(c, Agree(caps)), id)
  {
    hide Follows, Numbers, Waiting;
    var next := Apply(c, Agree(caps));
    assert !Current(next, id);
  }

  lemma {:induction false} RunLedger(c: Conn, ss: seq<Step>, id: ChannelId)
    requires Sane(c) && Phased(c) && Ledger(c, id) && forall i :: 0 <= i < |ss| ==> !ss[i].Foreign?
    ensures Ledger(Run(c, ss), id)
    decreases |ss|
  {
    hide Sane, Phased, Ledger, Apply;
    if ss != [] {
      StepLedger(c, ss[0], id);
      StepSane(c, ss[0]);
      StepPhased(c, ss[0]);
      RunLedger(Apply(c, ss[0]), ss[1..], id);
    }
  }

  // ---------------------------------------------------------------- responses from outside

  /** `complete_plugin` called from outside, and accepted: nothing is asked but a live channel and two non-zero numbers. */
  predicate Claims(c: Conn, call: Call) {
    call.Complete? && Live(c, call.channel).Some? && call.token != 0 && call.family != 0
  }

  /** The position of the event such a call adds. */
  function Claim(c: Conn, call: Call): set<nat> { if Claims(c, call) then {|c.events|} else {} }

  /** The number it names on channel `id`. */
  function ClaimOn(c: Conn, call: Call, id: ChannelId): multiset<u32> {
    if Claims(c, call) && call.channel == id then multiset{call.sequence} else multiset{}
  }

  /** The positions of the events that such calls add on a run. */
  function Claimed(host: Host, c: Conn, calls: seq<Call>): set<nat>
    requires AllSizable(calls)
    decreases |calls|
  {
    if calls == [] then {}
    else Claim(c, calls[0]) + Claimed(host, Next(host, c, calls[0]), calls[1..])
  }

  /** The numbers they name on channel `id`. */
  function ClaimedOn(host: Host, c: Conn, calls: seq<Call>, id: ChannelId): multiset<u32>
    requires AllSizable(calls)
    decreases |calls|
  {
    if calls == [] then multiset{}
    else ClaimOn(c, calls[0], id) + ClaimedOn(host, Next(host, c, calls[0]), calls[1..], id)
  }

  const BLANK: Event := Plain(Diagnostic, CONTROL)

  /** The events with those of some positions blanked out. */
  function Own(events: seq<Event>, claimed: set<nat>): (own: seq<Event>)
    ensures |own| == |events|
    ensures forall k :: 0 <= k < |events| ==> own[k] == if k in claimed then BLANK else events[k]
  {
    seq(|events|, k requires 0 <= k < |events| => if k in claimed then BLANK else events[k])
  }

  /** The connection as if those events had said nothing. */
  function Unclaimed(c: Conn, claimed: set<nat>): Conn { c.(events := Own(c.events, claimed)) }

  predicate Past(c: Conn, claimed: set<nat>) { forall k <- claimed :: k < |c.events| }

  lemma OwnSnoc(events: seq<Event>, e: Event, claimed: set<nat>)
    requires |events| !in claimed
    ensures Own(events + [e], claimed) == Own(events, claimed) + [e]
  {
  }

  lemma OwnBlank(events: seq<Event>, e: Event, claimed: set<nat>)
    requires forall k <- claimed :: k < |events|
    ensures Own(events + [e], claimed + {|events|}) == Own(events, claimed) + [BLANK]
  {
  }

  /** Noting an event and blanking old ones can change places. */
  lemma NotedUnclaimed(c: Conn, e: Event, claimed: set<nat>)
    requires Past(c, claimed)
    ensures Unclaimed(Noted(c, e), claimed) == Noted(Unclaimed(c, claimed), e) && Past(Noted(c, e), claimed)
  {
    OwnSnoc(c.events, e, claimed);
  }

  lemma DeliveredUnclaimed(c: Conn, i: nat, channel: ChannelId, family: u32, payload: Bytes, claimed: set<nat>)
    requires Past(c, claimed) && c.channels.Some? && i < |c.channels.value.slots|
    ensures var mid := Delivered(c, i, channel, family, payload);
            Delivered(Unclaimed(c, claimed), i, channel, family, payload) == Unclaimed(mid, claimed) && Past(mid, claimed)
  {
    hide Own;
    assert |Own(c.events, claimed)| == |c.events|;
    OwnSnoc(c.events, Event(MessageDelivered, channel, c.channels.value.slots[i].nextRecv, payload, None), claimed);
  }

  lemma FatedUnclaimed(c: Conn, channel: ChannelId, sequence: u32, fate: Fate, claimed: set<nat>)
    requires Past(c, claimed)
    ensures var next := Fated(c, channel, sequence, fate);
            Fated(Unclaimed(c, claimed), channel, sequence, fate) == Unclaimed(next, claimed) && Past(next, claimed)
  {
    hide Own;
    if fate.Answered? { NotedUnclaimed(c, Response(channel, sequence, fate.response), claimed); }
  }

  lemma DeliveryUnclaimed(c: Conn, channel: ChannelId, family: u32, payload: Bytes, fate: Fate, claimed: set<nat>)
    requires Past(c, claimed) && Live(c, channel).Some?
    ensures var s := Delivery(channel, family, payload, fate);
            Apply(Unclaimed(c, claimed), s) == Unclaimed(Apply(c, s), claimed) && Past(Apply(c, s), claimed)
  {
    hide Apply, Delivered, Fated, Own, C.Find, Past;
    var i := Live(c, channel).value;
    assert Live(Unclaimed(c, claimed), channel) == Some(i);
    OnDelivery(c, i, channel, family, payload, fate);
    OnDelivery(Unclaimed(c, claimed), i, channel, family, payload, fate);
    DeliveredUnclaimed(c, i, channel, family, payload, claimed);
    FatedUnclaimed(Delivered(c, i, channel, family, payload), channel, c.channels.value.slots[i].nextRecv, fate, claimed);
  }

  lemma AnswerUnclaimed(c: Conn, k: nat, reply: Option<Bytes>, claimed: set<nat>)
    requires Past(c, claimed) && k < |c.jobs|
    ensures var s := Answer(k, reply);
            Apply(Unclaimed(c, claimed), s) == Unclaimed(Apply(c, s), claimed) && Past(Apply(c, s), claimed)
  {
    hide Own, Without, C.Find;
    if reply.Some? {
      var m := c.jobs[k].message;
      NotedUnclaimed(c.(jobs := Without(c.jobs, k)), Response(m.channel, m.sequence, reply.value), claimed);
    }
  }

  predicate Notes(s: Step) { s.Delivery? || s.Answer? || s.Foreign? || s.Note? }

  lemma NotesUnclaimed(c: Conn, s: Step, claimed: set<nat>)
    requires Past(c, claimed) && Notes(s)
    ensures Apply(Unclaimed(c, claimed), s) == Unclaimed(Apply(c, s), claimed) && Past(Apply(c, s), claimed)
  {
    hide Own, Delivered, Fated, C.Find;
    match s {
      case Delivery(channel, family, payload, fate) =>
        if Live(c, channel).Some? { DeliveryUnclaimed(c, channel, family, payload, fate, claimed); }
      case Answer(k, reply) =>
        if k < |c.jobs| { AnswerUnclaimed(c, k, reply, claimed); }
      case Foreign(channel, sequence, response) => NotedUnclaimed(c, Response(channel, sequence, response), claimed);
      case Note(e) => NotedUnclaimed(c, e, claimed);
    }
  }

  lemma QuietUnclaimed(c: Conn, s: Step, events: seq<Event>)
    requires !Notes(s)
    ensures Apply(c.(events := events), s) == Apply(c, s).(events := events) && Apply(c, s).events == c.events
  {
    hide PostSpec, FlushSpec, Absorb, C.TableApply, C.NewTable, P.AcknowledgeSpec, P.RetrySpec, Adopted, C.Find;
    match s {
      case Post(kind, channel, payload, extensions) => PostUnclaimed(c, kind, channel, payload, extensions, events);
      case Write(writable) => WriteUnclaimed(c, writable, events);
      case Adopt(w) => AdoptUnclaimed(c, w, events);
      case _ =>
    }
  }

  /** No step reads the events. */
  lemma StepUnclaimed(c: Conn, s: Step, claimed: set<nat>)
    requires Past(c, claimed)
    ensures Apply(Unclaimed(c, claimed), s) == Unclaimed(Apply(c, s), claimed) && Past(Apply(c, s), claimed)
  {
    hide Apply, Own;
    if Notes(s) { NotesUnclaimed(c, s, claimed); } else { QuietUnclaimed(c, s, Own(c.events, claimed)); }
  }

  lemma PostUnclaimed(c: Conn, kind: F.FrameType, channel: ChannelId, payload: Bytes, extensions: seq<X.Extension>, events: seq<Event>)
    ensures PostSpec(c.(events := events), kind, channel, payload, extensions).0
         == PostSpec(c, kind, channel, payload, extensions).0.(events := events)
    ensures PostSpec(c, kind, channel, payload, extensions).0.events == c.events
  {
    hide F.EncodeSpec, P.RecordSpec, Enqueued, Drained;
  }

  lemma WriteUnclaimed(c: Conn, writable: nat, events: seq<Event>)
    ensures FlushSpec(c.(events := events), writable).0 == FlushSpec(c, writable).0.(events := events)
    ensures FlushSpec(c, writable).0.events == c.events
  {
    hide Drained;
  }

  lemma AdoptUnclaimed(c: Conn, w: Retained, events: seq<Event>)
    ensures Adopted(c.(events := events), w).0 == Adopted(c, w).0.(events := events)
    ensures Adopted(c, w).0.events == c.events
  {
  }

  lemma {:induction false} RunUnclaimed(c: Conn, ss: seq<Step>, claimed: set<nat>)
    requires Past(c, claimed)
    ensures Run(Unclaimed(c, claimed), ss) == Unclaimed(Run(c, ss), claimed) && Past(Run(c, ss), claimed)
    decreases |ss|
  {
    hide Apply, Unclaimed, Past;
    if ss != [] {
      StepUnclaimed(c, ss[0], claimed);
      RunUnclaimed(Apply(c, ss[0]), ss[1..], claimed);
    }
  }

  /** Events are only ever added. */
  lemma StepEvents(c: Conn, s: Step)
    ensures c.events <= Apply(c, s).events
  {
    hide PostSpec, FlushSpec, Absorb, C.TableApply, C.NewTable, P.AcknowledgeSpec, P.RetrySpec, Adopted;
    match s {
      case Post(kind, channel, payload, extensions) => PostFrame(c, kind, channel, payload, extensions);
      case Write(writable) => WriteFrame(c, writable);
      case Adopt(w) => AdoptFrame(c, w);
      case _ =>
    }
  }

  lemma {:induction false} RunEvents(c: Conn, ss: seq<Step>)
    ensures c.events <= Run(c, ss).events
    decreases |ss|
  {
    hide Apply;
    if ss != [] {
      StepEvents(c, ss[0]);
      RunEvents(Apply(c, ss[0]), ss[1..]);
    }
  }

  /** Blanking out responses takes no delivery away. */
  lemma {:induction false} OwnDeliveries(events: seq<Event>, claimed: set<nat>, id: ChannelId)
    requires forall k <- claimed :: k < |events| ==> events[k].kind == PluginResponse
    ensures Deliveries(Own(events, claimed), id) == Deliveries(events, id)
    decreases |events|
  {
    if events != [] {
      var n := |events| - 1;
      OwnPrefix(events, claimed, n);
      OwnDeliveries(events[..n], claimed, id);
    }
  }

  lemma OwnPrefix(events: seq<Event>, claimed: set<nat>, n: nat)
    requires n <= |events|
    ensures Own(events[..n], claimed) == Own(events, claimed)[..n]
  {
  }

  /** Later events count alike with and without the claims. */
  lemma {:induction false} LaterResponses(before: seq<Event>, events: seq<Event>, claimed: set<nat>, id: ChannelId, extra: multiset<u32>)
    requires before <= events && forall k <- claimed :: k < |before|
    requires multiset(Responses(before, id)) == multiset(Responses(Own(before, claimed), id)) + extra
    ensures multiset(Responses(events, id)) == multiset(Responses(Own(events, claimed), id)) + extra
    decreases |events|
  {
    if |events| == |before| {
      assert events == before;
    } else {
      hide Numbers, Own;
      var n := |events| - 1;
      var e := events[n];
      LaterResponses(before, events[..n], claimed, id, extra);
      assert events == events[..n] + [e];
      OwnSnoc(events[..n], e, claimed);
      NumbersSnoc(events[..n], e, PluginResponse, id);
      NumbersSnoc(Own(events[..n], claimed), e, PluginResponse, id);
      SumsMatch(Numbers(events[..n], PluginResponse, id), Numbers(Own(events[..n], claimed), PluginResponse, id),
                if e.kind == PluginResponse && e.channel == id then [e.sequence] else [], extra);
    }
  }

  lemma SumsMatch(a: seq<u32>, b: seq<u32>, more: seq<u32>, extra: multiset<u32>)
    requires multiset(a) == multiset(b) + extra
    ensures multiset(a + more) == multiset(b + more) + extra
  {
  }

  /** The account of a connection with the claims blanked out, and what the claims add. */
  ghost predicate Tally(c: Conn, claimed: set<nat>, extra: multiset<u32>, id: ChannelId) {
    && Past(c, claimed)
    && (forall k <- claimed :: k < |c.events| ==> c.events[k].kind == PluginResponse)
    && Ledger(Unclaimed(c, claimed), id)
    && multiset(Responses(c.events, id)) == multiset(Responses(Own(c.events, claimed), id)) + extra
  }

  lemma UnclaimedFields(c: Conn, claimed: set<nat>)
    ensures Sane(c) ==> Sane(Unclaimed(c, claimed))
    ensures Phased(c) ==> Phased(Unclaimed(c, claimed))
  {
  }

  lemma RunTally(c: Conn, ss: seq<Step>, claimed: set<nat>, extra: multiset<u32>, id: ChannelId)
    requires Sane(c) && Phased(c) && Tally(c, claimed, extra, id) && forall i :: 0 <= i < |ss| ==> !ss[i].Foreign?
    ensures Tally(Run(c, ss), claimed, extra, id)
  {
    hide Sane, Phased, Ledger, Run, Unclaimed, Own, Responses;
    UnclaimedFields(c, claimed);
    RunUnclaimed(c, ss, claimed);
    RunLedger(Unclaimed(c, claimed), ss, id);
    RunEvents(c, ss);
    LaterResponses(c.events, Run(c, ss).events, claimed, id, extra);
  }

  lemma ClaimTally(c: Conn, channel: ChannelId, sequence: u32, response: Bytes, claimed: set<nat>, extra: multiset<u32>, id: ChannelId)
    requires Tally(c, claimed, extra, id)
    ensures Tally(Noted(c, Response(channel, sequence, response)), claimed + {|c.events|},
                  extra + if channel == id then multiset{sequence} else multiset{}, id)
  {
    hide Ledger, Numbers, Own;
    var e := Response(channel, sequence, response);
    OwnBlank(c.events, e, claimed);
    NoteLedger(Unclaimed(c, claimed), BLANK, id);
    NumbersSnoc(c.events, e, PluginResponse, id);
    NumbersSnoc(Own(c.events, claimed), BLANK, PluginResponse, id);
    var r := Numbers(Own(c.events, claimed), PluginResponse, id);
    assert r + [] == r;
  }

  lemma CallTally(host: Host, c: Conn, call: Call, claimed: set<nat>, extra: multiset<u32>, id: ChannelId)
    requires Sane(c) && Phased(c) && Tally(c, claimed, extra, id) && Sizable(call)
    ensures Tally(Next(host, c, call), claimed + Claim(c, call), extra + ClaimOn(c, call, id), id)
  {
    hide Sane, Phased, Tally, Next, Run, Cost, Apply;
    assert claimed + {} == claimed && extra + multiset{} == extra;
    if call.Complete? {
      CompleteStep(host, c, call.token, call.channel, call.sequence, call.family, call.response);
      ForeignIs(c, call.channel, call.sequence, call.response);
      if Claims(c, call) { ClaimTally(c, call.channel, call.sequence, call.response, claimed, extra, id); }
    } else {
      var ss := AsSteps(host, c, call);
      forall i | 0 <= i < |ss|
        ensures !ss[i].Foreign?
      {
        assert ss[i] in ss;
      }
      RunTally(c, ss, claimed, extra, id);
    }
  }

  lemma ForeignIs(c: Conn, channel: ChannelId, sequence: u32, response: Bytes)
    ensures Apply(c, Foreign(channel, sequence, response))
         == if Live(c, channel).None? then c else Noted(c, Response(channel, sequence, response))
  {
  }

  lemma {:induction false} StaysTally(host: Host, c: Conn, calls: seq<Call>, claimed: set<nat>, extra: multiset<u32>, id: ChannelId)
    requires Sane(c) && Phased(c) && Tally(c, claimed, extra, id) && AllSizable(calls)
    ensures Tally(After(host, c, calls), claimed + Claimed(host, c, calls), extra + ClaimedOn(host, c, calls, id), id)
    decreases |calls|
  {
    hide Sane, Phased, Tally, Next, Run;
    if calls == [] {
      assert claimed + {} == claimed && extra + multiset{} == extra;
    } else {
      var now, more := Claim(c, calls[0]), ClaimOn(c, calls[0], id);
      var next := Next(host, c, calls[0]);
      CallTally(host, c, calls[0], claimed, extra, id);
      OneCallKeeps(host, c, calls[0]);
      StaysTally(host, next, calls[1..], claimed + now, extra + more, id);
      assert claimed + now + Claimed(host, next, calls[1..]) == claimed + Claimed(host, c, calls);
      assert extra + more + ClaimedOn(host, next, calls[1..], id) == extra + ClaimedOn(host, c, calls, id);
    }
  }

  /**
   On every run, in whatever order the executor runs its jobs, channel by channel: the messages delivered
   are numbered 1, 2, 3, ...; an id that never named an accepted lifetime has delivered nothing; and at every
   moment the responses that were not claimed from outside answer distinct deliveries made before them.
   */
  lemma DeliveryAccount(host: Host, policy: H.Policy, calls: seq<Call>, id: ChannelId, n: nat)
    requires 1 <= policy.replayWindow && AllSizable(calls)
    requires n <= |After(host, NewConn(policy), calls).events|
    ensures var c := After(host, NewConn(policy), calls);
            var claimed := Claimed(host, NewConn(policy), calls);
            var d, r := Deliveries(c.events, id), Responses(c.events, id);
            && d == Counting(|d|)
            && (|d| > 0 ==> Current(c, id))
            && (forall k <- claimed :: k < |c.events| && c.events[k].kind == PluginResponse)
            && multiset(Responses(Own(c.events, claimed)[..n], id)) <= multiset(Deliveries(c.events[..n], id))
            && multiset(Responses(Own(c.events, claimed), id)) + Waiting(c.jobs, id) <= multiset(d)
            && multiset(r) == multiset(Responses(Own(c.events, claimed), id)) + ClaimedOn(host, NewConn(policy), calls, id)
  {
    hide After, NewConn, Owed, Claimed, ClaimedOn, Own, Numbers, Waiting, Counting;
    NewSettled(policy);
    NewPhased(policy);
    NewTally(policy, id);
    StaysTally(host, NewConn(policy), calls, {}, multiset{}, id);
    var c, claimed := After(host, NewConn(policy), calls), Claimed(host, NewConn(policy), calls);
    var extra := ClaimedOn(host, NewConn(policy), calls, id);
    assert {} + claimed == claimed && multiset{} + extra == extra;
    OwnDeliveries(c.events, claimed, id);
    OwnDeliveries(c.events[..n], claimed, id);
    OwnPrefix(c.events, claimed, n);
    OwedBase(Responses(Own(c.events, claimed), id), Waiting(c.jobs, id), Deliveries(c.events, id));
  }

  lemma NewTally(policy: H.Policy, id: ChannelId)
    requires 1 <= policy.replayWindow
    ensures Tally(NewConn(policy), {}, multiset{}, id)
  {
    NewLedger(policy, id);
    assert Own(NewConn(policy).events, {}) == [];
  }

  /** In numbers: responses given and due are covered by deliveries and by what was claimed. */
  lemma ResponsesCovered(host: Host, policy: H.Policy, calls: seq<Call>, id: ChannelId)
    requires 1 <= policy.replayWindow && AllSizable(calls)
    ensures var c := After(host, NewConn(policy), calls);
            multiset(Responses(c.events, id)) + Waiting(c.jobs, id)
            <= multiset(Deliveries(c.events, id)) + ClaimedOn(host, NewConn(policy), calls, id)
  {
    hide After, NewConn, Claimed, ClaimedOn, Own, Responses, Deliveries, Waiting;
    DeliveryAccount(host, policy, calls, id, 0);
  }

  // ---------------------------------------------------------------- what a claim breaks

  /** Responses given and due find distinct deliveries. */
  ghost predicate Balanced(c: Conn, id: ChannelId) {
    multiset(Responses(c.events, id)) + Waiting(c.jobs, id) <= multiset(Deliveries(c.events, id))
  }

  /**
   A completion from outside leaves the balance of a channel exactly when it is refused or ignored, or when
   some delivery of that number has not been answered and is not waiting to be.
   */
  lemma ClaimBalancedIff(host: Host, c: Conn, token: u64, id: ChannelId, sequence: u32, family: u32, response: Bytes)
    requires Balanced(c, id)
    ensures Balanced(Next(host, c, Complete(token, id, sequence, family, response)), id) <==>
              || Live(c, id).None? || token == 0 || family == 0
              || (multiset(Responses(c.events, id)) + Waiting(c.jobs, id))[sequence] < multiset(Deliveries(c.events, id))[sequence]
  {
    hide Numbers, Waiting, Apply, Next;
    CompleteStep(host, c, token, id, sequence, family, response);
    ForeignIs(c, id, sequence, response);
    var e := Response(id, sequence, response);
    NumbersSnoc(c.events, e, PluginResponse, id);
    NumbersSnoc(c.events, e, MessageDelivered, id);
    var r, d, w := Responses(c.events, id), Deliveries(c.events, id), Waiting(c.jobs, id);
    assert d + [] == d;
    assert multiset(r + [sequence]) + w == multiset(r) + w + multiset{sequence};
  }

  /** On any live channel any number can be answered, delivered or not, and again. */
  lemma ClaimAnswers(host: Host, c: Conn, id: ChannelId, sequence: u32, response: Bytes)
    requires Live(c, id).Some?
    ensures var next := Next(host, c, Complete(1, id, sequence, 7, response));
            && Deliveries(next.events, id) == Deliveries(c.events, id)
            && Responses(next.events, id) == Responses(c.events, id) + [sequence]
            && next == c.(events := next.events)
  {
    hide Numbers, Apply, Next;
    CompleteStep(host, c, 1, id, sequence, 7, response);
    ForeignIs(c, id, sequence, response);
    NumbersSnoc(c.events, Response(id, sequence, response), PluginResponse, id);
    NumbersSnoc(c.events, Response(id, sequence, response), MessageDelivered, id);
    assert Deliveries(c.events, id) + [] == Deliveries(c.events, id);
  }

  lemma NewLedger(policy: H.Policy, id: ChannelId)
    requires 1 <= policy.replayWindow
    ensures Ledger(NewConn(policy), id)
  {
    assert Counting(0) == [];
    assert NewConn(policy).events[..0] == [];
  }

  lemma {:induction false} CountingDistinct(n: nat, k: u32)
    requires n < U32_SPAN
    ensures multiset(Counting(n))[k] == if 1 <= k <= n then 1 else 0
  {
    if n == 0 {
      assert Counting(0) == [];
    } else {
      hide Counting;
      CountingDistinct(n - 1, k);
      CountingNext(n - 1);
      assert (n - 1 + 1) % U32_SPAN == n;
      assert multiset(Counting(n)) == multiset(Counting(n - 1)) + multiset{n as u32};
    }
  }

  /**
   So before the numbers come round, the connection answers a message at most once, and only if it was
   delivered; what it says beyond that was claimed from outside.
   */
  lemma AnsweredAtMostOnce(host: Host, policy: H.Policy, calls: seq<Call>, id: ChannelId, k: u32)
    requires 1 <= policy.replayWindow && AllSizable(calls)
    requires |Deliveries(After(host, NewConn(policy), calls).events, id)| < U32_SPAN
    ensures var c := After(host, NewConn(policy), calls);
            var own := multiset(Responses(Own(c.events, Claimed(host, NewConn(policy), calls)), id))[k];
            && own <= 1
            && (own == 1 ==> 1 <= k <= |Deliveries(c.events, id)|)
            && multiset(Responses(c.events, id))[k] == own + ClaimedOn(host, NewConn(policy), calls, id)[k]
  {
    hide After, NewConn, Deliveries, Responses, Waiting, Counting, Claimed, ClaimedOn, Own;
    var c := After(host, NewConn(policy), calls);
    DeliveryAccount(host, policy, calls, id, 0);
    CountingDistinct(|Deliveries(c.events, id)|, k);
  }

  // ---------------------------------------------------------------- the right answers

  /** `m` is what delivery event `d` delivered. */
  predicate Delivers(d: Event, m: R.LogicalMessage) {
    d.kind == MessageDelivered && d.channel == m.channel && d.sequence == m.sequence && d.payload == m.payload
  }

  /** Response event `e` carries what the plugin of `family` answers to the message of delivery event `d`. */
  predicate Answers(host: Host, family: u32, d: Event, e: Event) {
    && Delivers(d, R.LogicalMessage(e.channel, e.sequence, d.payload))
    && host.respond(family, R.LogicalMessage(e.channel, e.sequence, d.payload)) == Ok(e.payload)
  }

  /** The delivery at position `j` is what event `e` answers, by the plugin its DATA frame named. */
  predicate AnswersAt(host: Host, c: Conn, j: nat, e: Event) {
    j < |c.events| && j in c.families && Answers(host, c.families[j], c.events[j], e)
  }

  ghost predicate RightAt(host: Host, c: Conn, k: nat)
    requires k < |c.events|
  {
    c.events[k].kind == PluginResponse ==> exists j :: 0 <= j < k && AnswersAt(host, c, j, c.events[k])
  }

  /** The delivery at position `j` is what the job works on, for the plugin its DATA frame named. */
  predicate OwingAt(c: Conn, j: nat, job: Job) {
    j < |c.events| && j in c.families && c.families[j] == job.family && Delivers(c.events[j], job.message)
  }

  ghost predicate Owing(c: Conn, job: Job) { exists j :: 0 <= j && OwingAt(c, j, job) }

  ghost predicate Right(host: Host, c: Conn) {
    && (forall k :: 0 <= k < |c.events| ==> RightAt(host, c, k))
    && (forall job <- c.jobs :: Owing(c, job))
    && (forall k <- c.families :: k < |c.events|)
    && (forall k :: 0 <= k < |c.events| && c.events[k].kind == MessageDelivered ==> k in c.families)
  }

  /** What is right of some events stays right when more is added behind them. */
  lemma RightMore(host: Host, c: Conn, next: Conn)
    requires Right(host, c) && c.events <= next.events && forall k <- c.families :: k in next.families && next.families[k] == c.families[k]
    ensures forall k :: 0 <= k < |c.events| ==> RightAt(host, next, k)
    ensures forall job <- c.jobs :: Owing(next, job)
  {
    hide Answers, Delivers;
    forall k | 0 <= k < |c.events|
      ensures RightAt(host, next, k)
    {
      assert RightAt(host, c, k) && next.events[k] == c.events[k];
      if c.events[k].kind == PluginResponse {
        var j :| 0 <= j < k && AnswersAt(host, c, j, c.events[k]);
        assert AnswersAt(host, next, j, next.events[k]);
      }
    }
    forall job | job in c.jobs
      ensures Owing(next, job)
    {
      assert Owing(c, job);
      var j :| 0 <= j && OwingAt(c, j, job);
      assert OwingAt(next, j, job);
    }
  }

  /** One more event, right in itself. */
  lemma RightSnoc(host: Host, c: Conn, e: Event)
    requires Right(host, c) && e.kind != MessageDelivered
    requires e.kind == PluginResponse ==> exists j :: 0 <= j && AnswersAt(host, c, j, e)
    ensures Right(host, Noted(c, e))
  {
    hide Answers, Delivers;
    var next := Noted(c, e);
    RightMore(host, c, next);
    if e.kind == PluginResponse {
      var j :| 0 <= j && AnswersAt(host, c, j, e);
      assert AnswersAt(host, next, j, next.events[|c.events|]);
    }
    assert RightAt(host, next, |c.events|);
  }

  lemma RightFields(host: Host, c: Conn, next: Conn)
    requires Right(host, c) && next.events == c.events && next.families == c.families && forall job <- next.jobs :: job in c.jobs
    ensures Right(host, next)
  {
    hide Answers, Delivers;
    RightMore(host, c, next);
  }

  lemma DeliveryRight(host: Host, c: Conn, channel: ChannelId, family: u32, payload: Bytes, fate: Fate)
    requires Sane(c) && Right(host, c) && Live(c, channel).Some? && HonestStep(host, c, Delivery(channel, family, payload, fate))
    ensures Right(host, Apply(c, Delivery(channel, family, payload, fate)))
  {
    hide Right, Answers, Sane, Delivered, Fated, Apply;
    var i := Live(c, channel).value;
    var n := c.channels.value.slots[i].nextRecv;
    var message := R.LogicalMessage(channel, n, payload);
    var mid := Delivered(c, i, channel, family, payload);
    OnDelivery(c, i, channel, family, payload, fate);
    DeliveredRight(host, c, i, channel, family, payload);
    FatedRight(host, mid, |c.events|, family, message, fate);
  }

  /** `d`, at position `k`, delivered `message`, for `family`. */
  predicate DeliveredAt(c: Conn, k: nat, family: u32, message: R.LogicalMessage) {
    k < |c.events| && k in c.families && c.families[k] == family && Delivers(c.events[k], message)
  }

  lemma DeliveredRight(host: Host, c: Conn, i: nat, channel: ChannelId, family: u32, payload: Bytes)
    requires Right(host, c) && c.channels.Some? && i < |c.channels.value.slots|
    ensures var mid := Delivered(c, i, channel, family, payload);
            && Right(host, mid)
            && DeliveredAt(mid, |c.events|, family, R.LogicalMessage(channel, c.channels.value.slots[i].nextRecv, payload))
  {
    hide Answers;
    var mid := Delivered(c, i, channel, family, payload);
    RightMore(host, c, mid);
    assert RightAt(host, mid, |c.events|);
  }

  lemma FatedRight(host: Host, c: Conn, k: nat, family: u32, message: R.LogicalMessage, fate: Fate)
    requires Right(host, c) && DeliveredAt(c, k, family, message)
    requires fate.Queued? ==> fate.job.message == message && fate.job.family == family
    requires fate.Answered? ==> host.respond(family, message) == Ok(fate.response)
    ensures Right(host, Fated(c, message.channel, message.sequence, fate))
  {
    match fate {
      case Lost =>
      case Queued(job) =>
        var next := c.(jobs := c.jobs + [job]);
        RightMore(host, c, next);
        assert OwingAt(next, k, job);
      case Answered(response) =>
        assert AnswersAt(host, c, k, Response(message.channel, message.sequence, response));
        RightSnoc(host, c, Response(message.channel, message.sequence, response));
    }
  }

  lemma AnswerRight(host: Host, c: Conn, k: nat, reply: Option<Bytes>)
    requires Right(host, c) && k < |c.jobs| && HonestStep(host, c, Answer(k, reply))
    ensures Right(host, Apply(c, Answer(k, reply)))
  {
    var job, mid := c.jobs[k], c.(jobs := Without(c.jobs, k));
    RightFields(host, c, mid);
    if reply.Some? && Live(c, job.message.channel).Some? {
      assert Owing(c, job);
      var j :| 0 <= j && OwingAt(c, j, job);
      assert AnswersAt(host, mid, j, Response(job.message.channel, job.message.sequence, reply.value));
      RightSnoc(host, mid, Response(job.message.channel, job.message.sequence, reply.value));
    }
  }

  lemma StepRight(host: Host, c: Conn, s: Step)
    requires Sane(c) && Right(host, c) && HonestStep(host, c, s) && !s.Foreign?
    ensures Right(host, Apply(c, s))
  {
    hide Right, Sane, PostSpec, FlushSpec, Absorb, C.TableApply, C.NewTable, P.AcknowledgeSpec, P.RetrySpec, Adopted,
         Delivered, Fated;
    match s {
      case Post(kind, channel, payload, extensions) =>
        PostFrame(c, kind, channel, payload, extensions);
        RightFields(host, c, Apply(c, s));
      case Write(writable) =>
        WriteFrame(c, writable);
        RightFields(host, c, Apply(c, s));
      case Adopt(w) =>
        AdoptFrame(c, w);
        RightFields(host, c, Apply(c, s));
      case Delivery(channel, family, payload, fate) =>
        if Live(c, channel).Some? { DeliveryRight(host, c, channel, family, payload, fate); }
      case Answer(k, reply) =>
        if k < |c.jobs| { AnswerRight(host, c, k, reply); }
      case Note(e) =>
        if e.kind != MessageDelivered && e.kind != PluginResponse { RightSnoc(host, c, e); }
      case _ =>
        RightFields(host, c, Apply(c, s));
    }
  }

  lemma {:induction false} RunRight(host: Host, c: Conn, ss: seq<Step>)
    requires Sane(c) && Right(host, c) && Honest(host, c, ss) && forall i :: 0 <= i < |ss| ==> !ss[i].Foreign?
    ensures Right(host, Run(c, ss))
    decreases |ss|
  {
    hide Sane, Right, Apply, HonestStep;
    if ss != [] {
      StepRight(host, c, ss[0]);
      StepSane(c, ss[0]);
      RunRight(host, Apply(c, ss[0]), ss[1..]);
    }
  }

  lemma {:induction false} HonestUnclaimed(host: Host, c: Conn, ss: seq<Step>, claimed: set<nat>)
    requires Past(c, claimed) && Honest(host, c, ss)
    ensures Honest(host, Unclaimed(c, claimed), ss)
    decreases |ss|
  {
    hide Apply, Past, Own;
    if ss != [] {
      StepUnclaimed(c, ss[0], claimed);
      HonestUnclaimed(host, Apply(c, ss[0]), ss[1..], claimed);
    }
  }

  ghost predicate OwnRight(host: Host, c: Conn, claimed: set<nat>) { Past(c, claimed) && Right(host, Unclaimed(c, claimed)) }

  lemma CallRight(host: Host, c: Conn, call: Call, claimed: set<nat>)
    requires Sane(c) && OwnRight(host, c, claimed) && Sizable(call)
    ensures OwnRight(host, Next(host, c, call), claimed + Claim(c, call))
  {
    hide Sane, Right, Next, Run, Cost, Apply, Honest, Own;
    assert claimed + {} == claimed;
    if call.Complete? {
      CompleteStep(host, c, call.token, call.channel, call.sequence, call.family, call.response);
      ForeignIs(c, call.channel, call.sequence, call.response);
      if Claims(c, call) {
        OwnBlank(c.events, Response(call.channel, call.sequence, call.response), claimed);
        RightSnoc(host, Unclaimed(c, claimed), BLANK);
      }
    } else {
      var ss := AsSteps(host, c, call);
      forall i | 0 <= i < |ss|
        ensures !ss[i].Foreign?
      {
        assert ss[i] in ss;
      }
      SaneFields(c, Unclaimed(c, claimed));
      RunUnclaimed(c, ss, claimed);
      HonestUnclaimed(host, c, ss, claimed);
      RunRight(host, Unclaimed(c, claimed), ss);
    }
  }

  lemma SaneFields(c: Conn, next: Conn)
    requires Sane(c) && next.channels == c.channels
    ensures Sane(next)
  {
  }

  lemma {:induction false} StaysRight(host: Host, c: Conn, calls: seq<Call>, claimed: set<nat>)
    requires Sane(c) && OwnRight(host, c, claimed) && AllSizable(calls)
    ensures OwnRight(host, After(host, c, calls), claimed + Claimed(host, c, calls))
    decreases |calls|
  {
    hide Sane, OwnRight, Next, Run, Claims;
    if calls == [] {
      assert claimed + {} == claimed;
    } else {
      var now := Claim(c, calls[0]);
      var next := Next(host, c, calls[0]);
      CallRight(host, c, calls[0], claimed);
      var ss := AsSteps(host, c, calls[0]);
      RunSane(c, ss);
      StaysRight(host, next, calls[1..], claimed + now);
      assert claimed + now + Claimed(host, next, calls[1..]) == claimed + Claimed(host, c, calls);
    }
  }

  /**
   On every run, whatever order jobs run in: each response that was not claimed from outside carries what
   the plugin named by the DATA frame of an earlier delivery answers to that very message, and has its channel
   and number.
   */
  lemma RightAnswers(host: Host, policy: H.Policy, calls: seq<Call>, k: nat)
    requires 1 <= policy.replayWindow && AllSizable(calls)
    requires k < |After(host, NewConn(policy), calls).events| && k !in Claimed(host, NewConn(policy), calls)
    requires After(host, NewConn(policy), calls).events[k].kind == PluginResponse
    ensures var c := After(host, NewConn(policy), calls);
            exists j :: 0 <= j < k && AnswersAt(host, c, j, c.events[k])
  {
    hide After, NewConn, Claimed, Own;
    NewSettled(policy);
    NewRight(host, policy);
    StaysRight(host, NewConn(policy), calls, {});
    var c, claimed := After(host, NewConn(policy), calls), Claimed(host, NewConn(policy), calls);
    assert {} + claimed == claimed;
    var own := Unclaimed(c, claimed);
    assert RightAt(host, own, k);
    var j :| 0 <= j < k && AnswersAt(host, own, j, own.events[k]);
    assert j !in claimed;
    assert AnswersAt(host, c, j, c.events[k]);
  }

  lemma NewRight(host: Host, policy: H.Policy)
    requires 1 <= policy.replayWindow
    ensures OwnRight(host, NewConn(policy), {})
  {
    assert Own(NewConn(policy).events, {}) == [];
  }

  /** What `next` adds to `c` is at most one delivery on `channel`, noted under `family`. */
  predicate NamesAtMost(c: Conn, next: Conn, channel: ChannelId, family: u32) {
    next.families != c.families ==>
      && next.families == c.families[|c.events| := family]
      && |c.events| < |next.events|
      && next.events[|c.events|].kind == MessageDelivered && next.events[|c.events|].channel == channel
  }

  lemma DeliverNames(host: Host, c: Conn, i: nat, channel: ChannelId, family: u32, outcome: R.Outcome)
    requires c.channels.Some? && i < |c.channels.value.slots|
    ensures NamesAtMost(c, Deliver(host, c, i, channel, family, outcome).0, channel, family)
  {
    hide C.Find;
  }

  /** A DATA frame names the plugin: a delivery it causes is noted under the family in the frame. */
  lemma DataNames(host: Host, c: Conn, f: F.Frame)
    requires |f.payload| < U64_SPAN
    ensures var next := HandleData(host, c, f).0;
            if ExtensionU32(f, EXT_FAMILY_ID).None? then next.families == c.families
            else NamesAtMost(c, next, f.channel, ExtensionU32(f, EXT_FAMILY_ID).value)
  {
    hide C.Find, Absorb, ExtensionU32, Deliver;
    if HandleData(host, c, f).0 != c {
      var t, i := c.channels.value, C.Find(c.channels.value, f.channel).value;
      var sequence, offset := ExtensionU32(f, EXT_MESSAGE_SEQ), ExtensionU32(f, EXT_FRAGMENT_OFFSET);
      var total, family := ExtensionU32(f, EXT_MESSAGE_TOTAL), ExtensionU32(f, EXT_FAMILY_ID);
      var (t1, outcome) := Absorb(t, i, f.channel, sequence.value, offset.value, total.value, f.payload);
      AbsorbNames(t, i, f.channel, sequence.value, offset.value, total.value, f.payload);
      DeliverNames(host, c.(channels := Some(t1)), i, f.channel, family.value, outcome);
    }
  }

  // ---------------------------------------------------------------- silence after a reset

  /** `id` was reset: its slot keeps it as a tombstone. */
  predicate Buried(c: Conn, id: ChannelId) {
    Current(c, id) && c.channels.value.slots[id.number - 1].state == C.Tombstone
  }

  predicate SameAccount(a: Conn, b: Conn, id: ChannelId) {
    Deliveries(a.events, id) == Deliveries(b.events, id) && Responses(a.events, id) == Responses(b.events, id)
  }

  lemma BuriedNotLive(c: Conn, id: ChannelId)
    requires Buried(c, id)
    ensures Live(c, id).None?
  {
  }

  lemma OtherEvent(c: Conn, e: Event, id: ChannelId)
    requires e.channel != id || (e.kind != MessageDelivered && e.kind != PluginResponse)
    ensures SameAccount(c, Noted(c, e), id)
  {
    hide Numbers;
    NumbersSnoc(c.events, e, MessageDelivered, id);
    NumbersSnoc(c.events, e, PluginResponse, id);
    var d, r := Numbers(c.events, MessageDelivered, id), Numbers(c.events, PluginResponse, id);
    assert d + [] == d && r + [] == r;
  }

  /** A tombstone stays one: nothing but retiring it could free its slot. */
  lemma TableBuried(c: Conn, op: C.TableOp, id: ChannelId)
    requires Sane(c) && Buried(c, id) && !op.Update? && !op.Retire?
    ensures Buried(c.(channels := Some(C.TableApply(c.channels.value, op))), id)
  {
    hide Sane, C.TableApply;
    TombstoneKept(c.channels.value, op, id.number - 1);
    TableShape(c.channels.value, op);
  }

  lemma TombstoneKept(t: C.Table, op: C.TableOp, i: nat)
    requires i < |t.slots| && t.slots[i].state == C.Tombstone && !op.Update? && !op.Retire?
    ensures i < |C.TableApply(t, op).slots| && C.TableApply(t, op).slots[i] == t.slots[i]
  {
  }

  lemma DeliveryBuried(c: Conn, channel: ChannelId, family: u32, payload: Bytes, fate: Fate, id: ChannelId)
    requires Sane(c) && Buried(c, id) && Live(c, channel).Some?
    ensures var next := Apply(c, Delivery(channel, family, payload, fate));
            Buried(next, id) && SameAccount(c, next, id)
  {
    hide Numbers;
    BuriedNotLive(c, id);
    LiveCurrent(c, channel);
    var i := Live(c, channel).value;
    var mid := Delivered(c, i, channel, family, payload);
    OtherCounter(c, i, channel, family, payload, id);
    OtherEvent(c.(channels := mid.channels, families := mid.families), mid.events[|c.events|], id);
    if fate.Answered? {
      OtherEvent(mid, Response(channel, c.channels.value.slots[i].nextRecv, fate.response), id);
    }
  }

  /** The steps that concern one live channel concern another one than a buried one. */
  lemma TalkBuried(c: Conn, s: Step, id: ChannelId)
    requires Sane(c) && Phased(c) && Buried(c, id) && (s.Fragment? || s.Delivery? || s.Answer? || s.Foreign?)
    ensures Buried(Apply(c, s), id) && SameAccount(c, Apply(c, s), id)
  {
    hide Sane, Absorb, Numbers, Delivered, Fated, Deliveries, Responses;
    BuriedNotLive(c, id);
    match s {
      case Fragment(channel, sequence, offset, total, bytes) =>
        if Live(c, channel).Some? && |bytes| < U64_SPAN {
          AbsorbShape(c.channels.value, Live(c, channel).value, channel, sequence, offset, total, bytes);
        }
      case Delivery(channel, family, payload, fate) =>
        if Live(c, channel).Some? { DeliveryBuried(c, channel, family, payload, fate, id); }
      case Answer(k, reply) =>
        if k < |c.jobs| && reply.Some? && Live(c, c.jobs[k].message.channel).Some? {
          var m := c.jobs[k].message;
          OtherEvent(c.(jobs := Without(c.jobs, k)), Response(m.channel, m.sequence, reply.value), id);
        }
      case Foreign(channel, sequence, response) =>
        if Live(c, channel).Some? { OtherEvent(c, Response(channel, sequence, response), id); }
    }
  }

  lemma StepBuried(c: Conn, s: Step, id: ChannelId)
    requires Sane(c) && Phased(c) && Buried(c, id)
    ensures Buried(Apply(c, s), id) && SameAccount(c, Apply(c, s), id)
  {
    hide Sane, PostSpec, FlushSpec, Absorb, C.TableApply, C.NewTable, P.AcknowledgeSpec, P.RetrySpec, Adopted, Numbers,
         Delivered, Fated, Deliveries, Responses, Live;
    match s {
      case Post(kind, channel, payload, extensions) => PostFrame(c, kind, channel, payload, extensions);
      case Write(writable) => WriteFrame(c, writable);
      case Adopt(w) => AdoptFrame(c, w);
      case Table(op) =>
        if !op.Update? && !op.Retire? { TableBuried(c, op, id); }
      case Note(e) =>
        if e.kind != MessageDelivered && e.kind != PluginResponse { OtherEvent(c, e, id); }
      case Fragment(_, _, _, _, _) => TalkBuried(c, s, id);
      case Delivery(_, _, _, _) => TalkBuried(c, s, id);
      case Answer(_, _) => TalkBuried(c, s, id);
      case Foreign(_, _, _) => TalkBuried(c, s, id);
      case _ =>
    }
  }

  lemma {:induction false} RunBuried(c: Conn, ss: seq<Step>, id: ChannelId)
    requires Sane(c) && Phased(c) && Buried(c, id)
    ensures Buried(Run(c, ss), id) && SameAccount(c, Run(c, ss), id)
    decreases |ss|
  {
    hide Sane, Phased, Buried, Apply, Deliveries, Responses;
    if ss != [] {
      StepBuried(c, ss[0], id);
      StepSane(c, ss[0]);
      StepPhased(c, ss[0]);
      RunBuried(Apply(c, ss[0]), ss[1..], id);
    }
  }

  /**
   Once an id has been reset, no call whatsoever, and no job run later, delivers another message or another
   response on it, nor does the id ever come back to life.
   */
  lemma {:induction false} SilentAfterReset(host: Host, c: Conn, calls: seq<Call>, id: ChannelId)
    requires Sane(c) && Phased(c) && Buried(c, id) && AllSizable(calls)
    ensures Buried(After(host, c, calls), id) && SameAccount(c, After(host, c, calls), id)
    decreases |calls|
  {
    hide Sane, Phased, Buried, Next, Run, Cost, Deliveries, Responses;
    if calls != [] {
      var ss := AsSteps(host, c, calls[0]);
      RunBuried(c, ss, id);
      RunSane(c, ss);
      RunPhased(c, ss);
      SilentAfterReset(host, Next(host, c, calls[0]), calls[1..], id);
    }
  }

  /** A reset of a live channel, by either side, buries its id. */
  lemma ResetBuries(c: Conn, id: ChannelId)
    requires Sane(c) && Live(c, id).Some?
    ensures Buried(HandleReset(c, id), id) && Buried(ResetSpec(c, id).0, id)
  {
    hide EmitSpec;
    LiveCurrent(c, id);
    EmitFrame(Noted(Numbered(c.(channels := Some(C.ResetChannelSpec(c.channels.value, id).0))), Plain(ChannelReset, id)),
              FrameOf(c, F.Reset, id, [], []));
  }

  /** From any reachable state: after a successful reset, silence. */
  lemma ResetSilences(host: Host, policy: H.Policy, before: seq<Call>, id: ChannelId, later: seq<Call>)
    requires 1 <= policy.replayWindow && AllSizable(before) && AllSizable(later)
    requires Live(After(host, NewConn(policy), before), id).Some?
    ensures var c := Next(host, After(host, NewConn(policy), before), Call.Reset(id));
            Buried(c, id) && SameAccount(c, After(host, c, later), id)
  {
    hide After, NewConn, Deliveries, Responses, Buried, Sane, Phased;
    NewSettled(policy);
    NewPhased(policy);
    StaysPhased(host, NewConn(policy), before);
    var c := After(host, NewConn(policy), before);
    ResetBuries(c, id);
    OneCallKeeps(host, c, Call.Reset(id));
    SilentAfterReset(host, Next(host, c, Call.Reset(id)), later, id);
  }

  lemma OneCallKeeps(host: Host, c: Conn, call: Call)
    requires Sane(c) && Phased(c) && Sizable(call)
    ensures Sane(Next(host, c, call)) && Phased(Next(host, c, call))
  {
    hide Sane, Phased, Next, Run;
    var ss := AsSteps(host, c, call);
    RunSane(c, ss);
    RunPhased(c, ss);
  }
}
