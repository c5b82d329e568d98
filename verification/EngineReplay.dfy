/** The replay window of a running connection: frames in the order of their numbers, none from the future. */
module EngineReplay {
  import opened Types
  import opened EngineModel
  import opened EngineSteps
  import opened EngineRuns
  import opened Wire
  import opened Sorting
  import C = Channels
  import F = FrameCodec
  import H = Hellos
  import P = Replay
  import PT = ReplayText
  import X = Extensions

  /** Entries ascend, lie below the next frame number, and fit the capacity. */
  predicate Recorded(c: Conn) {
    && P.Startable(c.replay)
    && forall e <- c.replay.entries :: e.sequence < c.nextFrame
  }

  lemma SameRecorded(c: Conn, next: Conn)
    requires Recorded(c) && next.replay == c.replay && next.nextFrame == c.nextFrame
    ensures Recorded(next)
  {
  }

  /** A frame numbered after all that went before goes to the back of the window. */
  lemma RecordRecorded(w: Retained, n: u32, encoded: Bytes)
    requires P.Startable(w) && forall e <- w.entries :: e.sequence < n
    ensures var next := P.RecordSpec(w, 1, n, encoded).0;
            P.Startable(next) && forall e <- next.entries :: e.sequence <= n
  {
    hide P.Contains;
    if P.RecordSpec(w, 1, n, encoded).1.Ok? {
      var kept := if P.Full(w) then w.entries[1..] else w.entries;
      assert forall e <- kept :: e in w.entries;
      P.AscendingSnoc(kept, P.Entry(1, n, encoded, 0));
    }
  }

  lemma PostRecorded(c: Conn, kind: F.FrameType, channel: ChannelId, payload: Bytes, extensions: seq<X.Extension>)
    requires Recorded(c) && c.nextFrame + 1 < U32_SPAN
    ensures Recorded(PostSpec(c, kind, channel, payload, extensions).0)
  {
    hide F.EncodeSpec, P.RecordSpec, Enqueued, Drained, P.Startable;
    var f := FrameOf(c, kind, channel, payload, extensions);
    if F.EncodeSpec(Limits(c.policy), f).Ok? {
      var encoded := F.EncodeSpec(Limits(c.policy), f).value;
      RecordRecorded(c.replay, c.nextFrame, encoded);
      if P.RecordSpec(c.replay, 1, c.nextFrame, encoded).1.Err? {
        P.RecordRefused(c.replay, 1, c.nextFrame, encoded);
      }
    }
  }

  lemma RetireRecorded(c: Conn, epoch: u16, ranges: seq<P.AckRange>)
    requires Recorded(c)
    ensures Recorded(Apply(c, Retire(epoch, ranges)))
  {
    hide P.Acked, P.Orderly, P.Ascending;
    P.AcknowledgeExact(c.replay, epoch, ranges);
    P.PickAscending(c.replay.entries, SortBy(P.First, ranges), false);
    P.PickShrinks(c.replay.entries, SortBy(P.First, ranges), false);
  }

  lemma RetryRecorded(c: Conn)
    requires Recorded(c)
    ensures Recorded(Apply(c, Step.Retry))
  {
    var w, after := c.replay, P.Retried(c.replay.entries, RETRY_LIMIT).0;
    P.RetriedKeeps(w.entries, RETRY_LIMIT);
    hide P.Retried;
    RetriedBelow(w.entries, after, c.nextFrame);
    RetriedStartable(w, after);
  }

  lemma RetriedBelow(es: seq<P.Entry>, after: seq<P.Entry>, bound: int)
    requires |after| == |es| && forall i :: 0 <= i < |es| ==> after[i].sequence == es[i].sequence
    requires forall e <- es :: e.sequence < bound
    ensures forall e <- after :: e.sequence < bound
  {
    forall e | e in after
      ensures e.sequence < bound
    {
      var i :| 0 <= i < |after| && after[i] == e;
      assert es[i] in es;
    }
  }

  lemma RetriedStartable(w: Retained, after: seq<P.Entry>)
    requires P.Startable(w) && |after| == |w.entries|
    requires forall i :: 0 <= i < |after| ==> after[i].sequence == w.entries[i].sequence && after[i].encoded == w.entries[i].encoded
    ensures P.Startable(w.(entries := after))
  {
  }

  /** A restored window is continued after its newest frame, unless that has the last number there is. */
  lemma AdoptRecorded(c: Conn, w: Retained)
    requires P.Startable(w) && P.Latest(w) != Some(U32_SPAN - 1)
    ensures Recorded(Adopted(c, w).0)
  {
    if w.entries != [] {
      var last := |w.entries| - 1;
      forall e | e in w.entries
        ensures e.sequence <= w.entries[last].sequence
      {
        var i :| 0 <= i < |w.entries| && w.entries[i] == e;
        if i < last { assert w.entries[i].sequence < w.entries[last].sequence; }
      }
    }
  }

  /** The windows a step may put in place. */
  predicate Sound(s: Step) {
    s.Adopt? ==> P.Startable(s.w) && P.Latest(s.w) != Some(U32_SPAN - 1)
  }

  lemma StepRecorded(c: Conn, s: Step)
    requires Recorded(c) && Sound(s) && c.nextFrame + (if s.Post? then 1 else 0) < U32_SPAN
    ensures Recorded(Apply(c, s))
    ensures !s.Adopt? ==> c.nextFrame <= Apply(c, s).nextFrame <= c.nextFrame + if s.Post? then 1 else 0
  {
    hide Recorded, PostSpec, FlushSpec, Absorb, C.TableApply, C.NewTable, P.AcknowledgeSpec, P.RetrySpec, Adopted,
         Delivered, Fated, P.Startable;
    match s {
      case Post(kind, channel, payload, extensions) =>
        PostRecorded(c, kind, channel, payload, extensions);
        PostFrame(c, kind, channel, payload, extensions);
      case Write(writable) =>
        WriteFrame(c, writable);
        SameRecorded(c, Apply(c, s));
      case Retire(epoch, ranges) => RetireRecorded(c, epoch, ranges);
      case Retry => RetryRecorded(c);
      case Adopt(w) =>
        if c.state == Created { AdoptRecorded(c, w); } else { SameRecorded(c, Apply(c, s)); }
      case Delivery(channel, family, payload, fate) =>
        if Live(c, channel).Some? { DeliveryFields(c, channel, family, payload, fate); }
        SameRecorded(c, Apply(c, s));
      case _ =>
        SameRecorded(c, Apply(c, s));
    }
  }

  lemma {:induction false} RunRecorded(c: Conn, ss: seq<Step>)
    requires Recorded(c) && c.nextFrame + Posts(ss) < U32_SPAN && forall i :: 0 <= i < |ss| ==> !ss[i].Adopt?
    ensures Recorded(Run(c, ss))
    decreases |ss|
  {
    hide Recorded, Apply;
    if ss != [] {
      StepRecorded(c, ss[0]);
      RunRecorded(Apply(c, ss[0]), ss[1..]);
    }
  }

  /** The snapshot is not one whose newest frame already has the last number. */
  predicate Continues(call: Call) {
    call.Load? && PT.RestoreSpec(call.text).Ok? ==> P.Latest(PT.RestoreSpec(call.text).value) != Some(U32_SPAN - 1)
  }

  predicate AllContinue(calls: seq<Call>) { forall i :: 0 <= i < |calls| ==> Continues(calls[i]) }

  lemma CallRecorded(host: Host, c: Conn, call: Call)
    requires Recorded(c) && Sane(c) && Sizable(call) && Continues(call) && c.nextFrame + Cost(c, call) < U32_SPAN
    ensures Recorded(Next(host, c, call)) && Sane(Next(host, c, call))
  {
    hide Recorded, Sane, Next, Run, Cost, PT.RestoreSpec, Posts, Apply;
    var ss := AsSteps(host, c, call);
    RunSane(c, ss);
    if call.Load? {
      LoadStep(host, c, call.text);
      if PT.RestoreSpec(call.text).Ok? {
        Capacious(call.text);
        PT.AcceptedIsPortable(call.text);
        StepRecorded(c, Adopt(PT.RestoreSpec(call.text).value));
      }
    } else {
      assert forall i :: 0 <= i < |ss| ==> ss[i] in ss;
      RunRecorded(c, ss);
    }
  }

  lemma {:induction false} StaysRecorded(host: Host, c: Conn, calls: seq<Call>)
    requires Recorded(c) && Sane(c) && AllSizable(calls) && AllContinue(calls) && NoWrap(host, c, calls)
    ensures Recorded(After(host, c, calls))
    decreases |calls|
  {
    hide Recorded, Sane, Next, Continues, Cost;
    if calls != [] {
      CallRecorded(host, c, calls[0]);
      StaysRecorded(host, Next(host, c, calls[0]), calls[1..]);
    }
  }

  /**
   On every run that stays clear of the end of the frame numbers, restored or not: the window holds frames
   in strictly increasing order, all numbered before the next frame, so nothing emitted is ever refused as
   a duplicate.
   */
  lemma FramesInOrder(host: Host, policy: H.Policy, calls: seq<Call>)
    requires 1 <= policy.replayWindow && AllSizable(calls) && AllContinue(calls)
    requires NoWrap(host, NewConn(policy), calls)
    ensures var c := After(host, NewConn(policy), calls);
            && P.Ascending(c.replay.entries) && |c.replay.entries| <= c.replay.capacity
            && (forall e <- c.replay.entries :: e.sequence < c.nextFrame)
            && !P.Contains(c.replay.entries, c.nextFrame)
  {
    hide After, NewConn, NoWrap;
    NewSettled(policy);
    assert Recorded(NewConn(policy)) by { NewRecorded(policy); }
    StaysRecorded(host, NewConn(policy), calls);
  }

  lemma NewRecorded(policy: H.Policy)
    requires 1 <= policy.replayWindow
    ensures Recorded(NewConn(policy))
  {
  }

  // ---------------------------------------------------------------- RESUME

  lemma ResumeReads(r: ResumeRequest)
    requires |r.hash| == 16
    ensures ReadResume(ResumePayload(r)) == Ok(r)
  {
    hide U16Bytes, U32Bytes, ReadU16, ReadU32;
    var payload := ResumePayload(r);
    H.U16At(payload, r.epoch, 16);
    H.U32At(payload, r.first, 18);
    assert payload[..16] == r.hash;
  }

  /**
   On every such run a RESUME that crossed the wire is honoured exactly when its hash and epoch match and
   it asks for something from the oldest retained frame to one past the newest; the answer is then the
   encodings of that suffix of the window, in order, and the connection is active again.
   */
  lemma ResumeHonoured(host: Host, policy: H.Policy, calls: seq<Call>, r: ResumeRequest, f: F.Frame) returns (k: nat)
    requires 1 <= policy.replayWindow && AllSizable(calls) && AllContinue(calls)
    requires NoWrap(host, NewConn(policy), calls)
    requires |r.hash| == 16 && f.kind == F.Resume && f.channel.IsControl() && f.payload == ResumePayload(r)
    ensures var c := After(host, NewConn(policy), calls);
            var es := c.replay.entries;
            var (next, reply) := HandleResume(c, f);
            && (reply.Ok? <==>
                  && c.capabilities.Some? && c.capabilities.value.hash == r.hash && r.epoch == c.replay.epoch
                  && es != [] && es[0].sequence <= r.first <= es[|es| - 1].sequence + 1)
            && (reply.Ok? ==>
                  && P.CutAt(es, r.first, k) && |reply.value| == |es| - k
                  && (forall i :: 0 <= i < |reply.value| ==> reply.value[i] == es[k + i].encoded)
                  && next.state == Active && next.replay == c.replay)
  {
    hide After, NewConn, NoWrap, ReadResume, ResumePayload, P.RetainedFromSpec, P.Ascending;
    FramesInOrder(host, policy, calls);
    var c := After(host, NewConn(policy), calls);
    ResumeReads(r);
    k := P.ResumeIff(c.replay, r.epoch, r.first);
  }
}
