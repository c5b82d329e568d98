/** Taking the fragments of a message in, and what that leaves behind. */
module EngineReceive {
  import opened Types
  import opened Sorting
  import opened Wire
  import opened EngineModel
  import opened EngineSteps
  import opened EngineRuns
  import opened EngineSend
  import F = FrameCodec
  import C = Channels
  import R = Reassembling
  import T = Timers

  lemma U32Reads(n: u32)
    ensures ReadU32(U32Bytes(n), 0) == n
  {
    hide U32Bytes, ReadU32;
    U32Inverse(n, [], []);
    assert [] + U32Bytes(n) + [] == U32Bytes(n);
  }

  lemma DataNames(f: F.Frame, sequence: u32, offset: nat, total: nat)
    requires f.extensions == DataExtensions(sequence, offset, total) && offset < U32_SPAN && total < U32_SPAN
    ensures ExtensionU32(f, EXT_MESSAGE_SEQ) == Some(sequence) && ExtensionU32(f, EXT_FRAGMENT_OFFSET) == Some(offset)
    ensures ExtensionU32(f, EXT_MESSAGE_TOTAL) == Some(total) && ExtensionU32(f, EXT_FAMILY_ID) == Some(7)
  {
    hide U32Bytes, ReadU32;
    U32Reads(sequence);
    U32Reads(offset);
    U32Reads(total);
    U32Reads(7);
    var es := f.extensions;
    assert es[1..][0] == es[1] && es[1..][1..] == es[2..] && es[2..][1..] == es[3..];
    assert FirstOfKind(es[3..], 4) == Some(es[3]);
    assert FirstOfKind(es[2..], 4) == Some(es[3]) && FirstOfKind(es[2..], 3) == Some(es[2]);
    assert FirstOfKind(es[1..], 4) == Some(es[3]) && FirstOfKind(es[1..], 3) == Some(es[2]) && FirstOfKind(es[1..], 2) == Some(es[1]);
  }

  // ---------------------------------------------------------------- the reassembler of the slot

  /** The two stores hold the same but for message `sequence`. */
  ghost predicate OthersSame(a: R.Reassembly, b: R.Reassembly, sequence: u32) {
    a.limit == b.limit && a.pending - {sequence} == b.pending - {sequence}
  }

  lemma InsertOthers(s: R.Reassembly, channel: ChannelId, sequence: u32, offset: u32, total: u32, bytes: Bytes)
    ensures OthersSame(s, R.InsertSpec(s, channel, sequence, offset, total, bytes).0, sequence)
  {
    hide R.ScanRanges, R.Reaches, R.PasteAll, R.ValidStore;
    assert s.pending - {sequence} - {sequence} == s.pending - {sequence};
  }

  /** A store is its pending messages: the budget follows from them. */
  lemma SameStore(a: R.Reassembly, b: R.Reassembly, sequence: u32)
    requires OthersSame(a, b, sequence) && sequence !in a.pending && sequence !in b.pending
    ensures a == b
  {
    assert a.pending == a.pending - {sequence} && b.pending == b.pending - {sequence};
  }

  /** Slot `i` of the receiver has taken in exactly the first `offset` bytes of message `m`. */
  ghost predicate Gathering(t: C.Table, i: nat, sequence: u32, m: Bytes, offset: nat)
    requires i < |t.slots|
  {
    var s := t.slots[i].fragments;
    && 0 < |m| <= s.limit && |m| < U32_SPAN && |m| <= t.window && offset <= |m|
    && R.Gathers(s, sequence, m)
    && R.Coverage(s, sequence, |m|) == R.Interval(0, offset)
    && s.retained + |m| - offset <= s.limit
  }

  lemma RetainedGrows(s: R.Reassembly, channel: ChannelId, sequence: u32, offset: u32, total: u32, bytes: Bytes)
    ensures var (next, r) := R.InsertSpec(s, channel, sequence, offset, total, bytes);
            next.limit == s.limit && (r.Ok? ==> next.retained <= s.retained + |bytes|)
  {
    hide R.ScanRanges, R.Reaches, R.PasteAll, R.ValidStore;
  }

  lemma PrefixGrows(total: nat, offset: nat, take: nat)
    requires offset + take <= total && take > 0
    ensures R.Interval(0, offset) + R.Interval(offset, offset + take) == R.Interval(0, offset + take)
    ensures R.Interval(0, offset + take) == R.Whole(total) <==> offset + take == total
  {
    var a, b, both := R.Interval(0, offset), R.Interval(offset, offset + take), R.Interval(0, offset + take);
    forall p: int
      ensures p in a + b <==> p in both
    {
      assert p in a <==> 0 <= p < offset;
      assert p in b <==> offset <= p < offset + take;
      assert p in both <==> 0 <= p < offset + take;
    }
    if offset + take < total {
      assert R.Between(0, offset + take, total);
      assert offset + take in R.Whole(total);
      assert offset + take !in both;
    }
  }

  /** The table is the same but for the fragments that slot `i` holds of message `sequence`. */
  ghost predicate OnlyFragments(t: C.Table, next: C.Table, i: nat, sequence: u32) {
    && i < |t.slots| == |next.slots|
    && next == C.With(t, i, t.slots[i].(fragments := next.slots[i].fragments))
    && OthersSame(t.slots[i].fragments, next.slots[i].fragments, sequence)
  }

  lemma OnlyFragmentsOn(a: C.Table, b: C.Table, c: C.Table, i: nat, sequence: u32)
    requires OnlyFragments(a, b, i, sequence) && OnlyFragments(b, c, i, sequence)
    ensures OnlyFragments(a, c, i, sequence)
  {
    hide OthersSame;
    OthersOn(a.slots[i].fragments, b.slots[i].fragments, c.slots[i].fragments, sequence);
    assert a.slots[i := b.slots[i]][i := c.slots[i]] == a.slots[i := c.slots[i]];
  }

  lemma OthersOn(a: R.Reassembly, b: R.Reassembly, c: R.Reassembly, sequence: u32)
    requires OthersSame(a, b, sequence) && OthersSame(b, c, sequence)
    ensures OthersSame(a, c, sequence)
  {
  }

  /** Once the message is gone again nothing has changed. */
  lemma NothingLeft(t: C.Table, next: C.Table, i: nat, sequence: u32)
    requires OnlyFragments(t, next, i, sequence)
    requires sequence !in t.slots[i].fragments.pending && sequence !in next.slots[i].fragments.pending
    ensures next == t
  {
    SameStore(t.slots[i].fragments, next.slots[i].fragments, sequence);
    assert t.slots[i := t.slots[i]] == t.slots;
  }

  /** With all its credit there, a slot passes the fragment straight to its reassembler. */
  lemma AbsorbIs(t: C.Table, i: nat, id: ChannelId, sequence: u32, offset: u32, total: u32, bytes: Bytes)
    requires SaneTable(t) && i < |t.slots| && |bytes| <= t.window
    ensures var (next, r) := Absorb(t, i, id, sequence, offset, total, bytes);
            var (fragments, outcome) := R.InsertSpec(t.slots[i].fragments, id, sequence, offset, total, bytes);
            next == C.With(t, i, t.slots[i].(fragments := fragments)) && r == outcome
  {
    hide R.InsertSpec;
    assert SaneSlot(t, i);
    C.ReserveRelease(t.slots[i].flow, |bytes|);
  }

  lemma AbsorbOnly(t: C.Table, i: nat, id: ChannelId, sequence: u32, offset: u32, total: u32, bytes: Bytes)
    requires SaneTable(t) && i < |t.slots| && |bytes| <= t.window
    ensures OnlyFragments(t, Absorb(t, i, id, sequence, offset, total, bytes).0, i, sequence)
  {
    hide R.InsertSpec, SaneTable, Absorb, OthersSame;
    AbsorbIs(t, i, id, sequence, offset, total, bytes);
    InsertOthers(t.slots[i].fragments, id, sequence, offset, total, bytes);
  }

  /** The next fragment in order: taken in without loss of credit, and completing the message if it is the last. */
  lemma AbsorbNext(t: C.Table, i: nat, id: ChannelId, sequence: u32, m: Bytes, offset: nat, take: nat)
    requires SaneTable(t) && i < |t.slots| && Gathering(t, i, sequence, m, offset)
    requires 0 < take && offset + take <= |m|
    ensures var part := m[offset..offset + take];
            var (next, r) := Absorb(t, i, id, sequence, offset, |m|, part);
            && SaneTable(next) && OnlyFragments(t, next, i, sequence)
            && (offset + take < |m| ==> r == Ok(None) && Gathering(next, i, sequence, m, offset + take))
            && (offset + take == |m| ==>
                  r == Ok(Some(R.LogicalMessage(id, sequence, m))) && sequence !in next.slots[i].fragments.pending)
  {
    hide R.InsertSpec, R.Gathers, R.Coverage, SaneTable, R.Interval, R.Whole, R.ValidStore, Absorb;
    var part := m[offset..offset + take];
    var s := t.slots[i].fragments;
    assert R.SliceOf(m, R.Range(offset, part));
    assert R.Positions(R.Range(offset, part)) == R.Interval(offset, offset + take);
    R.SliceStep(s, id, sequence, m, offset, part);
    PrefixGrows(|m|, offset, take);
    RetainedGrows(s, id, sequence, offset, |m|, part);
    AbsorbFlow(t, i, id, sequence, offset, |m|, part);
    AbsorbIs(t, i, id, sequence, offset, |m|, part);
    AbsorbOnly(t, i, id, sequence, offset, |m|, part);
  }

  // ---------------------------------------------------------------- fragment by fragment

  /** The receiver takes this message in: the channel is open towards it and the number not behind. */
  ghost predicate Taking(d: Conn, id: ChannelId, sequence: u32, m: Bytes, offset: nat) {
    && d.state == Active && Sane(d) && Live(d, id).Some?
    && var t, i := d.channels.value, Live(d, id).value;
       !t.slots[i].remoteClosed && t.slots[i].nextRecv <= sequence && Gathering(t, i, sequence, m, offset)
  }

  /** What the receiver notes when the message is complete and its turn has come. */
  function MessageEvent(id: ChannelId, sequence: u32, m: Bytes): Event {
    Event(MessageDelivered, id, sequence, m, None)
  }

  lemma TakingSmall(d: Conn, id: ChannelId, sequence: u32, m: Bytes, offset: nat)
    requires Taking(d, id, sequence, m, offset)
    ensures |m| < U32_SPAN && d.channels.Some? && SaneTable(d.channels.value)
  {
  }

  lemma DataAbsorbed(host: Host, d: Conn, f: F.Frame, id: ChannelId, sequence: u32, m: Bytes, offset: nat, take: nat)
    requires Taking(d, id, sequence, m, offset) && 0 < take && offset + take <= |m| < U32_SPAN
    requires f.kind == F.Data && f.channel == id && f.payload == m[offset..offset + take]
    requires f.extensions == DataExtensions(sequence, offset, |m|)
    ensures var i := Live(d, id).value;
            var (t, outcome) := Absorb(d.channels.value, i, id, sequence, offset, |m|, f.payload);
            && Live(d.(channels := Some(t)), id) == Some(i)
            && HandleFrame(host, d, f) == Deliver(host, d.(channels := Some(t)), i, id, 7, outcome)
  {
    hide Absorb, Deliver, DataExtensions, Gathering, Sane, ExtensionU32;
    DataNames(f, sequence, offset, |m|);
    AbsorbNames(d.channels.value, Live(d, id).value, id, sequence, offset, |m|, f.payload);
  }

  lemma TakesOn(d: Conn, next: Conn, id: ChannelId, sequence: u32, m: Bytes, offset: nat, more: nat)
    requires Taking(d, id, sequence, m, offset) && next.state == Active && next.channels.Some? && SaneTable(next.channels.value)
    requires Live(next, id) == Live(d, id) && OnlyFragments(d.channels.value, next.channels.value, Live(d, id).value, sequence)
    requires Gathering(next.channels.value, Live(d, id).value, sequence, m, more)
    ensures Taking(next, id, sequence, m, more)
  {
  }

  /** A gap timer of this channel is set. */
  ghost predicate GapSet(c: Conn, id: ChannelId, due: u64) {
    exists t :: t in c.timers.timers && t.kind == T.FragmentGap && t.channel == id && t.due == due
  }

  /** Every timer that was set still is. */
  ghost predicate KeepsTimers(c: Conn, next: Conn) { forall t <- c.timers.timers :: t in next.timers.timers }

  lemma ScheduledOnly(c: Conn, kind: T.Kind, channel: ChannelId, delay: u64)
    ensures var next := Scheduled(c, kind, channel, delay);
            next == c.(timers := next.timers)
  {
  }

  /** The new timer is there, and so are all others. */
  lemma ScheduledHas(c: Conn, kind: T.Kind, channel: ChannelId, delay: u64)
    ensures var next := Scheduled(c, kind, channel, delay);
            var added := T.Timer(c.timers.nextId, kind, channel, (c.now + delay) % U64_SPAN);
            forall t :: t in next.timers.timers <==> t in c.timers.timers || t == added
  {
    SortByMembers(T.Key, c.timers.timers + [T.Timer(c.timers.nextId, kind, channel, (c.now + delay) % U64_SPAN)]);
  }

  /** A fragment that leaves the message unfinished changes nothing but its fragments, and sets a gap timer. */
  lemma MiddleFragment(host: Host, d: Conn, f: F.Frame, id: ChannelId, sequence: u32, m: Bytes, offset: nat, take: nat)
    requires Taking(d, id, sequence, m, offset) && 0 < take && offset + take < |m| < U32_SPAN
    requires f.kind == F.Data && f.channel == id && f.payload == m[offset..offset + take]
    requires f.extensions == DataExtensions(sequence, offset, |m|)
    ensures var (next, r) := HandleFrame(host, d, f);
            && r == Ok([]) && Taking(next, id, sequence, m, offset + take) && Live(next, id) == Live(d, id)
            && next == d.(channels := next.channels, timers := next.timers) && next.channels.Some?
            && OnlyFragments(d.channels.value, next.channels.value, Live(d, id).value, sequence)
            && GapSet(next, id, (d.now + 1000) % U64_SPAN) && KeepsTimers(d, next)
  {
    hide Absorb, DataExtensions, Gathering, Sane, HandleFrame, OnlyFragments, Live, SaneTable, Scheduled;
    TakingSmall(d, id, sequence, m, offset);
    TakingLive(d, id, sequence, m, offset);
    var t, i := d.channels.value, Live(d, id).value;
    DataAbsorbed(host, d, f, id, sequence, m, offset, take);
    AbsorbNext(t, i, id, sequence, m, offset, take);
    var absorbed := d.(channels := Some(Absorb(t, i, id, sequence, offset, |m|, f.payload).0));
    ScheduledOnly(absorbed, T.FragmentGap, id, FRAGMENT_GAP);
    ScheduledHas(absorbed, T.FragmentGap, id, FRAGMENT_GAP);
    var next := HandleFrame(host, d, f).0;
    assert next.channels == Some(Absorb(t, i, id, sequence, offset, |m|, f.payload).0);
    LiveFields(d.(channels := next.channels), next, id);
    TakesOn(d, next, id, sequence, m, offset, offset + take);
    assert next == Scheduled(absorbed, T.FragmentGap, id, FRAGMENT_GAP);
    var gap := T.Timer(d.timers.nextId, T.FragmentGap, id, (d.now + 1000) % U64_SPAN);
    assert gap in next.timers.timers;
  }

  lemma TakingLive(d: Conn, id: ChannelId, sequence: u32, m: Bytes, offset: nat)
    requires Taking(d, id, sequence, m, offset)
    ensures Live(d, id).Some? && Gathering(d.channels.value, Live(d, id).value, sequence, m, offset) && d.state == Active
  {
  }

  lemma LiveFields(a: Conn, b: Conn, id: ChannelId)
    requires a.channels == b.channels
    ensures Live(a, id) == Live(b, id)
  {
  }

  /** The last fragment completes the message and leaves none of it behind. */
  lemma LastFragment(host: Host, d: Conn, f: F.Frame, id: ChannelId, sequence: u32, m: Bytes, offset: nat) returns (mid: Conn)
    requires Taking(d, id, sequence, m, offset) && offset < |m| < U32_SPAN
    requires f.kind == F.Data && f.channel == id && f.payload == m[offset..]
    requires f.extensions == DataExtensions(sequence, offset, |m|)
    ensures Live(mid, id) == Live(d, id) && mid == d.(channels := mid.channels) && mid.channels.Some?
    ensures OnlyFragments(d.channels.value, mid.channels.value, Live(d, id).value, sequence)
    ensures sequence !in mid.channels.value.slots[Live(d, id).value].fragments.pending
    ensures HandleFrame(host, d, f)
         == Deliver(host, mid, Live(d, id).value, id, 7, Ok(Some(R.LogicalMessage(id, sequence, m))))
  {
    hide Absorb, DataExtensions, Gathering, Sane, HandleFrame, Deliver, OnlyFragments, Live, SaneTable;
    TakingSmall(d, id, sequence, m, offset);
    TakingLive(d, id, sequence, m, offset);
    var t, i := d.channels.value, Live(d, id).value;
    assert m[offset..] == m[offset..offset + (|m| - offset)];
    DataAbsorbed(host, d, f, id, sequence, m, offset, |m| - offset);
    AbsorbNext(t, i, id, sequence, m, offset, |m| - offset);
    mid := d.(channels := Some(Absorb(t, i, id, sequence, offset, |m|, f.payload).0));
  }

  // ---------------------------------------------------------------- a batch of frames

  function Ended(produced: (Conn, Reply)): (Conn, Reply) {
    if produced.1.Ok? then produced
    else
      (Diagnosed(produced.0, produced.1.error).(state :=
         if produced.1.error.action == CloseConnection then Closed else produced.0.state),
       produced.1)
  }

  lemma FirstEvent(host: Host, c: Conn, f: F.Frame, rest: seq<F.DecodeEvent>, out: seq<Bytes>)
    requires |f.payload| < U64_SPAN && forall e <- rest :: e.Decoded? ==> |e.frame.payload| < U64_SPAN
    ensures var produced := HandleFrame(host, c, f);
            HandleEvents(host, c, [F.Decoded(f)] + rest, out)
            == if produced.1.Err? then Ended(produced) else HandleEvents(host, produced.0, rest, out + produced.1.value)
  {
    hide HandleFrame;
    assert ([F.Decoded(f)] + rest)[1..] == rest;
  }

  lemma NoEvent(host: Host, c: Conn, out: seq<Bytes>)
    ensures HandleEvents(host, c, [], out) == (c, Ok(out))
  {
  }

  /** A batch of one frame. */
  lemma OnlyEvent(host: Host, c: Conn, f: F.Frame)
    requires |f.payload| < U64_SPAN
    ensures HandleEvents(host, c, [F.Decoded(f)], []) == Ended(HandleFrame(host, c, f))
  {
    hide HandleFrame, HandleEvents, Diagnosed;
    FirstEvent(host, c, f, [], []);
    assert [F.Decoded(f)] + [] == [F.Decoded(f)];
    var produced := HandleFrame(host, c, f);
    if produced.1.Ok? {
      NoEvent(host, produced.0, produced.1.value);
      assert [] + produced.1.value == produced.1.value;
    }
  }

  /** The decoded fragments, handled in order, end with the verdict on the whole message. */
  lemma {:induction false} PiecesDeliver(host: Host, d: Conn, n: u32, id: ChannelId, sequence: u32, m: Bytes, size: nat, offset: nat)
    returns (mid: Conn)
    requires size >= 1 && Taking(d, id, sequence, m, offset) && offset < |m| < U32_SPAN
    requires forall e <- Events(Pieces(n, id, sequence, m, size, offset)) :: e.Decoded? ==> |e.frame.payload| < U64_SPAN
    ensures Live(d, id).Some? && Live(mid, id) == Live(d, id)
    ensures mid == d.(channels := mid.channels, timers := mid.timers) && mid.channels.Some?
    ensures OnlyFragments(d.channels.value, mid.channels.value, Live(d, id).value, sequence)
    ensures sequence !in mid.channels.value.slots[Live(d, id).value].fragments.pending
    ensures KeepsTimers(d, mid) && (offset + size < |m| ==> GapSet(mid, id, (d.now + 1000) % U64_SPAN))
    ensures HandleEvents(host, d, Events(Pieces(n, id, sequence, m, size, offset)), [])
         == Ended(Deliver(host, mid, Live(d, id).value, id, 7, Ok(Some(R.LogicalMessage(id, sequence, m)))))
    decreases |m| - offset
  {
    hide DataExtensions, HandleFrame, HandleEvents, Deliver, Taking, OnlyFragments, Live, Ended;
    TakingLive(d, id, sequence, m, offset);
    var take := Min(size, |m| - offset);
    var fs := Pieces(n, id, sequence, m, size, offset);
    var f, rest := fs[0], Pieces((n + 1) % U32_SPAN, id, sequence, m, size, offset + size);
    assert fs == [f] + rest && fs[1..] == rest;
    assert Events(fs) == [F.Decoded(f)] + Events(rest);
    if offset + take == |m| {
      assert rest == [] && Events(fs) == [F.Decoded(f)];
      OnlyEvent(host, d, f);
      assert m[offset..offset + take] == m[offset..];
      mid := LastFragment(host, d, f, id, sequence, m, offset);
    } else {
      FirstEvent(host, d, f, Events(rest), []);
      MiddleFragment(host, d, f, id, sequence, m, offset, take);
      var next := HandleFrame(host, d, f).0;
      assert forall e <- Events(rest) :: e in Events(fs);
      assert next.now == d.now;
      mid := PiecesDeliver(host, next, (n + 1) % U32_SPAN, id, sequence, m, size, offset + size);
      OnlyFragmentsOn(d.channels.value, next.channels.value, mid.channels.value, Live(d, id).value, sequence);
      var nothing: seq<Bytes> := [];
      assert nothing + [] == nothing;
    }
  }

  /** What the receiver needs: room for the message, nothing of it so far, and a number that is not behind. */
  ghost predicate CanTake(d: Conn, id: ChannelId, sequence: u32, m: Bytes, maxFrame: nat) {
    && d.state == Active && Sane(d) && Live(d, id).Some? && d.buffer == []
    && maxFrame <= d.policy.maxFrame
    && var slot := d.channels.value.slots[Live(d, id).value];
       && !slot.remoteClosed && slot.nextRecv <= sequence
       && 0 < |m| < U32_SPAN && |m| <= d.channels.value.window
       && sequence !in slot.fragments.pending && slot.fragments.retained + |m| <= slot.fragments.limit
  }

  /** And it is this message's turn. */
  ghost predicate CanReceive(d: Conn, id: ChannelId, sequence: u32, m: Bytes, maxFrame: nat) {
    CanTake(d, id, sequence, m, maxFrame) && d.channels.value.slots[Live(d, id).value].nextRecv == sequence
  }

  lemma TakeStarts(d: Conn, id: ChannelId, sequence: u32, m: Bytes, maxFrame: nat)
    requires CanTake(d, id, sequence, m, maxFrame)
    ensures Taking(d, id, sequence, m, 0) && d.buffer == [] && maxFrame <= d.policy.maxFrame && 0 < |m| < U32_SPAN
    ensures Live(d, id).Some? && sequence !in d.channels.value.slots[Live(d, id).value].fragments.pending
  {
    hide Sane, R.ValidStore;
    var s := d.channels.value.slots[Live(d, id).value].fragments;
    R.NothingGathered(s, sequence, m);
    assert R.Interval(0, 0) == {};
  }

  /** The verdict on the message, with nothing but the timers changed so far. */
  function Verdict(host: Host, d: Conn, id: ChannelId, sequence: u32, m: Bytes): (Conn, Reply)
    requires Live(d, id).Some?
  {
    Ended(Deliver(host, d, Live(d, id).value, id, 7, Ok(Some(R.LogicalMessage(id, sequence, m)))))
  }

  /** The bytes a sender hands out for a message, received: all that is left to say is the verdict. */
  lemma ReceiveVerdict(c: Conn, receiver: Host, d: Conn, id: ChannelId, m: Bytes) returns (later: Conn)
    requires CanSend(c, id, m)
    requires CanTake(d, id, c.channels.value.slots[Live(c, id).value].nextSend, m, c.capabilities.value.maxFrame)
    ensures |m| < U64_SPAN && SendSpec(c, id, m).1.Ok?
    ensures later == d.(timers := later.timers) && Live(later, id) == Live(d, id) && Live(d, id).Some?
    ensures c.capabilities.Some? && (|m| > MaxFragment(c.capabilities.value) ==> GapSet(later, id, (d.now + 1000) % U64_SPAN))
    ensures ReceiveSpec(receiver, d, Flat(SendSpec(c, id, m).1.value), false)
         == Verdict(receiver, later, id, c.channels.value.slots[Live(c, id).value].nextSend, m)
  {
    hide CanSend, CanTake, SendSpec, HandleEvents, F.Drain, F.EncodeSpec, Pieces, Deliver, Taking, Live, Sent, OnlyFragments, Ended,
         Sends;
    SenderShape(c, id, m);
    var caps := c.capabilities.value;
    var sequence := c.channels.value.slots[Live(c, id).value].nextSend;
    var fs := Sent(c, id, m);
    SentPieces(c, id, m);
    SendHandsOut(c, id, m);
    PiecesAreData(c.nextFrame, id, sequence, m, MaxFragment(caps), 0);
    TakeStarts(d, id, sequence, m, caps.maxFrame);
    DecodesBack(Limits(c.policy), Limits(d.policy), caps.maxFrame, fs, []);
    var whole := Flat(Encoded(Limits(c.policy), fs));
    assert d.buffer + whole == whole;
    assert [] + Events(fs) == Events(fs);
    DecodedSmall(Limits(d.policy), whole, false, []);
    var mid := PiecesDeliver(receiver, d, c.nextFrame, id, sequence, m, MaxFragment(caps), 0);
    NothingLeft(d.channels.value, mid.channels.value, Live(d, id).value, sequence);
    assert d.(buffer := []) == d;
    later := mid;
    LiveChannels(d, id);
  }

  lemma LiveChannels(d: Conn, id: ChannelId)
    requires Live(d, id).Some?
    ensures d.channels.Some?
  {
  }

  /** How the receiver's batch ends once the message has been delivered. */
  function Dispatched(host: Host, c: Conn, message: R.LogicalMessage): (Conn, Reply) {
    Ended(Dispatch(host, c, 7, message))
  }

  /** The receiver after a delivery: one event more, the counter one further, and the timers changed. */
  function AfterDelivery(d: Conn, later: Conn, id: ChannelId, m: Bytes): Conn
    requires Live(d, id).Some?
  {
    Delivered(d.(timers := later.timers), Live(d, id).value, id, 7, m)
  }

  /**
   Fragment, encode, decode, reassemble: the receiver delivers exactly the message that was sent, under
   the number the sender gave it, and hands it to its plugin. It then waits for the next number, with all
   its credit and its other fragments as they were.
   */
  lemma SendThenReceive(c: Conn, receiver: Host, d: Conn, id: ChannelId, m: Bytes) returns (later: Conn)
    requires CanSend(c, id, m)
    requires CanReceive(d, id, c.channels.value.slots[Live(c, id).value].nextSend, m, c.capabilities.value.maxFrame)
    ensures |m| < U64_SPAN && SendSpec(c, id, m).1.Ok? && Live(d, id).Some?
    ensures c.capabilities.Some? && (|m| > MaxFragment(c.capabilities.value) ==> GapSet(later, id, (d.now + 1000) % U64_SPAN))
    ensures ReceiveSpec(receiver, d, Flat(SendSpec(c, id, m).1.value), false)
         == Dispatched(receiver, AfterDelivery(d, later, id, m),
                       R.LogicalMessage(id, c.channels.value.slots[Live(c, id).value].nextSend, m))
  {
    hide CanSend, CanTake, SendSpec, ReceiveSpec, Dispatch, Live, Ended;
    later := ReceiveVerdict(c, receiver, d, id, m);
  }

  /**
   A message that is not the one waited for is taken in and then refused: no event of it, no response, and
   the counter stays, so that channel never gets past the gap.
   */
  lemma SendOutOfStep(c: Conn, receiver: Host, d: Conn, id: ChannelId, m: Bytes) returns (later: Conn)
    requires CanSend(c, id, m)
    requires CanTake(d, id, c.channels.value.slots[Live(c, id).value].nextSend, m, c.capabilities.value.maxFrame)
    requires d.channels.value.slots[Live(d, id).value].nextRecv < c.channels.value.slots[Live(c, id).value].nextSend
    ensures |m| < U64_SPAN && SendSpec(c, id, m).1.Ok?
    ensures var refusal := Error(Message, SequenceError, ResetChannel);
            ReceiveSpec(receiver, d, Flat(SendSpec(c, id, m).1.value), false)
            == (Diagnosed(d.(timers := later.timers), refusal), Err(refusal))
  {
    hide CanSend, CanTake, SendSpec, ReceiveSpec, Dispatch, Live;
    later := ReceiveVerdict(c, receiver, d, id, m);
  }

  // ---------------------------------------------------------------- in terms of events

  lemma DispatchedEvents(host: Host, c: Conn, message: R.LogicalMessage)
    ensures var next := Dispatched(host, c, message).0;
            && |c.events| <= |next.events| && next.events[..|c.events|] == c.events
            && forall k :: |c.events| <= k < |next.events| ==> next.events[k].kind != MessageDelivered
  {
    hide C.Find;
  }

  /** In terms of the receiver's events: the message that was sent, once, and no other message. */
  lemma ExactlyOneMessage(c: Conn, receiver: Host, d: Conn, id: ChannelId, m: Bytes)
    requires CanSend(c, id, m)
    requires CanReceive(d, id, c.channels.value.slots[Live(c, id).value].nextSend, m, c.capabilities.value.maxFrame)
    ensures |m| < U64_SPAN && SendSpec(c, id, m).1.Ok?
    ensures var sequence := c.channels.value.slots[Live(c, id).value].nextSend;
            var n, events := |d.events|, ReceiveSpec(receiver, d, Flat(SendSpec(c, id, m).1.value), false).0.events;
            && n < |events| && events[..n] == d.events
            && events[n] == MessageEvent(id, sequence, m)
            && forall k :: n < k < |events| ==> events[k].kind != MessageDelivered
  {
    hide CanSend, CanTake, SendSpec, ReceiveSpec, Dispatched, Live, Flat;
    SenderShape(c, id, m);
    var sequence := c.channels.value.slots[Live(c, id).value].nextSend;
    var later := SendThenReceive(c, receiver, d, id, m);
    var mid := AfterDelivery(d, later, id, m);
    DispatchedEvents(receiver, mid, R.LogicalMessage(id, sequence, m));
    Earlier(ReceiveSpec(receiver, d, Flat(SendSpec(c, id, m).1.value), false).0.events, mid.events, |d.events|);
  }

  lemma Earlier(events: seq<Event>, mid: seq<Event>, n: nat)
    requires |mid| == n + 1 <= |events| && events[..n + 1] == mid
    ensures events[..n] == mid[..n] && events[n] == mid[n]
  {
    assert events[..n] == events[..n + 1][..n];
  }

  /** A channel at the start of its lifetime can receive any message within the caps. */
  lemma FreshChannelReceives(d: Conn, id: ChannelId, m: Bytes, maxFrame: nat)
    requires Sane(d) && Phased(d) && d.state == Active && d.buffer == [] && maxFrame <= d.policy.maxFrame
    requires Live(d, id).Some?
    requires d.channels.value.slots[Live(d, id).value] == C.NewLifetime(d.channels.value, id, C.Open)
    requires 0 < |m| <= d.capabilities.value.maxMessage && |m| <= d.channels.value.window
    ensures CanReceive(d, id, 1, m, maxFrame)
  {
  }
}
