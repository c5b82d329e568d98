/** The timer wheel: timers ordered by due time, then by id. */
module Timers {
  import opened Types
  import opened Sorting

  datatype Kind = Handshake | FragmentGap | Retry | Idle | PongDeadline | Drain

  datatype Timer = Timer(id: u64, kind: Kind, channel: ChannelId, due: u64)

  datatype Wheel = Wheel(nextId: u64, timers: seq<Timer>)

  /** The comparison of due times, then of ids, as one number. */
  function Key(t: Timer): int { t.due * U64_SPAN + t.id }

  function ScheduleSpec(w: Wheel, kind: Kind, channel: ChannelId, due: u64): (Wheel, u64) {
    (Wheel((w.nextId + 1) % U64_SPAN, SortBy(Key, w.timers + [Timer(w.nextId, kind, channel, due)])), w.nextId)
  }

  function Without(ts: seq<Timer>, id: u64): seq<Timer> {
    if ts == [] then [] else (if ts[0].id == id then [] else [ts[0]]) + Without(ts[1..], id)
  }

  function CancelSpec(w: Wheel, id: u64): (Wheel, Result<()>) {
    var rest := Without(w.timers, id);
    (w.(timers := rest), if |rest| == |w.timers| then Err(Error(Internal, IllegalState, NoAction)) else Ok(()))
  }

  /** How many timers at the front are due. */
  function Front(ts: seq<Timer>, now: u64): (n: nat)
    ensures n <= |ts|
  {
    if ts == [] || ts[0].due > now then 0 else 1 + Front(ts[1..], now)
  }

  function ExpireSpec(w: Wheel, now: u64): (Wheel, seq<Timer>) {
    var n := Front(w.timers, now);
    (w.(timers := w.timers[n..]), w.timers[..n])
  }

  class TimerWheel {
    var nextId: u64
    var timers: seq<Timer>

    function State(): Wheel
      reads this
    {
      Wheel(nextId, timers)
    }

    constructor ()
      ensures State() == Wheel(1, [])
    {
      nextId := 1;
      timers := [];
    }

    method Schedule(kind: Kind, channel: ChannelId, due: u64) returns (id: u64)
      modifies this
      ensures (State(), id) == ScheduleSpec(old(State()), kind, channel, due)
    {
      id := nextId;
      nextId := (nextId + 1) % U64_SPAN;
      timers := SortBy(Key, timers + [Timer(id, kind, channel, due)]);
    }

    method Cancel(id: u64) returns (r: Result<()>)
      modifies this
      ensures (State(), r) == CancelSpec(old(State()), id)
    {
      var size := |timers|;
      timers := Without(timers, id);
      if |timers| == size {
        return Err(Error(Internal, IllegalState, NoAction));
      }
      return Ok(());
    }

    method Expire(now: u64) returns (expired: seq<Timer>)
      modifies this
      ensures (State(), expired) == ExpireSpec(old(State()), now)
    {
      expired := [];
      ghost var all := timers;
      while timers != [] && timers[0].due <= now
        invariant |expired| <= |all| && expired == all[..|expired|] && timers == all[|expired|..]
        invariant Front(all, now) == |expired| + Front(timers, now)
        invariant nextId == old(nextId)
        decreases |timers|
      {
        expired := expired + [timers[0]];
        timers := timers[1..];
      }
    }
  }

  // ---------------------------------------------------------------- runs

  datatype Op =
    | Schedule(kind: Kind, channel: ChannelId, due: u64)
    | Cancel(id: u64)
    | Expire(now: u64)

  function Apply(w: Wheel, op: Op): Wheel {
    match op
    case Schedule(kind, channel, due) => ScheduleSpec(w, kind, channel, due).0
    case Cancel(id) => CancelSpec(w, id).0
    case Expire(now) => ExpireSpec(w, now).0
  }

  function After(w: Wheel, ops: seq<Op>): Wheel
    decreases |ops|
  {
    if ops == [] then w else After(Apply(w, ops[0]), ops[1..])
  }

  lemma HeadFirst(ts: seq<Timer>, t: Timer)
    requires ts != [] && SortedBy(Key, ts) && t in ts
    ensures Key(ts[0]) <= Key(t)
  {
    var i :| 0 <= i < |ts| && ts[i] == t;
    if i > 0 { assert Key(ts[0]) <= Key(ts[i]); }
  }

  lemma {:induction false} WithoutSorted(ts: seq<Timer>, id: u64)
    requires SortedBy(Key, ts)
    ensures SortedBy(Key, Without(ts, id))
    ensures forall t <- Without(ts, id) :: t in ts && t.id != id
  {
    hide Key, SortedBy;
    if ts == [] {
      assert SortedBy(Key, ts[..0]) by { assert ts[..0] == ts; }
    } else {
      TailSorted(Key, ts);
      WithoutSorted(ts[1..], id);
      var rest := Without(ts[1..], id);
      forall i | 0 <= i < |rest|
        ensures Key(ts[0]) <= Key(rest[i])
      {
        assert rest[i] in ts[1..];
        HeadFirst(ts, rest[i]);
      }
      SortedCons(Key, ts[0], rest);
      assert [] + rest == rest;
    }
  }

  lemma {:induction false} AlwaysSorted(w: Wheel, ops: seq<Op>)
    requires SortedBy(Key, w.timers)
    ensures SortedBy(Key, After(w, ops).timers)
    decreases |ops|
  {
    if ops != [] {
      match ops[0] {
        case Schedule(kind, channel, due) =>
          SortBySorted(Key, w.timers + [Timer(w.nextId, kind, channel, due)]);
        case Cancel(id) =>
          WithoutSorted(w.timers, id);
        case Expire(now) =>
      }
      AlwaysSorted(Apply(w, ops[0]), ops[1..]);
    }
  }

  lemma KeyOrder(a: Timer, b: Timer)
    requires Key(a) <= Key(b)
    ensures a.due <= b.due
  {
    assert a.due > b.due ==> a.due * U64_SPAN >= (b.due + 1) * U64_SPAN;
  }

  lemma {:induction false} FrontSplits(ts: seq<Timer>, now: u64)
    requires SortedBy(Key, ts)
    ensures forall i :: 0 <= i < |ts| ==> (i < Front(ts, now) <==> ts[i].due <= now)
  {
    hide Key;
    if ts != [] {
      TailSorted(Key, ts);
      FrontSplits(ts[1..], now);
      forall i | 0 <= i < |ts|
        ensures i < Front(ts, now) <==> ts[i].due <= now
      {
        if i > 0 {
          assert ts[i] == ts[1..][i - 1];
          KeyOrder(ts[0], ts[i]);
        }
      }
    }
  }

  /** On every run the timers that expire are exactly those due, soonest first, and all others stay. */
  lemma ExpiresExactlyDue(ops: seq<Op>, now: u64)
    ensures var w := After(Wheel(1, []), ops);
            var (next, expired) := ExpireSpec(w, now);
            && expired + next.timers == w.timers
            && (forall t <- expired :: t.due <= now)
            && (forall t <- next.timers :: t.due > now)
            && SortedBy(Key, expired)
  {
    hide After, Key;
    var w := After(Wheel(1, []), ops);
    AlwaysSorted(Wheel(1, []), ops);
    FrontSplits(w.timers, now);
  }

  /** Cancelling succeeds exactly for an id that some timer carries, and takes exactly the timers of that id away. */
  lemma CancelIff(w: Wheel, id: u64)
    ensures var (next, r) := CancelSpec(w, id);
            && (r.Ok? <==> exists t :: t in w.timers && t.id == id)
            && (forall t :: t in next.timers <==> t in w.timers && t.id != id)
            && (r.Err? ==> next == w)
  {
    WithoutMeaning(w.timers, id);
  }

  lemma {:induction false} WithoutMeaning(ts: seq<Timer>, id: u64)
    ensures forall t :: t in Without(ts, id) <==> t in ts && t.id != id
    ensures |Without(ts, id)| <= |ts|
    ensures |Without(ts, id)| == |ts| <==> forall t <- ts :: t.id != id
    ensures |Without(ts, id)| == |ts| ==> Without(ts, id) == ts
  {
    if ts != [] {
      WithoutMeaning(ts[1..], id);
      assert ts == [ts[0]] + ts[1..];
    }
  }
}
