/** The bounded window of sent frames: recording, selective acknowledgement, retry and resume. */
module Replay {
  import opened Types
  import opened Sorting
  import opened Wire

  datatype Entry = Entry(epoch: u16, sequence: u32, encoded: Bytes, retries: u8)

  datatype AckRange = AckRange(first: u32, last: u32) {
    predicate Has(n: int) { first <= n <= last }
  }

  datatype Window = Window(capacity: u64, epoch: u16, entries: seq<Entry>)

  predicate Contains(es: seq<Entry>, n: u32) { exists e <- es :: e.sequence == n }

  predicate Ascending(es: seq<Entry>) {
    forall i, j :: 0 <= i < j < |es| ==> es[i].sequence < es[j].sequence
  }

  function Earliest(w: Window): Option<u32> {
    if w.entries == [] then None else Some(w.entries[0].sequence)
  }

  function Latest(w: Window): Option<u32> {
    if w.entries == [] then None else Some(w.entries[|w.entries| - 1].sequence)
  }

  // ---------------------------------------------------------------- operations on values

  predicate Full(w: Window) { |w.entries| >= w.capacity }

  /** A full window drops its front entry. */
  function RecordSpec(w: Window, epoch: u16, n: u32, encoded: Bytes): (Window, Result<()>)
    requires 1 <= w.capacity
  {
    if epoch != w.epoch then (w, Err(ConnectionError(ResumeRejected)))
    else if Contains(w.entries, n) then (w, Err(ConnectionError(SequenceError)))
    else
      var kept := if Full(w) then w.entries[1..] else w.entries;
      (w.(entries := kept + [Entry(epoch, n, encoded, 0)]), Ok(()))
  }

  /**
   A frame is recorded exactly in the window's epoch and under a number that is not there. It comes last, and one
   entry, the oldest, gives way exactly when the window is full. Otherwise nothing changes.
   */
  lemma RecordIff(w: Window, epoch: u16, n: u32, encoded: Bytes)
    requires 1 <= w.capacity && |w.entries| <= w.capacity
    ensures var (next, r) := RecordSpec(w, epoch, n, encoded);
            && (r.Ok? <==> epoch == w.epoch && forall e <- w.entries :: e.sequence != n)
            && (r.Err? ==> next == w)
            && (r.Ok? ==>
                  && next.capacity == w.capacity && next.epoch == w.epoch
                  && next.entries
                     == (if |w.entries| == w.capacity then w.entries[1..] else w.entries) + [Entry(epoch, n, encoded, 0)])
  {
    ContainsIff(w.entries, n);
  }

  lemma {:induction false} ContainsIff(es: seq<Entry>, n: u32)
    ensures Contains(es, n) <==> exists e :: e in es && e.sequence == n
  {
  }

  lemma RecordRefused(w: Window, epoch: u16, n: u32, encoded: Bytes)
    requires 1 <= w.capacity && RecordSpec(w, epoch, n, encoded).1.Err?
    ensures RecordSpec(w, epoch, n, encoded).0 == w
  {
  }

  function First(r: AckRange): int { r.first }

  predicate RangeFits(rs: seq<AckRange>, latest: Option<u32>, i: nat)
    requires i < |rs|
  {
    && rs[i].first <= rs[i].last
    && (i > 0 ==> rs[i - 1].last < rs[i].first)
    && (latest.Some? ==> rs[i].last <= latest.value)
  }

  predicate Orderly(rs: seq<AckRange>, latest: Option<u32>) {
    forall i :: 0 <= i < |rs| ==> RangeFits(rs, latest, i)
  }

  predicate Acked(rs: seq<AckRange>, n: u32) { exists r <- rs :: r.Has(n) }

  /** The entries whose sequence the ranges do (or do not) name, in order. */
  function Pick(es: seq<Entry>, rs: seq<AckRange>, acked: bool): seq<Entry> {
    if es == [] then []
    else (if Acked(rs, es[0].sequence) == acked then [es[0]] else []) + Pick(es[1..], rs, acked)
  }

  function AcknowledgeSpec(w: Window, epoch: u16, ranges: seq<AckRange>): (Window, Result<seq<Entry>>) {
    var rs := SortBy(First, ranges);
    if epoch != w.epoch then (w, Err(ConnectionError(ResumeRejected)))
    else if !Orderly(rs, Latest(w)) then (w, Err(ConnectionError(SequenceError)))
    else (w.(entries := Pick(w.entries, rs, false)), Ok(Pick(w.entries, rs, true)))
  }

  /** Counts up from the front until an entry has used its retries; `false` when one has. */
  function Retried(es: seq<Entry>, limit: u8): (seq<Entry>, bool) {
    if es == [] then ([], true)
    else if es[0].retries >= limit then (es, false)
    else
      var (rest, ok) := Retried(es[1..], limit);
      ([es[0].(retries := es[0].retries + 1)] + rest, ok)
  }

  function RetrySpec(w: Window, limit: u8): (Window, Result<seq<Entry>>) {
    var (es, ok) := Retried(w.entries, limit);
    (w.(entries := es), if ok then Ok(es) else Err(ChannelError(SequenceError)))
  }

  function CanResume(w: Window, epoch: u16, first: u32): Result<()> {
    if epoch != w.epoch || w.entries == [] then Err(ConnectionError(ResumeRejected))
    else
      var latest := Latest(w).value;
      var bound := if latest == U32_SPAN - 1 then latest else latest + 1;
      if first < Earliest(w).value || first > bound then Err(ConnectionError(ResumeRejected)) else Ok(())
  }

  function Since(es: seq<Entry>, first: u32): seq<Entry> {
    if es == [] then []
    else (if es[0].sequence >= first then [es[0]] else []) + Since(es[1..], first)
  }

  function RetainedFromSpec(w: Window, epoch: u16, first: u32): Result<seq<Entry>> {
    if CanResume(w, epoch, first).Err? then Err(CanResume(w, epoch, first).error) else Ok(Since(w.entries, first))
  }

  lemma Picked(es: seq<Entry>, rs: seq<AckRange>)
    requires es != []
    ensures Pick(es, rs, true) == (if Acked(rs, es[0].sequence) then [es[0]] else []) + Pick(es[1..], rs, true)
    ensures Pick(es, rs, false) == (if Acked(rs, es[0].sequence) then [] else [es[0]]) + Pick(es[1..], rs, false)
  {
  }

  /** Erasing, replacing or passing over the element after `a`. */
  lemma AtSeam<T>(a: seq<T>, b: seq<T>, x: T)
    requires b != []
    ensures (a + b)[..|a|] + (a + b)[|a| + 1..] == a + b[1..]
    ensures (a + b)[|a| := x] == (a + [x]) + b[1..]
    ensures a + b == (a + [b[0]]) + b[1..]
  {
  }

  lemma RetriedFront(es: seq<Entry>, limit: u8)
    requires es != []
    ensures es[0].retries >= limit ==> Retried(es, limit) == (es, false)
    ensures es[0].retries < limit ==>
              var (rest, ok) := Retried(es[1..], limit);
              Retried(es, limit) == ([es[0].(retries := es[0].retries + 1)] + rest, ok)
  {
  }

  // ---------------------------------------------------------------- the window itself

  method CheckRanges(rs: seq<AckRange>, latest: Option<u32>) returns (ok: bool)
    ensures ok == Orderly(rs, latest)
  {
    for i := 0 to |rs|
      invariant forall j :: 0 <= j < i ==> RangeFits(rs, latest, j)
    {
      if rs[i].first > rs[i].last {
        assert !RangeFits(rs, latest, i);
        return false;
      }
      if i > 0 && rs[i - 1].last >= rs[i].first {
        assert !RangeFits(rs, latest, i);
        return false;
      }
      if latest.Some? && rs[i].last > latest.value {
        assert !RangeFits(rs, latest, i);
        return false;
      }
    }
    return true;
  }

  class ReplayWindow {
    const capacity: u64
    const epoch: u16
    var entries: seq<Entry>

    function State(): Window
      reads this
    {
      Window(capacity, epoch, entries)
    }

    constructor (capacity: u64)
      ensures State() == Window(capacity, 1, [])
    {
      this.capacity := capacity;
      epoch := 1;
      entries := [];
    }

    constructor Restored(w: Window)
      ensures State() == w
    {
      capacity := w.capacity;
      epoch := w.epoch;
      entries := w.entries;
    }

    method Record(epoch: u16, n: u32, encoded: Bytes) returns (r: Result<()>)
      requires 1 <= capacity
      modifies this
      ensures (State(), r) == RecordSpec(old(State()), epoch, n, encoded)
    {
      if epoch != this.epoch {
        return Err(ConnectionError(ResumeRejected));
      }
      if Contains(entries, n) {
        return Err(ConnectionError(SequenceError));
      }
      if |entries| >= capacity {
        entries := entries[1..];
      }
      entries := entries + [Entry(epoch, n, encoded, 0)];
      return Ok(());
    }

    method Acknowledge(epoch: u16, ranges: seq<AckRange>) returns (r: Result<seq<Entry>>)
      modifies this
      ensures (State(), r) == AcknowledgeSpec(old(State()), epoch, ranges)
    {
      if epoch != this.epoch {
        return Err(ConnectionError(ResumeRejected));
      }
      var rs := SortBy(First, ranges);
      var ok := CheckRanges(rs, Latest(State()));
      if !ok {
        return Err(ConnectionError(SequenceError));
      }
      r := Retire(rs);
    }

    /** Erases the named entries one by one and returns them. */
    method Retire(rs: seq<AckRange>) returns (r: Result<seq<Entry>>)
      modifies this
      ensures r == Ok(Pick(old(entries), rs, true))
      ensures entries == Pick(old(entries), rs, false)
    {
      hide Acked;
      ghost var kept, rest := [], entries;
      var retired: seq<Entry> := [];
      var i := 0;
      assert kept + Pick(rest, rs, false) == Pick(rest, rs, false);
      while i < |entries|
        invariant entries == kept + rest && |kept| == i
        invariant kept + Pick(rest, rs, false) == Pick(old(entries), rs, false)
        invariant retired + Pick(rest, rs, true) == Pick(old(entries), rs, true)
        decreases |rest|
      {
        hide Pick;
        Picked(rest, rs);
        var e := entries[i];
        AtSeam(kept, rest, e);
        if Acked(rs, e.sequence) {
          Assoc(retired, [e], Pick(rest[1..], rs, true));
          retired := retired + [e];
          entries := entries[..i] + entries[i + 1..];
        } else {
          Assoc(kept, [e], Pick(rest[1..], rs, false));
          i := i + 1;
          kept := kept + [e];
        }
        rest := rest[1..];
      }
      assert rest == [] && kept + [] == kept && retired + [] == retired;
      return Ok(retired);
    }

    method DueForRetry(limit: u8) returns (r: Result<seq<Entry>>)
      modifies this
      ensures (State(), r) == RetrySpec(old(State()), limit)
    {
      ghost var all := entries;
      var due: seq<Entry> := [];
      ghost var rest := entries;
      assert [] + Retried(rest, limit).0 == Retried(rest, limit).0;
      for i := 0 to |entries|
        invariant entries == due + rest && |due| == i && |entries| == |all|
        invariant Retried(all, limit) == (due + Retried(rest, limit).0, Retried(rest, limit).1)
      {
        RetriedFront(rest, limit);
        if entries[i].retries >= limit {
          return Err(ChannelError(SequenceError));
        }
        hide Retried;
        var e := entries[i].(retries := entries[i].retries + 1);
        Assoc(due, [e], Retried(rest[1..], limit).0);
        AtSeam(due, rest, e);
        entries := entries[i := e];
        due := due + [e];
        rest := rest[1..];
      }
      assert rest == [] && due + [] == due;
      return Ok(due);
    }

    method RetainedFrom(epoch: u16, first: u32) returns (r: Result<seq<Entry>>)
      ensures r == RetainedFromSpec(State(), epoch, first)
    {
      var resumable := CanResume(State(), epoch, first);
      if resumable.Err? {
        return Err(resumable.error);
      }
      var retained: seq<Entry> := [];
      ghost var rest := entries;
      for i := 0 to |entries|
        invariant rest == entries[i..]
        invariant retained + Since(rest, first) == Since(entries, first)
      {
        if entries[i].sequence >= first {
          retained := retained + [entries[i]];
        }
        rest := rest[1..];
      }
      assert rest == [] && retained + [] == retained;
      return Ok(retained);
    }
  }

  // ---------------------------------------------------------------- what an acknowledgement does

  predicate Apart(a: AckRange, b: AckRange) { a.last < b.first || b.last < a.first }

  predicate PairwiseApart(rs: seq<AckRange>) {
    rs == [] || ((forall r <- rs[1..] :: Apart(rs[0], r)) && PairwiseApart(rs[1..]))
  }

  predicate EachFits(rs: seq<AckRange>, latest: Option<u32>) {
    forall r <- rs :: r.first <= r.last && (latest.Some? ==> r.last <= latest.value)
  }

  lemma ApartFromInserted(a: AckRange, x: AckRange, rs: seq<AckRange>)
    ensures (forall r <- Insert(First, x, rs) :: Apart(a, r)) <==> Apart(a, x) && forall r <- rs :: Apart(a, r)
  {
    hide Apart;
    InsertMultiset(First, x, rs);
    var all := Insert(First, x, rs);
    assert forall r :: r in all <==> r in multiset(all);
    assert forall r :: r in all <==> r == x || r in rs;
  }

  lemma {:induction false} InsertApart(x: AckRange, rs: seq<AckRange>)
    ensures PairwiseApart(Insert(First, x, rs)) <==> (forall r <- rs :: Apart(x, r)) && PairwiseApart(rs)
  {
    hide Apart;
    var all := Insert(First, x, rs);
    if rs == [] || x.first <= rs[0].first {
      assert all == [x] + rs && all[1..] == rs;
    } else {
      InsertApart(x, rs[1..]);
      ApartFromInserted(rs[0], x, rs[1..]);
      assert all[1..] == Insert(First, x, rs[1..]);
      assert rs == [rs[0]] + rs[1..];
      ApartSymmetric(rs[0], x);
    }
  }

  lemma ApartSymmetric(a: AckRange, b: AckRange)
    ensures Apart(a, b) <==> Apart(b, a)
  {
  }

  lemma {:induction false} SortApart(rs: seq<AckRange>)
    ensures PairwiseApart(SortBy(First, rs)) <==> PairwiseApart(rs)
  {
    if rs != [] {
      SortApart(rs[1..]);
      InsertApart(rs[0], SortBy(First, rs[1..]));
      SameRanges(rs[1..]);
    }
  }

  lemma SameRanges(rs: seq<AckRange>)
    ensures forall r :: r in SortBy(First, rs) <==> r in rs
  {
    SortBySorted(First, rs);
    assert forall r :: r in rs <==> r in multiset(rs);
    assert forall r :: r in SortBy(First, rs) <==> r in multiset(SortBy(First, rs));
  }

  lemma {:induction false} ChainedApart(rs: seq<AckRange>, latest: Option<u32>)
    requires SortedBy(First, rs) && EachFits(rs, latest)
    ensures Orderly(rs, latest) <==> PairwiseApart(rs)
  {
    hide Orderly, SortedBy;
    if |rs| > 1 {
      TailSorted(First, rs);
      TailFits(rs, latest);
      ChainedApart(rs[1..], latest);
      OrderlyTail(rs, latest);
      NextDecides(rs, latest);
    } else {
      ShortOrderly(rs, latest);
    }
  }

  lemma TailFits(rs: seq<AckRange>, latest: Option<u32>)
    requires rs != [] && EachFits(rs, latest)
    ensures EachFits(rs[1..], latest)
  {
  }

  lemma ShortOrderly(rs: seq<AckRange>, latest: Option<u32>)
    requires |rs| <= 1 && EachFits(rs, latest)
    ensures Orderly(rs, latest) && PairwiseApart(rs)
  {
    if rs != [] { assert rs[0] in rs; }
  }

  lemma NextDecides(rs: seq<AckRange>, latest: Option<u32>)
    requires |rs| > 1 && SortedBy(First, rs) && EachFits(rs, latest)
    ensures rs[0].last < rs[1].first <==> forall r <- rs[1..] :: Apart(rs[0], r)
  {
    assert First(rs[0]) <= First(rs[1]) && rs[0] in rs && rs[1] in rs;
    if rs[0].last < rs[1].first {
      forall r | r in rs[1..]
        ensures Apart(rs[0], r)
      {
        var i :| 1 <= i < |rs| && rs[i] == r;
        assert First(rs[1]) <= First(rs[i]);
      }
    } else {
      assert rs[1..][0] == rs[1] && !Apart(rs[0], rs[1]);
    }
  }

  lemma OrderlyTail(rs: seq<AckRange>, latest: Option<u32>)
    requires |rs| > 1 && EachFits(rs, latest)
    ensures Orderly(rs, latest) <==> rs[0].last < rs[1].first && Orderly(rs[1..], latest)
  {
    assert rs[0] in rs && rs[1] in rs;
    if Orderly(rs, latest) {
      assert RangeFits(rs, latest, 1);
      forall i | 0 <= i < |rs[1..]|
        ensures RangeFits(rs[1..], latest, i)
      {
        assert RangeFits(rs, latest, i + 1);
      }
    }
    if rs[0].last < rs[1].first && Orderly(rs[1..], latest) {
      forall i | 0 <= i < |rs|
        ensures RangeFits(rs, latest, i)
      {
        if i > 0 { assert RangeFits(rs[1..], latest, i - 1); }
      }
    }
  }

  /** The loop's verdict in terms of the ranges alone, whatever order they come in and however the sort breaks ties. */
  lemma OrderlyIff(rs: seq<AckRange>, latest: Option<u32>)
    ensures Orderly(SortBy(First, rs), latest) <==> EachFits(rs, latest) && PairwiseApart(rs)
  {
    var sorted := SortBy(First, rs);
    SortBySorted(First, rs);
    SortApart(rs);
    SameRanges(rs);
    if EachFits(rs, latest) {
      ChainedApart(sorted, latest);
    } else if Orderly(sorted, latest) {
      forall r | r in rs
        ensures r.first <= r.last && (latest.Some? ==> r.last <= latest.value)
      {
        var i :| 0 <= i < |sorted| && sorted[i] == r;
        assert RangeFits(sorted, latest, i);
      }
    }
  }

  lemma {:induction false} PickMeaning(es: seq<Entry>, rs: seq<AckRange>, acked: bool)
    ensures forall e :: e in Pick(es, rs, acked) <==> e in es && Acked(rs, e.sequence) == acked
    ensures multiset(Pick(es, rs, true)) + multiset(Pick(es, rs, false)) == multiset(es)
  {
    if es != [] {
      PickMeaning(es[1..], rs, acked);
      assert es == [es[0]] + es[1..];
    }
  }

  /**
   An acknowledgement is accepted exactly when the epoch matches and the ranges are well formed, pairwise
   disjoint and name nothing above the newest retained frame. It then retires exactly the entries that the
   union of its ranges names; otherwise nothing changes.
   */
  lemma AcknowledgeExact(w: Window, epoch: u16, ranges: seq<AckRange>)
    ensures var (next, r) := AcknowledgeSpec(w, epoch, ranges);
            && (r.Ok? <==> epoch == w.epoch && EachFits(ranges, Latest(w)) && PairwiseApart(ranges))
            && (r.Err? ==> next == w)
            && (r.Ok? ==>
                  && (forall e :: e in r.value <==> e in w.entries && Acked(ranges, e.sequence))
                  && (forall e :: e in next.entries <==> e in w.entries && !Acked(ranges, e.sequence))
                  && multiset(r.value) + multiset(next.entries) == multiset(w.entries))
  {
    OrderlyIff(ranges, Latest(w));
    SameRanges(ranges);
    assert forall n: u32 :: Acked(SortBy(First, ranges), n) <==> Acked(ranges, n);
    PickMeaning(w.entries, SortBy(First, ranges), true);
    PickMeaning(w.entries, SortBy(First, ranges), false);
  }

  lemma {:induction false} PickLast(es: seq<Entry>, rs: seq<AckRange>)
    requires es != [] && !Acked(rs, es[|es| - 1].sequence)
    ensures var kept := Pick(es, rs, false);
            kept != [] && kept[|kept| - 1] == es[|es| - 1]
  {
    if |es| > 1 {
      PickLast(es[1..], rs);
    } else {
      assert es[1..] == [];
    }
  }

  /**
   Acknowledging the same ranges twice: the second call is accepted, and retires nothing, exactly when the
   first one emptied the window or left the newest frame; a tail that was retired cannot be named again.
   */
  lemma AcknowledgeAgainIff(w: Window, ranges: seq<AckRange>)
    requires Ascending(w.entries) && w.entries != []
    requires AcknowledgeSpec(w, w.epoch, ranges).1.Ok?
    ensures var next := AcknowledgeSpec(w, w.epoch, ranges).0;
            var (last, r) := AcknowledgeSpec(next, w.epoch, ranges);
            && (r.Ok? <==> next.entries == [] || !Acked(ranges, Latest(w).value))
            && last == next
  {
    hide Orderly, Pick, Acked, PairwiseApart;
    var next := AcknowledgeSpec(w, w.epoch, ranges).0;
    var newest := Latest(w).value;
    AcknowledgeExact(w, w.epoch, ranges);
    AcknowledgeExact(next, w.epoch, ranges);
    SameNames(ranges, newest);
    if !Acked(ranges, newest) {
      PickLast(w.entries, SortBy(First, ranges));
    } else if next.entries != [] {
      var e := next.entries[|next.entries| - 1];
      AckedReaches(ranges, newest);
      assert e in w.entries && e != w.entries[|w.entries| - 1];
      assert e.sequence < newest;
    }
    if AcknowledgeSpec(next, w.epoch, ranges).1.Ok? {
      NothingNamed(next.entries, ranges);
    }
  }

  lemma SameNames(ranges: seq<AckRange>, n: u32)
    ensures Acked(SortBy(First, ranges), n) <==> Acked(ranges, n)
  {
    SameRanges(ranges);
  }

  lemma AckedReaches(ranges: seq<AckRange>, n: u32)
    requires Acked(ranges, n)
    ensures exists r <- ranges :: r.last >= n
  {
    var r :| r in ranges && r.Has(n);
    assert r.last >= n;
  }

  lemma {:induction false} NothingNamed(es: seq<Entry>, ranges: seq<AckRange>)
    requires forall e <- es :: !Acked(ranges, e.sequence)
    ensures Pick(es, SortBy(First, ranges), false) == es
  {
    hide Acked;
    if es != [] {
      NothingNamed(es[1..], ranges);
      SameNames(ranges, es[0].sequence);
      assert es[0] in es;
    }
  }

  // ---------------------------------------------------------------- retry

  predicate Tiring(es: seq<Entry>) {
    forall i, j :: 0 <= i < j < |es| ==> es[i].retries >= es[j].retries
  }

  predicate CountedUp(es: seq<Entry>, more: seq<Entry>) {
    && |more| == |es|
    && forall i :: 0 <= i < |es| ==> IsCountedUp(es[i], more[i])
  }

  predicate IsCountedUp(e: Entry, more: Entry) {
    && more.retries == e.retries + 1
    && more.epoch == e.epoch && more.sequence == e.sequence && more.encoded == e.encoded
  }

  lemma {:induction false} RetriedMeaning(es: seq<Entry>, limit: u8)
    ensures var (after, ok) := Retried(es, limit);
            && |after| == |es|
            && (ok <==> forall e <- es :: e.retries < limit)
            && (ok ==> CountedUp(es, after))
            && (!ok ==> (after == es <==> es[0].retries >= limit))
  {
    if es != [] {
      RetriedMeaning(es[1..], limit);
      assert es == [es[0]] + es[1..];
    }
  }

  /**
   For any window: the call fails exactly when some entry has used its retries, and a failing call has
   counted entries up exactly when the front entry still had retries left.
   */
  lemma RetryIff(w: Window, limit: u8)
    ensures var (next, r) := RetrySpec(w, limit);
            && (r.Ok? <==> forall e <- w.entries :: e.retries < limit)
            && (r.Ok? ==> CountedUp(w.entries, r.value) && next.entries == r.value)
            && (r.Err? ==> (next != w <==> w.entries[0].retries < limit))
  {
    RetriedMeaning(w.entries, limit);
  }

  // ---------------------------------------------------------------- runs

  datatype Frame = Frame(sequence: u32, encoded: Bytes)

  function FrameOf(e: Entry): Frame { Frame(e.sequence, e.encoded) }

  function Frames(es: seq<Entry>): (fs: seq<Frame>)
    ensures |fs| == |es|
    ensures forall i :: 0 <= i < |es| ==> fs[i] == FrameOf(es[i])
  {
    seq(|es|, i requires 0 <= i < |es| => FrameOf(es[i]))
  }

  datatype Op =
    | Record(epoch: u16, n: u32, encoded: Bytes)
    | Acknowledge(epoch: u16, ranges: seq<AckRange>)
    | Retry(limit: u8)

  /** A window with everything that ever entered or left it. */
  datatype History = History(window: Window, recorded: seq<Frame>, acked: seq<Frame>, evicted: seq<Frame>)

  function Begin(w: Window): History { History(w, Frames(w.entries), [], []) }

  function Apply(h: History, op: Op): History
    requires 1 <= h.window.capacity
  {
    var w := h.window;
    match op
    case Record(epoch, n, encoded) =>
      var (next, r) := RecordSpec(w, epoch, n, encoded);
      if r.Err? then h.(window := next)
      else History(next, h.recorded + [Frame(n, encoded)], h.acked,
                   h.evicted + if Full(w) && w.entries != [] then [FrameOf(w.entries[0])] else [])
    case Acknowledge(epoch, ranges) =>
      var (next, r) := AcknowledgeSpec(w, epoch, ranges);
      h.(window := next, acked := h.acked + if r.Ok? then Frames(r.value) else [])
    case Retry(limit) => h.(window := RetrySpec(w, limit).0)
  }

  function After(h: History, ops: seq<Op>): History
    requires 1 <= h.window.capacity
    decreases |ops|
  {
    if ops == [] then h else After(Apply(h, ops[0]), ops[1..])
  }

  /** Every record uses a sequence above all those recorded before, as frame numbering does. */
  predicate Rising(h: History, ops: seq<Op>)
    requires 1 <= h.window.capacity
    decreases |ops|
  {
    ops == [] ||
    ((ops[0].Record? ==> forall f <- h.recorded :: f.sequence < ops[0].n) && Rising(Apply(h, ops[0]), ops[1..]))
  }

  predicate FramesAscending(fs: seq<Frame>) {
    forall i, j :: 0 <= i < j < |fs| ==> fs[i].sequence < fs[j].sequence
  }

  ghost predicate Conserved(h: History) {
    multiset(h.recorded) == multiset(Frames(h.window.entries)) + multiset(h.acked) + multiset(h.evicted)
  }

  ghost predicate Ordered(h: History) {
    && Ascending(h.window.entries)
    && FramesAscending(h.recorded)
    && FramesAscending(h.evicted)
    && (forall f, e :: f in h.evicted && e in h.window.entries ==> f.sequence < e.sequence)
  }

  lemma {:induction false} PickFrames(es: seq<Entry>, rs: seq<AckRange>)
    ensures multiset(Frames(Pick(es, rs, true))) + multiset(Frames(Pick(es, rs, false))) == multiset(Frames(es))
  {
    hide Acked;
    if es != [] {
      PickFrames(es[1..], rs);
      Picked(es, rs);
      FramesCons(es);
      FramesPrefixed(es[0], Pick(es[1..], rs, true));
      FramesPrefixed(es[0], Pick(es[1..], rs, false));
      assert [] + Pick(es[1..], rs, true) == Pick(es[1..], rs, true);
      assert [] + Pick(es[1..], rs, false) == Pick(es[1..], rs, false);
    }
  }

  lemma FramesPrefixed(e: Entry, es: seq<Entry>)
    ensures Frames([e] + es) == [FrameOf(e)] + Frames(es)
  {
  }

  lemma FramesCons(es: seq<Entry>)
    requires es != []
    ensures Frames(es) == [FrameOf(es[0])] + Frames(es[1..])
  {
  }

  lemma FramesSnoc(es: seq<Entry>, e: Entry)
    ensures Frames(es + [e]) == Frames(es) + [FrameOf(e)]
  {
  }

  lemma AscendingTail(es: seq<Entry>)
    requires es != [] && Ascending(es)
    ensures Ascending(es[1..]) && forall e <- es[1..] :: es[0].sequence < e.sequence
  {
  }

  lemma AscendingCons(e: Entry, es: seq<Entry>)
    requires Ascending(es) && forall x <- es :: e.sequence < x.sequence
    ensures Ascending([e] + es)
  {
  }

  lemma {:induction false} PickAscending(es: seq<Entry>, rs: seq<AckRange>, acked: bool)
    requires Ascending(es)
    ensures Ascending(Pick(es, rs, acked))
  {
    hide Acked, Ascending;
    if es == [] {
      NothingInOrder();
    } else {
      AscendingTail(es);
      PickAscending(es[1..], rs, acked);
      PickMeaning(es[1..], rs, acked);
      AscendingCons(es[0], Pick(es[1..], rs, acked));
      assert [] + Pick(es[1..], rs, acked) == Pick(es[1..], rs, acked);
    }
  }

  lemma NothingInOrder()
    ensures Ascending([]) && Tiring([])
  {
  }

  lemma TiringTail(es: seq<Entry>)
    requires es != [] && Tiring(es)
    ensures Tiring(es[1..]) && forall e <- es[1..] :: es[0].retries >= e.retries
  {
  }

  lemma TiringCons(e: Entry, es: seq<Entry>)
    requires Tiring(es) && forall x <- es :: e.retries >= x.retries
    ensures Tiring([e] + es)
  {
  }

  lemma {:induction false} PickTiring(es: seq<Entry>, rs: seq<AckRange>, acked: bool)
    requires Tiring(es)
    ensures Tiring(Pick(es, rs, acked))
  {
    hide Acked, Tiring;
    if es == [] {
      NothingInOrder();
    } else {
      TiringTail(es);
      PickTiring(es[1..], rs, acked);
      PickMeaning(es[1..], rs, acked);
      TiringCons(es[0], Pick(es[1..], rs, acked));
      assert [] + Pick(es[1..], rs, acked) == Pick(es[1..], rs, acked);
    }
  }

  lemma {:induction false} RetriedKeeps(es: seq<Entry>, limit: u8)
    ensures var after := Retried(es, limit).0;
            && |after| == |es| && Frames(after) == Frames(es)
            && (forall i :: 0 <= i < |es| ==> after[i].sequence == es[i].sequence && after[i].epoch == es[i].epoch)
  {
    if es != [] {
      RetriedKeeps(es[1..], limit);
    }
  }

  lemma RecordConserves(h: History, epoch: u16, n: u32, encoded: Bytes)
    requires 1 <= h.window.capacity && Conserved(h) && |h.window.entries| <= h.window.capacity
    requires RecordSpec(h.window, epoch, n, encoded).1.Ok?
    ensures var next := Apply(h, Record(epoch, n, encoded));
            Conserved(next) && |next.window.entries| <= h.window.capacity
  {
    hide Frames;
    var w := h.window;
    var kept := if Full(w) then w.entries[1..] else w.entries;
    FramesSnoc(kept, Entry(epoch, n, encoded, 0));
    if Full(w) {
      FramesCons(w.entries);
    }
  }

  lemma ApplyConserves(h: History, op: Op)
    requires 1 <= h.window.capacity && Conserved(h) && |h.window.entries| <= h.window.capacity
    ensures Conserved(Apply(h, op)) && |Apply(h, op).window.entries| <= h.window.capacity
  {
    hide Frames, Orderly;
    var w := h.window;
    match op {
      case Record(epoch, n, encoded) =>
        if RecordSpec(w, epoch, n, encoded).1.Ok? {
          RecordConserves(h, epoch, n, encoded);
        }
      case Acknowledge(epoch, ranges) =>
        var rs := SortBy(First, ranges);
        PickFrames(w.entries, rs);
        PickShrinks(w.entries, rs, false);
      case Retry(limit) =>
        RetriedKeeps(w.entries, limit);
    }
  }

  lemma {:induction false} PickShrinks(es: seq<Entry>, rs: seq<AckRange>, acked: bool)
    ensures |Pick(es, rs, acked)| <= |es|
  {
    if es != [] { PickShrinks(es[1..], rs, acked); }
  }

  lemma RecordOrders(h: History, epoch: u16, n: u32, encoded: Bytes)
    requires 1 <= h.window.capacity && Ordered(h) && Conserved(h)
    requires forall f <- h.recorded :: f.sequence < n
    ensures Ordered(Apply(h, Record(epoch, n, encoded)))
  {
    hide Conserved, Frames, Contains;
    PlacesRecorded(h);
    var w, next := h.window, Apply(h, Record(epoch, n, encoded));
    if RecordSpec(w, epoch, n, encoded).1.Ok? {
      var kept := if Full(w) then w.entries[1..] else w.entries;
      forall e | e in kept
        ensures e.sequence < n
      {
        assert FrameOf(e) in h.recorded;
      }
      AscendingSnoc(kept, Entry(epoch, n, encoded, 0));
      if Full(w) && w.entries != [] {
        EvictOrders(h);
      }
    }
  }

  lemma AscendingSnoc(es: seq<Entry>, e: Entry)
    requires Ascending(es) && forall x <- es :: x.sequence < e.sequence
    ensures Ascending(es + [e])
  {
  }

  /** Moving the front entry to the evicted frames keeps both lists in order and apart. */
  lemma EvictOrders(h: History)
    requires Ordered(h) && h.window.entries != []
    ensures var es, out := h.window.entries, h.evicted + [FrameOf(h.window.entries[0])];
            && FramesAscending(out)
            && forall f, e :: f in out && e in es[1..] ==> f.sequence < e.sequence
  {
    var es := h.window.entries;
    assert es[0] in es;
    forall f, e | f in h.evicted + [FrameOf(es[0])] && e in es[1..]
      ensures f.sequence < e.sequence
    {
      assert e in es;
    }
  }

  lemma PlacesRecorded(h: History)
    requires Conserved(h)
    ensures forall e <- h.window.entries :: FrameOf(e) in h.recorded
    ensures forall f <- h.evicted :: f in h.recorded
  {
    forall e | e in h.window.entries
      ensures FrameOf(e) in h.recorded
    {
      var fs := Frames(h.window.entries);
      var i :| 0 <= i < |h.window.entries| && h.window.entries[i] == e;
      assert fs[i] in multiset(fs);
      assert fs[i] in multiset(h.recorded);
    }
    forall f | f in h.evicted
      ensures f in h.recorded
    {
      assert f in multiset(h.evicted);
      assert f in multiset(h.recorded);
    }
  }

  lemma ApplyOrders(h: History, op: Op)
    requires 1 <= h.window.capacity && Ordered(h) && Conserved(h)
    requires op.Record? ==> forall f <- h.recorded :: f.sequence < op.n
    ensures Ordered(Apply(h, op))
  {
    var w := h.window;
    match op {
      case Record(epoch, n, encoded) =>
        RecordOrders(h, epoch, n, encoded);
      case Acknowledge(epoch, ranges) =>
        AcknowledgeExact(w, epoch, ranges);
        PickAscending(w.entries, SortBy(First, ranges), false);
      case Retry(limit) =>
        RetriedKeeps(w.entries, limit);
        var after := Retried(w.entries, limit).0;
        forall f, e | f in h.evicted && e in after
          ensures f.sequence < e.sequence
        {
          var i :| 0 <= i < |after| && after[i] == e;
          assert w.entries[i] in w.entries;
        }
    }
  }

  lemma {:induction false} RunKeeps(h: History, ops: seq<Op>)
    requires 1 <= h.window.capacity && |h.window.entries| <= h.window.capacity
    requires Conserved(h) && Ordered(h) && Rising(h, ops)
    ensures var end := After(h, ops);
            Conserved(end) && Ordered(end) && |end.window.entries| <= end.window.capacity
    decreases |ops|
  {
    hide Apply, Conserved, Ordered;
    if ops != [] {
      SameCapacity(h, ops[0]);
      ApplyConserves(h, ops[0]);
      ApplyOrders(h, ops[0]);
      RunKeeps(Apply(h, ops[0]), ops[1..]);
    }
  }

  lemma SameCapacity(h: History, op: Op)
    requires 1 <= h.window.capacity
    ensures Apply(h, op).window.capacity == h.window.capacity && Apply(h, op).window.epoch == h.window.epoch
  {
  }

  /** A window a run may start from: new, or restored with ascending sequences. */
  predicate Startable(w: Window) {
    1 <= w.capacity && |w.entries| <= w.capacity && Ascending(w.entries)
  }

  lemma StartsOrdered(w: Window)
    requires Startable(w)
    ensures Conserved(Begin(w)) && Ordered(Begin(w))
  {
    assert multiset(Frames(w.entries)) + multiset([]) + multiset([]) == multiset(Frames(w.entries));
  }

  lemma {:induction false} CountOnce(fs: seq<Frame>, f: Frame)
    requires FramesAscending(fs)
    ensures multiset(fs)[f] == if f in fs then 1 else 0
  {
    if fs != [] {
      CountOnce(fs[1..], f);
      assert fs == [fs[0]] + fs[1..];
      if f == fs[0] { assert f !in fs[1..]; }
    }
  }

  function Ones(a: bool, b: bool, c: bool): int {
    (if a then 1 else 0) + (if b then 1 else 0) + (if c then 1 else 0)
  }

  /**
   On every run whose records rise, every recorded frame is in exactly one of retained, acknowledged and
   evicted, nothing else is in any of them, and everything evicted is older than everything retained:
   each eviction took the smallest.
   */
  lemma ExactlyOnePlace(w: Window, ops: seq<Op>, f: Frame)
    requires Startable(w) && Rising(Begin(w), ops)
    ensures var h := After(Begin(w), ops);
            && Ones(f in Frames(h.window.entries), f in h.acked, f in h.evicted) == (if f in h.recorded then 1 else 0)
            && |h.window.entries| <= h.window.capacity
            && Ascending(h.window.entries)
            && (forall g, e :: g in h.evicted && e in h.window.entries ==> g.sequence < e.sequence)
  {
    hide After, Rising;
    StartsOrdered(w);
    RunKeeps(Begin(w), ops);
    var h := After(Begin(w), ops);
    CountOnce(h.recorded, f);
    var kept := Frames(h.window.entries);
    assert multiset(h.recorded)[f] == multiset(kept)[f] + multiset(h.acked)[f] + multiset(h.evicted)[f];
    assert f in kept <==> multiset(kept)[f] > 0;
    assert f in h.acked <==> multiset(h.acked)[f] > 0;
    assert f in h.evicted <==> multiset(h.evicted)[f] > 0;
  }

  /** Retry counts never increase from front to back on any run, whatever limits the retries use. */
  lemma {:induction false} AlwaysTiring(h: History, ops: seq<Op>)
    requires 1 <= h.window.capacity && Tiring(h.window.entries)
    ensures Tiring(After(h, ops).window.entries)
    decreases |ops|
  {
    if ops != [] {
      SameCapacity(h, ops[0]);
      ApplyTires(h, ops[0]);
      AlwaysTiring(Apply(h, ops[0]), ops[1..]);
    }
  }

  lemma ApplyTires(h: History, op: Op)
    requires 1 <= h.window.capacity && Tiring(h.window.entries)
    ensures Tiring(Apply(h, op).window.entries)
  {
    var es := h.window.entries;
    match op {
      case Record(_, _, _) =>
      case Acknowledge(_, ranges) =>
        PickTiring(es, SortBy(First, ranges), false);
      case Retry(limit) =>
        RetriedMeaning(es, limit);
    }
  }

  /** So on every run from an empty window a retry counts up and returns every entry, or fails and changes nothing. */
  lemma RetryAllOrNothing(capacity: u64, ops: seq<Op>, limit: u8)
    requires 1 <= capacity
    ensures var w := After(Begin(Window(capacity, 1, [])), ops).window;
            var (next, r) := RetrySpec(w, limit);
            && (r.Ok? <==> w.entries == [] || w.entries[0].retries < limit)
            && (r.Err? ==> next == w)
            && (r.Ok? ==> CountedUp(w.entries, r.value) && next.entries == r.value)
  {
    hide After;
    AlwaysTiring(Begin(Window(capacity, 1, [])), ops);
    var w := After(Begin(Window(capacity, 1, [])), ops).window;
    RetryIff(w, limit);
    if w.entries != [] && w.entries[0].retries < limit {
      assert forall e <- w.entries :: e.retries <= w.entries[0].retries;
    }
    if w.entries != [] { assert w.entries[0] in w.entries; }
  }

  // ---------------------------------------------------------------- resume

  /** `k` entries lie below `first`. */
  predicate CutAt(es: seq<Entry>, first: u32, k: int) {
    && 0 <= k <= |es|
    && (forall i :: 0 <= i < k ==> es[i].sequence < first)
    && (forall i :: k <= i < |es| ==> es[i].sequence >= first)
  }

  lemma CutCons(es: seq<Entry>, first: u32, j: int)
    requires Ascending(es) && es != [] && CutAt(es[1..], first, j)
    ensures es[0].sequence >= first ==> j == 0 && CutAt(es, first, 0)
    ensures es[0].sequence < first ==> CutAt(es, first, j + 1)
  {
    if j > 0 {
      assert es[1..][0] == es[1];
    }
    forall i | 0 < i < |es|
      ensures es[i].sequence < first <==> i - 1 < j
    {
      assert es[i] == es[1..][i - 1];
    }
  }

  lemma {:induction false} SinceMeaning(es: seq<Entry>, first: u32) returns (k: nat)
    requires Ascending(es)
    ensures CutAt(es, first, k) && Since(es, first) == es[k..]
  {
    hide CutAt, Ascending;
    if es == [] {
      k := 0;
      assert CutAt(es, first, 0) by { NothingCut(es, first); }
    } else {
      AscendingTail(es);
      var j := SinceMeaning(es[1..], first);
      CutCons(es, first, j);
      if es[0].sequence >= first {
        k := 0;
        assert es[0..] == [es[0]] + es[1..][j..];
      } else {
        k := j + 1;
        CutLength(es[1..], first, j);
        assert es[k..] == es[1..][j..];
      }
    }
  }

  lemma NothingCut(es: seq<Entry>, first: u32)
    requires es == []
    ensures CutAt(es, first, 0)
  {
  }

  lemma CutLength(es: seq<Entry>, first: u32, k: int)
    requires CutAt(es, first, k)
    ensures 0 <= k <= |es|
  {
  }

  /**
   Exactly the sequences from the oldest retained one to one past the newest can be resumed from, also at
   the top of the 32-bit range, and what is returned is the suffix of the window that starts there.
   */
  lemma ResumeIff(w: Window, epoch: u16, first: u32) returns (k: nat)
    requires Ascending(w.entries)
    ensures CutAt(w.entries, first, k)
    ensures var r := RetainedFromSpec(w, epoch, first);
            && (r.Ok? <==>
                  && epoch == w.epoch && w.entries != []
                  && w.entries[0].sequence <= first <= w.entries[|w.entries| - 1].sequence + 1)
            && (r.Ok? ==> r.value == w.entries[k..])
  {
    k := SinceMeaning(w.entries, first);
  }

  /**
   A resume never skips an eviction: on every run whose records rise, an accepted resume returns exactly
   the frames recorded from `first` on that have not been acknowledged.
   */
  lemma ResumeComplete(w: Window, ops: seq<Op>, first: u32, f: Frame)
    requires Startable(w) && Rising(Begin(w), ops)
    requires RetainedFromSpec(After(Begin(w), ops).window, w.epoch, first).Ok?
    ensures var h := After(Begin(w), ops);
            var frames := Frames(RetainedFromSpec(h.window, w.epoch, first).value);
            f in frames <==> f in h.recorded && f.sequence >= first && f !in h.acked
  {
    hide After, Rising, Frames, Ascending, RetainedFromSpec;
    var h := After(Begin(w), ops);
    ExactlyOnePlace(w, ops, f);
    var k := ResumeIff(h.window, w.epoch, first);
    SuffixFrames(h.window.entries, first, k, f);
    if f in h.evicted {
      assert h.window.entries[0] in h.window.entries;
    }
  }

  lemma SuffixFrames(es: seq<Entry>, first: u32, k: nat, f: Frame)
    requires CutAt(es, first, k)
    ensures f in Frames(es[k..]) <==> f in Frames(es) && f.sequence >= first
  {
    var r := es[k..];
    if f in Frames(es) && f.sequence >= first {
      var i :| 0 <= i < |es| && Frames(es)[i] == f;
      assert i >= k;
      assert Frames(r)[i - k] == FrameOf(r[i - k]) == f;
    }
    if f in Frames(r) {
      var i :| 0 <= i < |r| && Frames(r)[i] == f;
      assert r[i] == es[i + k];
      assert Frames(es)[i + k] == f;
    }
  }

  // ---------------------------------------------------------------- the acknowledgement payload

  function RangeBytes(r: AckRange): Bytes { U32Bytes(r.first) + U32Bytes(r.last) }

  function RangesBytes(rs: seq<AckRange>): (bs: Bytes)
    ensures |bs| == 8 * |rs|
  {
    if rs == [] then [] else RangeBytes(rs[0]) + RangesBytes(rs[1..])
  }

  function AckBytes(epoch: u16, rs: seq<AckRange>): Bytes
    requires |rs| < 0x1_0000
  {
    U16Bytes(epoch) + U16Bytes(|rs|) + RangesBytes(rs)
  }

  function EncodeAckSpec(epoch: u16, ranges: seq<AckRange>): Result<Bytes> {
    var rs := SortBy(First, ranges);
    if !Orderly(rs, None) then Err(ConnectionError(SequenceError))
    else if |rs| > 0xFFFF then Err(ConnectionError(ResourceLimit))
    else Ok(AckBytes(epoch, rs))
  }

  function ReadRanges(bs: Bytes, offset: nat, count: nat): (rs: seq<AckRange>)
    requires offset + 8 * count <= |bs|
    ensures |rs| == count
    decreases count
  {
    if count == 0 then []
    else [AckRange(ReadU32(bs, offset), ReadU32(bs, offset + 4))] + ReadRanges(bs, offset + 8, count - 1)
  }

  function DecodeAckSpec(bs: Bytes): Result<(u16, seq<AckRange>)> {
    if |bs| < 4 then Err(ConnectionError(SequenceError))
    else
      var epoch, count := ReadU16(bs, 0), ReadU16(bs, 2);
      if |bs| != 4 + count * 8 then Err(ConnectionError(SequenceError))
      else
        var rs := ReadRanges(bs, 4, count);
        var canonical := EncodeAckSpec(epoch, rs);
        if canonical.Err? then Err(canonical.error) else Ok((epoch, rs))
  }

  lemma Appended(out: Bytes, r: AckRange, more: Bytes)
    ensures out + U32Bytes(r.first) + U32Bytes(r.last) + more == out + (RangeBytes(r) + more)
  {
  }

  method EncodeAck(epoch: u16, ranges: seq<AckRange>) returns (r: Result<Bytes>)
    ensures r == EncodeAckSpec(epoch, ranges)
  {
    var rs := SortBy(First, ranges);
    var ok := CheckRanges(rs, None);
    if !ok {
      return Err(ConnectionError(SequenceError));
    }
    if |rs| > 0xFFFF {
      return Err(ConnectionError(ResourceLimit));
    }
    var out := U16Bytes(epoch) + U16Bytes(|rs|);
    ghost var head, rest := out, rs;
    for i := 0 to |rs|
      invariant rest == rs[i..]
      invariant out + RangesBytes(rest) == head + RangesBytes(rs)
    {
      Appended(out, rs[i], RangesBytes(rest[1..]));
      out := out + U32Bytes(rs[i].first);
      out := out + U32Bytes(rs[i].last);
      rest := rest[1..];
    }
    assert rest == [] && out + [] == out;
    return Ok(out);
  }

  lemma OneRange(bs: Bytes, offset: nat, count: nat)
    requires offset + 8 * count <= |bs| && count > 0
    ensures ReadRanges(bs, offset, count)
         == [AckRange(ReadU32(bs, offset), ReadU32(bs, offset + 4))] + ReadRanges(bs, offset + 8, count - 1)
  {
  }

  method DecodeAck(bs: Bytes) returns (r: Result<(u16, seq<AckRange>)>)
    ensures r == DecodeAckSpec(bs)
  {
    if |bs| < 4 {
      return Err(ConnectionError(SequenceError));
    }
    var epoch := ReadU16(bs, 0);
    var count := ReadU16(bs, 2);
    if |bs| != 4 + count * 8 {
      return Err(ConnectionError(SequenceError));
    }
    var rs: seq<AckRange> := [];
    assert [] + ReadRanges(bs, 4, count) == ReadRanges(bs, 4, count);
    for i: int := 0 to count
      invariant rs + ReadRanges(bs, 4 + i * 8, count - i) == ReadRanges(bs, 4, count)
    {
      hide ReadU32, ReadU16, ReadRanges, EncodeAckSpec;
      OneRange(bs, 4 + i * 8, count - i);
      rs := rs + [AckRange(ReadU32(bs, 4 + i * 8), ReadU32(bs, 4 + i * 8 + 4))];
    }
    assert rs + [] == rs;
    var canonical := EncodeAck(epoch, rs);
    if canonical.Err? {
      return Err(canonical.error);
    }
    return Ok((epoch, rs));
  }

  lemma {:induction false} ReadWritten(rs: seq<AckRange>, pre: Bytes)
    ensures ReadRanges(pre + RangesBytes(rs), |pre|, |rs|) == rs
    decreases |rs|
  {
    hide U32Bytes, ReadU32;
    if rs != [] {
      var bs := pre + RangesBytes(rs);
      var a, b, more := U32Bytes(rs[0].first), U32Bytes(rs[0].last), RangesBytes(rs[1..]);
      assert bs == pre + a + (b + more);
      assert bs == (pre + a) + b + more;
      U32Inverse(rs[0].first, pre, b + more);
      U32Inverse(rs[0].last, pre + a, more);
      ReadWritten(rs[1..], pre + a + b);
      assert bs == (pre + a + b) + more;
    }
  }

  lemma {:induction false} WriteRead(bs: Bytes, offset: nat, count: nat)
    requires offset + 8 * count <= |bs|
    ensures RangesBytes(ReadRanges(bs, offset, count)) == bs[offset..offset + 8 * count]
    decreases count
  {
    hide U32Bytes, ReadU32;
    if count > 0 {
      WriteRead(bs, offset + 8, count - 1);
      U32Canonical(bs, offset);
      U32Canonical(bs, offset + 4);
      assert bs[offset..offset + 8 * count] == bs[offset..offset + 4] + bs[offset + 4..offset + 8] + bs[offset + 8..offset + 8 * count];
    }
  }

  lemma AckHeader(epoch: u16, rs: seq<AckRange>)
    requires |rs| < 0x1_0000
    ensures ReadU16(AckBytes(epoch, rs), 0) == epoch && ReadU16(AckBytes(epoch, rs), 2) == |rs|
    ensures |AckBytes(epoch, rs)| == 4 + 8 * |rs|
    ensures ReadRanges(AckBytes(epoch, rs), 4, |rs|) == rs
  {
    hide U16Bytes, ReadU16, ReadRanges;
    var e, n := U16Bytes(epoch), U16Bytes(|rs|);
    var bs := AckBytes(epoch, rs);
    assert bs == [] + e + (n + RangesBytes(rs));
    assert bs == e + n + RangesBytes(rs);
    U16Inverse(epoch, [], n + RangesBytes(rs));
    U16Inverse(|rs|, e, RangesBytes(rs));
    ReadWritten(rs, e + n);
  }

  /** Encoding accepts exactly disjoint well-formed ranges; decoding returns them in ascending order. */
  lemma AckEncodeDecode(epoch: u16, ranges: seq<AckRange>)
    ensures EncodeAckSpec(epoch, ranges).Ok? <==> EachFits(ranges, None) && PairwiseApart(ranges) && |ranges| <= 0xFFFF
    ensures EncodeAckSpec(epoch, ranges).Ok? ==>
              DecodeAckSpec(EncodeAckSpec(epoch, ranges).value) == Ok((epoch, SortBy(First, ranges)))
  {
    hide ReadRanges, Orderly, AckBytes;
    OrderlyIff(ranges, None);
    var rs := SortBy(First, ranges);
    if EncodeAckSpec(epoch, ranges).Ok? {
      AckHeader(epoch, rs);
      SortBySorted(First, ranges);
      SortedIsFixed(First, rs);
    }
  }

  /**
   A payload is accepted exactly when its length matches its count and its ranges are well formed and
   disjoint; re-encoding the result gives back the same bytes exactly when they came in ascending order.
   */
  lemma AckDecodeEncode(bs: Bytes)
    ensures DecodeAckSpec(bs).Ok? <==>
              && |bs| >= 4 && |bs| == 4 + 8 * ReadU16(bs, 2)
              && var rs := ReadRanges(bs, 4, ReadU16(bs, 2));
                 EachFits(rs, None) && PairwiseApart(rs)
    ensures DecodeAckSpec(bs).Ok? ==>
              var (epoch, rs) := DecodeAckSpec(bs).value;
              && EncodeAckSpec(epoch, rs).Ok?
              && (EncodeAckSpec(epoch, rs).value == bs <==> SortedBy(First, rs))
  {
    hide Orderly, ReadRanges;
    if |bs| >= 4 && |bs| == 4 + 8 * ReadU16(bs, 2) {
      var epoch, count := ReadU16(bs, 0), ReadU16(bs, 2);
      var rs := ReadRanges(bs, 4, count);
      AckEncodeDecode(epoch, rs);
      AckRewrites(bs);
      SortBySorted(First, rs);
      if SortedBy(First, rs) {
        SortedIsFixed(First, rs);
      }
      if EncodeAckSpec(epoch, rs) == Ok(bs) {
        AckHeader(epoch, SortBy(First, rs));
      }
    }
  }

  lemma AckRewrites(bs: Bytes)
    requires |bs| >= 4 && |bs| == 4 + 8 * ReadU16(bs, 2)
    ensures AckBytes(ReadU16(bs, 0), ReadRanges(bs, 4, ReadU16(bs, 2))) == bs
  {
    hide U16Bytes, ReadU16, ReadRanges, RangesBytes;
    U16Canonical(bs, 0);
    U16Canonical(bs, 2);
    WriteRead(bs, 4, ReadU16(bs, 2));
    ThreeParts(bs);
  }

  lemma ThreeParts(bs: Bytes)
    requires |bs| >= 4
    ensures bs == bs[0..2] + bs[2..4] + bs[4..|bs|]
  {
  }

  /** The bytes of an acknowledgement: epoch, number of ranges, then first and last of each, in network byte order. */
  lemma AckLayout(epoch: u16, rs: seq<AckRange>, k: nat)
    requires |rs| < 0x1_0000 && k < |rs|
    ensures var bs := AckBytes(epoch, rs);
            && |bs| == 4 + 8 * |rs| && Value(bs[0..2]) == epoch && Value(bs[2..4]) == |rs|
            && Value(bs[4 + 8 * k..8 + 8 * k]) == rs[k].first && Value(bs[8 + 8 * k..12 + 8 * k]) == rs[k].last
  {
    hide U16Bytes, U32Bytes, Value, RangesBytes;
    BigEndian(epoch, 0, rs[k].first, 0);
    BigEndian(|rs|, 0, rs[k].last, 0);
    RangesAt(rs, k);
    var bs, body := AckBytes(epoch, rs), RangesBytes(rs);
    assert bs[0..2] == U16Bytes(epoch) && bs[2..4] == U16Bytes(|rs|) && bs[4..] == body;
    assert bs[4 + 8 * k..8 + 8 * k] == body[8 * k..8 * k + 4] && bs[8 + 8 * k..12 + 8 * k] == body[8 * k + 4..8 * k + 8];
  }

  lemma {:induction false} RangesAt(rs: seq<AckRange>, k: nat)
    requires k < |rs|
    ensures |RangesBytes(rs)| == 8 * |rs|
    ensures RangesBytes(rs)[8 * k..8 * k + 4] == U32Bytes(rs[k].first)
    ensures RangesBytes(rs)[8 * k + 4..8 * k + 8] == U32Bytes(rs[k].last)
  {
    hide U32Bytes;
    var front, rest := U32Bytes(rs[0].first) + U32Bytes(rs[0].last), RangesBytes(rs[1..]);
    assert RangesBytes(rs) == front + rest;
    if k > 0 {
      RangesAt(rs[1..], k - 1);
      assert RangesBytes(rs)[8 * k..8 * k + 4] == rest[8 * (k - 1)..8 * (k - 1) + 4];
      assert RangesBytes(rs)[8 * k + 4..8 * k + 8] == rest[8 * (k - 1) + 4..8 * (k - 1) + 8];
    } else if |rs| > 1 {
      RangesAt(rs[1..], 0);
    }
  }
}
