/** Message fragments in any order, under one byte budget shared by all unfinished messages. */
module Reassembling {
  import opened Types
  import opened Sorting

  datatype Range = Range(offset: nat, bytes: Bytes) {
    function End(): nat { offset + |bytes| }
    predicate Has(p: int) { offset <= p < End() }
    function At(p: int): byte
      requires Has(p)
    {
      bytes[p - offset]
    }
  }

  datatype Pending = Pending(total: u32, ranges: seq<Range>)

  /** `max_message_`, `pending_` and `retained_`. */
  datatype Store = Store(limit: nat, pending: map<u32, Pending>, retained: nat)

  type Reassembly = s: Store | ValidStore(s) witness Store(0, map[], 0)

  datatype LogicalMessage = LogicalMessage(channel: ChannelId, sequence: u32, payload: Bytes)

  type Outcome = Result<Option<LogicalMessage>>

  function Offset(r: Range): int { r.offset }

  predicate Disjoint(r: Range, f: Range) { f.End() <= r.offset || f.offset >= r.End() }

  predicate Agree(r: Range, f: Range) {
    forall p :: Max(r.offset, f.offset) <= p < Min(r.End(), f.End()) ==> r.At(p) == f.At(p)
  }

  /** `r` and `f` overlap and `f` lies inside `r`. */
  predicate Holds(r: Range, f: Range) {
    !Disjoint(r, f) && r.offset <= f.offset && f.End() <= r.End()
  }

  datatype Scan = Conflict | Duplicate | Fresh

  /** The loop over the stored ranges: a conflict or a containing range ends it. */
  function ScanRanges(ranges: seq<Range>, f: Range): Scan {
    if ranges == [] then Fresh
    else if Disjoint(ranges[0], f) then ScanRanges(ranges[1..], f)
    else if !Agree(ranges[0], f) then Conflict
    else if Holds(ranges[0], f) then Duplicate
    else ScanRanges(ranges[1..], f)
  }

  /** The coverage loop: no gap before `total`, from `covered` on. */
  predicate Reaches(ranges: seq<Range>, covered: nat, total: nat) {
    if ranges == [] then covered >= total
    else ranges[0].offset <= covered && Reaches(ranges[1..], Max(covered, ranges[0].End()), total)
  }

  function Paste(payload: Bytes, r: Range): (p: Bytes)
    requires r.End() <= |payload|
    ensures |p| == |payload|
  {
    payload[..r.offset] + r.bytes + payload[r.End()..]
  }

  predicate InBounds(ranges: seq<Range>, total: nat) {
    forall r <- ranges :: r.End() <= total
  }

  function PasteAll(payload: Bytes, ranges: seq<Range>): (p: Bytes)
    requires InBounds(ranges, |payload|)
    ensures |p| == |payload|
    decreases |ranges|
  {
    if ranges == [] then payload else PasteAll(Paste(payload, ranges[0]), ranges[1..])
  }

  function Stored(ranges: seq<Range>): nat {
    if ranges == [] then 0 else |ranges[0].bytes| + Stored(ranges[1..])
  }

  function Zeros(n: nat): Bytes { seq(n, _ => 0) }

  // ---------------------------------------------------------------- what every store keeps

  predicate Consistent(ranges: seq<Range>) {
    forall i, j :: 0 <= i < |ranges| && 0 <= j < |ranges| ==> Agree(ranges[i], ranges[j])
  }

  predicate ByOffset(ranges: seq<Range>) {
    forall i, j :: 0 <= i < j < |ranges| ==> ranges[i].offset <= ranges[j].offset
  }

  predicate ValidPending(p: Pending) {
    && 0 < p.total && p.ranges != []
    && InBounds(p.ranges, p.total) && ByOffset(p.ranges) && Consistent(p.ranges)
  }

  /** Bytes stored over all unfinished messages. */
  ghost function Total(pending: map<u32, Pending>): nat {
    if pending == map[] then 0
    else
      var k :| k in pending;
      Stored(pending[k].ranges) + Total(pending - {k})
  }

  ghost predicate ValidStore(s: Store) {
    && (forall k <- s.pending :: ValidPending(s.pending[k]))
    && s.retained == Total(s.pending)
    && s.retained <= s.limit
  }

  lemma {:induction false} TotalSplit(pending: map<u32, Pending>, k: u32)
    requires k in pending
    ensures Total(pending) == Stored(pending[k].ranges) + Total(pending - {k})
    decreases |pending|
  {
    var j :| j in pending && Total(pending) == Stored(pending[j].ranges) + Total(pending - {j});
    if j != k {
      TotalSplit(pending - {j}, k);
      TotalSplit(pending - {k}, j);
      assert pending - {j} - {k} == pending - {k} - {j};
    }
  }

  lemma TotalUpdate(pending: map<u32, Pending>, k: u32, p: Pending)
    ensures Total(pending[k := p])
         == Total(pending) - (if k in pending then Stored(pending[k].ranges) else 0) + Stored(p.ranges)
  {
    var next := pending[k := p];
    TotalSplit(next, k);
    if k in pending {
      TotalSplit(pending, k);
      assert next - {k} == pending - {k};
    } else {
      assert next - {k} == pending;
    }
  }

  lemma {:induction false} StoredInsert(x: Range, ranges: seq<Range>)
    ensures Stored(Insert(Offset, x, ranges)) == |x.bytes| + Stored(ranges)
  {
    if ranges == [] || Offset(x) <= Offset(ranges[0]) {
      assert ([x] + ranges)[1..] == ranges;
    } else {
      StoredInsert(x, ranges[1..]);
      assert ([ranges[0]] + Insert(Offset, x, ranges[1..]))[1..] == Insert(Offset, x, ranges[1..]);
    }
  }

  lemma {:induction false} StoredSorted(ranges: seq<Range>)
    ensures Stored(SortBy(Offset, ranges)) == Stored(ranges)
  {
    if ranges != [] {
      StoredSorted(ranges[1..]);
      StoredInsert(ranges[0], SortBy(Offset, ranges[1..]));
    }
  }

  lemma {:induction false} StoredAppend(ranges: seq<Range>, f: Range)
    ensures Stored(ranges + [f]) == Stored(ranges) + |f.bytes|
  {
    if ranges != [] {
      StoredAppend(ranges[1..], f);
      assert (ranges + [f])[1..] == ranges[1..] + [f];
    }
  }

  /** A fragment the scan lets through agrees with every stored range. */
  lemma {:induction false} FreshAgrees(ranges: seq<Range>, f: Range)
    requires ScanRanges(ranges, f) == Fresh
    ensures forall r <- ranges :: Agree(r, f)
  {
    if ranges != [] {
      FreshAgrees(ranges[1..], f);
      assert ranges == [ranges[0]] + ranges[1..];
    }
  }

  lemma AddedMembers(ranges: seq<Range>, f: Range)
    ensures forall r :: r in SortBy(Offset, ranges + [f]) <==> r in ranges || r == f
    ensures ByOffset(SortBy(Offset, ranges + [f]))
  {
    var all := ranges + [f];
    var added := SortBy(Offset, all);
    SortBySorted(Offset, all);
    assert forall r :: r in added <==> r in multiset(added);
    assert forall r :: r in all <==> r in multiset(all);
    forall i, j | 0 <= i < j < |added|
      ensures added[i].offset <= added[j].offset
    {
      assert Offset(added[i]) <= Offset(added[j]);
    }
  }

  lemma AddedConsistent(ranges: seq<Range>, f: Range, added: seq<Range>)
    requires Consistent(ranges) && forall r <- ranges :: Agree(r, f)
    requires forall r <- added :: r in ranges || r == f
    ensures Consistent(added)
  {
    hide Agree;
    AgreeWithSelf(f);
    forall i, j | 0 <= i < |added| && 0 <= j < |added|
      ensures Agree(added[i], added[j])
    {
      AgreeSymmetric(added[i], added[j]);
      assert added[i] in added && added[j] in added;
    }
  }

  /** Storing a fresh fragment keeps the ranges sorted, inside the message and consistent. */
  lemma AddedValid(ranges: seq<Range>, f: Range, total: u32)
    requires 0 < total && f.End() <= total
    requires InBounds(ranges, total) && Consistent(ranges) && ScanRanges(ranges, f) == Fresh
    ensures ValidPending(Pending(total, SortBy(Offset, ranges + [f])))
    ensures Stored(SortBy(Offset, ranges + [f])) == Stored(ranges) + |f.bytes|
  {
    hide ScanRanges, Agree, Stored, SortBy, Consistent, ByOffset;
    var all := ranges + [f];
    var added := SortBy(Offset, all);
    FreshAgrees(ranges, f);
    StoredSorted(all);
    StoredAppend(ranges, f);
    AddedMembers(ranges, f);
    AddedConsistent(ranges, f, added);
  }

  lemma AgreeSymmetric(a: Range, b: Range) ensures Agree(a, b) == Agree(b, a) {}
  lemma AgreeWithSelf(a: Range) ensures Agree(a, a) {}

  // ---------------------------------------------------------------- the operations

  function ResetSpec(s: Reassembly, sequence: u32): Reassembly {
    if sequence !in s.pending then s
    else
      RemoveKeeps(s, sequence);
      Store(s.limit, s.pending - {sequence}, s.retained - Stored(s.pending[sequence].ranges))
  }

  function Ranges(s: Reassembly, sequence: u32): seq<Range> {
    if sequence in s.pending then s.pending[sequence].ranges else []
  }

  lemma NoRanges(total: u32)
    ensures InBounds([], total) && Consistent([]) && ByOffset([])
  {
  }

  lemma PutKeeps(s: Reassembly, sequence: u32, p: Pending, retained: nat)
    requires ValidPending(p) && retained <= s.limit
    requires retained == s.retained - Stored(Ranges(s, sequence)) + Stored(p.ranges)
    ensures ValidStore(Store(s.limit, s.pending[sequence := p], retained))
  {
    assert Stored([]) == 0;
    hide Stored, Total, ValidPending;
    TotalUpdate(s.pending, sequence, p);
  }

  lemma RemoveKeeps(s: Reassembly, sequence: u32)
    requires sequence in s.pending
    ensures Stored(s.pending[sequence].ranges) <= s.retained
    ensures ValidStore(Store(s.limit, s.pending - {sequence}, s.retained - Stored(s.pending[sequence].ranges)))
  {
    hide Stored, Total, ValidPending;
    TotalSplit(s.pending, sequence);
  }

  /** Storing the fragment keeps a valid store, and so does taking the finished message out again. */
  lemma AdmitKeeps(s: Reassembly, sequence: u32, f: Range, total: u32)
    requires 0 < total && f.End() <= total
    requires sequence in s.pending ==> s.pending[sequence].total == total
    requires ScanRanges(Ranges(s, sequence), f) == Fresh
    requires s.retained + |f.bytes| <= s.limit
    ensures var added := SortBy(Offset, Ranges(s, sequence) + [f]);
            && InBounds(added, total)
            && ValidStore(Store(s.limit, s.pending[sequence := Pending(total, added)], s.retained + |f.bytes|))
            && Stored(added) <= s.retained + |f.bytes|
            && ValidStore(Store(s.limit, s.pending - {sequence}, s.retained + |f.bytes| - Stored(added)))
  {
    hide ScanRanges, SortBy, Stored, Total, Agree, ByOffset, Consistent, ValidStore;
    var added := SortBy(Offset, Ranges(s, sequence) + [f]);
    var p := Pending(total, added);
    NoRanges(total);
    if sequence in s.pending {
      RangesValid(s, sequence);
    }
    AddedValid(Ranges(s, sequence), f, total);
    PutKeeps(s, sequence, p, s.retained + |f.bytes|);
    var next: Reassembly := Store(s.limit, s.pending[sequence := p], s.retained + |f.bytes|);
    RemoveKeeps(next, sequence);
    assert next.pending - {sequence} == s.pending - {sequence};
  }

  lemma RangesValid(s: Reassembly, sequence: u32)
    requires sequence in s.pending
    ensures ValidPending(s.pending[sequence])
  {
  }

  /** A fragment the scan lets through and the budget admits. */
  function Admit(s: Reassembly, channel: ChannelId, sequence: u32, f: Range, total: u32): (Reassembly, Outcome)
    requires 0 < total && f.End() <= total
    requires sequence in s.pending ==> s.pending[sequence].total == total
    requires ScanRanges(Ranges(s, sequence), f) == Fresh
    requires s.retained + |f.bytes| <= s.limit
  {
    var added := SortBy(Offset, Ranges(s, sequence) + [f]);
    AdmitKeeps(s, sequence, f, total);
    if Reaches(added, 0, total) then
      (Store(s.limit, s.pending - {sequence}, s.retained + |f.bytes| - Stored(added)),
       Ok(Some(LogicalMessage(channel, sequence, PasteAll(Zeros(total), added)))))
    else (Store(s.limit, s.pending[sequence := Pending(total, added)], s.retained + |f.bytes|), Ok(None))
  }

  function InsertSpec(s: Reassembly, channel: ChannelId, sequence: u32, offset: u32, total: u32, bytes: Bytes)
    : (Reassembly, Outcome)
  {
    var f := Range(offset, bytes);
    if total == 0 || total > s.limit then (s, Err(ChannelError(ResourceLimit)))
    else if f.End() > total then (s, Err(ChannelError(FragmentRange)))
    else if sequence in s.pending && s.pending[sequence].total != total then
      (ResetSpec(s, sequence), Err(ChannelError(FragmentRange)))
    else
      match ScanRanges(Ranges(s, sequence), f)
      case Conflict => (ResetSpec(s, sequence), Err(ChannelError(FragmentOverlap)))
      case Duplicate => (s, Ok(None))
      case Fresh =>
        if s.retained + |bytes| > s.limit then (s, Err(ChannelError(ResourceLimit)))
        else Admit(s, channel, sequence, f, total)
  }

  class Reassembler {
    const limit: nat
    var pending: map<u32, Pending>
    var retained: nat

    function State(): Store
      reads this
    {
      Store(limit, pending, retained)
    }

    ghost predicate Valid()
      reads this
    {
      ValidStore(State())
    }

    constructor (limit: nat)
      ensures Valid() && State() == Store(limit, map[], 0)
    {
      this.limit := limit;
      pending := map[];
      retained := 0;
    }

    method ResetMessage(sequence: u32)
      requires Valid()
      modifies this
      ensures Valid() && State() == ResetSpec(old(State()), sequence)
    {
      if sequence !in pending {
        return;
      }
      TotalSplit(pending, sequence);
      var ranges := pending[sequence].ranges;
      ghost var kept := retained - Stored(ranges);
      for i := 0 to |ranges|
        invariant retained == kept + Stored(ranges[i..])
        invariant pending == old(pending)
      {
        assert ranges[i..][1..] == ranges[i + 1..];
        retained := retained - |ranges[i].bytes|;
      }
      pending := pending - {sequence};
    }

    /** The comparison of one stored range with the fragment, byte by byte over their overlap. */
    method SameBytes(r: Range, f: Range) returns (same: bool)
      ensures same == Agree(r, f)
    {
      var pos := Max(r.offset, f.offset);
      var end := Min(r.End(), f.End());
      while pos < end
        invariant Max(r.offset, f.offset) <= pos
        invariant forall p :: Max(r.offset, f.offset) <= p < pos && p < end ==> r.At(p) == f.At(p)
      {
        if r.At(pos) != f.At(pos) {
          return false;
        }
        pos := pos + 1;
      }
      return true;
    }

    method ScanLoop(ranges: seq<Range>, f: Range) returns (scan: Scan)
      ensures scan == ScanRanges(ranges, f)
    {
      hide Agree, Holds, Disjoint;
      assert ranges[0..] == ranges;
      for i := 0 to |ranges|
        invariant ScanRanges(ranges, f) == ScanRanges(ranges[i..], f)
      {
        assert ranges[i..][1..] == ranges[i + 1..];
        if !Disjoint(ranges[i], f) {
          var same := SameBytes(ranges[i], f);
          if !same {
            return Conflict;
          }
          if Holds(ranges[i], f) {
            return Duplicate;
          }
        }
      }
      return Fresh;
    }

    method CoverageLoop(ranges: seq<Range>, total: nat) returns (complete: bool)
      ensures complete == Reaches(ranges, 0, total)
    {
      var covered: nat := 0;
      assert ranges[0..] == ranges;
      for i := 0 to |ranges|
        invariant Reaches(ranges, 0, total) == Reaches(ranges[i..], covered, total)
      {
        assert ranges[i..][1..] == ranges[i + 1..];
        if ranges[i].offset > covered {
          return false;
        }
        covered := Max(covered, ranges[i].End());
      }
      return covered >= total;
    }

    method Insert(channel: ChannelId, sequence: u32, offset: u32, total: u32, bytes: Bytes) returns (r: Outcome)
      requires Valid()
      modifies this
      ensures Valid() && (State(), r) == InsertSpec(old(State()), channel, sequence, offset, total, bytes)
    {
      hide Agree, Holds, Disjoint, ScanRanges, Reaches, SortBy, Stored, PasteAll, Total, ValidPending;
      var f := Range(offset, bytes);
      if total == 0 || total > limit {
        return Err(ChannelError(ResourceLimit));
      }
      if f.End() > total {
        return Err(ChannelError(FragmentRange));
      }
      if sequence in pending && pending[sequence].total != total {
        ResetMessage(sequence);
        return Err(ChannelError(FragmentRange));
      }
      var ranges := Ranges(State(), sequence);
      var scan := ScanLoop(ranges, f);
      if scan == Conflict {
        ResetMessage(sequence);
        return Err(ChannelError(FragmentOverlap));
      }
      if scan == Duplicate {
        return Ok(None);
      }
      if retained + |bytes| > limit {
        return Err(ChannelError(ResourceLimit));
      }
      ghost var next := Admit(State(), channel, sequence, f, total);
      var added := SortBy(Offset, ranges + [f]);
      AdmitKeeps(State(), sequence, f, total);
      assert pending[sequence := Pending(total, added)] - {sequence} == pending - {sequence};
      retained := retained + |bytes|;
      pending := pending[sequence := Pending(total, added)];
      var complete := CoverageLoop(added, total);
      if !complete {
        return Ok(None);
      }
      var payload := Assemble(added, total);
      pending := pending - {sequence};
      return Ok(Some(LogicalMessage(channel, sequence, payload)));
    }

    /** Copies every range into a zeroed message and gives its bytes back to the budget. */
    method Assemble(ranges: seq<Range>, total: nat) returns (payload: Bytes)
      requires InBounds(ranges, total) && Stored(ranges) <= retained
      modifies this`retained
      ensures payload == PasteAll(Zeros(total), ranges)
      ensures retained == old(retained) - Stored(ranges)
    {
      payload := Zeros(total);
      assert ranges[0..] == ranges;
      ghost var kept := retained - Stored(ranges);
      for i := 0 to |ranges|
        invariant |payload| == total
        invariant InBounds(ranges[i..], total)
        invariant PasteAll(payload, ranges[i..]) == PasteAll(Zeros(total), ranges)
        invariant retained == kept + Stored(ranges[i..])
      {
        assert ranges[i..][1..] == ranges[i + 1..];
        payload := Paste(payload, ranges[i]);
        retained := retained - |ranges[i].bytes|;
      }
    }
  }

  // ---------------------------------------------------------------- coverage

  predicate CoveredAt(ranges: seq<Range>, p: int) {
    exists r :: r in ranges && r.Has(p)
  }

  /** The coverage loop finds no gap exactly when every position lies in some range. */
  lemma {:induction false} ReachesIff(ranges: seq<Range>, covered: nat, total: nat)
    requires ByOffset(ranges) && InBounds(ranges, total)
    ensures Reaches(ranges, covered, total) <==> forall p :: covered <= p < total ==> CoveredAt(ranges, p)
  {
    if ranges == [] {
      if covered < total {
        assert !CoveredAt(ranges, covered);
      }
    } else {
      var first, rest := ranges[0], ranges[1..];
      assert ranges == [first] + rest;
      if first.offset <= covered {
        var next: nat := Max(covered, first.End());
        ReachesIff(rest, next, total);
        forall p | covered <= p < next
          ensures CoveredAt(ranges, p)
        {
          assert first.Has(p);
        }
        forall p | next <= p
          ensures CoveredAt(rest, p) <==> CoveredAt(ranges, p)
        {
        }
      } else {
        assert first.End() <= total;
        assert !CoveredAt(ranges, covered);
      }
    }
  }

  // ---------------------------------------------------------------- fragments of one message

  /** `r` is what `m` holds at `r`'s offset. */
  predicate SliceOf(m: Bytes, r: Range) {
    r.End() <= |m| && r.bytes == m[r.offset..r.End()]
  }

  predicate AllSlices(m: Bytes, ranges: seq<Range>) {
    forall r <- ranges :: SliceOf(m, r)
  }

  lemma {:induction false} PasteSlices(m: Bytes, payload: Bytes, ranges: seq<Range>, p: nat)
    requires |payload| == |m| && AllSlices(m, ranges) && InBounds(ranges, |m|) && p < |m|
    ensures PasteAll(payload, ranges)[p] == if CoveredAt(ranges, p) then m[p] else payload[p]
    decreases |ranges|
  {
    if ranges != [] {
      var first, rest := ranges[0], ranges[1..];
      assert ranges == [first] + rest;
      assert SliceOf(m, first);
      PasteSlices(m, Paste(payload, first), rest, p);
      assert Paste(payload, first)[p] == if first.Has(p) then m[p] else payload[p];
      assert CoveredAt(ranges, p) <==> first.Has(p) || CoveredAt(rest, p);
    }
  }

  /** A complete set of slices of `m` assembles to `m`. */
  lemma SlicesAssemble(m: Bytes, ranges: seq<Range>)
    requires AllSlices(m, ranges) && InBounds(ranges, |m|)
    requires forall p :: 0 <= p < |m| ==> CoveredAt(ranges, p)
    ensures PasteAll(Zeros(|m|), ranges) == m
  {
    forall p | 0 <= p < |m|
      ensures PasteAll(Zeros(|m|), ranges)[p] == m[p]
    {
      PasteSlices(m, Zeros(|m|), ranges, p);
    }
  }

  lemma SlicesAgree(m: Bytes, a: Range, b: Range)
    requires SliceOf(m, a) && SliceOf(m, b)
    ensures Agree(a, b)
  {
    forall p | Max(a.offset, b.offset) <= p < Min(a.End(), b.End())
      ensures a.At(p) == b.At(p)
    {
      assert a.At(p) == m[p] && b.At(p) == m[p];
    }
  }

  /** Slices of one message never conflict; a duplicate is one that a stored range contains. */
  lemma {:induction false} SlicesScan(m: Bytes, ranges: seq<Range>, f: Range)
    requires AllSlices(m, ranges) && SliceOf(m, f)
    ensures ScanRanges(ranges, f) != Conflict
    ensures ScanRanges(ranges, f) == Duplicate <==> exists r :: r in ranges && Holds(r, f)
  {
    hide SliceOf, Agree;
    if ranges != [] {
      assert ranges == [ranges[0]] + ranges[1..];
      SlicesAgree(m, ranges[0], f);
      SlicesScan(m, ranges[1..], f);
    }
  }

  /** The positions of `[0, total)` some stored range of message `sequence` covers. */
  function Coverage(s: Reassembly, sequence: u32, total: nat): set<int> {
    set p | 0 <= p < total && CoveredAt(Ranges(s, sequence), p)
  }

  predicate Between(low: int, p: int, high: int) { low <= p < high }

  function Interval(low: int, high: int): set<int> {
    set p | low <= p < high && Between(low, p, high)
  }

  function Positions(f: Range): set<int> { Interval(f.offset, f.End()) }
  function Whole(total: nat): set<int> { Interval(0, total) }

  /** The store holds nothing but true slices of `m` for message `sequence`, and not all of it. */
  ghost predicate Gathers(s: Reassembly, sequence: u32, m: Bytes) {
    && (sequence in s.pending ==> s.pending[sequence].total == |m|)
    && AllSlices(m, Ranges(s, sequence))
    && Coverage(s, sequence, |m|) != Whole(|m|)
  }

  /**
   One true slice of `m`, in whatever order, duplicated or overlapping: the call fails only for want of
   budget and then changes nothing; otherwise it delivers exactly `m` if the slice completes the
   coverage, and just extends the coverage if it does not.
   */
  lemma SliceStep(s: Reassembly, channel: ChannelId, sequence: u32, m: Bytes, offset: u32, bytes: Bytes)
    requires 0 < |m| <= s.limit && |m| < U32_SPAN
    requires Gathers(s, sequence, m) && SliceOf(m, Range(offset, bytes))
    ensures var (next, r) := InsertSpec(s, channel, sequence, offset, |m|, bytes);
            var f := Range(offset, bytes);
            var cover := Coverage(s, sequence, |m|) + Positions(f);
            && (r.Err? <==> (forall g <- Ranges(s, sequence) :: !Holds(g, f)) && s.retained + |bytes| > s.limit)
            && (r.Err? ==> next == s && r.error == ChannelError(ResourceLimit))
            && (r.Ok? ==> (r.value.Some? <==> cover == Whole(|m|)))
            && (r.Ok? && r.value.Some? ==> r.value.value == LogicalMessage(channel, sequence, m) && sequence !in next.pending)
            && (r.Ok? && r.value.None? ==> Coverage(next, sequence, |m|) == cover)
            && ((r.Ok? && r.value.None?) || r.Err? ==> Gathers(next, sequence, m))
  {
    hide Agree, SliceOf, Reaches, PasteAll, Holds, CoveredAt, ScanRanges;
    var f := Range(offset, bytes);
    var ranges := Ranges(s, sequence);
    SliceInside(m, f);
    SlicesScan(m, ranges, f);
    match ScanRanges(ranges, f)
    case Conflict =>
    case Duplicate =>
      var r :| r in ranges && Holds(r, f);
      HeldCovered(s, sequence, |m|, r, f);
    case Fresh =>
      if s.retained + |bytes| <= s.limit {
        SliceAdmitted(s, channel, sequence, m, f);
      }
  }

  lemma SliceInside(m: Bytes, f: Range)
    requires SliceOf(m, f)
    ensures f.End() <= |m|
  {
  }

  lemma HeldCovered(s: Reassembly, sequence: u32, total: nat, r: Range, f: Range)
    requires r in Ranges(s, sequence) && Holds(r, f) && f.End() <= total
    ensures Coverage(s, sequence, total) + Positions(f) == Coverage(s, sequence, total)
  {
    forall p | p in Positions(f)
      ensures p in Coverage(s, sequence, total)
    {
      assert r.Has(p);
    }
  }

  lemma SliceAdmitted(s: Reassembly, channel: ChannelId, sequence: u32, m: Bytes, f: Range)
    requires 0 < |m| < U32_SPAN && f.End() <= |m|
    requires Gathers(s, sequence, m) && SliceOf(m, f)
    requires ScanRanges(Ranges(s, sequence), f) == Fresh && s.retained + |f.bytes| <= s.limit
    ensures var (next, r) := Admit(s, channel, sequence, f, |m|);
            var cover := Coverage(s, sequence, |m|) + Positions(f);
            && r.Ok? && (r.value.Some? <==> cover == Whole(|m|))
            && (r.value.Some? ==> r.value.value == LogicalMessage(channel, sequence, m) && sequence !in next.pending)
            && (r.value.None? ==> Coverage(next, sequence, |m|) == cover && Gathers(next, sequence, m))
  {
    hide Agree, SliceOf, Reaches, PasteAll, Holds, ScanRanges, SortBy;
    var ranges := Ranges(s, sequence);
    var added := SortBy(Offset, ranges + [f]);
    AdmitKeeps(s, sequence, f, |m|);
    AddedMembers(ranges, f);
    AddedCoverage(ranges, f, added, |m|);
    ReachesIff(added, 0, |m|);
    if Reaches(added, 0, |m|) {
      SlicesAssemble(m, added);
    }
  }

  lemma AddedCoverage(ranges: seq<Range>, f: Range, added: seq<Range>, total: nat)
    requires forall r :: r in added <==> r in ranges || r == f
    requires f.End() <= total
    ensures (set p | 0 <= p < total && CoveredAt(added, p))
         == (set p | 0 <= p < total && CoveredAt(ranges, p)) + Positions(f)
    ensures (forall p :: 0 <= p < total ==> CoveredAt(added, p))
       <==> (set p | 0 <= p < total && CoveredAt(added, p)) == Whole(total)
  {
    forall p | 0 <= p < total
      ensures CoveredAt(added, p) <==> CoveredAt(ranges, p) || p in Positions(f)
    {
      if p in Positions(f) {
        assert f.Has(p) && f in added;
      }
    }
    if (set p | 0 <= p < total && CoveredAt(added, p)) == Whole(total) {
      forall p | 0 <= p < total
        ensures CoveredAt(added, p)
      {
        assert p in Whole(total);
      }
    }
  }

  // ---------------------------------------------------------------- any fragment at all

  /** Some position lies in the fragment and in a stored range of its message, with different bytes. */
  ghost predicate Clashes(ranges: seq<Range>, f: Range) {
    exists r, p: int :: r in ranges && r.Has(p) && f.Has(p) && r.At(p) != f.At(p)
  }

  /** Message `sequence` is gone, its bytes are given back, and everything else is as it was. */
  ghost predicate Forgets(s: Reassembly, next: Reassembly, sequence: u32) {
    && next.limit == s.limit && next.pending == s.pending - {sequence}
    && next.retained == s.retained - Stored(Ranges(s, sequence))
  }

  /** The fragment passes the checks that look at nothing but its numbers. */
  predicate WellPlaced(s: Reassembly, f: Range, total: u32) { 0 < total <= s.limit && f.End() <= total }

  lemma DisagreeIsClash(r: Range, f: Range)
    ensures !Agree(r, f) <==> exists p: int :: r.Has(p) && f.Has(p) && r.At(p) != f.At(p)
  {
    if !Agree(r, f) {
      var p :| Max(r.offset, f.offset) <= p < Min(r.End(), f.End()) && r.At(p) != f.At(p);
      assert r.Has(p) && f.Has(p);
    }
  }

  lemma ClashIff(ranges: seq<Range>, f: Range)
    ensures Clashes(ranges, f) <==> exists r :: r in ranges && !Agree(r, f)
  {
    hide Agree;
    forall r
      ensures !Agree(r, f) <==> exists p: int :: r.Has(p) && f.Has(p) && r.At(p) != f.At(p)
    {
      DisagreeIsClash(r, f);
    }
  }

  /**
   What any fragment gets, in terms of positions and bytes. One that does not fit its own total is refused
   without change. One that names another total than its message, or that contradicts a stored byte, is
   refused, and the message is forgotten: exactly then, and nothing else is touched.
   */
  lemma InsertRefusals(s: Reassembly, channel: ChannelId, sequence: u32, offset: u32, total: u32, bytes: Bytes)
    ensures var (next, r) := InsertSpec(s, channel, sequence, offset, total, bytes);
            var f := Range(offset, bytes);
            if !WellPlaced(s, f, total) then
              next == s && r == Err(ChannelError(if 0 < total <= s.limit then FragmentRange else ResourceLimit))
            else
              var changed := sequence in s.pending && s.pending[sequence].total != total;
              var clash := !changed && Clashes(Ranges(s, sequence), f);
              && (r == Err(ChannelError(FragmentRange)) <==> changed)
              && (r == Err(ChannelError(FragmentOverlap)) <==> clash)
              && (changed || clash ==> Forgets(s, next, sequence))
              && (r.Err? && !changed && !clash ==> next == s && r == Err(ChannelError(ResourceLimit)))
  {
    hide ScanRanges, Agree, Holds, Reaches, PasteAll, SortBy, Clashes, Consistent;
    var f := Range(offset, bytes);
    if WellPlaced(s, f, total) {
      RangesConsistent(s, sequence);
      ScanMeaning(Ranges(s, sequence), f);
      ClashIff(Ranges(s, sequence), f);
      ForgetsReset(s, sequence);
    }
  }

  lemma RangesConsistent(s: Reassembly, sequence: u32)
    ensures Consistent(Ranges(s, sequence)) && InBounds(Ranges(s, sequence), if sequence in s.pending then s.pending[sequence].total else 0)
  {
    if sequence in s.pending { RangesValid(s, sequence); }
  }

  lemma ForgetsReset(s: Reassembly, sequence: u32)
    ensures Forgets(s, ResetSpec(s, sequence), sequence)
  {
    if sequence !in s.pending { assert s.pending - {sequence} == s.pending; }
  }

  /** What the message is known to be: the fragment's bytes where it has them, the stored ones elsewhere. */
  ghost predicate Joins(payload: Bytes, ranges: seq<Range>, f: Range) {
    && f.End() <= |payload| && payload[f.offset..f.End()] == f.bytes
    && forall r, p: int | r in ranges && r.Has(p) && p < |payload| :: payload[p] == r.At(p)
  }

  /**
   A fragment that contradicts nothing: one a stored range already holds changes nothing; any other costs its
   size of the budget, or is refused where there is not so much left. The message is delivered exactly when
   every position is then stored, with the stored bytes, and gives all of them back.
   */
  lemma InsertAccepts(s: Reassembly, channel: ChannelId, sequence: u32, offset: u32, total: u32, bytes: Bytes)
    requires WellPlaced(s, Range(offset, bytes), total)
    requires sequence in s.pending ==> s.pending[sequence].total == total
    requires !Clashes(Ranges(s, sequence), Range(offset, bytes))
    ensures var (next, r) := InsertSpec(s, channel, sequence, offset, total, bytes);
            var f, ranges := Range(offset, bytes), Ranges(s, sequence);
            var held := exists g :: g in ranges && Holds(g, f);
            var whole := Coverage(s, sequence, total) + Positions(f) == Whole(total);
            && (held ==> next == s && r == Ok(None))
            && (!held && s.retained + |bytes| > s.limit ==> next == s && r == Err(ChannelError(ResourceLimit)))
            && (!held && s.retained + |bytes| <= s.limit && whole ==>
                  && r.Ok? && r.value.Some? && r.value.value.channel == channel && r.value.value.sequence == sequence
                  && |r.value.value.payload| == total && Joins(r.value.value.payload, ranges, f)
                  && Forgets(s, next, sequence))
            && (!held && s.retained + |bytes| <= s.limit && !whole ==>
                  && r == Ok(None) && next.limit == s.limit && next.retained == s.retained + |bytes|
                  && sequence in next.pending && next.pending - {sequence} == s.pending - {sequence}
                  && next.pending[sequence].total == total
                  && multiset(next.pending[sequence].ranges) == multiset(ranges + [f]))
  {
    hide ScanRanges, Agree, Holds, Reaches, PasteAll, SortBy, Clashes, Consistent, CoveredAt, Stored, Joins;
    var f, ranges := Range(offset, bytes), Ranges(s, sequence);
    RangesConsistent(s, sequence);
    ScanMeaning(ranges, f);
    ClashIff(ranges, f);
    if ScanRanges(ranges, f) == Fresh && s.retained + |bytes| <= s.limit {
      FreshAdmitted(s, channel, sequence, f, total);
    }
  }

  lemma FreshAdmitted(s: Reassembly, channel: ChannelId, sequence: u32, f: Range, total: u32)
    requires 0 < total && f.End() <= total
    requires sequence in s.pending ==> s.pending[sequence].total == total
    requires ScanRanges(Ranges(s, sequence), f) == Fresh && s.retained + |f.bytes| <= s.limit
    ensures var (next, r) := Admit(s, channel, sequence, f, total);
            var ranges := Ranges(s, sequence);
            if Coverage(s, sequence, total) + Positions(f) == Whole(total) then
              && r.Ok? && r.value.Some? && r.value.value.channel == channel && r.value.value.sequence == sequence
              && |r.value.value.payload| == total && Joins(r.value.value.payload, ranges, f)
              && Forgets(s, next, sequence)
            else
              && r == Ok(None) && next.limit == s.limit && next.retained == s.retained + |f.bytes|
              && sequence in next.pending && next.pending - {sequence} == s.pending - {sequence}
              && next.pending[sequence].total == total
              && multiset(next.pending[sequence].ranges) == multiset(ranges + [f])
  {
    hide Agree, Reaches, PasteAll, Holds, ScanRanges, SortBy, CoveredAt, Consistent, Stored, Joins;
    var ranges := Ranges(s, sequence);
    var added := SortBy(Offset, ranges + [f]);
    AdmitKeeps(s, sequence, f, total);
    AddedMembers(ranges, f);
    AddedCoverage(ranges, f, added, total);
    ReachesIff(added, 0, total);
    SortBySorted(Offset, ranges + [f]);
    StoredSorted(ranges + [f]);
    StoredAppend(ranges, f);
    if Reaches(added, 0, total) {
      FreshAgrees(ranges, f);
      RangesConsistent(s, sequence);
      AddedConsistent(ranges, f, added);
      PastedJoins(total, added, ranges, f);
    } else {
      assert s.pending[sequence := Pending(total, added)] - {sequence} == s.pending - {sequence};
    }
  }

  lemma PastedJoins(total: u32, added: seq<Range>, ranges: seq<Range>, f: Range)
    requires Consistent(added) && InBounds(added, total) && f in added && forall r <- ranges :: r in added
    requires forall p :: 0 <= p < total ==> CoveredAt(added, p)
    ensures Joins(PasteAll(Zeros(total), added), ranges, f)
  {
    hide Agree, PasteAll, Consistent, CoveredAt;
    var payload := PasteAll(Zeros(total), added);
    forall r, p: int | r in added && r.Has(p)
      ensures p < total && payload[p] == r.At(p)
    {
      AgreeAll(added, r);
      PasteConsistent(Zeros(total), added, r, p);
    }
    assert forall i :: 0 <= i < |f.bytes| ==> f.Has(f.offset + i) && payload[f.offset + i] == f.bytes[i];
  }

  // ---------------------------------------------------------------- whole runs

  datatype Call =
    | Fragment(channel: ChannelId, sequence: u32, offset: u32, total: u32, bytes: Bytes)
    | Reset(sequence: u32)

  function Apply(s: Reassembly, c: Call): (Reassembly, Outcome) {
    match c
    case Fragment(channel, sequence, offset, total, bytes) => InsertSpec(s, channel, sequence, offset, total, bytes)
    case Reset(sequence) => (ResetSpec(s, sequence), Ok(None))
  }

  /** The store after a run of calls on any messages. */
  function After(s: Reassembly, calls: seq<Call>): Reassembly {
    if calls == [] then s else Apply(After(s, calls[..|calls| - 1]), calls[|calls| - 1]).0
  }

  /** A call for another message leaves this one's fragments alone. */
  lemma OtherMessages(s: Reassembly, c: Call, sequence: u32)
    requires c.sequence != sequence
    ensures var next := Apply(s, c).0;
            && (sequence in next.pending <==> sequence in s.pending)
            && (sequence in s.pending ==> next.pending[sequence] == s.pending[sequence])
  {
    hide ScanRanges, Reaches, PasteAll, SortBy, Agree, Stored;
  }

  lemma {:induction false} LimitFixed(s: Reassembly, calls: seq<Call>)
    ensures After(s, calls).limit == s.limit
  {
    hide ScanRanges, Reaches, PasteAll, SortBy, Agree, Stored;
    if calls != [] {
      LimitFixed(s, calls[..|calls| - 1]);
    }
  }

  /** Every call that names message `sequence` brings a true slice of `m`. */
  ghost predicate SlicesOnly(calls: seq<Call>, sequence: u32, m: Bytes) {
    forall c <- calls | c.sequence == sequence ::
      c.Fragment? && c.total == |m| && SliceOf(m, Range(c.offset, c.bytes))
  }

  /** The positions of `m` accepted since `m` was last delivered. */
  function Accepted(s: Reassembly, calls: seq<Call>, sequence: u32, m: Bytes): set<int> {
    if calls == [] then Coverage(s, sequence, |m|)
    else
      var before, c := calls[..|calls| - 1], calls[|calls| - 1];
      var known := Accepted(s, before, sequence, m);
      if !c.Fragment? || c.sequence != sequence then known
      else
        match Apply(After(s, before), c).1
        case Err(_) => known
        case Ok(None) => known + Positions(Range(c.offset, c.bytes))
        case Ok(Some(_)) => {}
  }

  lemma {:induction false} GathersAlong(s: Reassembly, calls: seq<Call>, sequence: u32, m: Bytes)
    requires 0 < |m| <= s.limit && |m| < U32_SPAN
    requires SlicesOnly(calls, sequence, m) && Gathers(s, sequence, m)
    ensures Gathers(After(s, calls), sequence, m)
    ensures Accepted(s, calls, sequence, m) == Coverage(After(s, calls), sequence, |m|)
  {
    hide Apply, Agree, SliceOf, Coverage;
    if calls != [] {
      var before, c := calls[..|calls| - 1], calls[|calls| - 1];
      assert c in calls && forall d <- before :: d in calls;
      GathersAlong(s, before, sequence, m);
      LimitFixed(s, before);
      if c.sequence == sequence {
        CallStep(After(s, before), c, m);
      } else {
        OtherMessages(After(s, before), c, sequence);
        SameGathering(After(s, before), After(s, calls), sequence, m);
      }
    }
  }

  lemma SameGathering(a: Reassembly, b: Reassembly, sequence: u32, m: Bytes)
    requires sequence in b.pending <==> sequence in a.pending
    requires sequence in a.pending ==> b.pending[sequence] == a.pending[sequence]
    ensures Gathers(a, sequence, m) ==> Gathers(b, sequence, m)
    ensures Coverage(a, sequence, |m|) == Coverage(b, sequence, |m|)
  {
    assert Ranges(a, sequence) == Ranges(b, sequence);
  }

  lemma CallStep(s: Reassembly, c: Call, m: Bytes)
    requires 0 < |m| <= s.limit && |m| < U32_SPAN
    requires c.Fragment? && c.total == |m| && SliceOf(m, Range(c.offset, c.bytes))
    requires Gathers(s, c.sequence, m)
    ensures var (next, r) := Apply(s, c);
            var cover := Coverage(s, c.sequence, |m|) + Positions(Range(c.offset, c.bytes));
            && Gathers(next, c.sequence, m)
            && (r.Err? ==> next == s && r.error == ChannelError(ResourceLimit))
            && (r.Ok? ==> (r.value.Some? <==> cover == Whole(|m|)))
            && (r.Ok? && r.value.None? ==> Coverage(next, c.sequence, |m|) == cover)
            && (r.Ok? && r.value.Some? ==> r.value.value == LogicalMessage(c.channel, c.sequence, m))
            && (r.Ok? && r.value.Some? ==> Coverage(next, c.sequence, |m|) == {})
  {
    hide InsertSpec, SliceOf, Positions;
    SliceStep(s, c.channel, c.sequence, m, c.offset, c.bytes);
    var (next, r) := Apply(s, c);
    if r.Ok? && r.value.Some? {
      NothingGathered(next, c.sequence, m);
    }
  }

  lemma NothingGathered(s: Reassembly, sequence: u32, m: Bytes)
    requires sequence !in s.pending && |m| > 0
    ensures Coverage(s, sequence, |m|) == {} && Gathers(s, sequence, m)
  {
    assert Between(0, 0, |m|);
    assert 0 in Whole(|m|);
  }

  /**
   On any run in which message `sequence` is only ever fed true slices of `m`, in any order, duplicated,
   overlapping and interleaved with other messages: a slice is refused only for want of budget, and
   `m` is delivered, whole and unchanged, at exactly the calls where the accepted slices first cover it.
   */
  lemma ExactDelivery(s: Reassembly, calls: seq<Call>, sequence: u32, m: Bytes, n: nat)
    requires 0 < |m| <= s.limit && |m| < U32_SPAN
    requires sequence !in s.pending && SlicesOnly(calls, sequence, m)
    requires n < |calls| && calls[n].sequence == sequence
    ensures var c := calls[n];
            var before := After(s, calls[..n]);
            var r := Apply(before, c).1;
            var cover := Accepted(s, calls[..n], sequence, m) + Positions(Range(c.offset, c.bytes));
            && (r.Err? ==> r.error == ChannelError(ResourceLimit) && before.retained + |c.bytes| > s.limit)
            && (r.Ok? ==> (r.value.Some? <==> cover == Whole(|m|)))
            && (r.Ok? && r.value.Some? ==> r.value.value == LogicalMessage(c.channel, sequence, m))
  {
    hide Agree, SliceOf, InsertSpec, Positions;
    NothingGathered(s, sequence, m);
    assert forall d <- calls[..n] :: d in calls;
    assert calls[n] in calls;
    GathersAlong(s, calls[..n], sequence, m);
    LimitFixed(s, calls[..n]);
    var c := calls[n];
    SliceStep(After(s, calls[..n]), c.channel, sequence, m, c.offset, c.bytes);
  }

  /** On every run: the ranges of a message agree wherever they overlap, and the budget is the stored bytes. */
  lemma EveryRun(s: Reassembly, calls: seq<Call>)
    ensures var t := After(s, calls);
            && t.retained == Total(t.pending) <= t.limit == s.limit
            && (forall k, a, b, p |
                  k in t.pending && a in t.pending[k].ranges && b in t.pending[k].ranges && a.Has(p) && b.Has(p) ::
                  a.At(p) == b.At(p) && a.End() <= t.pending[k].total)
  {
    LimitFixed(s, calls);
    hide After;
    var t := After(s, calls);
    forall k, a, b, p | k in t.pending && a in t.pending[k].ranges && b in t.pending[k].ranges && a.Has(p) && b.Has(p)
      ensures a.At(p) == b.At(p) && a.End() <= t.pending[k].total
    {
      assert ValidPending(t.pending[k]);
      AgreeAll(t.pending[k].ranges, b);
      assert Agree(a, b);
    }
  }

  // ---------------------------------------------------------------- the order of equal offsets

  /** On consistent ranges the scan's answer does not depend on the order it meets them in. */
  lemma {:induction false} ScanMeaning(ranges: seq<Range>, f: Range)
    requires Consistent(ranges)
    ensures ScanRanges(ranges, f) ==
            if exists r :: r in ranges && !Agree(r, f) then Conflict
            else if exists r :: r in ranges && Holds(r, f) then Duplicate
            else Fresh
  {
    if ranges != [] {
      var first, rest := ranges[0], ranges[1..];
      ConsistentTail(ranges);
      ScanMeaning(rest, f);
      DisjointAgrees(first, f);
      hide Agree, Holds, Disjoint, Consistent;
      if !Disjoint(first, f) && Agree(first, f) && Holds(first, f) {
        forall r | r in ranges
          ensures Agree(r, f)
        {
          if r != first {
            HeldAgrees(first, r, f);
          }
        }
      }
    }
  }

  lemma DisjointAgrees(r: Range, f: Range)
    ensures Disjoint(r, f) ==> Agree(r, f) && !Holds(r, f)
  {
  }

  lemma ConsistentTail(ranges: seq<Range>)
    requires ranges != [] && Consistent(ranges)
    ensures ranges == [ranges[0]] + ranges[1..] && Consistent(ranges[1..])
    ensures forall r <- ranges[1..] :: Agree(ranges[0], r)
  {
    hide Agree;
    var rest := ranges[1..];
    assert forall i :: 0 <= i < |rest| ==> rest[i] == ranges[i + 1];
  }

  lemma HeldAgrees(first: Range, r: Range, f: Range)
    requires Agree(first, r) && Agree(first, f) && Holds(first, f)
    ensures Agree(r, f)
  {
    forall p | Max(r.offset, f.offset) <= p < Min(r.End(), f.End())
      ensures r.At(p) == f.At(p)
    {
      assert first.At(p) == r.At(p) && first.At(p) == f.At(p);
    }
  }

  lemma {:induction false} PasteConsistent(payload: Bytes, ranges: seq<Range>, r: Range, p: nat)
    requires InBounds(ranges, |payload|) && p < |payload| && r.Has(p)
    requires forall x <- ranges :: Agree(x, r)
    requires r in ranges || payload[p] == r.At(p)
    ensures PasteAll(payload, ranges)[p] == r.At(p)
    decreases |ranges|
  {
    if ranges != [] {
      var first, rest := ranges[0], ranges[1..];
      assert ranges == [first] + rest;
      PasteAt(payload, first, r, p);
      PasteConsistent(Paste(payload, first), rest, r, p);
    }
  }

  lemma PasteAt(payload: Bytes, first: Range, r: Range, p: nat)
    requires first.End() <= |payload| && p < |payload| && r.Has(p) && Agree(first, r)
    ensures first.Has(p) ==> Paste(payload, first)[p] == r.At(p)
    ensures !first.Has(p) ==> Paste(payload, first)[p] == payload[p]
  {
  }

  lemma {:induction false} StoredRemove(ranges: seq<Range>, j: nat)
    requires j < |ranges|
    ensures Stored(ranges) == |ranges[j].bytes| + Stored(ranges[..j] + ranges[j + 1..])
  {
    if j == 0 {
      assert ranges[..0] + ranges[1..] == ranges[1..];
    } else {
      StoredRemove(ranges[1..], j - 1);
      assert (ranges[..j] + ranges[j + 1..])[1..] == ranges[1..][..j - 1] + ranges[1..][j..];
    }
  }

  lemma {:induction false} StoredPermuted(a: seq<Range>, b: seq<Range>)
    requires multiset(a) == multiset(b)
    ensures Stored(a) == Stored(b)
  {
    if a == [] {
      assert |multiset(b)| == 0;
    } else {
      assert a[0] in multiset(b);
      var j :| 0 <= j < |b| && b[j] == a[0];
      StoredRemove(b, j);
      TailMultiset(a);
      RemoveMultiset(b, j);
      StoredPermuted(a[1..], b[..j] + b[j + 1..]);
    }
  }

  lemma RemoveMultiset(s: seq<Range>, j: nat)
    requires j < |s|
    ensures multiset(s[..j] + s[j + 1..]) == multiset(s) - multiset{s[j]}
  {
    assert s == s[..j] + [s[j]] + s[j + 1..];
  }

  /**
   Any other arrangement of ranges that start together, such as an unstable sort may leave, answers the
   next fragment the same way: same scan, same completeness, same bytes given back, same message.
   */
  lemma ArrangementIrrelevant(a: seq<Range>, b: seq<Range>, f: Range, total: u32)
    requires multiset(a) == multiset(b)
    requires ByOffset(a) && Consistent(a) && InBounds(a, total)
    requires ByOffset(b)
    ensures Consistent(b) && InBounds(b, total)
    ensures ScanRanges(a, f) == ScanRanges(b, f)
    ensures Reaches(a, 0, total) == Reaches(b, 0, total)
    ensures Stored(a) == Stored(b)
    ensures Reaches(a, 0, total) ==> PasteAll(Zeros(total), a) == PasteAll(Zeros(total), b)
  {
    hide Agree, Holds, ScanRanges, Reaches, Stored, PasteAll, ByOffset, Disjoint;
    SameMembers(a, b);
    ConsistentMembers(a, b);
    ScanMeaning(a, f);
    ScanMeaning(b, f);
    StoredPermuted(a, b);
    ReachesIff(a, 0, total);
    ReachesIff(b, 0, total);
    assert forall p :: CoveredAt(a, p) <==> CoveredAt(b, p);
    if Reaches(a, 0, total) {
      forall p | 0 <= p < total
        ensures PasteAll(Zeros(total), a)[p] == PasteAll(Zeros(total), b)[p]
      {
        assert CoveredAt(a, p);
        var r :| r in a && r.Has(p);
        AgreeAll(a, r);
        PasteConsistent(Zeros(total), a, r, p);
        PasteConsistent(Zeros(total), b, r, p);
      }
    }
  }

  lemma AgreeAll(ranges: seq<Range>, r: Range)
    requires Consistent(ranges) && r in ranges
    ensures forall x <- ranges :: Agree(x, r)
  {
    hide Agree;
    var i :| 0 <= i < |ranges| && ranges[i] == r;
    forall x | x in ranges
      ensures Agree(x, r)
    {
      var j :| 0 <= j < |ranges| && ranges[j] == x;
      assert Agree(ranges[j], ranges[i]);
    }
  }

  lemma SameMembers(a: seq<Range>, b: seq<Range>)
    requires multiset(a) == multiset(b)
    ensures forall r :: r in a <==> r in b
  {
    assert forall r :: r in a <==> r in multiset(a);
    assert forall r :: r in b <==> r in multiset(b);
  }

  lemma ConsistentMembers(a: seq<Range>, b: seq<Range>)
    requires Consistent(a) && forall r <- b :: r in a
    ensures Consistent(b)
  {
    hide Agree;
    forall i, j | 0 <= i < |b| && 0 <= j < |b|
      ensures Agree(b[i], b[j])
    {
      assert b[i] in a && b[j] in a;
      var k :| 0 <= k < |a| && a[k] == b[i];
      var l :| 0 <= l < |a| && a[l] == b[j];
      assert Agree(a[k], a[l]);
    }
  }
}
