/** The executor without threads: one queue for all shards, drained by whoever owns it. */
module Deterministic {
  import opened Types
  import opened Executors
  import Sorting

  datatype Single = Single(capacity: nat, shards: u32, nextId: nat, queue: seq<Task>)

  function NewSingle(capacity: nat, shards: u32): Single {
    Single(capacity, if shards == 0 then 1 else shards, 1, [])
  }

  function SubmitOne(s: Single, shard: u32, empty: bool): (Single, Result<nat>) {
    if empty then (s, Err(ExecutorError(IllegalState)))
    else if shard >= s.shards then (s, Err(ExecutorError(ResourceLimit)))
    else if |s.queue| >= s.capacity then (s, Err(ExecutorError(WouldBlock)))
    else (s.(nextId := s.nextId + 1, queue := s.queue + [Task(s.nextId, shard)]), Ok(s.nextId))
  }

  function Without(queue: seq<Task>, id: nat): seq<Task> {
    if queue == [] then [] else (if queue[0].id == id then [] else [queue[0]]) + Without(queue[1..], id)
  }

  function CancelOne(s: Single, id: nat): (Single, Result<()>) {
    var rest := Without(s.queue, id);
    (s.(queue := rest), if |rest| == |s.queue| then Err(ExecutorError(IllegalState)) else Ok(()))
  }

  /** What a task may do to the executor that runs it. */
  datatype Call = Submit(shard: u32, empty: bool) | Cancel(id: nat)

  /** What running a task does: the calls it makes on the executor, in order, and its result. */
  datatype Outcome = Outcome(calls: seq<Call>, result: Result<()>)

  function Perform(s: Single, call: Call): Single {
    match call
    case Submit(shard, empty) => SubmitOne(s, shard, empty).0
    case Cancel(id) => CancelOne(s, id).0
  }

  function PerformAll(s: Single, calls: seq<Call>): Single
    decreases |calls|
  {
    if calls == [] then s else PerformAll(Perform(s, calls[0]), calls[1..])
  }

  function DrainOneSpec(s: Single, run: Task -> Outcome): (Single, Result<()>) {
    if s.queue == [] then (s, Ok(()))
    else
      var outcome := run(s.queue[0]);
      (PerformAll(s.(queue := s.queue[1..]), outcome.calls), outcome.result)
  }

  /** A drain that runs at most `fuel` tasks; `None` when it has not come to an end by then. */
  function DrainAllSpec(s: Single, run: Task -> Outcome, fuel: nat): (Single, Option<Result<()>>)
    decreases fuel
  {
    if s.queue == [] then (s, Some(Ok(())))
    else if fuel == 0 then (s, None)
    else
      var (next, r) := DrainOneSpec(s, run);
      if r.Err? then (next, Some(r)) else DrainAllSpec(next, run, fuel - 1)
  }

  class DeterministicExecutor {
    const capacity: nat
    const shards: u32
    var nextId: nat
    var queue: seq<Task>

    function State(): Single
      reads this
    {
      Single(capacity, shards, nextId, queue)
    }

    constructor (capacity: nat, shards: u32)
      ensures State() == NewSingle(capacity, shards)
    {
      this.capacity := capacity;
      this.shards := if shards == 0 then 1 else shards;
      nextId := 1;
      queue := [];
    }

    method Submit(shard: u32, empty: bool) returns (r: Result<nat>)
      modifies this
      ensures (State(), r) == SubmitOne(old(State()), shard, empty)
    {
      if empty {
        return Err(ExecutorError(IllegalState));
      }
      if shard >= shards {
        return Err(ExecutorError(ResourceLimit));
      }
      if |queue| >= capacity {
        return Err(ExecutorError(WouldBlock));
      }
      var id := nextId;
      nextId := nextId + 1;
      queue := queue + [Task(id, shard)];
      return Ok(id);
    }

    method Cancel(id: nat) returns (r: Result<()>)
      modifies this
      ensures (State(), r) == CancelOne(old(State()), id)
    {
      var size := |queue|;
      queue := Without(queue, id);
      if |queue| == size {
        return Err(ExecutorError(IllegalState));
      }
      return Ok(());
    }

    method DrainOne(run: Task -> Outcome) returns (r: Result<()>)
      modifies this
      ensures (State(), r) == DrainOneSpec(old(State()), run)
    {
      if queue == [] {
        return Ok(());
      }
      var outcome := run(queue[0]);
      queue := queue[1..];
      ghost var whole := PerformAll(State(), outcome.calls);
      assert outcome.calls[0..] == outcome.calls;
      for i := 0 to |outcome.calls|
        invariant PerformAll(State(), outcome.calls[i..]) == whole
      {
        match outcome.calls[i] {
          case Submit(shard, empty) => var _ := Submit(shard, empty);
          case Cancel(id) => var _ := Cancel(id);
        }
      }
      return outcome.result;
    }

    /** The loop may run forever, as tasks can submit tasks; `fuel` cuts it off. */
    method DrainAll(run: Task -> Outcome, fuel: nat) returns (r: Option<Result<()>>)
      modifies this
      ensures (State(), r) == DrainAllSpec(old(State()), run, fuel)
    {
      var left: nat := fuel;
      while queue != []
        invariant left <= fuel
        invariant DrainAllSpec(State(), run, left) == DrainAllSpec(old(State()), run, fuel)
        decreases left
      {
        if left == 0 {
          return None;
        }
        left := left - 1;
        var drained := DrainOne(run);
        if drained.Err? {
          return Some(drained);
        }
      }
      return Some(Ok(()));
    }
  }

  // ---------------------------------------------------------------- runs

  datatype Op = Do(call: Call) | RunFront

  /** The executor with what it accepted, ran and cancelled. */
  datatype Record = Record(now: Single, accepted: seq<Task>, ran: seq<Task>, cancelled: seq<Task>)

  function Named(queue: seq<Task>, id: nat): seq<Task> {
    if queue == [] then [] else (if queue[0].id == id then [queue[0]] else []) + Named(queue[1..], id)
  }

  function Apply(r: Record, op: Op): Record {
    match op
    case Do(Submit(shard, empty)) =>
      var (s, id) := SubmitOne(r.now, shard, empty);
      r.(now := s, accepted := r.accepted + if id.Ok? then [Task(id.value, shard)] else [])
    case Do(Cancel(id)) => r.(now := CancelOne(r.now, id).0, cancelled := r.cancelled + Named(r.now.queue, id))
    case RunFront =>
      if r.now.queue == [] then r
      else r.(now := r.now.(queue := r.now.queue[1..]), ran := r.ran + [r.now.queue[0]])
  }

  function After(r: Record, ops: seq<Op>): Record
    decreases |ops|
  {
    if ops == [] then r else After(Apply(r, ops[0]), ops[1..])
  }

  predicate ById(ts: seq<Task>) { forall i, j :: 0 <= i < j < |ts| ==> ts[i].id < ts[j].id }

  ghost predicate Kept(r: Record) {
    && multiset(r.accepted) == multiset(r.ran) + multiset(r.cancelled) + multiset(r.now.queue)
    && ById(r.accepted) && ById(r.ran + r.now.queue)
    && |r.now.queue| <= r.now.capacity
    && (forall t <- r.accepted :: t.id < r.now.nextId && t.shard < r.now.shards)
    && (forall t <- r.ran + r.now.queue :: t.id < r.now.nextId)
  }

  lemma {:induction false} WithoutMeaning(queue: seq<Task>, id: nat)
    ensures multiset(queue) == multiset(Without(queue, id)) + multiset(Named(queue, id))
    ensures |Without(queue, id)| <= |queue|
    ensures forall t <- Without(queue, id) :: t in queue
  {
    if queue != [] {
      WithoutMeaning(queue[1..], id);
      assert queue == [queue[0]] + queue[1..];
    }
  }

  lemma ByIdCons(t: Task, ts: seq<Task>)
    requires ById(ts) && forall u <- ts :: t.id < u.id
    ensures ById([t] + ts)
  {
  }

  lemma ByIdTail(ts: seq<Task>)
    requires ById(ts) && ts != []
    ensures ById(ts[1..]) && forall u <- ts[1..] :: ts[0].id < u.id
  {
  }

  lemma {:induction false} WithoutById(ran: seq<Task>, queue: seq<Task>, id: nat)
    requires ById(ran + queue)
    ensures ById(ran + Without(queue, id))
    decreases |ran| + |queue|
  {
    hide ById;
    if ran != [] {
      assert (ran + queue)[1..] == ran[1..] + queue;
      ByIdTail(ran + queue);
      WithoutById(ran[1..], queue, id);
      WithoutMeaning(queue, id);
      ByIdCons(ran[0], ran[1..] + Without(queue, id));
      assert [ran[0]] + (ran[1..] + Without(queue, id)) == ran + Without(queue, id);
    } else {
      assert ran + queue == queue && ran + Without(queue, id) == Without(queue, id);
      if queue != [] {
        ByIdTail(queue);
        var nobody: seq<Task> := [];
        assert nobody + queue[1..] == queue[1..] && nobody + Without(queue[1..], id) == Without(queue[1..], id);
        WithoutById([], queue[1..], id);
        WithoutMeaning(queue[1..], id);
        ByIdCons(queue[0], Without(queue[1..], id));
      }
    }
  }

  lemma SubmitKept(r: Record, shard: u32, empty: bool)
    requires Kept(r)
    ensures Kept(Apply(r, Do(Call.Submit(shard, empty))))
  {
    var (s, id) := SubmitOne(r.now, shard, empty);
    if id.Ok? {
      var t := Task(id.value, shard);
      assert r.ran + s.queue == (r.ran + r.now.queue) + [t];
      ByIdSnoc(r.accepted, t);
      ByIdSnoc(r.ran + r.now.queue, t);
    } else {
      assert r.accepted + [] == r.accepted;
    }
  }

  lemma ByIdSnoc(ts: seq<Task>, t: Task)
    requires ById(ts) && forall u <- ts :: u.id < t.id
    ensures ById(ts + [t])
  {
  }

  lemma CancelKept(r: Record, id: nat)
    requires Kept(r)
    ensures Kept(Apply(r, Do(Call.Cancel(id))))
  {
    hide ById, Without, Named;
    WithoutMeaning(r.now.queue, id);
    WithoutById(r.ran, r.now.queue, id);
    assert forall t <- r.ran + Without(r.now.queue, id) :: t in r.ran + r.now.queue;
  }

  lemma RunKept(r: Record)
    requires Kept(r)
    ensures Kept(Apply(r, RunFront))
  {
    hide ById;
    var queue := r.now.queue;
    if queue != [] {
      assert queue == [queue[0]] + queue[1..];
      assert r.ran + queue == (r.ran + [queue[0]]) + queue[1..];
    }
  }

  lemma {:induction false} AlwaysKept(r: Record, ops: seq<Op>)
    requires Kept(r)
    ensures Kept(After(r, ops))
    decreases |ops|
  {
    hide Kept, Apply;
    if ops != [] {
      match ops[0] {
        case Do(Submit(shard, empty)) => SubmitKept(r, shard, empty);
        case Do(Cancel(id)) => CancelKept(r, id);
        case RunFront => RunKept(r);
      }
      AlwaysKept(Apply(r, ops[0]), ops[1..]);
    }
  }

  /**
   On every run each accepted task was run, was cancelled or is queued, exactly once; tasks run in the
   order they were submitted; and the queue stays within its capacity.
   */
  lemma TasksAccounted(capacity: nat, shards: u32, ops: seq<Op>)
    ensures var r := After(Record(NewSingle(capacity, shards), [], [], []), ops);
            && multiset(r.accepted) == multiset(r.ran) + multiset(r.cancelled) + multiset(r.now.queue)
            && ById(r.accepted) && ById(r.ran + r.now.queue) && |r.now.queue| <= r.now.capacity
  {
    hide After;
    var start := Record(NewSingle(capacity, shards), [], [], []);
    assert Kept(start);
    AlwaysKept(start, ops);
  }

  // ---------------------------------------------------------------- a full drain

  function Doing(calls: seq<Call>): seq<Op> {
    if calls == [] then [] else [Do(calls[0])] + Doing(calls[1..])
  }

  /** The drain as a run: each task is taken from the front and then makes its calls. */
  function DrainOps(s: Single, run: Task -> Outcome, fuel: nat): seq<Op>
    decreases fuel
  {
    if s.queue == [] || fuel == 0 then []
    else
      var (next, r) := DrainOneSpec(s, run);
      [RunFront] + Doing(run(s.queue[0]).calls) + if r.Err? then [] else DrainOps(next, run, fuel - 1)
  }

  /** The tasks a drain runs, in order. */
  function Drained(s: Single, run: Task -> Outcome, fuel: nat): seq<Task>
    decreases fuel
  {
    if s.queue == [] || fuel == 0 then []
    else
      var (next, r) := DrainOneSpec(s, run);
      [s.queue[0]] + if r.Err? then [] else Drained(next, run, fuel - 1)
  }

  lemma {:induction false} AfterBoth(r: Record, a: seq<Op>, b: seq<Op>)
    ensures After(r, a + b) == After(After(r, a), b)
    decreases |a|
  {
    hide Apply;
    if a == [] {
      assert a + b == b;
    } else {
      assert (a + b)[0] == a[0] && (a + b)[1..] == a[1..] + b;
      AfterBoth(Apply(r, a[0]), a[1..], b);
    }
  }

  lemma {:induction false} DoingPerforms(r: Record, calls: seq<Call>)
    ensures After(r, Doing(calls)).now == PerformAll(r.now, calls)
    ensures After(r, Doing(calls)).ran == r.ran
    decreases |calls|
  {
    if calls != [] {
      assert Doing(calls)[1..] == Doing(calls[1..]);
      DoingPerforms(Apply(r, Do(calls[0])), calls[1..]);
    }
  }

  /** A drain is a run of the executor, tasks that submit and cancel included, so `TasksAccounted` speaks of it too. */
  lemma {:induction false} DrainAllRuns(r: Record, run: Task -> Outcome, fuel: nat)
    ensures var end := After(r, DrainOps(r.now, run, fuel));
            end.now == DrainAllSpec(r.now, run, fuel).0 && end.ran == r.ran + Drained(r.now, run, fuel)
    decreases fuel
  {
    hide After, Apply, Doing, DrainOneSpec;
    if r.now.queue == [] || fuel == 0 {
      NoOps(r);
      assert r.ran + [] == r.ran;
    } else {
      var front := r.now.queue[0];
      var (next, first) := DrainOneSpec(r.now, run);
      var ended := OneDrained(r, run);
      var one := [RunFront] + Doing(run(front).calls);
      if first.Err? {
        assert one + [] == one;
        assert [front] + [] == [front];
      } else {
        DrainAllRuns(ended, run, fuel - 1);
        AfterBoth(r, one, DrainOps(next, run, fuel - 1));
        Sorting.Assoc(r.ran, [front], Drained(next, run, fuel - 1));
      }
    }
  }

  lemma NoOps(r: Record)
    ensures After(r, []) == r
  {
  }

  lemma OneDrained(r: Record, run: Task -> Outcome) returns (ended: Record)
    requires r.now.queue != []
    ensures ended == After(r, [RunFront] + Doing(run(r.now.queue[0]).calls))
    ensures ended.now == DrainOneSpec(r.now, run).0 && ended.ran == r.ran + [r.now.queue[0]]
  {
    hide PerformAll, SubmitOne, CancelOne;
    var calls := run(r.now.queue[0]).calls;
    var taken := Apply(r, RunFront);
    DoingPerforms(taken, calls);
    var one := [RunFront] + Doing(calls);
    assert one[1..] == Doing(calls);
    ended := After(taken, Doing(calls));
  }

  /**
   The drain answers success exactly when it emptied the queue after successes only, and an error exactly
   when the last task it ran was the first to fail.
   */
  lemma {:induction false} DrainAllMeaning(s: Single, run: Task -> Outcome, fuel: nat)
    ensures var (t, answer) := DrainAllSpec(s, run, fuel);
            var ran := Drained(s, run, fuel);
            && (forall i :: 0 <= i < |ran| - 1 ==> run(ran[i]).result.Ok?)
            && (answer.Some? && answer.value.Ok? <==> t.queue == [] && forall task <- ran :: run(task).result.Ok?)
            && (forall e :: answer == Some(Err(e)) <==> ran != [] && run(ran[|ran| - 1]).result == Err(e))
            && (answer.None? ==> |ran| == fuel)
    decreases fuel
  {
    hide PerformAll;
    if s.queue != [] && fuel > 0 {
      var (next, first) := DrainOneSpec(s, run);
      if first.Ok? {
        DrainAllMeaning(next, run, fuel - 1);
        var rest := Drained(next, run, fuel - 1);
        assert Drained(s, run, fuel) == [s.queue[0]] + rest;
      } else {
        assert [s.queue[0]] + [] == [s.queue[0]];
      }
    }
  }

  lemma {:induction false} CallsGrow(s: Single, calls: seq<Call>)
    ensures var t := PerformAll(s, calls);
            |t.queue| - |s.queue| <= t.nextId - s.nextId
    decreases |calls|
  {
    if calls != [] {
      if calls[0].Cancel? { WithoutMeaning(s.queue, calls[0].id); }
      CallsGrow(Perform(s, calls[0]), calls[1..]);
    }
  }

  /**
   The drain comes to an end, unless the tasks keep submitting: while it is still running after `fuel` tasks,
   that many were queued at the start or accepted since.
   */
  lemma {:induction false} DrainAllEnds(s: Single, run: Task -> Outcome, fuel: nat)
    ensures var (t, answer) := DrainAllSpec(s, run, fuel);
            answer.None? ==> fuel + |t.queue| <= |s.queue| + (t.nextId - s.nextId)
    decreases fuel
  {
    if s.queue != [] && fuel > 0 {
      var taken := s.(queue := s.queue[1..]);
      CallsGrow(taken, run(s.queue[0]).calls);
      DrainAllEnds(DrainOneSpec(s, run).0, run, fuel - 1);
    }
  }

  /** And the fuel decides nothing else: an answer given within it stays the answer. */
  lemma {:induction false} MoreFuel(s: Single, run: Task -> Outcome, fuel: nat, more: nat)
    requires DrainAllSpec(s, run, fuel).1.Some? && fuel <= more
    ensures DrainAllSpec(s, run, more) == DrainAllSpec(s, run, fuel)
    decreases fuel
  {
    if s.queue != [] && DrainOneSpec(s, run).1.Ok? {
      MoreFuel(DrainOneSpec(s, run).0, run, fuel - 1, more - 1);
    }
  }

  function Resubmit(task: Task): Outcome { Outcome([Call.Submit(0, false)], Ok(())) }

  /** A task that submits its own successor is drained forever. */
  lemma {:induction false} Resubmits(s: Single, fuel: nat)
    requires |s.queue| == 1 && s.capacity > 0 && s.shards > 0
    ensures DrainAllSpec(s, Resubmit, fuel).1 == None
    decreases fuel
  {
    if fuel > 0 {
      var taken := s.(queue := []);
      assert s.queue[1..] == [];
      assert [Call.Submit(0, false)][1..] == [];
      assert PerformAll(taken, [Call.Submit(0, false)]) == PerformAll(Perform(taken, Call.Submit(0, false)), []);
      Resubmits(DrainOneSpec(s, Resubmit).0, fuel - 1);
    }
  }

  // ---------------------------------------------------------------- when a task is accepted, and when cancelled

  /** Numbers of accepted tasks are handed out from 1 on. */
  lemma {:induction false} AcceptedCount(r: Record, ops: seq<Op>)
    requires r.now.nextId == |r.accepted| + 1
    ensures After(r, ops).now.nextId == |After(r, ops).accepted| + 1
    ensures After(r, ops).now.capacity == r.now.capacity && After(r, ops).now.shards == r.now.shards
    decreases |ops|
  {
    hide Without, Named;
    if ops != [] { AcceptedCount(Apply(r, ops[0]), ops[1..]); }
  }

  /**
   On every run a task is accepted exactly when it is not empty, its shard exists, and fewer than `capacity` of the
   accepted tasks have neither run nor been cancelled. Otherwise nothing changes.
   */
  lemma AcceptedIff(capacity: nat, shards: u32, ops: seq<Op>, shard: u32, empty: bool)
    ensures var r := After(Record(NewSingle(capacity, shards), [], [], []), ops);
            var (s, answer) := SubmitOne(r.now, shard, empty);
            var waiting := |r.accepted| - |r.ran| - |r.cancelled|;
            var count := if shards == 0 then 1 else shards;
            && (answer.Ok? <==> !empty && shard < count && waiting < capacity)
            && (answer.Ok? ==>
                  answer.value == |r.accepted| + 1 && s.queue == r.now.queue + [Task(answer.value, shard)])
            && (answer.Err? ==>
                  s == r.now
                  && answer.error == ExecutorError(if empty then IllegalState else if shard >= count then ResourceLimit else WouldBlock))
  {
    hide After;
    var start := Record(NewSingle(capacity, shards), [], [], []);
    var r := After(start, ops);
    TasksAccounted(capacity, shards, ops);
    AcceptedCount(start, ops);
    assert |r.accepted| == |multiset(r.accepted)|;
    assert |multiset(r.ran) + multiset(r.cancelled) + multiset(r.now.queue)| == |r.ran| + |r.cancelled| + |r.now.queue|;
  }

  /** Cancelling succeeds exactly for the number of a queued task, and takes exactly that task out. */
  lemma CancelIff(s: Single, id: nat)
    ensures var (next, r) := CancelOne(s, id);
            && (r.Ok? <==> exists t :: t in s.queue && t.id == id)
            && (forall t :: t in next.queue <==> t in s.queue && t.id != id)
            && (r.Err? ==> next == s)
  {
    WithoutIff(s.queue, id);
  }

  lemma {:induction false} WithoutIff(queue: seq<Task>, id: nat)
    ensures forall t :: t in Without(queue, id) <==> t in queue && t.id != id
    ensures |Without(queue, id)| <= |queue|
    ensures |Without(queue, id)| == |queue| <==> forall t <- queue :: t.id != id
    ensures |Without(queue, id)| == |queue| ==> Without(queue, id) == queue
  {
    if queue != [] {
      WithoutIff(queue[1..], id);
      assert queue == [queue[0]] + queue[1..];
    }
  }
}
