/**
 The worker pool. What a task does is left to the environment: a task is an id and a shard, and its outcome
 is an argument of the step that finishes it.
 */
module Executors {
  import opened Types

  datatype Task = Task(id: nat, shard: nat)

  function ExecutorError(code: ErrorCode): Error { Error(Internal, code, NoAction) }

  // ---------------------------------------------------------------- what the pool's lock protects

  datatype Shared = Shared(
    capacity: nat,
    nextId: nat,
    queues: seq<seq<Task>>,
    queued: int,
    active: int,
    stopping: bool,
    firstError: Option<Error>)

  function NewShared(capacity: nat, shards: u32): Shared {
    Shared(capacity, 1, seq(if shards == 0 then 1 else shards, _ => []), 0, 0, false, None)
  }

  function SubmitSpec(s: Shared, shard: u32, empty: bool): (Shared, Result<nat>) {
    if empty || s.stopping then (s, Err(ExecutorError(IllegalState)))
    else if shard >= |s.queues| then (s, Err(ExecutorError(ResourceLimit)))
    else if s.queued >= s.capacity then (s, Err(ExecutorError(WouldBlock)))
    else
      var queue := s.queues[shard] + [Task(s.nextId, shard)];
      (s.(nextId := s.nextId + 1, queues := s.queues[shard := queue], queued := s.queued + 1), Ok(s.nextId))
  }

  /** What a worker that holds the lock does next. */
  datatype Turn = Sleep | Leave | Take(task: Task)

  function EnterSpec(s: Shared, shard: nat): (Shared, Turn)
    requires shard < |s.queues|
  {
    if s.queues[shard] == [] then (s, if s.stopping then Leave else Sleep)
    else
      (s.(queues := s.queues[shard := s.queues[shard][1..]], queued := s.queued - 1, active := s.active + 1),
       Take(s.queues[shard][0]))
  }

  predicate Idle(s: Shared) { s.queued == 0 && s.active == 0 }

  function FinishSpec(s: Shared, result: Result<()>): Shared {
    s.(firstError := if result.Err? && s.firstError.None? then Some(result.error) else s.firstError,
       active := s.active - 1)
  }

  class ThreadedExecutor {
    const capacity: nat
    var nextId: nat
    var queues: seq<seq<Task>>
    var queued: int
    var active: int
    var stopping: bool
    var firstError: Option<Error>

    function State(): Shared
      reads this
    {
      Shared(capacity, nextId, queues, queued, active, stopping, firstError)
    }

    constructor (capacity: nat, shards: u32)
      ensures State() == NewShared(capacity, shards)
    {
      this.capacity := capacity;
      nextId := 1;
      queues := seq(if shards == 0 then 1 else shards, _ => []);
      queued, active, stopping, firstError := 0, 0, false, None;
    }

    /** The section under the lock; an accepted task also wakes every sleeping worker. */
    method Submit(shard: u32, empty: bool) returns (r: Result<nat>)
      modifies this
      ensures (State(), r) == SubmitSpec(old(State()), shard, empty)
    {
      if empty {
        return Err(ExecutorError(IllegalState));
      }
      if stopping {
        return Err(ExecutorError(IllegalState));
      }
      if shard >= |queues| {
        return Err(ExecutorError(ResourceLimit));
      }
      if queued >= capacity {
        return Err(ExecutorError(WouldBlock));
      }
      var id := nextId;
      nextId := nextId + 1;
      queues := queues[shard := queues[shard] + [Task(id, shard)]];
      queued := queued + 1;
      return Ok(id);
    }

    /** The worker's first locked section. */
    method Enter(shard: nat) returns (turn: Turn)
      requires shard < |queues|
      modifies this
      ensures (State(), turn) == EnterSpec(old(State()), shard)
    {
      if queues[shard] == [] {
        return if stopping then Leave else Sleep;
      }
      turn := Take(queues[shard][0]);
      queues := queues[shard := queues[shard][1..]];
      queued := queued - 1;
      active := active + 1;
    }

    /** The worker's second locked section; `wake` tells whether waiters for idleness are notified. */
    method Finish(result: Result<()>) returns (wake: bool)
      modifies this
      ensures State() == FinishSpec(old(State()), result) && wake == Idle(State())
    {
      if result.Err? && firstError.None? {
        firstError := Some(result.error);
      }
      active := active - 1;
      wake := queued == 0 && active == 0;
    }

    method BeginShutdown() returns (first: bool)
      modifies this
      ensures State() == old(State()).(stopping := true) && first == !old(stopping)
    {
      first := !stopping;
      stopping := true;
    }
  }

  // ---------------------------------------------------------------- the pool and its threads

  /** Ready: about to take the lock. Asleep: waiting for `ready`. */
  datatype Phase = Ready | Asleep | Running(task: Task) | Gone

  /** A thread inside `wait_idle`. */
  datatype Waiter = Checking | Blocked | Returned(result: Result<()>)

  datatype Done = Done(task: Task, result: Result<()>)

  /** `notifying`: shutdown has released the lock but has not yet woken the workers. */
  datatype Pool = Pool(
    shared: Shared,
    workers: seq<Phase>,
    waiters: seq<Waiter>,
    notifying: bool,
    accepted: seq<Task>,
    finished: seq<Done>)

  datatype Step =
    | Submit(shard: u32, empty: bool)
    | Enter(worker: nat)
    | Finish(worker: nat, result: Result<()>)
    | SpuriousWake(worker: nat)
    | BeginShutdown
    | Notify
    | WaitIdle
    | Check(waiter: nat)
    | SpuriousCheck(waiter: nat)

  function Start(capacity: nat, shards: u32): Pool {
    Pool(NewShared(capacity, shards), seq(if shards == 0 then 1 else shards, _ => Ready), [], false, [], [])
  }

  function WakeAll(workers: seq<Phase>): (woken: seq<Phase>)
    ensures |woken| == |workers|
    ensures forall i :: 0 <= i < |workers| ==> woken[i] == if workers[i].Asleep? then Ready else workers[i]
  {
    seq(|workers|, i requires 0 <= i < |workers| => if workers[i].Asleep? then Ready else workers[i])
  }

  function RecheckAll(waiters: seq<Waiter>): (woken: seq<Waiter>)
    ensures |woken| == |waiters|
    ensures forall i :: 0 <= i < |waiters| ==> woken[i] == if waiters[i].Blocked? then Checking else waiters[i]
  {
    seq(|waiters|, i requires 0 <= i < |waiters| => if waiters[i].Blocked? then Checking else waiters[i])
  }

  function Outcome(s: Shared): Result<()> {
    if s.firstError.Some? then Err(s.firstError.value) else Ok(())
  }

  /** One step of any thread; a step whose thread is elsewhere changes nothing. */
  function Next(p: Pool, step: Step): Pool
    requires |p.workers| == |p.shared.queues|
  {
    match step
    case Submit(shard, empty) =>
      var (s, r) := SubmitSpec(p.shared, shard, empty);
      if r.Err? then p
      else p.(shared := s, workers := WakeAll(p.workers), accepted := p.accepted + [Task(r.value, shard)])
    case Enter(w) =>
      if w >= |p.workers| || !p.workers[w].Ready? then p
      else
        var (s, turn) := EnterSpec(p.shared, w);
        var phase := match turn case Sleep => Asleep case Leave => Gone case Take(t) => Running(t);
        p.(shared := s, workers := p.workers[w := phase])
    case Finish(w, result) =>
      if w >= |p.workers| || !p.workers[w].Running? then p
      else
        var s := FinishSpec(p.shared, result);
        p.(shared := s,
           workers := p.workers[w := Ready],
           waiters := if Idle(s) then RecheckAll(p.waiters) else p.waiters,
           finished := p.finished + [Done(p.workers[w].task, result)])
    case SpuriousWake(w) =>
      if w >= |p.workers| || !p.workers[w].Asleep? then p else p.(workers := p.workers[w := Ready])
    case BeginShutdown =>
      if p.shared.stopping then p else p.(shared := p.shared.(stopping := true), notifying := true)
    case Notify =>
      if p.notifying then p.(workers := WakeAll(p.workers), notifying := false) else p
    case WaitIdle =>
      p.(waiters := p.waiters + [Checking])
    case Check(i) =>
      if i >= |p.waiters| || !p.waiters[i].Checking? then p
      else p.(waiters := p.waiters[i := if Idle(p.shared) then Returned(Outcome(p.shared)) else Blocked])
    case SpuriousCheck(i) =>
      if i >= |p.waiters| || !p.waiters[i].Blocked? then p else p.(waiters := p.waiters[i := Checking])
  }

  // ---------------------------------------------------------------- what every step keeps

  function Sum<T>(weight: T -> nat, s: seq<T>): nat {
    if s == [] then 0 else weight(s[0]) + Sum(weight, s[1..])
  }

  lemma {:induction false} SumUpdate<T>(weight: T -> nat, s: seq<T>, i: nat, x: T)
    requires i < |s|
    ensures Sum(weight, s[i := x]) + weight(s[i]) == Sum(weight, s) + weight(x)
  {
    if i == 0 {
      assert s[0 := x][1..] == s[1..];
    } else {
      assert s[i := x][1..] == s[1..][i - 1 := x];
      SumUpdate(weight, s[1..], i - 1, x);
    }
  }

  lemma {:induction false} SumBounds<T>(weight: T -> nat, a: seq<T>, b: seq<T>, slack: nat)
    requires |a| == |b| && forall i :: 0 <= i < |a| ==> weight(b[i]) <= weight(a[i]) + slack
    ensures Sum(weight, b) <= Sum(weight, a) + slack * |a|
  {
    if a != [] {
      SumBounds(weight, a[1..], b[1..], slack);
    }
  }

  lemma {:induction false} SumZero<T>(weight: T -> nat, s: seq<T>)
    ensures Sum(weight, s) == 0 <==> forall i :: 0 <= i < |s| ==> weight(s[i]) == 0
  {
    if s != [] {
      SumZero(weight, s[1..]);
      if Sum(weight, s) == 0 {
        forall i | 0 <= i < |s|
          ensures weight(s[i]) == 0
        {
          if i > 0 { assert s[i] == s[1..][i - 1]; }
        }
      }
    }
  }

  function Length(q: seq<Task>): nat { |q| }
  function Busy(w: Phase): nat { if w.Running? then 1 else 0 }

  /** The tasks of one shard, in order. */
  function OnShard(ts: seq<Task>, shard: nat): seq<Task> {
    if ts == [] then []
    else OnShard(ts[..|ts| - 1], shard) + if ts[|ts| - 1].shard == shard then [ts[|ts| - 1]] else []
  }

  function Tasks(ds: seq<Done>): seq<Task> {
    if ds == [] then [] else Tasks(ds[..|ds| - 1]) + [ds[|ds| - 1].task]
  }

  function InHand(w: Phase): seq<Task> { if w.Running? then [w.task] else [] }

  function FirstFailure(ds: seq<Done>): Option<Error> {
    if ds == [] then None
    else
      var before, last := FirstFailure(ds[..|ds| - 1]), ds[|ds| - 1].result;
      if before.None? && last.Err? then Some(last.error) else before
  }

  ghost predicate Counts(s: Shared, workers: seq<Phase>) {
    && |workers| == |s.queues| > 0
    && s.queued == Sum(Length, s.queues) <= s.capacity
    && s.active == Sum(Busy, workers)
  }

  /** Shard `i`: what finished, then what is running, then what is queued, is what was accepted, in order. */
  ghost predicate InOrder(p: Pool, i: nat)
    requires i < |p.workers| == |p.shared.queues|
  {
    OnShard(p.accepted, i) == OnShard(Tasks(p.finished), i) + (InHand(p.workers[i]) + p.shared.queues[i])
  }

  ghost predicate Numbered(p: Pool) {
    && p.shared.nextId == |p.accepted| + 1
    && forall k :: 0 <= k < |p.accepted| ==> p.accepted[k].id == k + 1 && p.accepted[k].shard < |p.workers|
  }

  /** A sleeping worker has nothing to do, or a wake-up is on its way. */
  predicate WorkerAwake(p: Pool, i: nat)
    requires i < |p.workers| == |p.shared.queues|
  {
    match p.workers[i]
    case Asleep => p.shared.queues[i] == [] && (p.shared.stopping ==> p.notifying)
    case Gone => p.shared.queues[i] == [] && p.shared.stopping
    case Running(t) => t.shard == i
    case Ready => true
  }

  predicate WaitersAwake(p: Pool) {
    forall i :: 0 <= i < |p.waiters| && p.waiters[i].Blocked? ==> !Idle(p.shared)
  }

  ghost predicate Sound(p: Pool) {
    && Counts(p.shared, p.workers)
    && (forall i :: 0 <= i < |p.workers| ==> InOrder(p, i) && WorkerAwake(p, i))
    && Numbered(p)
    && WaitersAwake(p)
    && (p.notifying ==> p.shared.stopping)
    && p.shared.firstError == FirstFailure(p.finished)
  }

  lemma StartSound(capacity: nat, shards: u32)
    ensures Sound(Start(capacity, shards))
  {
    var p := Start(capacity, shards);
    SumZero(Length, p.shared.queues);
    SumZero(Busy, p.workers);
  }

  lemma Snoc(ts: seq<Task>, t: Task, shard: nat)
    ensures OnShard(ts + [t], shard) == OnShard(ts, shard) + if t.shard == shard then [t] else []
  {
    assert (ts + [t])[..|ts|] == ts;
  }

  lemma DoneSnoc(ds: seq<Done>, d: Done)
    ensures Tasks(ds + [d]) == Tasks(ds) + [d.task]
    ensures FirstFailure(ds + [d])
         == if FirstFailure(ds).None? && d.result.Err? then Some(d.result.error) else FirstFailure(ds)
  {
    assert (ds + [d])[..|ds|] == ds;
  }

  lemma BusyUnchanged(a: seq<Phase>, b: seq<Phase>)
    requires |a| == |b| && forall i :: 0 <= i < |a| ==> Busy(a[i]) == Busy(b[i])
    ensures Sum(Busy, a) == Sum(Busy, b)
  {
    SumBounds(Busy, a, b, 0);
    SumBounds(Busy, b, a, 0);
  }

  lemma SubmitKeeps(p: Pool, shard: u32, empty: bool)
    requires Sound(p)
    ensures Sound(Next(p, Submit(shard, empty)))
  {
    hide Sum, OnShard, Tasks, FirstFailure;
    var next := Next(p, Submit(shard, empty));
    if next != p {
      var t := Task(p.shared.nextId, shard);
      SumUpdate(Length, p.shared.queues, shard, p.shared.queues[shard] + [t]);
      BusyUnchanged(p.workers, next.workers);
      forall i | 0 <= i < |next.workers|
        ensures InOrder(next, i) && WorkerAwake(next, i)
      {
        assert InOrder(p, i) && WorkerAwake(p, i);
        Snoc(p.accepted, t, i);
        assert InHand(next.workers[i]) == InHand(p.workers[i]);
        if i == shard {
          var done, hand, queue := OnShard(Tasks(p.finished), i), InHand(p.workers[i]), p.shared.queues[i];
          assert done + (hand + queue) + [t] == done + (hand + (queue + [t]));
        }
      }
    }
  }

  lemma EnterKeeps(p: Pool, w: nat)
    requires Sound(p)
    ensures Sound(Next(p, Enter(w)))
  {
    hide Sum, OnShard, Tasks, FirstFailure;
    var next := Next(p, Enter(w));
    if w < |p.workers| && p.workers[w].Ready? {
      var queue := p.shared.queues[w];
      if queue != [] {
        SumUpdate(Length, p.shared.queues, w, queue[1..]);
        assert InHand(p.workers[w]) + queue == [queue[0]] + queue[1..];
        HeadOnShard(p, w);
      }
      SumUpdate(Busy, p.workers, w, next.workers[w]);
      forall i | 0 <= i < |next.workers|
        ensures InOrder(next, i) && WorkerAwake(next, i)
      {
        assert InOrder(p, i) && WorkerAwake(p, i);
      }
    }
  }

  lemma {:induction false} OnlyShard(ts: seq<Task>, shard: nat)
    ensures forall t <- OnShard(ts, shard) :: t.shard == shard
    ensures forall t: Task :: t.shard == shard ==> multiset(OnShard(ts, shard))[t] == multiset(ts)[t]
  {
    if ts != [] {
      OnlyShard(ts[..|ts| - 1], shard);
      assert ts == ts[..|ts| - 1] + [ts[|ts| - 1]];
    }
  }

  lemma HeadOnShard(p: Pool, w: nat)
    requires w < |p.workers| == |p.shared.queues| && InOrder(p, w) && p.shared.queues[w] != []
    ensures p.shared.queues[w][0].shard == w
  {
    OnlyShard(p.accepted, w);
    var done, hand, queue := OnShard(Tasks(p.finished), w), InHand(p.workers[w]), p.shared.queues[w];
    assert (done + (hand + queue))[|done| + |hand|] == queue[0];
    assert queue[0] in OnShard(p.accepted, w);
  }

  lemma FinishKeeps(p: Pool, w: nat, result: Result<()>)
    requires Sound(p)
    ensures Sound(Next(p, Finish(w, result)))
  {
    hide Sum, OnShard, Tasks, FirstFailure;
    var next := Next(p, Finish(w, result));
    if w < |p.workers| && p.workers[w].Running? {
      var t := p.workers[w].task;
      DoneSnoc(p.finished, Done(t, result));
      SumUpdate(Busy, p.workers, w, Ready);
      forall i | 0 <= i < |next.workers|
        ensures InOrder(next, i) && WorkerAwake(next, i)
      {
        assert InOrder(p, i) && WorkerAwake(p, i);
        assert WorkerAwake(p, w);
        Snoc(Tasks(p.finished), t, i);
        var done, queue := OnShard(Tasks(p.finished), i), p.shared.queues[i];
        assert done + ([t] + queue) == (done + [t]) + ([] + queue);
        assert done + [] == done;
      }
    }
  }

  lemma OtherStepsKeep(p: Pool, step: Step)
    requires Sound(p) && !step.Submit? && !step.Enter? && !step.Finish?
    ensures Sound(Next(p, step))
  {
    hide Sum, OnShard, Tasks, FirstFailure;
    var next := Next(p, step);
    BusyUnchanged(p.workers, next.workers);
    forall i | 0 <= i < |next.workers|
      ensures InOrder(next, i) && WorkerAwake(next, i)
    {
      assert InOrder(p, i) && WorkerAwake(p, i);
      assert InHand(next.workers[i]) == InHand(p.workers[i]);
    }
  }

  lemma StepKeeps(p: Pool, step: Step)
    requires Sound(p)
    ensures Sound(Next(p, step))
  {
    hide Sound, Next;
    match step {
      case Submit(shard, empty) => SubmitKeeps(p, shard, empty);
      case Enter(w) => EnterKeeps(p, w);
      case Finish(w, result) => FinishKeeps(p, w, result);
      case _ => OtherStepsKeep(p, step);
    }
  }

  function After(p: Pool, steps: seq<Step>): (q: Pool)
    requires |p.workers| == |p.shared.queues|
    ensures |q.workers| == |q.shared.queues|
    decreases |steps|
  {
    if steps == [] then p else After(Next(p, steps[0]), steps[1..])
  }

  lemma {:induction false} RunKeeps(p: Pool, steps: seq<Step>)
    requires Sound(p)
    ensures Sound(After(p, steps))
    decreases |steps|
  {
    hide Next;
    if steps != [] {
      StepKeeps(p, steps[0]);
      RunKeeps(Next(p, steps[0]), steps[1..]);
    }
  }

  /** Every interleaving of submitters, workers, waiters and shutdown keeps the pool sound. */
  lemma AlwaysSound(capacity: nat, shards: u32, steps: seq<Step>)
    ensures Sound(After(Start(capacity, shards), steps))
  {
    hide After, Sound;
    StartSound(capacity, shards);
    RunKeeps(Start(capacity, shards), steps);
  }

  // ---------------------------------------------------------------- exactly once, serially, in order

  lemma {:induction false} OccursOnce(p: Pool, n: nat, t: Task)
    requires Numbered(p) && n <= |p.accepted|
    ensures multiset(p.accepted[..n])[t] == if t in p.accepted[..n] then 1 else 0
  {
    if n > 0 {
      OccursOnce(p, n - 1, t);
      assert p.accepted[..n] == p.accepted[..n - 1] + [p.accepted[n - 1]];
    }
  }

  /** How often a task is finished, running on its shard's worker, or queued there. */
  function Places(p: Pool, t: Task): nat
    requires |p.workers| == |p.shared.queues| && t.shard < |p.workers|
  {
    multiset(Tasks(p.finished))[t]
    + (if p.workers[t.shard] == Running(t) then 1 else 0)
    + multiset(p.shared.queues[t.shard])[t]
  }

  /** On every run an accepted task is in exactly one place, once; no other task is anywhere. */
  lemma ExactlyOnce(capacity: nat, shards: u32, steps: seq<Step>, t: Task)
    requires t.shard < |Start(capacity, shards).workers|
    ensures var p := After(Start(capacity, shards), steps);
            && t.shard < |p.workers|
            && Places(p, t) == if t in p.accepted then 1 else 0
  {
    hide After, Sum, OnShard, Tasks;
    AlwaysSound(capacity, shards, steps);
    SameSize(Start(capacity, shards), steps);
    var p := After(Start(capacity, shards), steps);
    var i := t.shard;
    assert InOrder(p, i);
    OnlyShard(p.accepted, i);
    OnlyShard(Tasks(p.finished), i);
    OccursOnce(p, |p.accepted|, t);
    assert p.accepted[..|p.accepted|] == p.accepted;
  }

  lemma {:induction false} SameSize(p: Pool, steps: seq<Step>)
    requires |p.workers| == |p.shared.queues|
    ensures |After(p, steps).workers| == |p.workers|
    decreases |steps|
  {
    if steps != [] {
      SameSize(Next(p, steps[0]), steps[1..]);
    }
  }

  /** Every accepted task has finished. */
  ghost predicate AllDone(p: Pool) {
    forall i: nat :: i < |p.workers| ==> OnShard(Tasks(p.finished), i) == OnShard(p.accepted, i)
  }

  /** The counters say "idle" exactly when every accepted task has finished. */
  lemma IdleIff(p: Pool)
    requires Sound(p)
    ensures Idle(p.shared) <==> AllDone(p)
  {
    hide Sum, OnShard, Tasks, FirstFailure;
    SumZero(Length, p.shared.queues);
    SumZero(Busy, p.workers);
    forall i: nat | i < |p.workers|
      ensures OnShard(Tasks(p.finished), i) == OnShard(p.accepted, i) <==> !p.workers[i].Running? && p.shared.queues[i] == []
    {
      assert InOrder(p, i);
      var rest := InHand(p.workers[i]) + p.shared.queues[i];
      assert rest == [] <==> !p.workers[i].Running? && p.shared.queues[i] == [];
      var done := OnShard(Tasks(p.finished), i);
      assert |done + rest| == |done| + |rest|;
      if rest == [] { assert done + rest == done; }
    }
    if AllDone(p) {
      assert forall i :: 0 <= i < |p.workers| ==> Busy(p.workers[i]) == 0;
      assert forall i :: 0 <= i < |p.shared.queues| ==> Length(p.shared.queues[i]) == 0;
    }
    if Idle(p.shared) {
      forall i: nat | i < |p.workers|
        ensures OnShard(Tasks(p.finished), i) == OnShard(p.accepted, i)
      {
        assert Busy(p.workers[i]) == 0 && Length(p.shared.queues[i]) == 0;
      }
    }
  }

  /** `wait_idle` returns at a step exactly when everything accepted so far has finished, with the first failure. */
  lemma WaitIdleReturnsIff(capacity: nat, shards: u32, steps: seq<Step>, i: nat)
    ensures var p := After(Start(capacity, shards), steps);
            i < |p.waiters| && p.waiters[i].Checking? ==>
              && (Next(p, Check(i)).waiters[i].Returned? <==> AllDone(p))
              && (AllDone(p) ==>
                    Next(p, Check(i)).waiters[i].result
                    == match FirstFailure(p.finished) case None => Ok(()) case Some(e) => Err(e))
  {
    hide After, AllDone, FirstFailure;
    AlwaysSound(capacity, shards, steps);
    IdleIff(After(Start(capacity, shards), steps));
  }

  /** Tasks of a shard finish in submission order, with at most the next one running. */
  lemma SerialPerShard(capacity: nat, shards: u32, steps: seq<Step>, i: nat)
    requires i < |Start(capacity, shards).workers|
    ensures var p := After(Start(capacity, shards), steps);
            var all, done := OnShard(p.accepted, i), OnShard(Tasks(p.finished), i);
            && |p.workers| == |Start(capacity, shards).workers|
            && |done| <= |all| && all[..|done|] == done
            && (p.workers[i].Running? ==> |done| < |all| && all[|done|] == p.workers[i].task)
  {
    hide After, Sum, OnShard, Tasks;
    AlwaysSound(capacity, shards, steps);
    SameSize(Start(capacity, shards), steps);
    var p := After(Start(capacity, shards), steps);
    assert InOrder(p, i);
  }

  /** Once every worker has left, no accepted task is left, none can be accepted, and nobody still waits for idleness. */
  lemma NothingLeftBehind(capacity: nat, shards: u32, steps: seq<Step>)
    ensures var p := After(Start(capacity, shards), steps);
            (forall w <- p.workers :: w.Gone?) ==>
              && AllDone(p) && p.shared.stopping
              && (forall w <- p.waiters :: !w.Blocked?)
              && forall shard, empty :: SubmitSpec(p.shared, shard, empty).1.Err?
  {
    hide After, AllDone, Sum;
    AlwaysSound(capacity, shards, steps);
    var p := After(Start(capacity, shards), steps);
    if forall w <- p.workers :: w.Gone? {
      assert p.workers[0] in p.workers;
      assert WorkerAwake(p, 0);
      forall i | 0 <= i < |p.workers|
        ensures Length(p.shared.queues[i]) == 0 && Busy(p.workers[i]) == 0
      {
        assert p.workers[i] in p.workers && WorkerAwake(p, i);
      }
      SumZero(Length, p.shared.queues);
      SumZero(Busy, p.workers);
      IdleIff(p);
    }
  }

  // ---------------------------------------------------------------- no lost wake-up

  /** The steps the pool's own threads can take without new work, new waiters or spurious wake-ups. */
  predicate Enabled(p: Pool, step: Step) {
    match step
    case Enter(w) => w < |p.workers| && p.workers[w].Ready?
    case Finish(w, _) => w < |p.workers| && p.workers[w].Running?
    case Notify => p.notifying
    case Check(i) => i < |p.waiters| && p.waiters[i].Checking?
    case _ => false
  }

  function Effort(waiters: nat): Phase -> nat {
    (w: Phase) => match w case Ready => 1 case Running(_) => waiters + 2 case _ => 0
  }

  function Pending(w: Waiter): nat { if w.Checking? then 1 else 0 }

  function Measure(p: Pool): int {
    p.shared.queued * (|p.waiters| + 4)
    + Sum(Effort(|p.waiters|), p.workers)
    + Sum(Pending, p.waiters)
    + (if p.notifying then |p.workers| + 1 else 0)
  }

  lemma OneLess(q: int, k: int)
    ensures (q - 1) * k == q * k - k
  {
  }

  lemma EnterSettles(p: Pool, w: nat)
    requires Sound(p) && Enabled(p, Enter(w))
    ensures Measure(Next(p, Enter(w))) < Measure(p)
  {
    hide Sum, Sound, Counts;
    assert |p.workers| == |p.shared.queues| by { SoundShape(p); }
    var next := Next(p, Enter(w));
    SumUpdate(Effort(|p.waiters|), p.workers, w, next.workers[w]);
    OneLess(p.shared.queued, |p.waiters| + 4);
  }

  lemma SoundShape(p: Pool)
    requires Sound(p)
    ensures |p.workers| == |p.shared.queues|
  {
  }

  lemma FinishSettles(p: Pool, w: nat, result: Result<()>)
    requires Sound(p) && Enabled(p, Finish(w, result))
    ensures Measure(Next(p, Finish(w, result))) < Measure(p)
  {
    hide Sum, Sound, Counts;
    assert |p.workers| == |p.shared.queues| by { SoundShape(p); }
    var next := Next(p, Finish(w, result));
    SumUpdate(Effort(|p.waiters|), p.workers, w, Ready);
    SumBounds(Pending, p.waiters, next.waiters, 1);
  }

  lemma StepSettles(p: Pool, step: Step)
    requires Sound(p) && Enabled(p, step)
    ensures 0 <= Measure(Next(p, step)) < Measure(p)
  {
    StepKeeps(p, step);
    MeasureNat(Next(p, step));
    hide Sum, Sound, Counts;
    assert |p.workers| == |p.shared.queues| by { SoundShape(p); }
    match step {
      case Enter(w) => EnterSettles(p, w);
      case Finish(w, result) => FinishSettles(p, w, result);
      case Notify =>
        SumBounds(Effort(|p.waiters|), p.workers, WakeAll(p.workers), 1);
      case Check(i) =>
        SumUpdate(Pending, p.waiters, i, Next(p, step).waiters[i]);
      case _ =>
    }
  }

  lemma MeasureNat(p: Pool)
    requires Sound(p)
    ensures Measure(p) >= 0
  {
    hide Sum;
    assert p.shared.queued * (|p.waiters| + 4) >= 0;
  }

  ghost predicate EnabledAll(p: Pool, steps: seq<Step>)
    requires |p.workers| == |p.shared.queues|
    decreases |steps|
  {
    steps == [] || (Enabled(p, steps[0]) && EnabledAll(Next(p, steps[0]), steps[1..]))
  }

  /** However its threads are scheduled, the pool comes to rest within a bounded number of its own steps. */
  lemma {:induction false} Settles(p: Pool, steps: seq<Step>)
    requires Sound(p) && EnabledAll(p, steps)
    ensures |steps| <= Measure(p)
    decreases |steps|
  {
    hide Measure, Sound, Next;
    if steps == [] {
      MeasureNat(p);
    } else {
      StepSettles(p, steps[0]);
      StepKeeps(p, steps[0]);
      SoundShape(p);
      Settles(Next(p, steps[0]), steps[1..]);
    }
  }

  /**
   No wake-up is lost: when no thread of a sound pool can move, every accepted task has finished, nobody is
   inside `wait_idle`, and the workers all sleep, or have all left if the pool is stopping.
   */
  lemma RestIsQuiet(p: Pool)
    requires Sound(p)
    requires forall step :: !Enabled(p, step)
    ensures AllDone(p) && Idle(p.shared)
    ensures forall w <- p.waiters :: w.Returned?
    ensures forall w <- p.workers :: if p.shared.stopping then w.Gone? else w.Asleep?
  {
    hide AllDone, Sum;
    forall i | 0 <= i < |p.workers|
      ensures p.workers[i].Asleep? || p.workers[i].Gone?
      ensures if p.shared.stopping then p.workers[i].Gone? else p.workers[i].Asleep?
      ensures Length(p.shared.queues[i]) == 0 && Busy(p.workers[i]) == 0
    {
      assert !Enabled(p, Enter(i)) && !Enabled(p, Finish(i, Ok(()))) && !Enabled(p, Notify);
      assert WorkerAwake(p, i);
    }
    SumZero(Length, p.shared.queues);
    SumZero(Busy, p.workers);
    IdleIff(p);
    forall i | 0 <= i < |p.waiters|
      ensures p.waiters[i].Returned?
    {
      assert !Enabled(p, Check(i));
    }
  }

  lemma {:induction false} StoppingAccepts(p: Pool, steps: seq<Step>)
    requires |p.workers| == |p.shared.queues| && p.shared.stopping
    ensures After(p, steps).accepted == p.accepted && After(p, steps).shared.stopping
    decreases |steps|
  {
    if steps != [] {
      StoppingAccepts(Next(p, steps[0]), steps[1..]);
    }
  }

  /**
   Shutdown drains: from the moment it begins nothing more is accepted, whatever the threads do, and when
   none of them can move every task accepted before has finished and every worker has left.
   */
  lemma ShutdownDrains(capacity: nat, shards: u32, before: seq<Step>, after: seq<Step>)
    ensures var p := After(Start(capacity, shards), before);
            var q := After(Next(p, BeginShutdown), after);
            && q.accepted == p.accepted
            && ((forall step :: !Enabled(q, step)) ==> AllDone(q) && forall w <- q.workers :: w.Gone?)
  {
    hide AllDone, Sum;
    var p := After(Start(capacity, shards), before);
    AlwaysSound(capacity, shards, before);
    StepKeeps(p, BeginShutdown);
    StoppingAccepts(Next(p, BeginShutdown), after);
    RunKeeps(Next(p, BeginShutdown), after);
    if forall step :: !Enabled(After(Next(p, BeginShutdown), after), step) {
      RestIsQuiet(After(Next(p, BeginShutdown), after));
    }
  }

  // ---------------------------------------------------------------- when a task is accepted

  /** The shards of `ts`, one after another. */
  function ByShard(ts: seq<Task>, n: nat): seq<seq<Task>> { seq(n, i requires 0 <= i < n => OnShard(ts, i)) }

  predicate InShards(ts: seq<Task>, n: nat) { forall t <- ts :: t.shard < n }

  lemma {:induction false} ByShardSize(ts: seq<Task>, n: nat)
    requires InShards(ts, n)
    ensures Sum(Length, ByShard(ts, n)) == |ts|
  {
    if ts == [] {
      assert forall i :: 0 <= i < n ==> ByShard(ts, n)[i] == [];
      SumZero(Length, ByShard(ts, n));
    } else {
      var before, last := ts[..|ts| - 1], ts[|ts| - 1];
      assert ts == before + [last];
      ByShardSize(before, n);
      SumUpdate(Length, ByShard(before, n), last.shard, OnShard(ts, last.shard));
      forall i | 0 <= i < n
        ensures OnShard(ts, i) == OnShard(before, i) + if i == last.shard then [last] else []
        ensures i != last.shard ==> OnShard(ts, i) == OnShard(before, i)
      {
        Snoc(before, last, i);
        assert OnShard(before, i) + [] == OnShard(before, i);
      }
      assert ByShard(ts, n) == ByShard(before, n)[last.shard := OnShard(ts, last.shard)];
    }
  }

  lemma {:induction false} SumAdds<A, B, D>(f: A -> nat, a: seq<A>, g: B -> nat, b: seq<B>, h: D -> nat, d: seq<D>)
    requires |a| == |b| == |d| && forall i :: 0 <= i < |a| ==> f(a[i]) == g(b[i]) + h(d[i])
    ensures Sum(f, a) == Sum(g, b) + Sum(h, d)
  {
    if a != [] {
      SumAdds(f, a[1..], g, b[1..], h, d[1..]);
    }
  }

  function Same(n: nat): nat { n }

  function Load(w: Phase, queue: seq<Task>): nat { Busy(w) + Length(queue) }

  lemma {:induction false} SumLoads(workers: seq<Phase>, queues: seq<seq<Task>>)
    requires |workers| == |queues|
    ensures Sum(Same, Loads(workers, queues)) == Sum(Busy, workers) + Sum(Length, queues)
  {
    SumAdds(Same, Loads(workers, queues), Busy, workers, Length, queues);
  }

  function Loads(workers: seq<Phase>, queues: seq<seq<Task>>): seq<nat>
    requires |workers| == |queues|
  {
    seq(|workers|, i requires 0 <= i < |workers| => Load(workers[i], queues[i]))
  }

  /** What has been accepted has finished, is running, or is queued: in numbers. */
  lemma QueuedCount(p: Pool)
    requires Sound(p) && InShards(Tasks(p.finished), |p.workers|)
    ensures p.shared.queued == |p.accepted| - |p.finished| - Sum(Busy, p.workers)
  {
    hide Sum, OnShard, Tasks, FirstFailure;
    var n := |p.workers|;
    TasksSize(p.finished);
    ByShardSize(p.accepted, n);
    ByShardSize(Tasks(p.finished), n);
    SumLoads(p.workers, p.shared.queues);
    var all, done := ByShard(p.accepted, n), ByShard(Tasks(p.finished), n);
    forall i | 0 <= i < n
      ensures Length(all[i]) == Length(done[i]) + Loads(p.workers, p.shared.queues)[i]
    {
      assert InOrder(p, i);
    }
    SumAdds(Length, all, Length, done, Same, Loads(p.workers, p.shared.queues));
  }

  lemma {:induction false} TasksSize(ds: seq<Done>)
    ensures |Tasks(ds)| == |ds|
  {
    if ds != [] { TasksSize(ds[..|ds| - 1]); }
  }

  lemma StepInShards(p: Pool, step: Step)
    requires Sound(p) && InShards(Tasks(p.finished), |p.workers|)
    ensures InShards(Tasks(Next(p, step).finished), |p.workers|)
  {
    hide Sum, OnShard, FirstFailure, Tasks;
    if step.Finish? && step.worker < |p.workers| && p.workers[step.worker].Running? {
      assert WorkerAwake(p, step.worker);
      DoneSnoc(p.finished, Done(p.workers[step.worker].task, step.result));
    }
  }

  lemma {:induction false} RunInShards(p: Pool, steps: seq<Step>)
    requires Sound(p) && InShards(Tasks(p.finished), |p.workers|)
    ensures InShards(Tasks(After(p, steps).finished), |After(p, steps).workers|)
    decreases |steps|
  {
    hide Next, Tasks, InShards, Sound;
    SoundShape(p);
    if steps != [] {
      StepInShards(p, steps[0]);
      StepKeeps(p, steps[0]);
      NextSize(p, steps[0]);
      RunInShards(Next(p, steps[0]), steps[1..]);
    }
  }

  lemma NextSize(p: Pool, step: Step)
    requires |p.workers| == |p.shared.queues|
    ensures |Next(p, step).workers| == |p.workers| == |Next(p, step).shared.queues|
    ensures Next(p, step).shared.capacity == p.shared.capacity
    ensures Next(p, step).shared.stopping <==> p.shared.stopping || step.BeginShutdown?
  {
  }

  lemma {:induction false} RunShape(p: Pool, steps: seq<Step>)
    requires |p.workers| == |p.shared.queues|
    ensures |After(p, steps).workers| == |p.workers| && After(p, steps).shared.capacity == p.shared.capacity
    ensures After(p, steps).shared.stopping <==> p.shared.stopping || BeginShutdown in steps
    decreases |steps|
  {
    hide Next;
    if steps != [] {
      NextSize(p, steps[0]);
      RunShape(Next(p, steps[0]), steps[1..]);
      assert steps == [steps[0]] + steps[1..];
    }
  }

  /** How many workers are running a task. */
  function RunningTasks(workers: seq<Phase>): nat { Sum(Busy, workers) }

  /**
   On every run a task is accepted exactly when it is not empty, shutdown has not begun, its shard exists, and
   fewer than `capacity` of the accepted tasks are neither running nor finished. It is then the next accepted
   task, last on its shard. Otherwise nothing changes, and the error names the first of these that fails.
   */
  lemma AcceptedIff(capacity: nat, shards: u32, steps: seq<Step>, shard: u32, empty: bool)
    ensures var p := After(Start(capacity, shards), steps);
            var (s, r) := SubmitSpec(p.shared, shard, empty);
            var next := Next(p, Submit(shard, empty));
            var waiting := |p.accepted| - |p.finished| - RunningTasks(p.workers);
            var count := if shards == 0 then 1 else shards;
            && (r.Ok? <==> !empty && BeginShutdown !in steps && shard < count && waiting < capacity)
            && (r.Ok? ==>
                  && r.value == |p.accepted| + 1
                  && next.accepted == p.accepted + [Task(r.value, shard)] && next.finished == p.finished
                  && shard < |p.shared.queues| == |next.shared.queues|
                  && (forall i :: 0 <= i < |p.shared.queues| ==>
                        next.shared.queues[i]
                        == p.shared.queues[i] + if i == shard then [Task(r.value, shard)] else []))
            && (r.Err? ==>
                  && next == p
                  && r.error == ExecutorError(if empty || BeginShutdown in steps then IllegalState
                                              else if shard >= count then ResourceLimit
                                              else WouldBlock))
  {
    hide After, Sum, OnShard, Tasks, FirstFailure;
    var start := Start(capacity, shards);
    AlwaysSound(capacity, shards, steps);
    StartSound(capacity, shards);
    StartInShards(capacity, shards);
    RunInShards(start, steps);
    RunShape(start, steps);
    QueuedCount(After(start, steps));
  }

  lemma StartInShards(capacity: nat, shards: u32)
    ensures InShards(Tasks(Start(capacity, shards).finished), |Start(capacity, shards).workers|)
  {
  }
}
