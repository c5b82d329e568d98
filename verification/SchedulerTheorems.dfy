/** What the outbound scheduler promises over whole runs of enqueues and drains. */
module SchedulerTheorems {
  import opened Types
  import opened Scheduler
  import Sorting

  datatype Op = Enqueue(item: Item) | Drain(writable: nat)

  function Apply(s: Queues, op: Op): (Queues, seq<Item>) {
    match op
    case Enqueue(item) => (EnqueueSpec(s, item).0, [])
    case Drain(writable) => DrainSpec(s, writable)
  }

  function After(s: Queues, ops: seq<Op>): Queues
    decreases |ops|
  {
    if ops == [] then s else After(Apply(s, ops[0]).0, ops[1..])
  }

  /** Everything written during a run, in order. */
  function Output(s: Queues, ops: seq<Op>): seq<Item>
    decreases |ops|
  {
    if ops == [] then [] else Apply(s, ops[0]).1 + Output(Apply(s, ops[0]).0, ops[1..])
  }

  lemma ApplyKeeps(s: Queues, op: Op)
    requires Valid(s)
    ensures Valid(Apply(s, op).0) && Apply(s, op).0.limit == s.limit
  {
    hide Valid, DrainSpec;
    match op
    case Enqueue(item) => EnqueueKeeps(s, item);
    case Drain(writable) => DrainKeeps(s, writable);
  }

  /** On every run the counter is the true total of the queued bytes and never passes the limit. */
  lemma {:induction false} AlwaysValid(s: Queues, ops: seq<Op>)
    requires Valid(s)
    ensures Valid(After(s, ops)) && After(s, ops).limit == s.limit
    ensures After(s, ops).queued == Size(After(s, ops).control) + DataSize(After(s, ops).data) <= s.limit
    decreases |ops|
  {
    hide Apply, Size, DataSize;
    if ops != [] {
      ApplyKeeps(s, ops[0]);
      AlwaysValid(Apply(s, ops[0]).0, ops[1..]);
    }
  }

  // ---------------------------------------------------------------- conservation

  datatype Lane = ControlLane | DataLane(number: u32)

  predicate InLane(item: Item, lane: Lane) {
    match lane
    case ControlLane => item.priority == Control
    case DataLane(c) => item.priority == Data && item.channel.number == c
  }

  function LaneBytes(items: seq<Item>, lane: Lane): Bytes {
    if items == [] then []
    else (if InLane(items[0], lane) then items[0].encoded else []) + LaneBytes(items[1..], lane)
  }

  function LaneQueue(s: Queues, lane: Lane): seq<Item> {
    match lane
    case ControlLane => s.control
    case DataLane(c) => Queue(s, c)
  }

  function Held(s: Queues, lane: Lane): Bytes {
    LaneBytes(LaneQueue(s, lane), lane)
  }

  /** The bytes of the items a run accepted into a lane. */
  function Accepted(s: Queues, ops: seq<Op>, lane: Lane): Bytes
    decreases |ops|
  {
    if ops == [] then []
    else
      var now := if ops[0].Enqueue? && EnqueueSpec(s, ops[0].item).1.Ok? && InLane(ops[0].item, lane)
                 then ops[0].item.encoded else [];
      now + Accepted(Apply(s, ops[0]).0, ops[1..], lane)
  }

  lemma {:induction false} LaneBytesAppend(a: seq<Item>, b: seq<Item>, lane: Lane)
    ensures LaneBytes(a + b, lane) == LaneBytes(a, lane) + LaneBytes(b, lane)
  {
    if a == [] {
      assert a + b == b;
    } else {
      assert (a + b)[1..] == a[1..] + b;
      LaneBytesAppend(a[1..], b, lane);
    }
  }

  lemma LaneBytesOne(item: Item, lane: Lane)
    ensures LaneBytes([item], lane) == if InLane(item, lane) then item.encoded else []
  {
    assert [item][1..] == [];
    assert LaneBytes([], lane) == [];
  }

  lemma {:induction false} LaneBytesNone(items: seq<Item>, lane: Lane)
    requires forall item <- items :: !InLane(item, lane)
    ensures LaneBytes(items, lane) == []
  {
    if items != [] {
      LaneBytesNone(items[1..], lane);
    }
  }

  lemma AcceptedNow(s: Queues, item: Item, lane: Lane)
    ensures Accepted(s, [Enqueue(item)], lane)
         == if EnqueueSpec(s, item).1.Ok? && InLane(item, lane) then item.encoded else []
  {
    hide EnqueueSpec, InLane;
    assert [Enqueue(item)][1..] == [];
    assert Accepted(EnqueueSpec(s, item).0, [], lane) == [];
  }

  lemma EnqueuedQueue(s: Queues, item: Item, lane: Lane)
    ensures LaneQueue(EnqueueSpec(s, item).0, lane)
         == if EnqueueSpec(s, item).1.Ok? && InLane(item, lane) then LaneQueue(s, lane) + [item] else LaneQueue(s, lane)
  {
  }

  lemma EnqueueConserves(s: Queues, item: Item, lane: Lane)
    ensures Held(EnqueueSpec(s, item).0, lane) == Held(s, lane) + Accepted(s, [Enqueue(item)], lane)
  {
    hide EnqueueSpec, LaneBytes, InLane, LaneQueue, Accepted;
    LaneBytesAppend(LaneQueue(s, lane), [item], lane);
    LaneBytesOne(item, lane);
    AcceptedNow(s, item, lane);
    EnqueuedQueue(s, item, lane);
    assert Held(s, lane) + [] == Held(s, lane);
  }

  lemma {:induction false} ControlConserves(control: seq<Item>, room: nat)
    requires ValidControl(control)
    ensures var (out, rest) := DrainControl(control, room);
            LaneBytes(control, ControlLane) == LaneBytes(out, ControlLane) + LaneBytes(rest, ControlLane)
  {
    var lane := ControlLane;
    hide LaneBytes;
    if control == [] || room == 0 {
      LaneBytesNone([], lane);
      assert [] + LaneBytes(control, lane) == LaneBytes(control, lane);
    } else {
      var item, more := control[0], control[1..];
      assert item in control;
      assert control == [item] + more;
      LaneBytesOne(item, lane);
      LaneBytesAppend([item], more, lane);
      if room < |item.encoded| {
        LaneBytesOne(Chunk(item, room), lane);
        LaneBytesAppend([Tail(item, room)], more, lane);
        LaneBytesOne(Tail(item, room), lane);
        assert item.encoded == item.encoded[..room] + item.encoded[room..];
        Sorting.Assoc(item.encoded[..room], item.encoded[room..], LaneBytes(more, lane));
      } else {
        ControlConserves(more, room - |item.encoded|);
        var (out, rest) := DrainControl(more, room - |item.encoded|);
        LaneBytesAppend([item], out, lane);
        Sorting.Assoc(item.encoded, LaneBytes(out, lane), LaneBytes(rest, lane));
      }
    }
  }

  /** Cutting `take` bytes off the head of a queue cuts them off its bytes. */
  lemma HeadConserves(queue: seq<Item>, take: nat, lane: Lane)
    requires queue != [] && take <= |queue[0].encoded|
    ensures var item, rest := queue[0], queue[1..];
            && LaneBytes(queue, lane) == LaneBytes([Chunk(item, take)], lane) + LaneBytes([Tail(item, take)] + rest, lane)
            && (take == |item.encoded| ==> LaneBytes([Tail(item, take)] + rest, lane) == LaneBytes(rest, lane))
  {
    hide LaneBytes;
    var item, rest := queue[0], queue[1..];
    assert queue == [item] + rest;
    LaneBytesAppend([item], rest, lane);
    LaneBytesAppend([Tail(item, take)], rest, lane);
    LaneBytesOne(item, lane);
    LaneBytesOne(Chunk(item, take), lane);
    LaneBytesOne(Tail(item, take), lane);
    if InLane(item, lane) {
      assert item.encoded == item.encoded[..take] + item.encoded[take..];
    }
  }

  lemma ServeConserves(s: Queues, c: u32, room: nat, lane: Lane)
    requires Valid(s) && Ready(s, c) && room > 0
    ensures var (next, chunk) := Serve(s, c, room);
            Held(s, lane) == LaneBytes([chunk], lane) + Held(next, lane)
  {
    hide LaneBytes, Valid, ValidQueue;
    var (next, chunk) := Serve(s, c, room);
    var queue := Queue(s, c);
    HeadItem(s, c);
    HeadConserves(queue, Min(room, |queue[0].encoded|), lane);
    LaneBytesOne(chunk, lane);
    if lane != DataLane(c) {
      assert LaneQueue(next, lane) == LaneQueue(s, lane);
    }
  }

  lemma HeadItem(s: Queues, c: u32)
    requires Valid(s) && Queue(s, c) != []
    ensures var item := Queue(s, c)[0];
            item.priority == Data && item.channel.number == c && item.encoded != []
  {
    assert Queue(s, c)[0] in Queue(s, c) && ValidQueue(Queue(s, c), c);
  }

  lemma {:induction false} RoundConserves(s: Queues, order: seq<u32>, room: nat, lane: Lane)
    requires Valid(s)
    ensures var (next, out) := Round(s, order, room);
            Held(s, lane) == LaneBytes(out, lane) + Held(next, lane)
    decreases |order|
  {
    hide Valid, Serve, Held, LaneBytes, InLane;
    LaneBytesNone([], lane);
    if order != [] {
      if !Ready(s, order[0]) || room == 0 {
        RoundConserves(s, order[1..], room, lane);
      } else {
        ServeKeeps(s, order[0], room);
        ServeConserves(s, order[0], room, lane);
        var (next, chunk) := Serve(s, order[0], room);
        if |Queue(s, order[0])[0].encoded| <= room {
          RoundConserves(next, order[1..], room - |chunk.encoded|, lane);
          LaneBytesAppend([chunk], Round(next, order[1..], room - |chunk.encoded|).1, lane);
        }
      }
    }
  }

  lemma ControlHeld(s: Queues, writable: nat, lane: Lane)
    requires Valid(s)
    ensures var (out, rest) := DrainControl(s.control, writable);
            var after := s.(control := rest, queued := s.queued - Size(out));
            Held(s, lane) == LaneBytes(out, lane) + Held(after, lane)
  {
    hide DrainControl, LaneBytes, Size;
    var (out, rest) := DrainControl(s.control, writable);
    ControlKeeps(s.control, writable);
    ControlConserves(s.control, writable);
    if lane != ControlLane {
      LaneBytesNone(out, lane);
      assert [] + Held(s, lane) == Held(s, lane);
    }
  }

  lemma DrainConserves(s: Queues, writable: nat, lane: Lane)
    requires Valid(s)
    ensures var (next, out) := DrainSpec(s, writable);
            Held(s, lane) == LaneBytes(out, lane) + Held(next, lane)
  {
    hide Valid, DrainControl, Round, Order, LaneBytes, Size, Held, Sweep, Waiting;
    var (control, rest) := DrainControl(s.control, writable);
    var after := s.(control := rest, queued := s.queued - Size(control));
    ControlHeld(s, writable, lane);
    if Size(control) < writable && Waiting(s.data) != {} {
      AfterControlValid(s, writable);
      RoundConserves(after, Order(after), writable - Size(control), lane);
      var (last, more) := Round(after, Order(after), writable - Size(control));
      LaneBytesAppend(control, more, lane);
      SweptHeld(last, lane);
      Sorting.Assoc(LaneBytes(control, lane), LaneBytes(more, lane), Held(last, lane));
    }
  }

  lemma SweptHeld(s: Queues, lane: Lane)
    ensures Held(s.(data := Sweep(s.data)), lane) == Held(s, lane)
  {
    SweptQueues(s);
    var swept := s.(data := Sweep(s.data));
    assert LaneQueue(swept, lane) == LaneQueue(s, lane);
  }

  lemma AfterControlValid(s: Queues, writable: nat)
    requires Valid(s)
    ensures var (out, rest) := DrainControl(s.control, writable);
            Valid(s.(control := rest, queued := s.queued - Size(out)))
  {
    ControlKeeps(s.control, writable);
  }

  lemma SweptQueues(s: Queues)
    ensures forall c :: Queue(s.(data := Sweep(s.data)), c) == Queue(s, c)
  {
  }

  /**
   On every run, lane by lane: what was held at the start followed by what was accepted is what was
   written followed by what is still held.  No byte is lost, repeated or reordered within a lane.
   */
  lemma {:induction false} Conservation(s: Queues, ops: seq<Op>, lane: Lane)
    requires Valid(s)
    ensures Held(s, lane) + Accepted(s, ops, lane) == LaneBytes(Output(s, ops), lane) + Held(After(s, ops), lane)
    decreases |ops|
  {
    hide Valid, DrainSpec, EnqueueSpec, Held, LaneBytes, InLane;
    if ops == [] {
      LaneBytesNone([], lane);
      assert Held(s, lane) + [] == Held(s, lane);
    } else {
      var op, rest := ops[0], ops[1..];
      assert ops == [op] + rest;
      var (next, out) := Apply(s, op);
      ApplyKeeps(s, op);
      Conservation(next, rest, lane);
      LaneBytesAppend(out, Output(next, rest), lane);
      match op {
        case Enqueue(item) =>
          LaneBytesNone([], lane);
          EnqueueConserves(s, item, lane);
          AcceptedOne(s, item, rest, lane);
          Sorting.Assoc(Held(s, lane), Accepted(s, [op], lane), Accepted(next, rest, lane));
          assert [] + LaneBytes(Output(next, rest), lane) == LaneBytes(Output(next, rest), lane);
        case Drain(writable) =>
          DrainConserves(s, writable, lane);
          Sorting.Assoc(LaneBytes(out, lane), Held(next, lane), Accepted(next, rest, lane));
          Sorting.Assoc(LaneBytes(out, lane), LaneBytes(Output(next, rest), lane), Held(After(next, rest), lane));
          assert [] + Accepted(next, rest, lane) == Accepted(next, rest, lane);
      }
    }
  }

  lemma AcceptedOne(s: Queues, item: Item, rest: seq<Op>, lane: Lane)
    ensures Accepted(s, [Enqueue(item)] + rest, lane)
         == Accepted(s, [Enqueue(item)], lane) + Accepted(EnqueueSpec(s, item).0, rest, lane)
  {
    hide EnqueueSpec;
    var ops := [Enqueue(item)] + rest;
    assert ops[1..] == rest && [Enqueue(item)][1..] == [];
    assert Accepted(EnqueueSpec(s, item).0, [], lane) == [];
  }

  lemma {:induction false} LaneLength(items: seq<Item>, lane: Lane)
    requires forall item <- items :: InLane(item, lane) && item.encoded != []
    ensures LaneBytes(items, lane) == [] <==> items == []
  {
    if items != [] {
      assert items[0] in items;
    }
  }

  lemma EmptyLanes(s: Queues)
    ensures Empty(s) <==> forall lane :: LaneQueue(s, lane) == []
  {
    if forall lane :: LaneQueue(s, lane) == [] {
      assert LaneQueue(s, ControlLane) == [];
      assert forall c <- s.data :: LaneQueue(s, DataLane(c)) == s.data[c];
    }
  }

  lemma LaneHeld(s: Queues, lane: Lane)
    requires Valid(s)
    ensures Held(s, lane) == [] <==> LaneQueue(s, lane) == []
  {
    LaneLength(LaneQueue(s, lane), lane);
  }

  predicate AllWritten(s: Queues, ops: seq<Op>, lane: Lane) {
    LaneBytes(Output(s, ops), lane) == Accepted(s, ops, lane)
  }

  lemma LaneClearIff(s: Queues, ops: seq<Op>, lane: Lane)
    requires Valid(s) && LaneQueue(s, lane) == []
    ensures LaneQueue(After(s, ops), lane) == [] <==> AllWritten(s, ops, lane)
  {
    hide Valid, LaneQueue;
    var t := After(s, ops);
    AlwaysValid(s, ops);
    Conservation(s, ops, lane);
    LaneHeld(s, lane);
    LaneHeld(t, lane);
    var out := LaneBytes(Output(s, ops), lane);
    assert [] + Accepted(s, ops, lane) == Accepted(s, ops, lane);
    assert |out + Held(t, lane)| == |out| + |Held(t, lane)|;
    if Held(t, lane) == [] { assert out + [] == out; }
  }

  /** The scheduler reports itself empty exactly when every byte it ever accepted has been written. */
  lemma EmptyIffAllWritten(s: Queues, ops: seq<Op>)
    requires Valid(s) && Empty(s)
    ensures Empty(After(s, ops)) <==> forall lane :: AllWritten(s, ops, lane)
  {
    hide Valid, Empty, LaneQueue, After, AllWritten;
    EmptyLanes(s);
    EmptyLanes(After(s, ops));
    forall lane
      ensures LaneQueue(After(s, ops), lane) == [] <==> AllWritten(s, ops, lane)
    {
      LaneClearIff(s, ops, lane);
    }
  }

  // ---------------------------------------------------------------- round robin: nobody overtakes twice

  /** How far ahead of the cursor channel `c` is, around the ring of channel numbers. */
  function Ahead(c: u32, cursor: u32): (d: nat)
    ensures d < U32_SPAN
  {
    if c >= cursor then c - cursor else c - cursor + U32_SPAN
  }

  ghost predicate Ascending(order: seq<u32>, cursor: u32) {
    forall i, j :: 0 <= i < j < |order| ==> Ahead(order[i], cursor) < Ahead(order[j], cursor)
  }

  lemma OrderAscends(s: Queues)
    ensures Ascending(Order(s), s.cursor)
    ensures forall c :: c in Order(s) <==> Queue(s, c) != []
  {
    hide Sorted, LowerBound;
    var all := Sorted(Waiting(s.data));
    var n := LowerBound(all, s.cursor);
    if n < |all| {
      assert Order(s) == all[n..] + all[..n];
      assert forall i :: n <= i < |all| ==> all[i] >= s.cursor;
      assert forall c :: c in all <==> c in all[n..] || c in all[..n] by {
        assert all == all[..n] + all[n..];
      }
    }
    assert forall c :: c in Waiting(s.data) <==> Queue(s, c) != [];
  }

  /** Every channel of `served` is behind `c` in ring order. */
  ghost predicate Behind(served: set<u32>, c: u32, cursor: u32) {
    forall x <- served :: Ahead(x, cursor) > Ahead(c, cursor)
  }

  /** Serving `x` ahead of `c` moves `x` behind `c` and keeps everyone else's place. */
  lemma CursorMoves(c: u32, x: u32, cursor: u32)
    requires Ahead(x, cursor) < Ahead(c, cursor)
    ensures Ahead(x, Next(x)) > Ahead(c, Next(x))
    ensures forall y: u32 :: Ahead(y, cursor) > Ahead(x, cursor) ==> Ahead(y, Next(x)) == Ahead(y, cursor) - Ahead(x, cursor) - 1
  {
  }

  function Channels(out: seq<Item>): seq<u32> {
    if out == [] then []
    else if out[0].priority == Data then [out[0].channel.number] + Channels(out[1..])
    else Channels(out[1..])
  }

  lemma {:induction false} ChannelsAppend(a: seq<Item>, b: seq<Item>)
    ensures Channels(a + b) == Channels(a) + Channels(b)
  {
    if a == [] {
      assert a + b == b;
    } else {
      assert (a + b)[1..] == a[1..] + b;
      ChannelsAppend(a[1..], b);
    }
  }

  lemma {:induction false} ChannelsNone(out: seq<Item>)
    requires ValidControl(out)
    ensures Channels(out) == []
  {
    if out != [] {
      assert out[0] in out;
      ChannelsNone(out[1..]);
    }
  }

  /** The channels served before `c` first is. */
  function Before(c: u32, served: seq<u32>): seq<u32> {
    if served == [] || served[0] == c then [] else [served[0]] + Before(c, served[1..])
  }

  /** None of them twice, and none of `already` again. */
  predicate NoRepeat(served: seq<u32>, already: set<u32>) {
    served == [] || (served[0] !in already && NoRepeat(served[1..], already + {served[0]}))
  }

  function Set(served: seq<u32>): set<u32> {
    if served == [] then {} else {served[0]} + Set(served[1..])
  }

  lemma {:induction false} BeforeAppend(c: u32, a: seq<u32>, b: seq<u32>)
    ensures Before(c, a + b) == if c in a then Before(c, a) else a + Before(c, b)
  {
    if a == [] {
      assert a + b == b;
    } else {
      assert (a + b)[1..] == a[1..] + b && (a + b)[0] == a[0];
      BeforeAppend(c, a[1..], b);
      BeforeAbsent(c, []);
      assert c in a <==> a[0] == c || c in a[1..];
      assert [a[0]] + (a[1..] + Before(c, b)) == a + Before(c, b);
    }
  }

  lemma {:induction false} BeforeAbsent(c: u32, a: seq<u32>)
    requires c !in a
    ensures Before(c, a) == a
  {
    if a != [] {
      BeforeAbsent(c, a[1..]);
    }
  }

  lemma {:induction false} NoRepeatAppend(a: seq<u32>, b: seq<u32>, already: set<u32>)
    ensures NoRepeat(a + b, already) <==> NoRepeat(a, already) && NoRepeat(b, already + Set(a))
  {
    if a == [] {
      assert a + b == b;
      assert already + {} == already;
    } else {
      assert (a + b)[1..] == a[1..] + b;
      NoRepeatAppend(a[1..], b, already + {a[0]});
      assert already + {a[0]} + Set(a[1..]) == already + Set(a);
    }
  }

  lemma ServeOthers(s: Queues, x: u32, room: nat, c: u32)
    requires Ready(s, x) && room > 0 && c != x
    ensures Queue(Serve(s, x, room).0, c) == Queue(s, c)
    ensures Expected(Serve(s, x, room).0, c) == Expected(s, c)
    ensures Serve(s, x, room).0.cursor == Next(x)
  {
  }

  lemma AscendingTail(order: seq<u32>, cursor: u32)
    requires order != [] && Ascending(order, cursor)
    ensures Ascending(order[1..], cursor)
    ensures forall c <- order[1..] :: Ahead(order[0], cursor) < Ahead(c, cursor)
    ensures Ascending(order[1..], Next(order[0]))
  {
    hide Ahead, Next;
    var rest := order[1..];
    forall i | 0 <= i < |rest|
      ensures Ahead(order[0], cursor) < Ahead(rest[i], cursor)
      ensures Ahead(rest[i], Next(order[0])) == Ahead(rest[i], cursor) - Ahead(order[0], cursor) - 1
    {
      assert rest[i] == order[i + 1];
      CursorMoves(rest[i], order[0], cursor);
    }
    forall i, j | 0 <= i < j < |rest|
      ensures Ahead(rest[i], cursor) < Ahead(rest[j], cursor)
    {
      assert rest[i] == order[i + 1] && rest[j] == order[j + 1];
    }
  }

  lemma BehindMoves(served: set<u32>, c: u32, x: u32, cursor: u32)
    requires Behind(served, c, cursor) && Ahead(x, cursor) < Ahead(c, cursor)
    ensures x !in served && Behind(served + {x}, c, Next(x))
  {
    hide Ahead, Next;
    CursorMoves(c, x, cursor);
  }

  /** Everyone served before the ready channel `c` is new, and ends up behind `c`. */
  ghost predicate Bypassed(next: Queues, served: seq<u32>, c: u32, already: set<u32>) {
    && NoRepeat(Before(c, served), already)
    && (c !in served ==> Ready(next, c) && Behind(already + Set(served), c, next.cursor))
  }

  lemma BypassedByNone(s: Queues, c: u32, already: set<u32>)
    requires Ready(s, c) && Behind(already, c, s.cursor)
    ensures Bypassed(s, [], c, already)
  {
    assert already + {} == already;
  }

  lemma BypassedAtOnce(next: Queues, more: seq<u32>, c: u32, already: set<u32>)
    ensures Bypassed(next, [c] + more, c, already)
  {
    assert ([c] + more)[0] == c;
  }

  /** One more in front, who is new and ends up behind. */
  lemma BypassedByOne(next: Queues, x: u32, more: seq<u32>, c: u32, already: set<u32>)
    requires x != c && x !in already && Bypassed(next, more, c, already + {x})
    ensures Bypassed(next, [x] + more, c, already)
  {
    hide Behind;
    assert ([x] + more)[1..] == more;
    assert already + {x} + Set(more) == already + Set([x] + more);
  }

  /** Within one round. */
  lemma {:induction false} RoundBypass(s: Queues, order: seq<u32>, room: nat, c: u32, already: set<u32>)
    requires Valid(s) && Ready(s, c) && c in order
    requires Ascending(order, s.cursor) && Behind(already, c, s.cursor)
    ensures var (next, out) := Round(s, order, room);
            Bypassed(next, Channels(out), c, already)
    decreases |order|
  {
    hide Valid, Serve, Ahead, Next, Ascending, Behind, Bypassed, Expected, Channels;
    var x := order[0];
    ChannelsNone([]);
    if !Ready(s, x) || room == 0 {
      if x != c {
        AscendingTail(order, s.cursor);
        RoundBypass(s, order[1..], room, c, already);
      } else {
        RoundIdle(s, order, c);
        BypassedByNone(s, c, already);
      }
    } else {
      ServeKeeps(s, x, room);
      var (next, chunk) := Serve(s, x, room);
      if |Queue(s, x)[0].encoded| <= room {
        ServedFirst(chunk, Round(next, order[1..], room - |chunk.encoded|).1, x);
      } else {
        ServedFirst(chunk, [], x);
        assert [chunk] + [] == [chunk];
      }
      if x == c {
        BypassedAtOnce(Round(s, order, room).0, Channels(Round(s, order, room).1)[1..], c, already);
        assert [c] + Channels(Round(s, order, room).1)[1..] == Channels(Round(s, order, room).1);
      } else {
        AscendingTail(order, s.cursor);
        BehindMoves(already, c, x, s.cursor);
        ServeOthers(s, x, room, c);
        StaysReady(s, x, room, c);
        if |Queue(s, x)[0].encoded| <= room {
          RoundBypass(next, order[1..], room - |chunk.encoded|, c, already + {x});
          BypassedByOne(Round(s, order, room).0, x, Channels(Round(next, order[1..], room - |chunk.encoded|).1), c, already);
        } else {
          BypassedByNone(next, c, already + {x});
          BypassedByOne(next, x, [], c, already);
        }
      }
    }
  }

  lemma ServedFirst(chunk: Item, more: seq<Item>, x: u32)
    requires chunk.priority == Data && chunk.channel.number == x
    ensures Channels([chunk] + more) == [x] + Channels(more)
  {
    assert ([chunk] + more)[1..] == more;
  }

  lemma StaysReady(s: Queues, x: u32, room: nat, c: u32)
    requires Ready(s, x) && room > 0 && c != x && Ready(s, c)
    ensures Ready(Serve(s, x, room).0, c)
  {
    ServeOthers(s, x, room, c);
  }

  lemma {:induction false} RoundIdle(s: Queues, order: seq<u32>, c: u32)
    ensures Round(s, order, 0) == (s, [])
    decreases |order|
  {
    if order != [] {
      RoundIdle(s, order[1..], c);
    }
  }

  lemma DrainBypass(s: Queues, writable: nat, c: u32, already: set<u32>)
    requires Valid(s) && Ready(s, c) && Behind(already, c, s.cursor)
    ensures var (next, out) := DrainSpec(s, writable);
            var served := Channels(out);
            && NoRepeat(Before(c, served), already)
            && (c !in served ==> Ready(next, c) && Behind(already + Set(served), c, next.cursor))
  {
    hide DrainControl, Round, Order, Size, Ahead, Valid, Behind;
    var (control, rest) := DrainControl(s.control, writable);
    var after := s.(control := rest, queued := s.queued - Size(control));
    AfterControlValid(s, writable);
    ValidControlOf(s);
    ControlKeeps(s.control, writable);
    ChannelsNone(control);
    assert already + {} == already;
    if Size(control) < writable && Waiting(s.data) != {} {
      OrderAscends(after);
      RoundBypass(after, Order(after), writable - Size(control), c, already);
      var (last, more) := Round(after, Order(after), writable - Size(control));
      ChannelsAppend(control, more);
      assert [] + Channels(more) == Channels(more);
      SweptQueues(last);
    }
  }

  lemma EnqueueReady(s: Queues, item: Item, c: u32)
    requires Ready(s, c)
    ensures Ready(EnqueueSpec(s, item).0, c) && EnqueueSpec(s, item).0.cursor == s.cursor
  {
  }

  /**
   While the head of a data channel is ready, no other channel is served twice before it is, on every
   run: across partial writes, stalled channels, cursor wrap-around and channels that join later.
   */
  lemma {:induction false} BypassBound(s: Queues, ops: seq<Op>, c: u32, already: set<u32>)
    requires Valid(s) && Ready(s, c) && Behind(already, c, s.cursor)
    ensures NoRepeat(Before(c, Channels(Output(s, ops))), already)
    decreases |ops|
  {
    hide Valid, DrainSpec, EnqueueSpec, Ready, Behind;
    if ops != [] {
      var (next, out) := Apply(s, ops[0]);
      var rest := Output(next, ops[1..]);
      ApplyKeeps(s, ops[0]);
      ChannelsAppend(out, rest);
      BeforeAppend(c, Channels(out), Channels(rest));
      match ops[0] {
        case Enqueue(item) =>
          EnqueueReady(s, item, c);
          BypassBound(next, ops[1..], c, already);
          assert [] + rest == rest;
        case Drain(writable) =>
          DrainBypass(s, writable, c, already);
          if c !in Channels(out) {
            BypassBound(next, ops[1..], c, already + Set(Channels(out)));
            BeforeAbsent(c, Channels(out));
            NoRepeatAppend(Channels(out), Before(c, Channels(rest)), already);
          }
      }
    }
  }

  lemma {:induction false} NoRepeatDistinct(served: seq<u32>, already: set<u32>)
    requires NoRepeat(served, already)
    ensures forall i :: 0 <= i < |served| ==> served[i] !in already
    ensures forall i, j :: 0 <= i < j < |served| ==> served[i] != served[j]
  {
    if served != [] {
      var x, rest := served[0], served[1..];
      NoRepeatDistinct(rest, already + {x});
      assert forall i :: 1 <= i < |served| ==> served[i] == rest[i - 1];
      assert x in already + {x};
    }
  }

  lemma RoundRobin(s: Queues, ops: seq<Op>, c: u32)
    requires Valid(s) && Ready(s, c)
    ensures var others := Before(c, Channels(Output(s, ops)));
            forall i, j :: 0 <= i < j < |others| ==> others[i] != others[j]
  {
    BypassBound(s, ops, c, {});
    NoRepeatDistinct(Before(c, Channels(Output(s, ops))), {});
  }

  // ---------------------------------------------------------------- how much one drain writes

  function HeadSize(s: Queues, c: u32): nat { if Ready(s, c) then |Queue(s, c)[0].encoded| else 0 }

  /** The bytes at the heads of those of the channels that are ready. */
  ghost function ReadyBytes(s: Queues, cs: set<u32>): nat {
    if cs == {} then 0
    else
      var c :| c in cs;
      HeadSize(s, c) + ReadyBytes(s, cs - {c})
  }

  lemma {:induction false} ReadyBytesSplit(s: Queues, cs: set<u32>, c: u32)
    requires c in cs
    ensures ReadyBytes(s, cs) == HeadSize(s, c) + ReadyBytes(s, cs - {c})
    decreases |cs|
  {
    hide HeadSize;
    var d :| d in cs && ReadyBytes(s, cs) == HeadSize(s, d) + ReadyBytes(s, cs - {d});
    if d != c {
      ReadyBytesSplit(s, cs - {d}, c);
      ReadyBytesSplit(s, cs - {c}, d);
      assert cs - {d} - {c} == cs - {c} - {d};
    }
  }

  lemma {:induction false} ReadyBytesSame(a: Queues, b: Queues, cs: set<u32>)
    requires forall c <- cs :: HeadSize(a, c) == HeadSize(b, c)
    ensures ReadyBytes(a, cs) == ReadyBytes(b, cs)
    decreases |cs|
  {
    hide HeadSize;
    if cs != {} {
      var c :| c in cs;
      ReadyBytesSplit(a, cs, c);
      ReadyBytesSplit(b, cs, c);
      ReadyBytesSame(a, b, cs - {c});
    }
  }

  lemma {:induction false} ReadyBytesBound(s: Queues, cs: set<u32>, c: u32)
    requires c in cs
    ensures HeadSize(s, c) <= ReadyBytes(s, cs)
  {
    ReadyBytesSplit(s, cs, c);
  }

  ghost predicate Different(order: seq<u32>) { forall i, j :: 0 <= i < j < |order| ==> order[i] != order[j] }

  function Members(order: seq<u32>): set<u32> { set c | c in order }

  lemma MembersTail(order: seq<u32>)
    requires order != [] && Different(order)
    ensures Members(order) - {order[0]} == Members(order[1..]) && order[0] in Members(order)
    ensures Different(order[1..]) && order[0] !in order[1..]
  {
    assert order == [order[0]] + order[1..];
  }

  /** What a round leaves of channel `c`, if it has room for everything that is ready. */
  predicate Advanced(s: Queues, next: Queues, out: seq<Item>, c: u32) {
    if Ready(s, c) then Queue(next, c) == Queue(s, c)[1..] && Queue(s, c)[0] in out
    else Queue(next, c) == Queue(s, c)
  }

  /** A round fills its room, or writes the whole head of every ready channel. */
  lemma {:induction false} RoundWrites(s: Queues, order: seq<u32>, room: nat)
    requires Valid(s) && Different(order)
    ensures var (next, out) := Round(s, order, room);
            && Size(out) == Min(room, ReadyBytes(s, Members(order)))
            && (ReadyBytes(s, Members(order)) <= room ==> forall c :: c in order ==> Advanced(s, next, out, c))
            && (forall c :: c !in order ==> Queue(next, c) == Queue(s, c))
    decreases |order|
  {
    hide Valid, Serve, Size, Different, Ready;
    SizeNothing();
    if order == [] {
      assert Members(order) == {};
    } else {
      var x, rest := order[0], order[1..];
      MembersTail(order);
      ReadyBytesSplit(s, Members(order), x);
      assert order == [x] + rest;
      if Ready(s, x) && room > 0 {
        RoundServes(s, order, room);
      } else {
        RoundWrites(s, rest, room);
        if Ready(s, x) { HeadSome(s, x); }
        if !Ready(s, x) {
          assert Queue(Round(s, order, room).0, x) == Queue(s, x);
        }
      }
    }
  }

  /** The same where the first channel is ready. */
  lemma RoundServes(s: Queues, order: seq<u32>, room: nat)
    requires Valid(s) && Different(order) && order != [] && Ready(s, order[0]) && room > 0
    ensures var (next, out) := Round(s, order, room);
            && Size(out) == Min(room, ReadyBytes(s, Members(order)))
            && (ReadyBytes(s, Members(order)) <= room ==> forall c :: c in order ==> Advanced(s, next, out, c))
            && (forall c :: c !in order ==> Queue(next, c) == Queue(s, c))
    decreases |order|, -1
  {
    hide Valid, Size, Different, Expected, Serve, HeadSize, ReadyBytes, Members, Advanced;
    var x, rest := order[0], order[1..];
    MembersTail(order);
    ReadyBytesSplit(s, Members(order), x);
    assert order == [x] + rest;
    ServeKeeps(s, x, room);
    var (next, chunk) := Serve(s, x, room);
    SizeOne(chunk);
    HeadIs(s, x, room);
    forall c | c != x
      ensures Queue(next, c) == Queue(s, c) && HeadSize(next, c) == HeadSize(s, c)
    {
      OthersReady(s, x, room, c);
    }
    if |Queue(s, x)[0].encoded| <= room {
      var left := room - |chunk.encoded|;
      NotMember(rest, x);
      ReadyBytesSame(s, next, Members(rest));
      RoundWrites(next, rest, left);
      var (last, more) := Round(next, rest, left);
      SizeAppend([chunk], more);
      if ReadyBytes(s, Members(order)) <= room {
        forall c | c in order
          ensures Advanced(s, last, [chunk] + more, c)
        {
          if c == x { HeadWhole(s, x, room, last, more); } else { OtherAdvanced(s, x, room, last, more, c); }
        }
      }
    }
  }

  lemma NotMember(order: seq<u32>, c: u32)
    requires c !in order
    ensures c !in Members(order)
  {
  }

  lemma HeadIs(s: Queues, c: u32, room: nat)
    requires Ready(s, c) && room > 0
    ensures HeadSize(s, c) == |Queue(s, c)[0].encoded|
    ensures |Serve(s, c, room).1.encoded| == Min(room, HeadSize(s, c))
  {
  }

  lemma HeadWhole(s: Queues, c: u32, room: nat, last: Queues, more: seq<Item>)
    requires Ready(s, c) && 0 < room && |Queue(s, c)[0].encoded| <= room
    requires Queue(last, c) == Queue(Serve(s, c, room).0, c)
    ensures Advanced(s, last, [Serve(s, c, room).1] + more, c)
  {
    assert ([Serve(s, c, room).1] + more)[0] == Queue(s, c)[0];
  }

  lemma OtherAdvanced(s: Queues, x: u32, room: nat, last: Queues, more: seq<Item>, c: u32)
    requires Ready(s, x) && room > 0 && c != x && Advanced(Serve(s, x, room).0, last, more, c)
    ensures Advanced(s, last, [Serve(s, x, room).1] + more, c)
  {
    OthersReady(s, x, room, c);
  }

  lemma HeadSome(s: Queues, c: u32)
    requires Valid(s) && Ready(s, c)
    ensures HeadSize(s, c) > 0
  {
    HeadItem(s, c);
  }

  lemma OthersReady(s: Queues, x: u32, room: nat, c: u32)
    requires Ready(s, x) && room > 0 && c != x
    ensures var next := Serve(s, x, room).0;
            Queue(next, c) == Queue(s, c) && (Ready(next, c) <==> Ready(s, c)) && HeadSize(next, c) == HeadSize(s, c)
  {
    ServeOthers(s, x, room, c);
  }

  lemma OrderDifferent(s: Queues)
    ensures Different(Order(s)) && Members(Order(s)) == Waiting(s.data)
  {
    hide Order, Ahead;
    OrderAscends(s);
    assert forall c :: c in Waiting(s.data) <==> Queue(s, c) != [];
  }

  /** What is left once the control queue has had its turn. */
  function AfterControl(s: Queues, writable: nat): Queues {
    var (control, rest) := DrainControl(s.control, writable);
    s.(control := rest, queued := s.queued - Size(control))
  }

  lemma AfterControlReady(s: Queues, writable: nat)
    ensures ReadyBytes(AfterControl(s, writable), Waiting(s.data)) == ReadyBytes(s, Waiting(s.data))
  {
    hide DrainControl, Size, HeadSize, ReadyBytes;
    var after := AfterControl(s, writable);
    forall c | c in Waiting(s.data)
      ensures HeadSize(after, c) == HeadSize(s, c)
    {
      SameHeads(s, after, c);
    }
    ReadyBytesSame(s, after, Waiting(s.data));
  }

  /** The data part of a drain that has room left after control. */
  lemma DataWrites(s: Queues, room: nat)
    requires Valid(s) && Waiting(s.data) != {}
    ensures var (last, more) := Round(s, Order(s), room);
            && Size(more) == Min(room, ReadyBytes(s, Waiting(s.data)))
            && (ReadyBytes(s, Waiting(s.data)) <= room ==> forall c :: Advanced(s, last.(data := Sweep(last.data)), more, c))
            && last.control == s.control
  {
    hide Round, Order, Size, Valid, Ready, Waiting, ReadyBytes, Advanced;
    OrderDifferent(s);
    RoundWrites(s, Order(s), room);
    RoundKeeps(s, Order(s), room);
    var (last, more) := Round(s, Order(s), room);
    SweptQueues(last);
    if ReadyBytes(s, Waiting(s.data)) <= room {
      forall c
        ensures Advanced(s, last.(data := Sweep(last.data)), more, c)
      {
        NotWaiting(s, c);
        AdvancedFields(s, last, last.(data := Sweep(last.data)), more, c);
      }
    }
  }

  lemma AdvancedFields(s: Queues, last: Queues, swept: Queues, out: seq<Item>, c: u32)
    requires Queue(swept, c) == Queue(last, c)
    requires Advanced(s, last, out, c) || (!Ready(s, c) && Queue(last, c) == Queue(s, c))
    ensures Advanced(s, swept, out, c)
  {
  }

  lemma AdvancedBefore(s: Queues, after: Queues, next: Queues, control: seq<Item>, more: seq<Item>, c: u32)
    requires after.data == s.data && after.expected == s.expected && Advanced(after, next, more, c)
    ensures Advanced(s, next, control + more, c)
  {
    SameHeads(s, after, c);
  }

  /**
   One drain writes exactly as much as it may, or all there is to write now: the control queue, and the head
   item of every channel that was ready. In the second case the control queue is empty afterwards, each ready
   channel has given up its head, whole, and no other channel has changed.
   */
  lemma DrainWrites(s: Queues, writable: nat)
    requires Valid(s)
    ensures var (next, out) := DrainSpec(s, writable);
            var all := Size(s.control) + ReadyBytes(s, Waiting(s.data));
            && Size(out) == Min(writable, all)
            && (all <= writable ==> next.control == [] && s.control <= out && forall c :: Advanced(s, next, out, c))
  {
    hide DrainControl, Round, Order, Size, Valid, Ready, Waiting, ReadyBytes, Advanced, Sweep;
    var (control, rest) := DrainControl(s.control, writable);
    var used := Size(control);
    var after := AfterControl(s, writable);
    ControlDrained(s, writable);
    AfterControlValid(s, writable);
    AfterControlReady(s, writable);
    if used < writable && Waiting(s.data) != {} {
      DataWrites(after, writable - used);
      var (last, more) := Round(after, Order(after), writable - used);
      SizeAppend(control, more);
      if Size(s.control) + ReadyBytes(s, Waiting(s.data)) <= writable {
        forall c
          ensures Advanced(s, DrainSpec(s, writable).0, control + more, c)
        {
          AdvancedBefore(s, after, last.(data := Sweep(last.data)), control, more, c);
        }
      }
    } else {
      NoneWaiting(s);
      if Size(s.control) + ReadyBytes(s, Waiting(s.data)) <= writable {
        forall c
          ensures Advanced(s, after, control, c)
        {
          NothingReady(s, c);
        }
      }
    }
  }

  /** With no bytes ready no channel is. */
  lemma NothingReady(s: Queues, c: u32)
    requires Valid(s) && ReadyBytes(s, Waiting(s.data)) == 0
    ensures !Ready(s, c) && forall next, out :: Queue(next, c) == Queue(s, c) ==> Advanced(s, next, out, c)
  {
    NotWaiting(s, c);
    if Ready(s, c) {
      HeadSome(s, c);
      ReadyBytesBound(s, Waiting(s.data), c);
    }
  }

  lemma SameHeads(s: Queues, next: Queues, c: u32)
    requires next.data == s.data && next.expected == s.expected
    ensures Queue(next, c) == Queue(s, c) && (Ready(next, c) <==> Ready(s, c)) && HeadSize(next, c) == HeadSize(s, c)
  {
  }

  lemma NotWaiting(s: Queues, c: u32)
    ensures Queue(s, c) != [] <==> c in Waiting(s.data)
    ensures Ready(s, c) ==> c in Waiting(s.data)
  {
  }

  lemma NoneWaiting(s: Queues)
    ensures Waiting(s.data) == {} ==> ReadyBytes(s, Waiting(s.data)) == 0
  {
  }

  /** Control goes out in order, as much as fits; all of it if it fits. */
  lemma ControlDrained(s: Queues, writable: nat)
    requires Valid(s)
    ensures var (out, rest) := DrainControl(s.control, writable);
            && Size(out) == Min(writable, Size(s.control))
            && (Size(s.control) <= writable ==> out == s.control && rest == [])
  {
    hide DrainControl, Size, Valid;
    ValidControlOf(s);
    ControlKeeps(s.control, writable);
    SizeNothing();
    var (out, rest) := DrainControl(s.control, writable);
    if Size(s.control) <= writable { ControlWhole(s.control, writable); }
  }

  lemma {:induction false} ControlWhole(control: seq<Item>, room: nat)
    requires ValidControl(control) && Size(control) <= room
    ensures DrainControl(control, room) == (control, [])
    decreases |control|
  {
    if control != [] {
      assert control[0] in control && forall item <- control[1..] :: item in control;
      ControlWhole(control[1..], room - |control[0].encoded|);
      assert [control[0]] + control[1..] == control;
    }
  }

  // ---------------------------------------------------------------- stalled channels

  lemma {:induction false} RoundSkipsStalled(s: Queues, order: seq<u32>, room: nat, c: u32)
    requires Valid(s) && Stalled(s, c)
    ensures var (next, out) := Round(s, order, room);
            && Queue(next, c) == Queue(s, c) && Expected(next, c) == Expected(s, c)
            && c !in Channels(out)
    decreases |order|
  {
    hide Valid, Serve;
    if order != [] {
      var x := order[0];
      if !Ready(s, x) || room == 0 {
        RoundSkipsStalled(s, order[1..], room, c);
      } else {
        ServeKeeps(s, x, room);
        ServeOthers(s, x, room, c);
        var (next, chunk) := Serve(s, x, room);
        if |Queue(s, x)[0].encoded| <= room {
          RoundSkipsStalled(next, order[1..], room - |chunk.encoded|, c);
          var more := Round(next, order[1..], room - |chunk.encoded|).1;
          assert ([chunk] + more)[1..] == more;
        } else {
          assert [chunk][1..] == [];
        }
      }
    }
  }

  lemma DrainSkipsStalled(s: Queues, writable: nat, c: u32)
    requires Valid(s) && Stalled(s, c)
    ensures var (next, out) := DrainSpec(s, writable);
            Stalled(next, c) && c !in Channels(out)
  {
    hide DrainControl, Round, Order, Size, Valid;
    var (control, rest) := DrainControl(s.control, writable);
    var after := s.(control := rest, queued := s.queued - Size(control));
    AfterControlValid(s, writable);
    ValidControlOf(s);
    ControlKeeps(s.control, writable);
    ChannelsNone(control);
    if Size(control) < writable && Waiting(s.data) != {} {
      RoundSkipsStalled(after, Order(after), writable - Size(control), c);
      var (last, more) := Round(after, Order(after), writable - Size(control));
      ChannelsAppend(control, more);
      SweptQueues(last);
    }
  }

  lemma EnqueueStalled(s: Queues, item: Item, c: u32)
    requires Stalled(s, c)
    ensures Stalled(EnqueueSpec(s, item).0, c)
  {
  }

  /** A channel whose head is not the sequence it waits for is never served again, whatever follows. */
  lemma {:induction false} StalledForever(s: Queues, ops: seq<Op>, c: u32)
    requires Valid(s) && Stalled(s, c)
    ensures Stalled(After(s, ops), c) && c !in Channels(Output(s, ops))
    decreases |ops|
  {
    hide Valid, DrainSpec, EnqueueSpec, Stalled;
    if ops != [] {
      var (next, out) := Apply(s, ops[0]);
      ApplyKeeps(s, ops[0]);
      match ops[0] {
        case Enqueue(item) => EnqueueStalled(s, item, c);
        case Drain(writable) => DrainSkipsStalled(s, writable, c);
      }
      StalledForever(next, ops[1..], c);
      ChannelsAppend(out, Output(next, ops[1..]));
    }
  }

  // ---------------------------------------------------------------- draining to rest

  /** Nothing can be written: no control, and every waiting channel is stalled. */
  ghost predicate AtRest(s: Queues) {
    s.control == [] && forall c :: !Ready(s, c)
  }

  lemma {:induction false} RoundProgress(s: Queues, order: seq<u32>, room: nat, c: u32)
    requires Valid(s) && Ready(s, c) && c in order && room > 0
    ensures Round(s, order, room).0.queued < s.queued
    decreases |order|
  {
    hide Valid, Serve, Ready;
    if !Ready(s, order[0]) {
      RoundProgress(s, order[1..], room, c);
    } else {
      ServeKeeps(s, order[0], room);
      ServedFits(s, order[0], room);
      var (next, chunk) := Serve(s, order[0], room);
      RoundKeeps(next, order[1..], room - |chunk.encoded|);
    }
  }

  lemma ServedFits(s: Queues, c: u32, room: nat)
    requires Ready(s, c) && room > 0
    ensures |Serve(s, c, room).1.encoded| == Min(room, |Queue(s, c)[0].encoded|)
  {
  }

  lemma {:induction false} RoundAtRest(s: Queues, order: seq<u32>, room: nat)
    requires AtRest(s)
    ensures Round(s, order, room) == (s, [])
    decreases |order|
  {
    if order != [] {
      RoundAtRest(s, order[1..], room);
    }
  }

  /** A drain with any room at all writes something unless nothing can be written. */
  lemma DrainProgress(s: Queues, writable: nat)
    requires Valid(s) && writable >= 1
    ensures !AtRest(s) ==> DrainSpec(s, writable).0.queued < s.queued
    ensures AtRest(s) ==> AtRest(DrainSpec(s, writable).0) && DrainSpec(s, writable).1 == []
  {
    hide Round, Order, Size, Ready;
    SizeNothing();
    var (control, rest) := DrainControl(s.control, writable);
    var after := s.(control := rest, queued := s.queued - Size(control));
    AfterControlValid(s, writable);
    ControlKeeps(s.control, writable);
    if s.control != [] {
      FirstControl(s, writable);
      if Size(control) < writable {
        RoundKeeps(after, Order(after), writable - Size(control));
      }
    } else {
      assert after == s;
      OrderAscends(s);
      if !AtRest(s) {
        var c :| Ready(s, c);
        ReadyWaits(s, c);
        RoundProgress(s, Order(s), writable, c);
      } else {
        RoundAtRest(s, Order(s), writable);
        SweptReady(s);
      }
    }
  }

  lemma FirstControl(s: Queues, writable: nat)
    requires Valid(s) && writable >= 1 && s.control != []
    ensures Size(DrainControl(s.control, writable).0) > 0
  {
    assert s.control[0] in s.control;
    SizeNothing();
  }

  lemma ReadyWaits(s: Queues, c: u32)
    requires Ready(s, c)
    ensures Queue(s, c) != [] && Waiting(s.data) != {}
  {
    assert c in Waiting(s.data);
  }

  lemma SweptReady(s: Queues)
    ensures forall c :: Ready(s.(data := Sweep(s.data)), c) <==> Ready(s, c)
  {
    SweptQueues(s);
  }

  predicate Positive(sizes: seq<nat>) {
    forall i :: 0 <= i < |sizes| ==> sizes[i] >= 1
  }

  function Drains(sizes: seq<nat>): seq<Op> {
    if sizes == [] then [] else [Drain(sizes[0])] + Drains(sizes[1..])
  }

  /** After at most `queued_bytes` drains of at least one byte each, only stalled channels are left. */
  lemma {:induction false} DrainsToRest(s: Queues, sizes: seq<nat>)
    requires Valid(s) && Positive(sizes)
    requires s.queued <= |sizes|
    ensures AtRest(After(s, Drains(sizes)))
    decreases |sizes|
  {
    hide Valid, DrainSpec, AtRest;
    if sizes == [] {
      NothingQueued(s);
    } else {
      var next := DrainSpec(s, sizes[0]).0;
      ApplyKeeps(s, Drain(sizes[0]));
      DrainProgress(s, sizes[0]);
      assert Drains(sizes)[1..] == Drains(sizes[1..]);
      if AtRest(s) {
        RestStays(next, sizes[1..]);
      } else {
        DrainsToRest(next, sizes[1..]);
      }
    }
  }

  lemma {:induction false} RestStays(s: Queues, sizes: seq<nat>)
    requires Valid(s) && AtRest(s) && Positive(sizes)
    ensures AtRest(After(s, Drains(sizes)))
    decreases |sizes|
  {
    hide Valid, DrainSpec, AtRest;
    if sizes != [] {
      ApplyKeeps(s, Drain(sizes[0]));
      DrainProgress(s, sizes[0]);
      assert Drains(sizes)[1..] == Drains(sizes[1..]);
      RestStays(DrainSpec(s, sizes[0]).0, sizes[1..]);
    }
  }

  lemma ControlCounts(s: Queues)
    requires Valid(s) && s.control != []
    ensures s.queued > 0
  {
    assert s.control[0] in s.control;
  }

  lemma ReadyCounts(s: Queues, c: u32)
    requires Valid(s) && Ready(s, c)
    ensures s.queued > 0
  {
    DataSizeSplit(s.data, c);
    HeadItem(s, c);
  }

  lemma NothingQueued(s: Queues)
    requires Valid(s) && s.queued <= 0
    ensures AtRest(s)
  {
    hide Valid, Ready;
    if s.control != [] {
      ControlCounts(s);
    }
    forall c
      ensures !Ready(s, c)
    {
      if Ready(s, c) {
        ReadyCounts(s, c);
      }
    }
  }

  // ---------------------------------------------------------------- consecutive channels never stall

  /** Channel `c` holds consecutive sequences and waits for the first of them, or for any. */
  predicate InStepAt(s: Queues, c: u32) {
    var queue := Queue(s, c);
    && (forall i :: 0 <= i < |queue| ==> queue[i].sequence == queue[0].sequence + i)
    && (queue != [] ==> Expected(s, c) == 0 || Expected(s, c) == queue[0].sequence)
  }

  ghost predicate InStep(s: Queues) {
    forall c :: InStepAt(s, c)
  }

  /** What the producer must do: the next sequence after the last accepted one of that channel. */
  predicate Follows(s: Queues, item: Item) {
    var queue := Queue(s, item.channel.number);
    if queue != [] then item.sequence == queue[|queue| - 1].sequence + 1
    else Expected(s, item.channel.number) == 0 || item.sequence == Expected(s, item.channel.number)
  }

  lemma EnqueueInStep(s: Queues, item: Item)
    requires InStep(s) && (item.priority == Data ==> Follows(s, item))
    ensures InStep(EnqueueSpec(s, item).0)
  {
    var next := EnqueueSpec(s, item).0;
    forall c
      ensures InStepAt(next, c)
    {
      assert InStepAt(s, c);
    }
  }

  lemma ServedInStep(s: Queues, x: u32, room: nat)
    requires InStepAt(s, x) && Ready(s, x) && room > 0
    ensures InStepAt(Serve(s, x, room).0, x)
  {
    var queue := Queue(s, x);
    var next := Serve(s, x, room).0;
    var left := Queue(next, x);
    if |left| < |queue| {
      assert left == queue[1..];
      assert forall i :: 0 <= i < |left| ==> left[i].sequence == queue[i + 1].sequence;
      if left != [] {
        assert left[0].sequence == queue[1].sequence == queue[0].sequence + 1;
      }
    } else {
      assert forall i :: 0 <= i < |left| ==> left[i].sequence == queue[i].sequence;
    }
  }

  lemma ServeInStep(s: Queues, x: u32, room: nat)
    requires InStep(s) && Ready(s, x) && room > 0
    ensures InStep(Serve(s, x, room).0)
  {
    hide Serve, Ready;
    var next := Serve(s, x, room).0;
    forall c
      ensures InStepAt(next, c)
    {
      assert InStepAt(s, c);
      if c == x {
        ServedInStep(s, x, room);
      } else {
        ServeOthers(s, x, room, c);
      }
    }
  }

  lemma {:induction false} RoundInStep(s: Queues, order: seq<u32>, room: nat)
    requires InStep(s)
    ensures InStep(Round(s, order, room).0)
    decreases |order|
  {
    hide InStep, Serve;
    if order != [] {
      if !Ready(s, order[0]) || room == 0 {
        RoundInStep(s, order[1..], room);
      } else {
        ServeInStep(s, order[0], room);
        ServedFits(s, order[0], room);
        var (next, chunk) := Serve(s, order[0], room);
        if |Queue(s, order[0])[0].encoded| <= room {
          RoundInStep(next, order[1..], room - |chunk.encoded|);
        }
      }
    }
  }

  lemma DrainInStep(s: Queues, writable: nat)
    requires InStep(s)
    ensures InStep(DrainSpec(s, writable).0)
  {
    hide DrainControl, Round, Order, Size, InStepAt;
    var (control, rest) := DrainControl(s.control, writable);
    var after := s.(control := rest, queued := s.queued - Size(control));
    SameInStep(s, after);
    if Size(control) < writable {
      RoundInStep(after, Order(after), writable - Size(control));
      var last := Round(after, Order(after), writable - Size(control)).0;
      SweptQueues(last);
      SameInStep(last, last.(data := Sweep(last.data)));
    }
  }

  lemma SameInStep(a: Queues, b: Queues)
    requires forall c :: Queue(a, c) == Queue(b, c)
    requires a.expected == b.expected
    ensures InStep(a) ==> InStep(b)
  {
    if InStep(a) {
      forall c
        ensures InStepAt(b, c)
      {
        assert InStepAt(a, c);
      }
    }
  }

  /** Every data item a run accepts follows its channel's last accepted one; refused items may be any. */
  ghost predicate Consecutive(s: Queues, ops: seq<Op>)
    decreases |ops|
  {
    ops == [] ||
    ((ops[0].Enqueue? && ops[0].item.priority == Data && EnqueueSpec(s, ops[0].item).1.Ok? ==> Follows(s, ops[0].item))
     && Consecutive(Apply(s, ops[0]).0, ops[1..]))
  }

  lemma RefusedSame(s: Queues, item: Item)
    requires EnqueueSpec(s, item).1.Err?
    ensures EnqueueSpec(s, item).0 == s
  {
  }

  lemma {:induction false} RunInStep(s: Queues, ops: seq<Op>)
    requires InStep(s) && Consecutive(s, ops)
    ensures InStep(After(s, ops))
    decreases |ops|
  {
    hide InStep, DrainSpec, EnqueueSpec, Follows;
    if ops != [] {
      match ops[0] {
        case Enqueue(item) =>
          if EnqueueSpec(s, item).1.Ok? { EnqueueInStep(s, item); } else { RefusedSame(s, item); }
        case Drain(writable) => DrainInStep(s, writable);
      }
      RunInStep(Apply(s, ops[0]).0, ops[1..]);
    }
  }

  /**
   When every channel is fed consecutive sequences, no channel ever stalls, and `queued_bytes` drains of
   at least one byte empty the scheduler.
   */
  lemma ConsecutiveDrains(s: Queues, ops: seq<Op>, sizes: seq<nat>)
    requires Valid(s) && InStep(s) && Consecutive(s, ops)
    requires Positive(sizes) && After(s, ops).queued <= |sizes|
    ensures forall c :: !Stalled(After(s, ops), c)
    ensures Empty(After(After(s, ops), Drains(sizes)))
  {
    hide Valid, DrainSpec, InStep;
    var t := After(s, ops);
    AlwaysValid(s, ops);
    RunInStep(s, ops);
    NeverStalled(t);
    DrainsToRest(t, sizes);
    DrainsConsecutive(t, sizes);
    RunInStep(t, Drains(sizes));
    NeverStalled(After(t, Drains(sizes)));
    RestEmpty(After(t, Drains(sizes)));
  }

  lemma {:induction false} DrainsConsecutive(s: Queues, sizes: seq<nat>)
    ensures Consecutive(s, Drains(sizes))
    decreases |sizes|
  {
    hide DrainSpec;
    if sizes != [] {
      assert Drains(sizes)[1..] == Drains(sizes[1..]);
      DrainsConsecutive(DrainSpec(s, sizes[0]).0, sizes[1..]);
    }
  }

  lemma NeverStalled(s: Queues)
    requires InStep(s)
    ensures forall c :: !Stalled(s, c)
  {
    forall c
      ensures !Stalled(s, c)
    {
      assert InStepAt(s, c);
    }
  }

  lemma RestEmpty(s: Queues)
    requires AtRest(s) && forall c :: !Stalled(s, c)
    ensures Empty(s)
  {
    forall c | c in s.data
      ensures s.data[c] == []
    {
      assert !Ready(s, c) && !Stalled(s, c);
    }
  }

  // ---------------------------------------------------------------- one item into queues at rest

  /** The gate lets this item out at once: it is control, or next on a channel with nothing waiting. */
  predicate Passes(s: Queues, item: Item) {
    item.priority == Control
    || (Queue(s, item.channel.number) == []
        && (Expected(s, item.channel.number) == 0 || Expected(s, item.channel.number) == item.sequence))
  }

  lemma {:induction false} RoundServesOne(s: Queues, order: seq<u32>, room: nat, n: u32)
    requires Ready(s, n) && |Queue(s, n)| == 1 && 0 < |Queue(s, n)[0].encoded| <= room
    requires s.control == [] && (forall c :: c != n ==> !Ready(s, c)) && n in order
    ensures Round(s, order, room) == (Serve(s, n, room).0, [Queue(s, n)[0]])
    ensures AtRest(Serve(s, n, room).0)
    decreases |order|
  {
    hide Valid;
    var (next, chunk) := Serve(s, n, room);
    assert chunk == Queue(s, n)[0];
    assert Queue(s, n)[1..] == [];
    forall c
      ensures !Ready(next, c)
    {
      assert c != n ==> !Ready(s, c);
    }
    if order[0] == n {
      RoundAtRest(next, order[1..], room - |chunk.encoded|);
      assert [chunk] + [] == [chunk];
    } else {
      RoundServesOne(s, order[1..], room, n);
    }
  }

  lemma DrainOneData(s: Queues, n: u32)
    requires Valid(s) && s.control == [] && (forall c :: c != n ==> !Ready(s, c))
    requires Ready(s, n) && |Queue(s, n)| == 1 && 0 < |Queue(s, n)[0].encoded| <= s.limit
    ensures var (q, out) := DrainSpec(s, s.limit);
            && AtRest(q) && out == [Queue(s, n)[0]] && q.limit == s.limit
            && q.queued == s.queued - |Queue(s, n)[0].encoded|
            && (forall c :: Expected(q, c) == if c == n then Next(Queue(s, n)[0].sequence) else Expected(s, c))
            && (forall c :: Queue(q, c) == if c == n then [] else Queue(s, c))
  {
    hide Valid, Order, Round, Ready;
    SizeNothing();
    ReadyWaits(s, n);
    OrderAscends(s);
    RoundServesOne(s, Order(s), s.limit, n);
    var last := Serve(s, n, s.limit).0;
    ServedWhole(s, n);
    SweptQueues(last);
    SweptReady(last);
    assert s.(control := [], queued := s.queued - 0) == s;
  }

  lemma ServedWhole(s: Queues, n: u32)
    requires Ready(s, n) && |Queue(s, n)| == 1 && 0 < |Queue(s, n)[0].encoded| <= s.limit
    ensures var q := Serve(s, n, s.limit).0;
            && q.queued == s.queued - |Queue(s, n)[0].encoded| && q.limit == s.limit && q.control == s.control
            && (forall c :: Expected(q, c) == if c == n then Next(Queue(s, n)[0].sequence) else Expected(s, c))
            && (forall c :: Queue(q, c) == if c == n then [] else Queue(s, c))
  {
  }

  lemma DrainOneControl(s: Queues, item: Item)
    requires Valid(s) && s.control == [item] && (forall c :: !Ready(s, c)) && 0 < |item.encoded| <= s.limit
    ensures var (q, out) := DrainSpec(s, s.limit);
            && AtRest(q) && out == [item] && q.limit == s.limit && q.queued == s.queued - |item.encoded|
            && (forall c :: Expected(q, c) == Expected(s, c) && Queue(q, c) == Queue(s, c))
  {
    hide Valid, Order, Round, Ready;
    SizeOne(item);
    assert s.control[1..] == [];
    assert DrainControl([], s.limit - |item.encoded|) == ([], []);
    assert [item] + [] == [item];
    var after := s.(control := [], queued := s.queued - |item.encoded|);
    assert AtRest(after) by { SameReady(s, after); }
    if |item.encoded| < s.limit && Waiting(s.data) != {} {
      RoundAtRest(after, Order(after), s.limit - |item.encoded|);
      SweptQueues(after);
      SweptReady(after);
    }
  }

  lemma SameReady(a: Queues, b: Queues)
    requires a.data == b.data && a.expected == b.expected
    ensures forall c :: Ready(a, c) <==> Ready(b, c)
  {
  }

  lemma DrainNothing(s: Queues)
    requires Valid(s) && AtRest(s)
    ensures var (q, out) := DrainSpec(s, s.limit);
            && AtRest(q) && out == [] && q.limit == s.limit && q.queued == s.queued
            && (forall c :: Expected(q, c) == Expected(s, c) && Queue(q, c) == Queue(s, c))
  {
    hide Valid, Order, Round, Ready;
    SizeNothing();
    RoundAtRest(s, Order(s), s.limit);
    SweptQueues(s);
    SweptReady(s);
  }

  /**
   Queues at rest, one item accepted, one full drain: the item comes out whole and alone if the gate
   lets it pass, and otherwise nothing does and it joins the stalled items; the queues are at rest again.
   */
  lemma PassOrStall(s: Queues, item: Item)
    requires Valid(s) && AtRest(s) && EnqueueSpec(s, item).1.Ok?
    ensures var n, pass := item.channel.number, Passes(s, item);
            var (q, out) := DrainSpec(EnqueueSpec(s, item).0, s.limit);
            && AtRest(q) && q.limit == s.limit
            && out == (if pass then [item] else [])
            && q.queued == s.queued + (if pass then 0 else |item.encoded|)
            && (forall c :: Expected(q, c)
                         == if pass && item.priority == Data && c == n then Next(item.sequence) else Expected(s, c))
            && (forall c :: Queue(q, c) == if !pass && c == n then Queue(s, c) + [item] else Queue(s, c))
  {
    var next := EnqueueSpec(s, item).0;
    EnqueueKeeps(s, item);
    LimitBounds(s);
    EnqueuedReady(s, item);
    hide Valid, DrainSpec, Ready, EnqueueSpec;
    if item.priority == Control {
      DrainOneControl(next, item);
    } else if Passes(s, item) {
      DrainOneData(next, item.channel.number);
    } else {
      DrainNothing(next);
    }
  }

  lemma LimitBounds(s: Queues)
    requires Valid(s)
    ensures 0 <= s.queued <= s.limit
  {
  }

  /** What an accepted item changes in queues at rest. */
  lemma EnqueuedReady(s: Queues, item: Item)
    requires AtRest(s) && EnqueueSpec(s, item).1.Ok? && 0 <= s.queued
    ensures var (next, n) := (EnqueueSpec(s, item).0, item.channel.number);
            && 0 < |item.encoded| <= s.limit && next.limit == s.limit && next.queued == s.queued + |item.encoded|
            && (forall c :: Expected(next, c) == Expected(s, c))
            && (forall c :: Queue(next, c) == if item.priority == Data && c == n then Queue(s, c) + [item] else Queue(s, c))
            && next.control == (if item.priority == Control then [item] else [])
            && (forall c :: Ready(next, c) <==> item.priority == Data && c == n && Passes(s, item))
  {
    var next := EnqueueSpec(s, item).0;
    assert s.control + [item] == [item];
    forall c
      ensures Ready(next, c) <==> item.priority == Data && c == item.channel.number && Passes(s, item)
    {
      assert !Ready(s, c);
      if item.priority == Data && c == item.channel.number && Queue(s, c) != [] {
        assert Queue(next, c)[0] == Queue(s, c)[0];
      }
    }
  }

  // ---------------------------------------------------------------- what is accepted

  /**
   An item is accepted exactly when it has bytes, they fit beside those queued, and, for data, its number is above
   those waiting on its channel. It is then the last of its queue, and nothing else has changed.
   */
  lemma EnqueueIff(s: Queues, item: Item)
    requires Valid(s)
    ensures var (next, r) := EnqueueSpec(s, item);
            var room := Size(s.control) + DataSize(s.data) + |item.encoded| <= s.limit;
            var n := item.channel.number;
            var rises := forall q <- Queue(s, n) :: q.sequence < item.sequence;
            && (r.Ok? <==> item.encoded != [] && room && (item.priority == Data ==> rises))
            && (r.Err? ==> next == s)
            && (r.Err? ==>
                  r.error == if item.encoded == [] then Error(Connection, ResourceLimit, NoAction)
                             else if !room then Error(Connection, WouldBlock, NoAction)
                             else ChannelError(SequenceError))
            && (r.Ok? ==>
                  && next.control == s.control + (if item.priority == Control then [item] else [])
                  && (forall c: u32 :: Queue(next, c) == Queue(s, c) + if item.priority == Data && c == n then [item] else [])
                  && next.expected == s.expected && next.cursor == s.cursor && next.limit == s.limit)
  {
    hide Size, DataSize;
    var queue := Queue(s, item.channel.number);
    if queue != [] {
      assert ValidQueue(queue, item.channel.number);
      var last := |queue| - 1;
      assert queue[last] in queue;
      forall q | q in queue
        ensures q.sequence <= queue[last].sequence
      {
        var i :| 0 <= i < |queue| && queue[i] == q;
        if i < last { assert queue[i].sequence < queue[last].sequence; }
      }
    }
  }
}
