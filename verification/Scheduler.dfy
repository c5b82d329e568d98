/** The outbound queues: control before data, data round robin with partial writes and a per-channel gate. */
module Scheduler {
  import opened Types

  datatype Priority = Control | Data

  datatype Item = Item(priority: Priority, channel: ChannelId, sequence: u32, encoded: Bytes)

  /** `byte_limit_`, `queued_bytes_`, `control_`, `data_`, `expected_sequence_` and `rr_cursor_`. */
  datatype Queues = Queues(
    limit: nat,
    queued: int,
    control: seq<Item>,
    data: map<u32, seq<Item>>,
    expected: map<u32, u32>,
    cursor: u32)

  function Queue(s: Queues, c: u32): seq<Item> {
    if c in s.data then s.data[c] else []
  }

  /** A channel never served has no entry; the source's map then reads 0, which lets any sequence pass. */
  function Expected(s: Queues, c: u32): u32 {
    if c in s.expected then s.expected[c] else 0
  }

  /** The head of channel `c` may be written now. */
  predicate Ready(s: Queues, c: u32) {
    Queue(s, c) != [] && (Expected(s, c) == 0 || Queue(s, c)[0].sequence == Expected(s, c))
  }

  predicate Stalled(s: Queues, c: u32) {
    Queue(s, c) != [] && !Ready(s, c)
  }

  function Next(n: u32): u32 { (n + 1) % U32_SPAN }

  // ---------------------------------------------------------------- enqueue

  function EnqueueSpec(s: Queues, item: Item): (Queues, Result<()>) {
    if item.encoded == [] then (s, Err(Error(Connection, ResourceLimit, NoAction)))
    else if s.queued + |item.encoded| > s.limit then (s, Err(Error(Connection, WouldBlock, NoAction)))
    else if item.priority == Control then
      (s.(queued := s.queued + |item.encoded|, control := s.control + [item]), Ok(()))
    else
      var queue := Queue(s, item.channel.number);
      if queue != [] && item.sequence <= queue[|queue| - 1].sequence then (s, Err(ChannelError(SequenceError)))
      else
        (s.(queued := s.queued + |item.encoded|, data := s.data[item.channel.number := queue + [item]]), Ok(()))
  }

  // ---------------------------------------------------------------- drain: control

  function Chunk(item: Item, take: nat): Item
    requires take <= |item.encoded|
  {
    item.(encoded := item.encoded[..take])
  }

  function Tail(item: Item, take: nat): Item
    requires take <= |item.encoded|
  {
    item.(encoded := item.encoded[take..])
  }

  /** The chunks written from the control queue into `room` bytes, and what stays queued. */
  function DrainControl(control: seq<Item>, room: nat): (seq<Item>, seq<Item>) {
    if control == [] || room == 0 then ([], control)
    else
      var item := control[0];
      if room < |item.encoded| then ([Chunk(item, room)], [Tail(item, room)] + control[1..])
      else
        var (out, rest) := DrainControl(control[1..], room - |item.encoded|);
        ([item] + out, rest)
  }

  // ---------------------------------------------------------------- drain: the order of channels

  function Least(keys: set<u32>): (k: u32)
    requires keys != {}
    ensures k in keys && forall j <- keys :: k <= j
  {
    LeastExists(keys);
    var k :| k in keys && forall j <- keys :: k <= j;
    k
  }

  lemma LeastExists(keys: set<u32>)
    requires keys != {}
    ensures exists k :: k in keys && forall j <- keys :: k <= j
  {
    var k := LeastOf(keys);
  }

  lemma {:induction false} LeastOf(keys: set<u32>) returns (k: u32)
    requires keys != {}
    ensures k in keys && forall j <- keys :: k <= j
  {
    k :| k in keys;
    if keys - {k} != {} {
      var m := LeastOf(keys - {k});
      var least := if k <= m then k else m;
      forall j | j in keys
        ensures least <= j
      {
        assert j == k || j in keys - {k};
      }
      k := least;
    } else {
      forall j | j in keys
        ensures k <= j
      {
        assert j !in keys - {k};
      }
    }
  }

  function Sorted(keys: set<u32>): (s: seq<u32>)
    ensures forall k :: k in s <==> k in keys
    ensures forall i, j :: 0 <= i < j < |s| ==> s[i] < s[j]
    decreases |keys|
  {
    if keys == {} then []
    else
      var k := Least(keys);
      [k] + Sorted(keys - {k})
  }

  /** The first position whose number is at least `cursor`, or the length. */
  function LowerBound(s: seq<u32>, cursor: u32): (n: nat)
    ensures n <= |s|
    ensures forall i :: 0 <= i < n ==> s[i] < cursor
    ensures n < |s| ==> s[n] >= cursor
  {
    if s == [] || s[0] >= cursor then 0 else 1 + LowerBound(s[1..], cursor)
  }

  function Rotated(s: seq<u32>, cursor: u32): seq<u32> {
    var n := LowerBound(s, cursor);
    if n == |s| then s else s[n..] + s[..n]
  }

  function Waiting(data: map<u32, seq<Item>>): set<u32> {
    set c | c in data && data[c] != []
  }

  function Order(s: Queues): seq<u32> {
    Rotated(Sorted(Waiting(s.data)), s.cursor)
  }

  // ---------------------------------------------------------------- drain: one round of data

  /** Channel `c` writes as much of its head as fits into `room`. */
  function Serve(s: Queues, c: u32, room: nat): (Queues, Item)
    requires Ready(s, c) && room > 0
  {
    var item := Queue(s, c)[0];
    var rest := Queue(s, c)[1..];
    var take := Min(room, |item.encoded|);
    var served := s.(queued := s.queued - take, cursor := Next(c));
    if take == |item.encoded|
    then (served.(data := s.data[c := rest], expected := s.expected[c := Next(item.sequence)]), Chunk(item, take))
    else (served.(data := s.data[c := [Tail(item, take)] + rest]), Chunk(item, take))
  }

  function Round(s: Queues, order: seq<u32>, room: nat): (Queues, seq<Item>)
    decreases |order|
  {
    if order == [] then (s, [])
    else if !Ready(s, order[0]) || room == 0 then Round(s, order[1..], room)
    else
      var whole := |Queue(s, order[0])[0].encoded| <= room;
      var (next, chunk) := Serve(s, order[0], room);
      if !whole then (next, [chunk])
      else
        var (last, out) := Round(next, order[1..], room - |chunk.encoded|);
        (last, [chunk] + out)
  }

  function Sweep(data: map<u32, seq<Item>>): map<u32, seq<Item>> {
    map c | c in data && data[c] != [] :: data[c]
  }

  function Size(items: seq<Item>): nat {
    if items == [] then 0 else |items[0].encoded| + Size(items[1..])
  }

  function DrainSpec(s: Queues, writable: nat): (Queues, seq<Item>) {
    var (out, control) := DrainControl(s.control, writable);
    var used := Size(out);
    var after := s.(control := control, queued := s.queued - used);
    if used >= writable || Waiting(s.data) == {} then (after, out)
    else
      var (last, more) := Round(after, Order(after), writable - used);
      (last.(data := Sweep(last.data)), out + more)
  }

  predicate Empty(s: Queues) {
    s.control == [] && forall c <- s.data :: s.data[c] == []
  }

  // ---------------------------------------------------------------- what every state keeps

  /** The items queued for channel `c`: non-empty, and in strictly increasing sequence. */
  predicate ValidQueue(queue: seq<Item>, c: u32) {
    && (forall item <- queue :: item.encoded != [] && item.priority == Data && item.channel.number == c)
    && (forall i, j :: 0 <= i < j < |queue| ==> queue[i].sequence < queue[j].sequence)
  }

  predicate ValidControl(control: seq<Item>) {
    forall item <- control :: item.encoded != [] && item.priority == Control
  }

  ghost function DataSize(data: map<u32, seq<Item>>): nat {
    if data == map[] then 0
    else
      var c :| c in data;
      Size(data[c]) + DataSize(data - {c})
  }

  /** `queued_bytes_` is the true total and stays within the limit. */
  ghost predicate Valid(s: Queues) {
    && ValidControl(s.control)
    && (forall c <- s.data :: ValidQueue(s.data[c], c))
    && s.queued == Size(s.control) + DataSize(s.data) <= s.limit
  }

  lemma {:induction false} DataSizeSplit(data: map<u32, seq<Item>>, c: u32)
    requires c in data
    ensures DataSize(data) == Size(data[c]) + DataSize(data - {c})
    decreases |data|
  {
    var j :| j in data && DataSize(data) == Size(data[j]) + DataSize(data - {j});
    if j != c {
      DataSizeSplit(data - {j}, c);
      DataSizeSplit(data - {c}, j);
      assert data - {j} - {c} == data - {c} - {j};
    }
  }

  lemma DataSizePut(s: Queues, c: u32, queue: seq<Item>)
    ensures DataSize(s.data[c := queue]) == DataSize(s.data) - Size(Queue(s, c)) + Size(queue)
  {
    assert Size([]) == 0;
    hide Size;
    var next := s.data[c := queue];
    DataSizeSplit(next, c);
    if c in s.data {
      DataSizeSplit(s.data, c);
      assert next - {c} == s.data - {c};
    } else {
      assert next - {c} == s.data;
    }
  }

  lemma {:induction false} SweepSize(data: map<u32, seq<Item>>)
    ensures DataSize(Sweep(data)) == DataSize(data)
    decreases |data|
  {
    hide Size;
    if data == map[] {
      assert Sweep(data) == map[];
    } else {
      var c :| c in data;
      SweepSize(data - {c});
      DataSizeSplit(data, c);
      if data[c] == [] {
        assert Sweep(data) == Sweep(data - {c});
        SizeNothing();
      } else {
        DataSizeSplit(Sweep(data), c);
        assert Sweep(data) - {c} == Sweep(data - {c});
      }
    }
  }

  lemma {:induction false} DataSizeZero(data: map<u32, seq<Item>>)
    requires forall c <- data :: ValidQueue(data[c], c)
    ensures DataSize(data) == 0 <==> forall c <- data :: data[c] == []
    decreases |data|
  {
    if data != map[] {
      var c :| c in data;
      DataSizeSplit(data, c);
      DataSizeZero(data - {c});
      if data[c] != [] { assert data[c][0] in data[c]; }
      assert forall d <- data :: d == c || (d in data - {c} && data[d] == (data - {c})[d]);
      assert forall d <- data - {c} :: data[d] == (data - {c})[d];
    }
  }

  /** With every queued item non-empty, the queues are empty exactly when no byte is counted. */
  lemma EmptyIff(s: Queues)
    requires Valid(s)
    ensures Empty(s) <==> s.queued == 0
  {
    DataSizeZero(s.data);
    if s.control != [] { assert s.control[0] in s.control; }
  }

  lemma SizeNothing() ensures Size([]) == 0 {}

  lemma {:induction false} SizeAppend(a: seq<Item>, b: seq<Item>)
    ensures Size(a + b) == Size(a) + Size(b)
  {
    if a == [] {
      assert a + b == b;
    } else {
      assert (a + b)[1..] == a[1..] + b;
      SizeAppend(a[1..], b);
    }
  }

  lemma EnqueueKeeps(s: Queues, item: Item)
    requires Valid(s)
    ensures Valid(EnqueueSpec(s, item).0)
  {
    hide Size, DataSize;
    var next := EnqueueSpec(s, item).0;
    SizeAppend(s.control, [item]);
    var c := item.channel.number;
    var queue := Queue(s, c) + [item];
    SizeAppend(Queue(s, c), [item]);
    SizeOne(item);
    DataSizePut(s, c, queue);
    if next != s && item.priority == Data {
      assert ValidQueue(queue, c);
    }
  }

  lemma SizeOne(item: Item) ensures Size([item]) == |item.encoded| { SizeNothing(); assert [item][1..] == []; }

  lemma {:induction false} ControlKeeps(control: seq<Item>, room: nat)
    requires ValidControl(control)
    ensures var (out, rest) := DrainControl(control, room);
            && ValidControl(out) && ValidControl(rest)
            && Size(out) + Size(rest) == Size(control)
            && Size(out) <= room
            && (rest != [] ==> Size(out) == room)
  {
    if control == [] || room == 0 {
      SizeNothing();
    } else {
      var item, more := control[0], control[1..];
      assert control == [item] + more;
      assert item in control;
      if room < |item.encoded| {
        SizeOne(Chunk(item, room));
        SizeAppend([Tail(item, room)], more);
        SizeOne(Tail(item, room));
      } else {
        ControlKeeps(more, room - |item.encoded|);
        var (out, rest) := DrainControl(more, room - |item.encoded|);
        SizeAppend([item], out);
        SizeOne(item);
      }
    }
  }

  lemma ServeKeeps(s: Queues, c: u32, room: nat)
    requires Valid(s) && Ready(s, c) && room > 0
    ensures var (next, chunk) := Serve(s, c, room);
            && Valid(next) && next.queued == s.queued - |chunk.encoded|
            && 0 < |chunk.encoded| <= room
            && chunk.priority == Data && chunk.channel.number == c
            && next.limit == s.limit && next.control == s.control
  {
    hide DataSize;
    var queue := Queue(s, c);
    var item, rest := queue[0], queue[1..];
    assert item in queue && ValidQueue(queue, c);
    assert queue == [item] + rest;
    var (next, chunk) := Serve(s, c, room);
    DataSizePut(s, c, next.data[c]);
    var take := |chunk.encoded|;
    if take < |item.encoded| {
      assert next.data[c] == [Tail(item, take)] + rest;
      assert next.data[c][1..] == rest;
      TrimmedValid(queue, c, take);
    } else {
      assert ValidQueue(rest, c);
    }
  }

  lemma TrimmedValid(queue: seq<Item>, c: u32, take: nat)
    requires queue != [] && ValidQueue(queue, c) && take < |queue[0].encoded|
    ensures ValidQueue([Tail(queue[0], take)] + queue[1..], c)
  {
    var trimmed := [Tail(queue[0], take)] + queue[1..];
    assert queue[0] in queue;
    forall item | item in trimmed
      ensures item.encoded != [] && item.priority == Data && item.channel.number == c
    {
      if item != trimmed[0] {
        assert item in queue;
      }
    }
  }

  lemma {:induction false} RoundKeeps(s: Queues, order: seq<u32>, room: nat)
    requires Valid(s)
    ensures var (next, out) := Round(s, order, room);
            && Valid(next) && next.queued == s.queued - Size(out) && Size(out) <= room
            && (forall item <- out :: item.priority == Data && item.channel.number in order)
            && next.limit == s.limit && next.control == s.control
    decreases |order|
  {
    hide Valid, Serve, Size;
    SizeNothing();
    if order != [] {
      if !Ready(s, order[0]) || room == 0 {
        RoundKeeps(s, order[1..], room);
      } else {
        ServeKeeps(s, order[0], room);
        var (next, chunk) := Serve(s, order[0], room);
        SizeOne(chunk);
        if |Queue(s, order[0])[0].encoded| <= room {
          RoundKeeps(next, order[1..], room - |chunk.encoded|);
          var out := Round(next, order[1..], room - |chunk.encoded|).1;
          SizeAppend([chunk], out);
        }
      }
    }
  }

  /**
   One `drain` writes at most `writable` bytes, control chunks first, and data only once no control is
   left; the counter drops by exactly what was written.
   */
  lemma DrainKeeps(s: Queues, writable: nat)
    requires Valid(s)
    ensures var (next, out) := DrainSpec(s, writable);
            var control := DrainControl(s.control, writable).0;
            && Valid(next) && next.queued == s.queued - Size(out) && next.limit == s.limit
            && Size(out) <= writable
            && control <= out
            && (forall i :: 0 <= i < |control| ==> out[i].priority == Control)
            && (forall i :: |control| <= i < |out| ==> out[i].priority == Data)
            && (|control| < |out| ==> next.control == [])
  {
    hide Round, Size, DataSize, Order;
    ControlKeeps(s.control, writable);
    var (control, rest) := DrainControl(s.control, writable);
    var used := Size(control);
    var after := s.(control := rest, queued := s.queued - used);
    if used < writable && Waiting(s.data) != {} {
      RoundKeeps(after, Order(after), writable - used);
      var (last, more) := Round(after, Order(after), writable - used);
      SizeAppend(control, more);
      SweepSize(last.data);
    }
  }

  class OutboundScheduler {
    const limit: nat
    var queued: int
    var control: seq<Item>
    var data: map<u32, seq<Item>>
    var expected: map<u32, u32>
    var cursor: u32

    function State(): Queues
      reads this
    {
      Queues(limit, queued, control, data, expected, cursor)
    }

    constructor (limit: nat)
      ensures State() == Queues(limit, 0, [], map[], map[], 0) && Valid(State())
    {
      this.limit := limit;
      queued := 0;
      control := [];
      data := map[];
      expected := map[];
      cursor := 0;
      new;
      SizeNothing();
    }

    method Enqueue(item: Item) returns (r: Result<()>)
      requires Valid(State())
      modifies this
      ensures Valid(State()) && (State(), r) == EnqueueSpec(old(State()), item)
    {
      hide Valid;
      EnqueueKeeps(State(), item);
      if item.encoded == [] {
        return Err(Error(Connection, ResourceLimit, NoAction));
      }
      var next := queued + |item.encoded|;
      if next > limit {
        return Err(Error(Connection, WouldBlock, NoAction));
      }
      queued := next;
      if item.priority == Control {
        control := control + [item];
        return Ok(());
      }
      var queue := Queue(State(), item.channel.number);
      if queue != [] && item.sequence <= queue[|queue| - 1].sequence {
        queued := queued - |item.encoded|;
        return Err(ChannelError(SequenceError));
      }
      data := data[item.channel.number := queue + [item]];
      return Ok(());
    }

    /** The control loop: whole frames while they fit, then one exact prefix. */
    method WriteControl(writable: nat) returns (out: seq<Item>, used: nat)
      requires Valid(State())
      modifies this`control, this`queued
      ensures (out, control) == DrainControl(old(control), writable)
      ensures used == Size(out) <= writable && queued == old(queued) - used
    {
      hide Valid;
      out, used := [], 0;
      SizeNothing();
      ghost var whole := DrainControl(control, writable);
      ValidControlOf(State());
      assert [] + whole.0 == whole.0;
      while control != [] && used < writable
        invariant used <= writable && used == Size(out) && queued == old(queued) - used
        invariant ValidControl(control)
        invariant var rest := DrainControl(control, writable - used);
                  whole == (out + rest.0, rest.1)
        decreases |control|
      {
        var item := control[0];
        assert item in control;
        var take := Min(writable - used, |item.encoded|);
        ghost var rest := DrainControl(control, writable - used);
        SizeAppend(out, [Chunk(item, take)]);
        SizeOne(Chunk(item, take));
        assert forall x: seq<Item> :: out + ([item] + x) == (out + [item]) + x;
        out := out + [Chunk(item, take)];
        used := used + take;
        queued := queued - take;
        if take == |item.encoded| {
          assert Chunk(item, take) == item;
          control := control[1..];
        } else {
          control := [Tail(item, take)] + control[1..];
          return;
        }
      }
      assert out + [] == out;
    }

    /** The data loop over the rotated channels; a stalled head or an exhausted budget passes over. */
    method WriteRound(order: seq<u32>, room: nat) returns (out: seq<Item>)
      modifies this`data, this`queued, this`expected, this`cursor
      ensures (State(), out) == Round(old(State()), order, room)
    {
      hide Serve;
      out := [];
      var left: nat := room;
      ghost var whole := Round(State(), order, room);
      assert order[0..] == order && [] + whole.1 == whole.1;
      for i := 0 to |order|
        invariant control == old(control)
        invariant var rest := Round(State(), order[i..], left);
                  whole == (rest.0, out + rest.1)
      {
        assert order[i..][0] == order[i] && order[i..][1..] == order[i + 1..];
        if Ready(State(), order[i]) && left > 0 {
          var item := Queue(State(), order[i])[0];
          ghost var rest := Round(State(), order[i..], left);
          var chunk := ServeHead(order[i], left);
          assert forall x: seq<Item> :: out + ([chunk] + x) == (out + [chunk]) + x;
          out := out + [chunk];
          left := left - |chunk.encoded|;
          if |item.encoded| > |chunk.encoded| {
            return;
          }
        }
      }
      assert order[|order|..] == [] && out + [] == out;
    }

    method ServeHead(c: u32, room: nat) returns (chunk: Item)
      requires Ready(State(), c) && room > 0
      modifies this`data, this`queued, this`expected, this`cursor
      ensures (State(), chunk) == Serve(old(State()), c, room)
      ensures |chunk.encoded| == Min(room, |Queue(old(State()), c)[0].encoded|)
    {
      var queue := data[c];
      var item := queue[0];
      var take := Min(room, |item.encoded|);
      chunk := Chunk(item, take);
      queued := queued - take;
      cursor := Next(c);
      if take == |item.encoded| {
        expected := expected[c := Next(item.sequence)];
        data := data[c := queue[1..]];
      } else {
        data := data[c := [Tail(item, take)] + queue[1..]];
      }
    }

    method Drain(writable: nat) returns (out: seq<Item>)
      requires Valid(State())
      modifies this
      ensures Valid(State()) && (State(), out) == DrainSpec(old(State()), writable)
    {
      hide Valid, DrainControl, Round, Order, Sweep, Size;
      DrainKeeps(State(), writable);
      var used;
      out, used := WriteControl(writable);
      if used >= writable || Waiting(data) == {} {
        return;
      }
      var more := WriteRound(Order(State()), writable - used);
      out := out + more;
      data := Sweep(data);
    }

    /** Emptiness of the queues is read off them, and agrees with the byte counter. */
    method IsEmpty() returns (empty: bool)
      requires Valid(State())
      ensures empty <==> State().queued == 0
    {
      EmptyIff(State());
      return control == [] && forall c <- data :: data[c] == [];
    }
  }

  lemma ValidControlOf(s: Queues)
    requires Valid(s)
    ensures ValidControl(s.control)
  {
  }
}
