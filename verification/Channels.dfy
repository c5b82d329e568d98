/** Byte credit and the table of generation-tagged channel slots. */
module Channels {
  import opened Types
  import Reassembling

  // ---------------------------------------------------------------- byte credit

  datatype Flow = Flow(window: u64, available: u64, reserved: u64)

  function NewFlow(window: u64): Flow { Flow(window, window, 0) }

  function ReserveSpec(f: Flow, amount: u64): (Flow, Result<()>) {
    if amount == 0 then (f, Ok(()))
    else if amount > f.available then (f, Err(Error(Channel, WouldBlock, NoAction)))
    else if f.reserved + amount >= U64_SPAN then
      // The source's sum would wrap; it cannot while the account balances.
      (Flow(f.window, f.available - amount, (f.reserved + amount) % U64_SPAN), Ok(()))
    else (Flow(f.window, f.available - amount, f.reserved + amount), Ok(()))
  }

  /** A failing release has already lowered the reservation. */
  function ReleaseSpec(f: Flow, amount: u64): (Flow, Result<()>) {
    if amount > f.reserved then (f, Err(ChannelError(FlowUnderflow)))
    else if f.available + amount >= U64_SPAN || f.available + amount > f.window then
      (f.(reserved := f.reserved - amount), Err(Error(Channel, FlowOverflow, CloseConnection)))
    else (Flow(f.window, f.available + amount, f.reserved - amount), Ok(()))
  }

  /** The comparison with the window adds in 64 bits, so it can wrap. */
  function GrantSpec(f: Flow, amount: u64): (Flow, Result<()>) {
    if amount == 0 then (f, Err(ChannelError(FlowUnderflow)))
    else if f.available + amount >= U64_SPAN || (f.available + amount + f.reserved) % U64_SPAN > f.window then
      (f, Err(Error(Channel, FlowOverflow, CloseConnection)))
    else (f.(available := f.available + amount), Ok(()))
  }

  predicate Balanced(f: Flow) { f.available + f.reserved == f.window }

  class FlowAccount {
    var window: u64
    var available: u64
    var reserved: u64

    function State(): Flow
      reads this
    {
      Flow(window, available, reserved)
    }

    constructor (window: u64)
      ensures State() == NewFlow(window) && Balanced(State())
    {
      this.window := window;
      available := window;
      reserved := 0;
    }

    method Reserve(amount: u64) returns (r: Result<()>)
      modifies this
      ensures (State(), r) == ReserveSpec(old(State()), amount)
    {
      if amount == 0 {
        return Ok(());
      }
      if amount > available {
        return Err(Error(Channel, WouldBlock, NoAction));
      }
      available := available - amount;
      reserved := (reserved + amount) % U64_SPAN;
      return Ok(());
    }

    method Release(amount: u64) returns (r: Result<()>)
      modifies this
      ensures (State(), r) == ReleaseSpec(old(State()), amount)
    {
      if amount > reserved {
        return Err(ChannelError(FlowUnderflow));
      }
      reserved := reserved - amount;
      var next := available + amount;
      if next >= U64_SPAN || next > window {
        return Err(Error(Channel, FlowOverflow, CloseConnection));
      }
      available := next;
      return Ok(());
    }

    method Grant(amount: u64) returns (r: Result<()>)
      modifies this
      ensures (State(), r) == GrantSpec(old(State()), amount)
    {
      if amount == 0 {
        return Err(ChannelError(FlowUnderflow));
      }
      var next := available + amount;
      if next >= U64_SPAN || (next + reserved) % U64_SPAN > window {
        return Err(Error(Channel, FlowOverflow, CloseConnection));
      }
      available := next;
      return Ok(());
    }
  }

  /** A reservation and its release cancel out, and a balanced account stays balanced. */
  lemma ReserveRelease(f: Flow, amount: u64)
    requires Balanced(f)
    ensures var (held, r) := ReserveSpec(f, amount);
            && Balanced(held)
            && (r.Ok? <==> amount <= f.available)
            && (r.Ok? ==> ReleaseSpec(held, amount) == (f, Ok(())))
            && (r.Err? ==> held == f)
  {
  }

  /**
   On a balanced account a credit is accepted exactly when the window itself is so close to 2^64 that
   the 64-bit sum wraps; otherwise every credit is refused and changes nothing.
   */
  lemma GrantIff(f: Flow, amount: u64)
    requires Balanced(f)
    ensures GrantSpec(f, amount).1.Ok? <==> amount > 0 && f.available + amount < U64_SPAN <= f.window + amount
    ensures GrantSpec(f, amount).1.Err? ==> GrantSpec(f, amount).0 == f
    ensures f.window < U32_SPAN && amount < U32_SPAN ==> GrantSpec(f, amount).1.Err?
  {
  }

  datatype FlowOp = Reserve(amount: u64) | Release(amount: u64) | Grant(amount: u64)

  function FlowApply(f: Flow, op: FlowOp): Flow {
    match op
    case Reserve(n) => ReserveSpec(f, n).0
    case Release(n) => ReleaseSpec(f, n).0
    case Grant(n) => GrantSpec(f, n).0
  }

  function FlowAfter(f: Flow, ops: seq<FlowOp>): Flow
    decreases |ops|
  {
    if ops == [] then f else FlowAfter(FlowApply(f, ops[0]), ops[1..])
  }

  /** With 32-bit windows and credits no run ever unbalances an account. */
  lemma {:induction false} FlowAlwaysBalanced(f: Flow, ops: seq<FlowOp>)
    requires Balanced(f) && f.window < U32_SPAN
    requires forall op <- ops :: op.amount < U32_SPAN
    ensures Balanced(FlowAfter(f, ops)) && FlowAfter(f, ops).window == f.window
    decreases |ops|
  {
    if ops != [] {
      assert ops[0] in ops;
      FlowAlwaysBalanced(FlowApply(f, ops[0]), ops[1..]);
    }
  }

  // ---------------------------------------------------------------- slots

  datatype ChannelState = Free | Opening | Open | LocalClosed | RemoteClosed | Closing | Tombstone
  datatype Direction = LocalSend | RemoteSend

  datatype Slot = Slot(
    id: ChannelId,
    state: ChannelState,
    nextSend: u32,
    nextRecv: u32,
    localClosed: bool,
    remoteClosed: bool,
    flow: Flow,
    fragments: Reassembling.Reassembly)

  datatype Table = Table(window: u64, maxMessage: nat, slots: seq<Slot>)

  predicate Live(s: Slot) { s.state != Free && s.state != Tombstone }

  lemma NoFragments(limit: nat)
    ensures Reassembling.ValidStore(Reassembling.Store(limit, map[], 0))
  {
  }

  function NewFragments(limit: nat): Reassembling.Reassembly {
    NoFragments(limit);
    Reassembling.Store(limit, map[], 0)
  }

  /** A slot at the start of a lifetime. */
  function NewLifetime(t: Table, id: ChannelId, state: ChannelState): Slot {
    Slot(id, state, 1, 1, false, false, NewFlow(t.window), NewFragments(t.maxMessage))
  }

  function NewTable(channels: u16, window: u64, maxMessage: nat): Table {
    var t := Table(window, maxMessage, []);
    t.(slots := seq(channels, i requires 0 <= i < channels => NewLifetime(t, ChannelId(i + 1, 0), Free)))
  }

  predicate InRange(t: Table, id: ChannelId) { 1 <= id.number <= |t.slots| }

  /** `find`: the live slot that carries exactly this number and generation. */
  function Find(t: Table, id: ChannelId): (i: Option<nat>)
    ensures i.Some? ==> InRange(t, id) && i.value == id.number - 1
  {
    if InRange(t, id) && t.slots[id.number - 1].id.generation == id.generation && Live(t.slots[id.number - 1])
    then Some(id.number - 1) else None
  }

  function With(t: Table, i: nat, s: Slot): Table
    requires i < |t.slots|
  {
    t.(slots := t.slots[i := s])
  }

  function FirstFree(slots: seq<Slot>): (i: nat)
    ensures i <= |slots|
    ensures i < |slots| ==> slots[i].state == Free
    ensures forall j :: 0 <= j < i ==> slots[j].state != Free
  {
    if slots == [] || slots[0].state == Free then 0 else 1 + FirstFree(slots[1..])
  }

  /** The first free slot decides: when its generations are used up the call fails, whatever follows it. */
  function AllocateSpec(t: Table): (Table, Result<ChannelId>) {
    var i := FirstFree(t.slots);
    if i == |t.slots| then (t, Err(Error(Connection, ResourceLimit, NoAction)))
    else
      var id := t.slots[i].id;
      if id.generation == 0xFF then (t, Err(ChannelError(ResourceLimit)))
      else
        var next := ChannelId(id.number, id.generation + 1);
        (With(t, i, NewLifetime(t, next, Opening)), Ok(next))
  }

  function AcceptRemoteSpec(t: Table, id: ChannelId): (Table, Result<()>) {
    if !InRange(t, id) then (t, Err(ChannelError(ResourceLimit)))
    else
      var slot := t.slots[id.number - 1];
      if slot.state != Free then (t, Err(ChannelError(IllegalState)))
      else if id.generation != (slot.id.generation + 1) % 0x100 then (t, Err(ChannelError(StaleGeneration)))
      else (With(t, id.number - 1, NewLifetime(t, id, Open)), Ok(()))
  }

  function ActivateSpec(t: Table, id: ChannelId): (Table, Result<()>) {
    match Find(t, id)
    case None => (t, Err(ChannelError(IllegalState)))
    case Some(i) =>
      if t.slots[i].state != Opening then (t, Err(ChannelError(IllegalState)))
      else (With(t, i, t.slots[i].(state := Open)), Ok(()))
  }

  function ReserveSequenceSpec(t: Table, id: ChannelId): (Table, Result<u32>) {
    match Find(t, id)
    case None => (t, Err(ChannelError(StaleGeneration)))
    case Some(i) =>
      var n := t.slots[i].nextSend;
      if n == U32_SPAN - 1 then (t, Err(ChannelError(ResourceLimit)))
      else (With(t, i, t.slots[i].(nextSend := n + 1)), Ok(n))
  }

  function HalfCloseSpec(t: Table, id: ChannelId, direction: Direction): (Table, Result<()>) {
    match Find(t, id)
    case None => (t, Err(ChannelError(StaleGeneration)))
    case Some(i) =>
      var s := t.slots[i];
      if s.state != Open && s.state != LocalClosed && s.state != RemoteClosed then (t, Err(ChannelError(IllegalState)))
      else if direction == LocalSend then
        (With(t, i, s.(localClosed := true, state := if s.remoteClosed then Closing else LocalClosed)), Ok(()))
      else
        (With(t, i, s.(remoteClosed := true, state := if s.localClosed then Closing else RemoteClosed)), Ok(()))
  }

  function ResetChannelSpec(t: Table, id: ChannelId): (Table, Result<()>) {
    match Find(t, id)
    case None => (t, Err(ChannelError(StaleGeneration)))
    case Some(i) =>
      (With(t, i, t.slots[i].(state := Tombstone, flow := NewFlow(t.window), fragments := NewFragments(t.maxMessage))), Ok(()))
  }

  function RetireSpec(t: Table, id: ChannelId): (Table, Result<()>) {
    if !InRange(t, id) then (t, Err(ChannelError(IllegalState)))
    else
      var s := t.slots[id.number - 1];
      if s.id.generation != id.generation || s.state != Tombstone then (t, Err(ChannelError(IllegalState)))
      else (With(t, id.number - 1, s.(state := Free)), Ok(()))
  }

  /** What the engine does in place to a slot it has found: receive counter, credit and fragments. */
  function UpdateSpec(t: Table, id: ChannelId, nextRecv: u32, flow: Flow, fragments: Reassembling.Reassembly): Table {
    match Find(t, id)
    case None => t
    case Some(i) => With(t, i, t.slots[i].(nextRecv := nextRecv, flow := flow, fragments := fragments))
  }

  function LiveCount(slots: seq<Slot>): nat {
    if slots == [] then 0 else (if Live(slots[0]) then 1 else 0) + LiveCount(slots[1..])
  }

  class ChannelTable {
    const window: u64
    const maxMessage: nat
    var slots: seq<Slot>

    function State(): Table
      reads this
    {
      Table(window, maxMessage, slots)
    }

    constructor (channels: u16, window: u64, maxMessage: nat)
      ensures State() == NewTable(channels, window, maxMessage)
    {
      this.window := window;
      this.maxMessage := maxMessage;
      slots := [];
      new;
      for i := 0 to channels
        invariant |slots| == i
        invariant forall j :: 0 <= j < i ==> slots[j] == NewLifetime(Table(window, maxMessage, []), ChannelId(j + 1, 0), Free)
      {
        slots := slots + [NewLifetime(Table(window, maxMessage, []), ChannelId(i + 1, 0), Free)];
      }
    }

    method Allocate() returns (r: Result<ChannelId>)
      modifies this
      ensures (State(), r) == AllocateSpec(old(State()))
    {
      var i := 0;
      while i < |slots|
        invariant i <= |slots| && slots == old(slots)
        invariant forall j :: 0 <= j < i ==> slots[j].state != Free
      {
        if slots[i].state == Free {
          var id := slots[i].id;
          if id.generation == 0xFF {
            return Err(ChannelError(ResourceLimit));
          }
          var next := ChannelId(id.number, id.generation + 1);
          slots := slots[i := NewLifetime(State(), next, Opening)];
          return Ok(next);
        }
        i := i + 1;
      }
      return Err(Error(Connection, ResourceLimit, NoAction));
    }

    method AcceptRemote(id: ChannelId) returns (r: Result<()>)
      modifies this
      ensures (State(), r) == AcceptRemoteSpec(old(State()), id)
    {
      if id.number == 0 || id.number > |slots| {
        return Err(ChannelError(ResourceLimit));
      }
      var slot := slots[id.number - 1];
      if slot.state != Free {
        return Err(ChannelError(IllegalState));
      }
      if id.generation != (slot.id.generation + 1) % 0x100 {
        return Err(ChannelError(StaleGeneration));
      }
      slots := slots[id.number - 1 := NewLifetime(State(), id, Open)];
      return Ok(());
    }

    method Activate(id: ChannelId) returns (r: Result<()>)
      modifies this
      ensures (State(), r) == ActivateSpec(old(State()), id)
    {
      var i := Find(State(), id);
      if i.None? || slots[i.value].state != Opening {
        return Err(ChannelError(IllegalState));
      }
      slots := slots[i.value := slots[i.value].(state := Open)];
      return Ok(());
    }

    method ReserveSendSequence(id: ChannelId) returns (r: Result<u32>)
      modifies this
      ensures (State(), r) == ReserveSequenceSpec(old(State()), id)
    {
      var i := Find(State(), id);
      if i.None? {
        return Err(ChannelError(StaleGeneration));
      }
      var n := slots[i.value].nextSend;
      if n == U32_SPAN - 1 {
        return Err(ChannelError(ResourceLimit));
      }
      slots := slots[i.value := slots[i.value].(nextSend := n + 1)];
      return Ok(n);
    }

    method HalfClose(id: ChannelId, direction: Direction) returns (r: Result<()>)
      modifies this
      ensures (State(), r) == HalfCloseSpec(old(State()), id, direction)
    {
      var i := Find(State(), id);
      if i.None? {
        return Err(ChannelError(StaleGeneration));
      }
      var s := slots[i.value];
      if s.state != Open && s.state != LocalClosed && s.state != RemoteClosed {
        return Err(ChannelError(IllegalState));
      }
      if direction == LocalSend {
        s := s.(localClosed := true, state := if s.remoteClosed then Closing else LocalClosed);
      } else {
        s := s.(remoteClosed := true, state := if s.localClosed then Closing else RemoteClosed);
      }
      slots := slots[i.value := s];
      return Ok(());
    }

    method Reset(id: ChannelId) returns (r: Result<()>)
      modifies this
      ensures (State(), r) == ResetChannelSpec(old(State()), id)
    {
      var i := Find(State(), id);
      if i.None? {
        return Err(ChannelError(StaleGeneration));
      }
      slots := slots[i.value := slots[i.value].(state := Tombstone, flow := NewFlow(window), fragments := NewFragments(maxMessage))];
      return Ok(());
    }

    method RetireTombstone(id: ChannelId) returns (r: Result<()>)
      modifies this
      ensures (State(), r) == RetireSpec(old(State()), id)
    {
      if id.number == 0 || id.number > |slots| {
        return Err(ChannelError(IllegalState));
      }
      var s := slots[id.number - 1];
      if s.id.generation != id.generation || s.state != Tombstone {
        return Err(ChannelError(IllegalState));
      }
      slots := slots[id.number - 1 := s.(state := Free)];
      return Ok(());
    }

    method CountLive() returns (n: nat)
      ensures n == LiveCount(slots)
    {
      n := 0;
      assert slots[0..] == slots;
      for i := 0 to |slots|
        invariant n + LiveCount(slots[i..]) == LiveCount(slots)
      {
        assert slots[i..][0] == slots[i] && slots[i..][1..] == slots[i + 1..];
        if Live(slots[i]) {
          n := n + 1;
        }
      }
    }
  }

  // ---------------------------------------------------------------- when a lifetime starts and ends

  /** Slot `i` carries the number `i + 1`, as every table made by the constructor and the operations has it. */
  predicate NumberedSlots(t: Table) { forall i :: 0 <= i < |t.slots| ==> t.slots[i].id.number == i + 1 }

  /** Nothing but slot `i` differs. */
  predicate OnlySlot(t: Table, next: Table, i: nat) {
    && i < |t.slots| == |next.slots| && next.window == t.window && next.maxMessage == t.maxMessage
    && forall j :: 0 <= j < |t.slots| && j != i ==> next.slots[j] == t.slots[j]
  }

  /**
   A channel can be allocated exactly when some slot is free and the first free one has a generation left. It
   takes that slot for a fresh lifetime under an id that resolves from then on and did not before.
   */
  lemma AllocateIff(t: Table)
    requires NumberedSlots(t)
    ensures var (next, r) := AllocateSpec(t);
            && (r.Ok? <==>
                  exists i :: 0 <= i < |t.slots| && t.slots[i].state == Free && t.slots[i].id.generation < 0xFF
                              && forall j :: 0 <= j < i ==> t.slots[j].state != Free)
            && (r.Ok? ==>
                  var i := r.value.number - 1;
                  && 0 <= i < |t.slots| && t.slots[i].state == Free && r.value.generation == t.slots[i].id.generation + 1
                  && (forall j :: 0 <= j < i ==> t.slots[j].state != Free)
                  && OnlySlot(t, next, i) && next.slots[i] == NewLifetime(t, r.value, Opening)
                  && Find(t, r.value).None? && Find(next, r.value) == Some(i))
            && (r.Err? ==> next == t)
            && (r == Err(Error(Connection, ResourceLimit, NoAction)) <==> forall i :: 0 <= i < |t.slots| ==> t.slots[i].state != Free)
  {
    hide NewFragments;
    var i := FirstFree(t.slots);
    if i < |t.slots| { assert t.slots[i].id.number == i + 1; }
  }

  /** A remote OPEN is taken exactly on a free slot, for the generation after its last one, modulo 256. */
  lemma AcceptIff(t: Table, id: ChannelId)
    ensures var (next, r) := AcceptRemoteSpec(t, id);
            && (r.Ok? <==>
                  InRange(t, id) && t.slots[id.number - 1].state == Free
                  && id.generation == (t.slots[id.number - 1].id.generation + 1) % 0x100)
            && (r.Ok? ==>
                  OnlySlot(t, next, id.number - 1) && next.slots[id.number - 1] == NewLifetime(t, id, Open)
                  && Find(t, id).None? && Find(next, id) == Some(id.number - 1))
            && (r.Err? ==> next == t)
  {
    hide NewFragments;
  }

  /** Exactly a live id can be reset, and exactly a tombstone of that id can be retired; nothing else is touched. */
  lemma EndIff(t: Table, id: ChannelId)
    ensures var (next, r) := ResetChannelSpec(t, id);
            && (r.Ok? <==> Find(t, id).Some?)
            && (r.Ok? ==> Find(next, id).None? && OnlySlot(t, next, id.number - 1)
                          && next.slots[id.number - 1].state == Tombstone && next.slots[id.number - 1].fragments.pending == map[]
                          && next.slots[id.number - 1].flow == NewFlow(t.window))
            && (r.Err? ==> next == t)
    ensures var (next, r) := RetireSpec(t, id);
            && (r.Ok? <==>
                  InRange(t, id) && t.slots[id.number - 1].state == Tombstone && t.slots[id.number - 1].id.generation == id.generation)
            && (r.Ok? ==> OnlySlot(t, next, id.number - 1) && next.slots[id.number - 1] == t.slots[id.number - 1].(state := Free))
            && (r.Err? ==> next == t)
  {
  }

  /**
   The life of a channel: allocated and activated it resolves; reset it does not; retired, its slot is free for
   the generation after it, and for no other.
   */
  lemma Lifecycle(t: Table, generation: u8)
    requires NumberedSlots(t) && AllocateSpec(t).1.Ok?
    ensures var (t1, r) := AllocateSpec(t);
            var (t2, active) := ActivateSpec(t1, r.value);
            var (t3, reset) := ResetChannelSpec(t2, r.value);
            var (t4, retired) := RetireSpec(t3, r.value);
            && active.Ok? && Find(t2, r.value).Some? && t2.slots[r.value.number - 1].state == Open
            && ActivateSpec(t2, r.value).1.Err? && AcceptRemoteSpec(t2, r.value).1.Err?
            && reset.Ok? && Find(t3, r.value).None? && ResetChannelSpec(t3, r.value).1.Err? && RetireSpec(t2, r.value).1.Err?
            && retired.Ok? && Find(t4, r.value).None? && RetireSpec(t4, r.value).1.Err?
            && (AcceptRemoteSpec(t4, ChannelId(r.value.number, generation)).1.Ok? <==> generation == (r.value.generation + 1) % 0x100)
  {
    hide NewFragments;
    var i := FirstFree(t.slots);
    assert t.slots[i].id.number == i + 1;
  }

  /** `live_count` is the number of slots whose own id resolves. */
  lemma LiveCountIs(t: Table)
    requires NumberedSlots(t)
    ensures LiveCount(t.slots) == |set i | 0 <= i < |t.slots| && Find(t, t.slots[i].id) == Some(i)|
  {
    LivePositions(t.slots);
    assert (set i | 0 <= i < |t.slots| && Find(t, t.slots[i].id) == Some(i)) == LiveSet(t.slots);
  }

  /** The positions of the live slots. */
  function LiveSet(slots: seq<Slot>): set<int> { set i | 0 <= i < |slots| && Live(slots[i]) }

  lemma LiveSetSnoc(slots: seq<Slot>, s: Slot)
    ensures LiveSet(slots + [s]) == LiveSet(slots) + if Live(s) then {|slots|} else {}
    ensures |slots| !in LiveSet(slots)
  {
    hide Live;
  }

  lemma {:induction false} LivePositions(slots: seq<Slot>)
    ensures LiveCount(slots) == |LiveSet(slots)|
  {
    hide LiveSet, Live;
    if slots == [] {
      assert LiveSet(slots) == {} by { NoneLive(); }
    } else {
      var before, last := slots[..|slots| - 1], slots[|slots| - 1];
      assert slots == before + [last];
      LivePositions(before);
      LiveSetSnoc(before, last);
      LiveCountSnoc(before, last);
    }
  }

  lemma NoneLive()
    ensures LiveSet([]) == {}
  {
  }

  lemma {:induction false} LiveCountSnoc(slots: seq<Slot>, s: Slot)
    ensures LiveCount(slots + [s]) == LiveCount(slots) + if Live(s) then 1 else 0
  {
    if slots == [] {
      assert [] + [s] == [s] && [s][1..] == [];
    } else {
      assert (slots + [s])[0] == slots[0] && (slots + [s])[1..] == slots[1..] + [s];
      LiveCountSnoc(slots[1..], s);
    }
  }

  // ---------------------------------------------------------------- runs and lifetimes

  datatype TableOp =
    | Allocate
    | AcceptRemote(id: ChannelId)
    | Activate(id: ChannelId)
    | ReserveSequence(id: ChannelId)
    | HalfClose(id: ChannelId, direction: Direction)
    | Reset(id: ChannelId)
    | Retire(id: ChannelId)
    | Update(id: ChannelId, nextRecv: u32, flow: Flow, fragments: Reassembling.Reassembly)

  function TableApply(t: Table, op: TableOp): Table {
    match op
    case Allocate => AllocateSpec(t).0
    case AcceptRemote(id) => AcceptRemoteSpec(t, id).0
    case Activate(id) => ActivateSpec(t, id).0
    case ReserveSequence(id) => ReserveSequenceSpec(t, id).0
    case HalfClose(id, d) => HalfCloseSpec(t, id, d).0
    case Reset(id) => ResetChannelSpec(t, id).0
    case Retire(id) => RetireSpec(t, id).0
    case Update(id, n, flow, fragments) => UpdateSpec(t, id, n, flow, fragments)
  }

  /** The slot in which this operation starts a lifetime, if it does. */
  function Starts(t: Table, op: TableOp): (i: Option<nat>)
    ensures i.Some? ==> i.value < |t.slots| && t.slots[i.value].state == Free
  {
    match op
    case Allocate => if AllocateSpec(t).1.Ok? then Some(FirstFree(t.slots)) else None
    case AcceptRemote(id) => if AcceptRemoteSpec(t, id).1.Ok? then Some(id.number - 1) else None
    case _ => None
  }

  function TableAfter(t: Table, ops: seq<TableOp>): Table
    decreases |ops|
  {
    if ops == [] then t else TableAfter(TableApply(t, ops[0]), ops[1..])
  }

  /** How many lifetimes slot `i` has started during a run. */
  function Lifetimes(t: Table, ops: seq<TableOp>, i: nat): nat
    decreases |ops|
  {
    if ops == [] then 0
    else (if Starts(t, ops[0]) == Some(i) then 1 else 0) + Lifetimes(TableApply(t, ops[0]), ops[1..], i)
  }

  /** The identifier a slot carries in its `k`-th lifetime. */
  function Minted(i: nat, k: nat): ChannelId
    requires i + 1 < U32_SPAN
  {
    ChannelId(i + 1, k % 0x100)
  }

  /** Slot `i` is in its `lives[i]`-th lifetime. */
  ghost predicate Counted(t: Table, lives: seq<nat>) {
    && |lives| == |t.slots| < U32_SPAN - 1
    && forall i :: 0 <= i < |lives| ==> t.slots[i].id == Minted(i, lives[i])
  }

  function Bump(lives: seq<nat>, i: Option<nat>): seq<nat> {
    if i.Some? && i.value < |lives| then lives[i.value := lives[i.value] + 1] else lives
  }

  lemma NextGeneration(i: nat, k: nat, id: ChannelId)
    requires i + 1 < U32_SPAN && id.number == i + 1 && id.generation == (k % 0x100 + 1) % 0x100
    ensures id == Minted(i, k + 1)
  {
    assert (k + 1) % 0x100 == (k % 0x100 + 1) % 0x100;
  }

  /** Replacing one slot by its next lifetime. */
  lemma NextId(t: Table, i: nat, s: Slot, lives: seq<nat>)
    requires Counted(t, lives) && i < |t.slots|
    requires s.id.number == t.slots[i].id.number && s.id.generation == (t.slots[i].id.generation + 1) % 0x100
    ensures Counted(With(t, i, s), lives[i := lives[i] + 1])
  {
    NextGeneration(i, lives[i], s.id);
  }

  lemma StartCounts(t: Table, op: TableOp, lives: seq<nat>)
    requires Counted(t, lives) && (op.Allocate? || op.AcceptRemote?)
    ensures Counted(TableApply(t, op), Bump(lives, Starts(t, op)))
  {
    hide Counted, With, Minted;
    assert |lives| == |t.slots| by { CountedSize(t, lives); }
    match op {
      case Allocate =>
        var i := FirstFree(t.slots);
        if AllocateSpec(t).1.Ok? {
          NextId(t, i, NewLifetime(t, AllocateSpec(t).1.value, Opening), lives);
        }
      case AcceptRemote(id) =>
        if AcceptRemoteSpec(t, id).1.Ok? {
          CountedId(t, lives, id.number - 1);
          NextId(t, id.number - 1, NewLifetime(t, id, Open), lives);
        }
    }
  }

  lemma CountedSize(t: Table, lives: seq<nat>)
    requires Counted(t, lives)
    ensures |lives| == |t.slots|
  {
  }

  lemma CountedId(t: Table, lives: seq<nat>, i: nat)
    requires Counted(t, lives) && i < |t.slots|
    ensures t.slots[i].id.number == i + 1
  {
    assert t.slots[i].id == Minted(i, lives[i]);
  }

  /** No other operation changes an id. */
  lemma OtherIds(t: Table, op: TableOp, i: nat)
    requires i < |t.slots| && !op.Allocate? && !op.AcceptRemote?
    ensures |TableApply(t, op).slots| == |t.slots| && TableApply(t, op).slots[i].id == t.slots[i].id
  {
  }

  lemma OtherCounts(t: Table, op: TableOp, lives: seq<nat>)
    requires Counted(t, lives) && !op.Allocate? && !op.AcceptRemote?
    ensures Counted(TableApply(t, op), lives)
  {
    hide TableApply, Minted;
    var next := TableApply(t, op);
    SameSlots(t, op);
    forall i | 0 <= i < |lives|
      ensures next.slots[i].id == Minted(i, lives[i])
    {
      OtherIds(t, op, i);
    }
  }

  lemma ApplyCounts(t: Table, op: TableOp, lives: seq<nat>)
    requires Counted(t, lives)
    ensures Counted(TableApply(t, op), Bump(lives, Starts(t, op)))
  {
    hide Counted, TableApply;
    if op.Allocate? || op.AcceptRemote? {
      StartCounts(t, op, lives);
    } else {
      OtherCounts(t, op, lives);
    }
  }

  lemma {:induction false} RunCounts(t: Table, ops: seq<TableOp>, lives: seq<nat>)
    requires Counted(t, lives)
    ensures Counted(TableAfter(t, ops), seq(|lives|, i requires 0 <= i < |lives| => lives[i] + Lifetimes(t, ops, i)))
    decreases |ops|
  {
    hide TableApply, Starts, Minted;
    var sum := seq(|lives|, i requires 0 <= i < |lives| => lives[i] + Lifetimes(t, ops, i));
    if ops == [] {
      assert sum == lives;
    } else {
      var next, more := TableApply(t, ops[0]), Bump(lives, Starts(t, ops[0]));
      ApplyCounts(t, ops[0], lives);
      RunCounts(next, ops[1..], more);
      assert sum == seq(|more|, i requires 0 <= i < |more| => more[i] + Lifetimes(next, ops[1..], i));
    }
  }

  /**
   On every run from a new table: the identifier minted for lifetime `k` of a slot resolves exactly when
   the slot is live and its current lifetime is `k` counted modulo 256.
   */
  lemma FindIff(channels: u16, window: u64, maxMessage: nat, ops: seq<TableOp>, i: nat, k: nat)
    requires i < channels
    requires k <= Lifetimes(NewTable(channels, window, maxMessage), ops, i)
    ensures var t0 := NewTable(channels, window, maxMessage);
            var t := TableAfter(t0, ops);
            var now := Lifetimes(t0, ops, i);
            && |t.slots| == channels
            && (Find(t, Minted(i, k)).Some? <==> Live(t.slots[i]) && (now - k) % 0x100 == 0)
  {
    hide TableAfter, Lifetimes;
    var t0 := NewTable(channels, window, maxMessage);
    var none := seq<nat>(channels, _ => 0);
    assert Counted(t0, none);
    RunCounts(t0, ops, none);
    var t := TableAfter(t0, ops);
    var now := Lifetimes(t0, ops, i);
    assert t.slots[i].id == Minted(i, now);
    SameGeneration(now, k);
  }

  lemma SameGeneration(now: nat, k: nat)
    requires k <= now
    ensures now % 0x100 == k % 0x100 <==> (now - k) % 0x100 == 0
  {
  }

  /** No remote OPEN is taken by a slot that has used its last generation. */
  predicate NoWrap(t: Table, ops: seq<TableOp>)
    decreases |ops|
  {
    ops == [] ||
    ((ops[0].AcceptRemote? && Starts(t, ops[0]).Some? ==> t.slots[Starts(t, ops[0]).value].id.generation != 0xFF)
     && NoWrap(TableApply(t, ops[0]), ops[1..]))
  }

  lemma {:induction false} FewLifetimes(t: Table, ops: seq<TableOp>, lives: seq<nat>, i: nat)
    requires Counted(t, lives) && NoWrap(t, ops) && i < |lives| && lives[i] <= 0xFF
    ensures lives[i] + Lifetimes(t, ops, i) <= 0xFF
    decreases |ops|
  {
    hide TableApply;
    if ops != [] {
      ApplyCounts(t, ops[0], lives);
      assert t.slots[i].id == Minted(i, lives[i]);
      FewLifetimes(TableApply(t, ops[0]), ops[1..], Bump(lives, Starts(t, ops[0])), i);
    }
  }

  /** Without that wrap an identifier from an ended lifetime never resolves again. */
  lemma StaleNeverResolves(channels: u16, window: u64, maxMessage: nat, ops: seq<TableOp>, i: nat, k: nat)
    requires i < channels && NoWrap(NewTable(channels, window, maxMessage), ops)
    requires k < Lifetimes(NewTable(channels, window, maxMessage), ops, i)
    ensures Find(TableAfter(NewTable(channels, window, maxMessage), ops), Minted(i, k)).None?
  {
    hide TableAfter, Lifetimes, NoWrap;
    var t0 := NewTable(channels, window, maxMessage);
    var none := seq<nat>(channels, _ => 0);
    assert Counted(t0, none);
    FewLifetimes(t0, ops, none, i);
    FindIff(channels, window, maxMessage, ops, i, k);
  }

  // ---------------------------------------------------------------- the wrap is real

  /** `n` whole lifetimes of slot 1, each opened by the peer, reset and retired. */
  function Cycles(n: nat): seq<TableOp> {
    if n == 0 then []
    else Cycles(n - 1) + [AcceptRemote(Minted(0, n)), Reset(Minted(0, n)), Retire(Minted(0, n))]
  }

  lemma {:induction false} AfterAppend(t: Table, a: seq<TableOp>, b: seq<TableOp>)
    ensures TableAfter(t, a + b) == TableAfter(TableAfter(t, a), b)
    ensures forall i :: Lifetimes(t, a + b, i) == Lifetimes(t, a, i) + Lifetimes(TableAfter(t, a), b, i)
    decreases |a|
  {
    hide TableApply, Starts;
    if a == [] {
      assert a + b == b;
    } else {
      assert (a + b)[1..] == a[1..] + b;
      AfterAppend(TableApply(t, a[0]), a[1..], b);
    }
  }

  lemma OneCycle(t: Table, n: nat)
    requires |t.slots| == 1 && t.slots[0].state == Free && t.slots[0].id == Minted(0, n)
    ensures var ops := [AcceptRemote(Minted(0, n + 1)), Reset(Minted(0, n + 1)), Retire(Minted(0, n + 1))];
            var next := TableAfter(t, ops);
            && |next.slots| == 1 && next.slots[0].state == Free && next.slots[0].id == Minted(0, n + 1)
            && Lifetimes(t, ops, 0) == 1
  {
    var id := Minted(0, n + 1);
    var ops := [AcceptRemote(id), Reset(id), Retire(id)];
    assert (n % 0x100 + 1) % 0x100 == (n + 1) % 0x100;
    var t1 := TableApply(t, ops[0]);
    var t2 := TableApply(t1, ops[1]);
    var t3 := TableApply(t2, ops[2]);
    assert ops[1..] == [Reset(id), Retire(id)] && ops[1..][1..] == [Retire(id)] && ops[1..][1..][1..] == [];
    assert TableAfter(t, ops) == TableAfter(t1, ops[1..]) == TableAfter(t2, [Retire(id)]) == TableAfter(t3, []) == t3;
    assert Lifetimes(t3, [], 0) == 0;
    assert Lifetimes(t2, [Retire(id)], 0) == 0;
    assert Lifetimes(t1, ops[1..], 0) == 0;
  }

  lemma {:induction false} CyclesRun(window: u64, maxMessage: nat, n: nat)
    ensures var t0 := NewTable(1, window, maxMessage);
            var t := TableAfter(t0, Cycles(n));
            && |t.slots| == 1 && t.slots[0].state == Free && t.slots[0].id == Minted(0, n)
            && Lifetimes(t0, Cycles(n), 0) == n
  {
    hide TableAfter, Lifetimes;
    var t0 := NewTable(1, window, maxMessage);
    if n == 0 {
      NoOps(t0);
    } else {
      CyclesRun(window, maxMessage, n - 1);
      var step := [AcceptRemote(Minted(0, n)), Reset(Minted(0, n)), Retire(Minted(0, n))];
      AfterAppend(t0, Cycles(n - 1), step);
      OneCycle(TableAfter(t0, Cycles(n - 1)), n - 1);
    }
  }

  lemma NoOps(t: Table)
    ensures TableAfter(t, []) == t && forall i :: Lifetimes(t, [], i) == 0
  {
  }

  /** After 256 lifetimes a remote OPEN revives the identifier of the first one. */
  lemma WrapRevives(window: u64, maxMessage: nat)
    ensures var t0 := NewTable(1, window, maxMessage);
            var ops := Cycles(256) + [AcceptRemote(Minted(0, 257))];
            && Lifetimes(t0, ops, 0) == 257
            && Find(TableAfter(t0, ops), Minted(0, 1)) == Some(0)
  {
    hide Cycles, TableAfter, Lifetimes, NewTable, Find;
    var t0 := NewTable(1, window, maxMessage);
    CyclesRun(window, maxMessage, 256);
    AfterAppend(t0, Cycles(256), [AcceptRemote(Minted(0, 257))]);
    OneAccept(TableAfter(t0, Cycles(256)), 256);
    assert Minted(0, 257) == Minted(0, 1);
  }

  lemma OneAccept(t: Table, n: nat)
    requires |t.slots| == 1 && t.slots[0].state == Free && t.slots[0].id == Minted(0, n)
    ensures var ops := [AcceptRemote(Minted(0, n + 1))];
            Find(TableAfter(t, ops), Minted(0, n + 1)) == Some(0) && Lifetimes(t, ops, 0) == 1
  {
    hide NewFragments;
    var ops := [AcceptRemote(Minted(0, n + 1))];
    assert (n % 0x100 + 1) % 0x100 == (n + 1) % 0x100;
    assert ops[1..] == [];
    NoOps(TableApply(t, ops[0]));
    assert TableAfter(t, ops) == TableApply(t, ops[0]);
  }

  // ---------------------------------------------------------------- the half-close states

  /** A live slot's state says exactly which directions are closed. */
  predicate StateMatches(s: Slot) {
    match s.state
    case Free => true
    case Tombstone => true
    case Opening => !s.localClosed && !s.remoteClosed
    case Open => !s.localClosed && !s.remoteClosed
    case LocalClosed => s.localClosed && !s.remoteClosed
    case RemoteClosed => !s.localClosed && s.remoteClosed
    case Closing => s.localClosed && s.remoteClosed
  }

  lemma SlotMatches(t: Table, op: TableOp, i: nat)
    requires i < |t.slots| && StateMatches(t.slots[i])
    ensures i < |TableApply(t, op).slots| && StateMatches(TableApply(t, op).slots[i])
  {
    hide NewFragments;
  }

  lemma SameSlots(t: Table, op: TableOp)
    ensures |TableApply(t, op).slots| == |t.slots|
  {
  }

  lemma {:induction false} StatesAlwaysMatch(t: Table, ops: seq<TableOp>)
    requires forall s <- t.slots :: StateMatches(s)
    ensures forall s <- TableAfter(t, ops).slots :: StateMatches(s)
    decreases |ops|
  {
    hide TableApply, StateMatches;
    if ops != [] {
      var next := TableApply(t, ops[0]);
      SameSlots(t, ops[0]);
      forall i | 0 <= i < |next.slots|
        ensures StateMatches(next.slots[i])
      {
        assert t.slots[i] in t.slots;
        SlotMatches(t, ops[0], i);
      }
      StatesAlwaysMatch(next, ops[1..]);
    }
  }
}
