/** Runs of the culling tracker, and what is sent for an allocation over any of them. */
module TrackerRuns {
  import opened Basics
  import opened Trace
  import opened TrackerSpec

  /** The lifetime from which on an allocation is not culled, and how many may be pending in one table. */
  datatype Options = Options(threshold: nat, limit: Option<nat>)

  /** The tables of live threads and of dead ones, the queues, and the thread numbers handed out. */
  datatype State = State(tables: map<nat, Table>, global: Table, channel: Channel, enabled: bool, seen: set<nat>)

  const START := State(map[], NOTHING, IDLE, true, {})

  predicate LongLived(b: Bucket, now: nat, o: Options) {
    b.events != [] && now >= b.events[0].timestamp + o.threshold
  }

  function Due(now: nat, o: Options): (nat, Bucket) -> bool {
    (n: nat, b: Bucket) => (o.limit.Some? && n > o.limit.value) || LongLived(b, now, o)
  }

  function Always(): (nat, Bucket) -> bool { (n: nat, b: Bucket) => true }

  // ----- The calls

  function FlushLocal(s: State, thread: nat, due: (nat, Bucket) -> bool): State
    requires thread in s.tables
  {
    var f := FlushWhile(Flushed(s.tables[thread], s.channel), due);
    s.(tables := s.tables[thread := f.table], channel := f.channel)
  }

  function FlushGlobal(s: State, due: (nat, Bucket) -> bool): State {
    var f := FlushWhile(Flushed(s.global, s.channel), due);
    s.(global := f.table, channel := f.channel)
  }

  /** An allocation is looked for in its thread's table while the thread is alive, then in the global one. */
  function Home(s: State, id: Id): Table {
    if id.thread in s.tables then s.tables[id.thread] else s.global
  }

  function WithHome(s: State, id: Id, t: Table): State {
    if id.thread in s.tables then s.(tables := s.tables[id.thread := t]) else s.(global := t)
  }

  function FlushHome(s: State, id: Id, due: (nat, Bucket) -> bool): State {
    if id.thread in s.tables then FlushLocal(s, id.thread, due) else FlushGlobal(s, due)
  }

  function SendSingle(s: State, e: Event): State {
    s.(channel := Send(s.channel, Single(e)))
  }

  ghost function OnAllocation(s: State, e: Event, o: Options): State
    requires e.Alloc? && (s.enabled ==> e.id.thread in s.tables)
  {
    if !s.enabled then SendSingle(s, e)
    else
      var b := Bucket(e.id, [Buffered(e.timestamp, e.body)]);
      FlushLocal(WithHome(s, e.id, Inserted(Home(s, e.id), e.id, b)), e.id.thread, Due(e.timestamp, o))
  }

  /** A reallocation, once the table was flushed: it joins a pending allocation, or is sent. */
  function Reallocated(s: State, e: Event): State
    requires e.Realloc?
  {
    var t := Home(s, e.id);
    if e.id in t.values then
      var b := t.values[e.id];
      WithHome(s, e.id, t.(values := t.values[e.id := b.(events := b.events + [Buffered(e.timestamp, e.body)])]))
    else SendSingle(s, e)
  }

  function OnReallocation(s: State, e: Event, o: Options): State
    requires e.Realloc?
  {
    if !s.enabled then SendSingle(s, e) else Reallocated(FlushHome(s, e.id, Due(e.timestamp, o)), e)
  }

  /** A free, once the table was flushed: a pending allocation is culled unless it lived long. */
  ghost function Released(s: State, e: Event, o: Options): State
    requires e.Free?
  {
    var t := Home(s, e.id);
    if e.id in t.values then
      var s2 := WithHome(s, e.id, Removed(t, e.id));
      if LongLived(t.values[e.id], e.timestamp, o) then
        s2.(channel := Send(Send(s2.channel, Batch(t.values[e.id])), Single(e)))
      else s2
    else SendSingle(s, e)
  }

  ghost function OnFree(s: State, e: Event, o: Options): State
    requires e.Free?
  {
    if !s.enabled then SendSingle(s, e) else Released(FlushHome(s, e.id, Due(e.timestamp, o)), e, o)
  }

  function OnThreadCreated(s: State, thread: nat): State {
    s.(tables := s.tables[thread := NOTHING], seen := s.seen + {thread})
  }

  /** A dead thread's pending allocations go to the back of the global table, oldest first. */
  ghost function MoveAll(from: Table, to: Table): Table
    decreases |from.order|
  {
    if from.order == [] || from.order[0] !in from.values then to
    else MoveAll(Popped(from), Inserted(to, from.order[0], from.values[from.order[0]]))
  }

  ghost function OnThreadDestroyed(s: State, thread: nat, now: nat, o: Options): State {
    if thread !in s.tables then s
    else
      var s2 := FlushGlobal(FlushLocal(s, thread, Due(now, o)), Due(now, o));
      s2.(tables := s2.tables - {thread}, global := MoveAll(s2.tables[thread], s2.global))
  }

  /** The first `n` of the listed threads' tables are flushed. */
  function FlushEach(s: State, order: seq<nat>, n: nat, due: (nat, Bucket) -> bool): (r: State)
    requires n <= |order| && forall i :: 0 <= i < |order| ==> order[i] in s.tables
    ensures r.tables.Keys == s.tables.Keys
  {
    if n == 0 then s else FlushLocal(FlushEach(s, order, n - 1, due), order[n - 1], due)
  }

  lemma FlushEachNone(s: State, order: seq<nat>, due: (nat, Bucket) -> bool)
    requires forall i :: 0 <= i < |order| ==> order[i] in s.tables
    ensures FlushEach(s, order, 0, due) == s
  {}

  lemma FlushEachStep(s: State, order: seq<nat>, n: nat, due: (nat, Bucket) -> bool)
    requires n < |order| && forall i :: 0 <= i < |order| ==> order[i] in s.tables
    ensures FlushEach(s, order, n + 1, due) == FlushLocal(FlushEach(s, order, n, due), order[n], due)
  {
    hide FlushLocal;
  }

  predicate Lists(order: seq<nat>, tables: map<nat, Table>) {
    && (forall i :: 0 <= i < |order| ==> order[i] in tables)
    && (forall t :: t in tables ==> t in order)
  }

  function OnTick(s: State, now: nat, order: seq<nat>, o: Options): State
    requires Lists(order, s.tables)
  {
    FlushEach(FlushGlobal(s, Due(now, o)), order, |order|, Due(now, o))
  }

  /** At exit everything pending is sent, and from then on events are sent at once. */
  function OnExit(s: State, order: seq<nat>): State
    requires Lists(order, s.tables)
  {
    var s1 := FlushGlobal(FlushEach(s, order, |order|, Always()), Always());
    s1.(tables := map[], enabled := false)
  }

  // ----- Runs

  datatype Step =
    | Call(event: Event, caller: nat)
    | Created(thread: nat)
    | Destroyed(thread: nat, at: nat)
    | Tick(at: nat, order: seq<nat>)
    | Exit(order: seq<nat>)
    | Taken(queue: nat)
    | Drained

  /** The time at which a step happens, if it has one. */
  function Time(step: Step): Option<nat> {
    match step
    case Call(e, _) => if e.Alloc? || e.Realloc? || e.Free? then Some(e.timestamp) else None
    case Destroyed(_, at) => Some(at)
    case Tick(at, _) => Some(at)
    case _ => None
  }

  /** The time of the last step among the first `n` that has one. */
  function Clock(steps: seq<Step>, n: nat): nat
    requires n <= |steps|
  {
    if n == 0 then 0 else if Time(steps[n - 1]).Some? then Time(steps[n - 1]).value else Clock(steps, n - 1)
  }

  /** What happened to an allocation in the first `n` steps. */
  function History(steps: seq<Step>, n: nat, id: Id): seq<Event>
    requires n <= |steps|
  {
    if n == 0 then []
    else
      var step := steps[n - 1];
      History(steps, n - 1, id) + (if step.Call? && MessageId(Single(step.event)) == id then [step.event] else [])
  }

  predicate Ended(h: seq<Event>) { h != [] && h[|h| - 1].Free? }

  /** Where the block is, going by the last event of its history. */
  function Address(h: seq<Event>): Option<nat> {
    if h == [] then None
    else match h[|h| - 1]
      case Alloc(_, _, body) => Some(body.pointer)
      case Realloc(_, _, _, body) => Some(body.pointer)
      case _ => None
  }

  /** A call by a live thread about an allocation that can be: new, or existing and where the program says it is. */
  predicate Sensible(e: Event, caller: nat, h: seq<Event>, s: State) {
    && (s.enabled ==> caller in s.tables)
    && match e
       case Alloc(id, _, _) => Tracked(id) && h == [] && id.thread == caller
       case Realloc(id, _, was, _) => Tracked(id) && Address(h) == Some(was)
       case Free(id, _, pointer, _, _) => Tracked(id) && Address(h) == Some(pointer)
       case _ => false
  }

  /** What may happen next: time does not go back and thread numbers are not used twice. */
  predicate Possible(s: State, steps: seq<Step>, n: nat)
    requires n < |steps|
  {
    && (Time(steps[n]).Some? ==> Clock(steps, n) <= Time(steps[n]).value)
    && match steps[n]
       case Call(e, caller) => Sensible(e, caller, History(steps, n, MessageId(Single(e))), s)
       case Created(thread) => thread !in s.seen
       case Destroyed(_, _) => true
       case Tick(_, order) => Lists(order, s.tables)
       case Exit(order) => Lists(order, s.tables)
       case Taken(queue) => queue < QUEUES && s.channel.buffers[queue] == []
       case Drained => true
  }

  ghost function Apply(s: State, steps: seq<Step>, n: nat, o: Options): State
    requires n < |steps| && Possible(s, steps, n)
  {
    match steps[n]
    case Call(e, _) =>
      if e.Alloc? then OnAllocation(s, e, o)
      else if e.Realloc? then OnReallocation(s, e, o)
      else OnFree(s, e, o)
    case Created(thread) => OnThreadCreated(s, thread)
    case Destroyed(thread, at) => OnThreadDestroyed(s, thread, at, o)
    case Tick(at, order) => OnTick(s, at, order, o)
    case Exit(order) => OnExit(s, order)
    case Taken(queue) => s.(channel := Take(s.channel, queue))
    case Drained => s.(channel := Drain(s.channel))
  }

  /** The state after the first `n` steps, if all of them are possible. */
  ghost function After(steps: seq<Step>, n: nat, o: Options): Option<State>
    requires n <= |steps|
  {
    if n == 0 then Some(START)
    else
      match After(steps, n - 1, o)
      case None => None
      case Some(s) => if Possible(s, steps, n - 1) then Some(Apply(s, steps, n - 1, o)) else None
  }

  // ----- What holds of every state

  ghost predicate StateOk(s: State) {
    && ChannelOk(s.channel) && TableOk(s.global)
    && (forall t :: t in s.tables ==> LocalOk(s.tables[t], t) && t in s.seen)
    && (forall id :: id in s.global.values ==> id.thread !in s.tables && id.thread in s.seen)
    && (!s.enabled ==> Nothing(s))
  }

  /** Nothing is pending. */
  ghost predicate Nothing(s: State) {
    s.global.values == map[] && forall t :: t in s.tables ==> s.tables[t].values == map[]
  }

  ghost predicate LocalOk(t: Table, thread: nat) {
    TableOk(t) && forall id :: id in t.values ==> id.thread == thread
  }

  ghost predicate Pending(s: State, id: Id) { id in Home(s, id).values }

  /** What one flush of anything may do to an allocation. */
  ghost predicate Moved(s: State, s': State, due: (nat, Bucket) -> bool, id: Id)
    requires StateOk(s) && StateOk(s')
  {
    && Outgoing(s'.channel, id) + Waiting(Home(s', id), id) == Outgoing(s.channel, id) + Waiting(Home(s, id), id)
    && (Pending(s', id) ==>
          Pending(s, id) && Home(s', id).values[id] == Home(s, id).values[id] &&
          Outgoing(s'.channel, id) == Outgoing(s.channel, id))
    && (Pending(s, id) && !Pending(s', id) ==> WasDue(Home(s, id).values[id], due))
  }

  lemma MovedTrans(a: State, b: State, c: State, due: (nat, Bucket) -> bool, id: Id)
    requires StateOk(a) && StateOk(b) && StateOk(c) && Moved(a, b, due, id) && Moved(b, c, due, id)
    ensures Moved(a, c, due, id)
  {
    hide StateOk, Outgoing, Home, Waiting;
  }

  lemma MovedRefl(s: State, due: (nat, Bucket) -> bool, id: Id)
    requires StateOk(s)
    ensures Moved(s, s, due, id)
  {}

  /** Flushing takes nothing new in. */
  lemma {:induction false} FlushShrinks(f: Flushed, due: (nat, Bucket) -> bool)
    requires FlushOk(f)
    ensures FlushOk(FlushWhile(f, due)) && forall id :: id in FlushWhile(f, due).table.values ==> id in f.table.values
  {
    FlushSettles(f, due, UNTRACKED);
    forall id | id in FlushWhile(f, due).table.values ensures id in f.table.values {
      FlushSettles(f, due, id);
    }
  }

  lemma FlushLocalMoves(s: State, thread: nat, due: (nat, Bucket) -> bool, id: Id)
    requires StateOk(s) && thread in s.tables
    ensures StateOk(FlushLocal(s, thread, due)) && Moved(s, FlushLocal(s, thread, due), due, id)
  {
    hide FlushWhile, Outgoing, TableOk, ChannelOk;
    var f := Flushed(s.tables[thread], s.channel);
    FlushShrinks(f, due);
    FlushSettles(f, due, id);
    if id !in f.table.values {
      SettledElsewhere(f, FlushWhile(f, due), due, id);
    }
  }

  lemma FlushGlobalMoves(s: State, due: (nat, Bucket) -> bool, id: Id)
    requires StateOk(s)
    ensures StateOk(FlushGlobal(s, due)) && Moved(s, FlushGlobal(s, due), due, id)
  {
    hide FlushWhile, Outgoing, TableOk, ChannelOk;
    var f := Flushed(s.global, s.channel);
    FlushShrinks(f, due);
    FlushSettles(f, due, id);
    if id !in f.table.values {
      SettledElsewhere(f, FlushWhile(f, due), due, id);
    }
  }

  lemma {:induction false} FlushEachMoves(s: State, order: seq<nat>, n: nat, due: (nat, Bucket) -> bool, id: Id)
    requires StateOk(s) && n <= |order| && forall i :: 0 <= i < |order| ==> order[i] in s.tables
    ensures StateOk(FlushEach(s, order, n, due)) && Moved(s, FlushEach(s, order, n, due), due, id)
  {
    hide StateOk, Moved, FlushLocal;
    if n == 0 {
      MovedRefl(s, due, id);
    } else {
      FlushEachMoves(s, order, n - 1, due, id);
      var m := FlushEach(s, order, n - 1, due);
      FlushLocalMoves(m, order[n - 1], due, id);
      MovedTrans(s, m, FlushLocal(m, order[n - 1], due), due, id);
    }
  }

  // ----- The history of one allocation is sent whole or not at all

  /**
   A pending allocation's whole history waits in its table; of any other, all was sent, or nothing and it was
   freed.
   */
  ghost predicate Whole(s: State, h: seq<Event>, id: Id)
    requires StateOk(s)
  {
    if Pending(s, id) then Outgoing(s.channel, id) == [] && Waiting(Home(s, id), id) == h
    else Outgoing(s.channel, id) == h || (Outgoing(s.channel, id) == [] && Ended(h))
  }

  lemma MovedWhole(s: State, s': State, due: (nat, Bucket) -> bool, h: seq<Event>, id: Id)
    requires StateOk(s) && StateOk(s') && Moved(s, s', due, id) && Whole(s, h, id)
    ensures Whole(s', h, id)
  {
    hide ChannelOk, TableOk, LocalOk, Nothing, Outgoing, Home;
    if !Pending(s', id) {
      assert Outgoing(s'.channel, id) + [] == Outgoing(s'.channel, id);
      if Pending(s, id) {
        assert [] + Waiting(Home(s, id), id) == h;
      } else {
        assert Outgoing(s.channel, id) + [] == Outgoing(s.channel, id);
      }
    }
  }

  lemma {:induction false} ChainShape(id: Id, events: seq<Buffered>, n: nat)
    requires n <= |events|
    ensures |Chain(id, events, n)| == n
    ensures forall i :: 0 <= i < n ==> Chain(id, events, n)[i] == Written(id, events, i)
  {
    if n > 0 {
      ChainShape(id, events, n - 1);
    }
  }

  lemma {:induction false} ChainMore(id: Id, events: seq<Buffered>, b: Buffered, n: nat)
    requires n <= |events|
    ensures Chain(id, events + [b], n) == Chain(id, events, n)
  {
    if n > 0 {
      ChainMore(id, events, b, n - 1);
    }
  }

  /** A reallocation added to a bucket is a reallocation added to its events. */
  lemma BucketGrows(b: Bucket, e: Event)
    requires e.Realloc? && e.id == b.id && b.events != [] && Address(EventsOf(Batch(b))) == Some(e.oldPointer)
    ensures EventsOf(Batch(b.(events := b.events + [Buffered(e.timestamp, e.body)]))) == EventsOf(Batch(b)) + [e]
  {
    ChainShape(b.id, b.events, |b.events|);
    ChainMore(b.id, b.events, Buffered(e.timestamp, e.body), |b.events|);
  }

  // ----- Changing one allocation in its table

  lemma WithHomeOk(s: State, id: Id, t: Table)
    requires StateOk(s) && s.enabled && TableOk(t) && id.thread in s.seen
    requires forall i :: i in t.values ==> i in Home(s, id).values || i == id
    ensures StateOk(WithHome(s, id, t)) && Home(WithHome(s, id, t), id) == t
  {
    hide TableOk, ChannelOk;
  }

  /** Other allocations do not notice. */
  lemma WithHomeElsewhere(s: State, id: Id, t: Table, other: Id, h: seq<Event>)
    requires StateOk(s) && StateOk(WithHome(s, id, t)) && other != id && Whole(s, h, other)
    requires other in t.values <==> other in Home(s, id).values
    requires other in t.values ==> t.values[other] == Home(s, id).values[other]
    ensures Whole(WithHome(s, id, t), h, other)
  {
    hide StateOk, Outgoing;
  }

  lemma SendWhole(s: State, m: Message, h: seq<Event>, id: Id)
    requires StateOk(s) && Whole(s, h, id)
    requires MessageId(m) == id ==> !Pending(s, id) && !Ended(h)
    ensures StateOk(s.(channel := Send(s.channel, m)))
    ensures Whole(s.(channel := Send(s.channel, m)), if MessageId(m) == id then h + EventsOf(m) else h, id)
  {
    hide ChannelOk, TableOk, Outgoing, Send;
    SendOutgoing(s.channel, m, id);
    if MessageId(m) != id {
      assert Outgoing(s.channel, id) + [] == Outgoing(s.channel, id);
    }
  }

  /** Somewhere for an allocation that can be reallocated or freed to have come from. */
  lemma PendingSeen(s: State, id: Id)
    requires StateOk(s) && Pending(s, id)
    ensures id.thread in s.seen && Home(s, id).values[id].id == id && Home(s, id).values[id].events != []
    ensures TableOk(Home(s, id)) && s.enabled
  {}

  // ----- The calls keep it

  lemma InsertKeeps(s: State, e: Event, h: seq<Event>, id: Id)
    requires StateOk(s) && e.Alloc? && s.enabled && e.id.thread in s.tables
    requires Whole(s, h, id) && (id == e.id ==> h == [])
    ensures var s1 := WithHome(s, e.id, Inserted(Home(s, e.id), e.id, Bucket(e.id, [Buffered(e.timestamp, e.body)])));
      StateOk(s1) && e.id.thread in s1.tables && Whole(s1, if id == e.id then h + [e] else h, id)
  {
    var b := Bucket(e.id, [Buffered(e.timestamp, e.body)]);
    var t := Inserted(Home(s, e.id), e.id, b);
    InsertedOk(Home(s, e.id), e.id, b);
    WithHomeOk(s, e.id, t);
    if id == e.id {
      NewIsNot(s, id);
      ChainShape(e.id, b.events, 1);
      assert Waiting(t, id) == [e];
    } else {
      WithHomeElsewhere(s, e.id, t, id, h);
    }
  }

  lemma NewIsNot(s: State, id: Id)
    requires StateOk(s) && Whole(s, [], id)
    ensures !Pending(s, id) && Outgoing(s.channel, id) == []
  {
    if Pending(s, id) {
      PendingSeen(s, id);
      var b := Home(s, id).values[id];
      ChainShape(id, b.events, |b.events|);
    }
  }

  lemma AllocationKeeps(s: State, e: Event, o: Options, h: seq<Event>, id: Id)
    requires StateOk(s) && e.Alloc? && (s.enabled ==> e.id.thread in s.tables)
    requires Whole(s, h, id) && (id == e.id ==> h == [])
    ensures StateOk(OnAllocation(s, e, o)) && Whole(OnAllocation(s, e, o), if id == e.id then h + [e] else h, id)
  {
    hide StateOk, Whole, FlushLocal, Moved, Pending, WithHome, Home, Inserted;
    if s.enabled {
      InsertKeeps(s, e, h, id);
      var s1 := WithHome(s, e.id, Inserted(Home(s, e.id), e.id, Bucket(e.id, [Buffered(e.timestamp, e.body)])));
      FlushLocalMoves(s1, e.id.thread, Due(e.timestamp, o), id);
      MovedWhole(s1, FlushLocal(s1, e.id.thread, Due(e.timestamp, o)), Due(e.timestamp, o),
        if id == e.id then h + [e] else h, id);
    } else {
      if id == e.id {
        NewIsNot(s, id);
      }
      SendWhole(s, Single(e), h, id);
    }
  }

  lemma FlushHomeMoves(s: State, of: Id, due: (nat, Bucket) -> bool, id: Id)
    requires StateOk(s)
    ensures var s' := FlushHome(s, of, due);
      StateOk(s') && Moved(s, s', due, id) && s'.enabled == s.enabled
  {
    hide StateOk, Moved, FlushWhile;
    if of.thread in s.tables {
      FlushLocalMoves(s, of.thread, due, id);
    } else {
      FlushGlobalMoves(s, due, id);
    }
  }

  /** A reallocation, once the table was flushed. */
  lemma ReallocKeeps(s1: State, e: Event, h: seq<Event>, id: Id)
    requires StateOk(s1) && e.Realloc? && s1.enabled
    requires Whole(s1, h, id) && (id == e.id ==> Address(h) == Some(e.oldPointer))
    ensures StateOk(Reallocated(s1, e)) && Whole(Reallocated(s1, e), if id == e.id then h + [e] else h, id)
  {
    hide ChannelOk, Outgoing, Chain;
    var t := Home(s1, e.id);
    if e.id in t.values {
      var b := t.values[e.id];
      var t' := t.(values := t.values[e.id := b.(events := b.events + [Buffered(e.timestamp, e.body)])]);
      PendingSeen(s1, e.id);
      WithHomeOk(s1, e.id, t');
      if id == e.id {
        BucketGrows(b, e);
      } else {
        WithHomeElsewhere(s1, e.id, t', id, h);
      }
    } else {
      SendWhole(s1, Single(e), h, id);
    }
  }

  lemma ReallocationKeeps(s: State, e: Event, o: Options, h: seq<Event>, id: Id)
    requires StateOk(s) && e.Realloc?
    requires Whole(s, h, id) && (id == e.id ==> Address(h) == Some(e.oldPointer))
    ensures StateOk(OnReallocation(s, e, o)) && Whole(OnReallocation(s, e, o), if id == e.id then h + [e] else h, id)
  {
    hide StateOk, Whole, FlushHome, Moved, Reallocated, SendSingle;
    if s.enabled {
      FlushHomeMoves(s, e.id, Due(e.timestamp, o), id);
      var s1 := FlushHome(s, e.id, Due(e.timestamp, o));
      MovedWhole(s, s1, Due(e.timestamp, o), h, id);
      ReallocKeeps(s1, e, h, id);
    } else {
      SendDisabled(s, e, h, id);
    }
  }

  lemma SendDisabled(s: State, e: Event, h: seq<Event>, id: Id)
    requires StateOk(s) && !s.enabled && Whole(s, h, id)
    requires MessageId(Single(e)) == id ==> !Ended(h)
    ensures StateOk(SendSingle(s, e)) && Whole(SendSingle(s, e), if MessageId(Single(e)) == id then h + [e] else h, id)
  {
    hide ChannelOk, Outgoing;
    SendWhole(s, Single(e), h, id);
  }

  lemma ReleasedKeepsOther(s1: State, e: Event, o: Options, h: seq<Event>, id: Id)
    requires StateOk(s1) && e.Free? && s1.enabled && Whole(s1, h, id) && id != e.id
    ensures StateOk(Released(s1, e, o)) && Whole(Released(s1, e, o), h, id)
  {
    hide ChannelOk, Outgoing, Chain, Send;
    var t := Home(s1, e.id);
    if e.id in t.values {
      PendingSeen(s1, e.id);
      RemovedOk(t, e.id);
      WithHomeOk(s1, e.id, Removed(t, e.id));
      WithHomeElsewhere(s1, e.id, Removed(t, e.id), id, h);
      var s2 := WithHome(s1, e.id, Removed(t, e.id));
      SendWhole(s2, Batch(t.values[e.id]), h, id);
      SendWhole(s2.(channel := Send(s2.channel, Batch(t.values[e.id]))), Single(e), h, id);
    } else {
      SendWhole(s1, Single(e), h, id);
    }
  }

  lemma ReleasedKeepsOwn(s1: State, e: Event, o: Options, h: seq<Event>)
    requires StateOk(s1) && e.Free? && s1.enabled && Whole(s1, h, e.id) && Address(h).Some?
    ensures StateOk(Released(s1, e, o)) && Whole(Released(s1, e, o), h + [e], e.id)
    ensures !Pending(Released(s1, e, o), e.id)
    ensures Outgoing(Released(s1, e, o).channel, e.id) == []
      <==> Pending(s1, e.id) && !LongLived(Home(s1, e.id).values[e.id], e.timestamp, o)
  {
    hide ChannelOk, LocalOk, TableOk, Nothing, Outgoing, Chain, Send;
    var t, id := Home(s1, e.id), e.id;
    if id in t.values {
      var b := t.values[id];
      PendingSeen(s1, id);
      RemovedOk(t, id);
      WithHomeOk(s1, id, Removed(t, id));
      var s2 := WithHome(s1, id, Removed(t, id));
      SendOutgoing(s2.channel, Batch(b), id);
      SendOutgoing(Send(s2.channel, Batch(b)), Single(e), id);
      assert [] + EventsOf(Batch(b)) + [e] == h + [e];
    } else {
      SendOutgoing(s1.channel, Single(e), id);
    }
  }

  lemma FreeKeeps(s: State, e: Event, o: Options, h: seq<Event>, id: Id)
    requires StateOk(s) && e.Free?
    requires Whole(s, h, id) && (id == e.id ==> Address(h).Some?)
    ensures StateOk(OnFree(s, e, o)) && Whole(OnFree(s, e, o), if id == e.id then h + [e] else h, id)
  {
    hide StateOk, Whole, FlushHome, Moved, Released, SendSingle;
    if s.enabled {
      FlushHomeMoves(s, e.id, Due(e.timestamp, o), id);
      var s1 := FlushHome(s, e.id, Due(e.timestamp, o));
      MovedWhole(s, s1, Due(e.timestamp, o), h, id);
      if id == e.id {
        ReleasedKeepsOwn(s1, e, o, h);
      } else {
        ReleasedKeepsOther(s1, e, o, h, id);
      }
    } else {
      SendDisabled(s, e, h, id);
    }
  }

  lemma CreatedKeeps(s: State, thread: nat, h: seq<Event>, id: Id)
    requires StateOk(s) && thread !in s.seen && Whole(s, h, id)
    ensures StateOk(OnThreadCreated(s, thread)) && Whole(OnThreadCreated(s, thread), h, id)
  {
    hide ChannelOk, Outgoing;
  }

  /** Moving a table's allocations to another's back keeps them all, and nothing else. */
  lemma {:induction false} MoveAllFacts(from: Table, to: Table)
    requires TableOk(from) && TableOk(to) && from.values.Keys !! to.values.Keys
    ensures TableOk(MoveAll(from, to)) && MoveAll(from, to) == Table(to.order + from.order, to.values + from.values)
    decreases |from.order|
  {
    hide TableOk, Inserted, Popped;
    if from.order == [] {
      EmptyTable(from);
      assert to.values + from.values == to.values;
    } else {
      FrontKnown(from);
      var id := from.order[0];
      var b := from.values[id];
      MoveOne(from, to);
      MoveAllFacts(Popped(from), Inserted(to, id, b));
      assert to.order + [id] + from.order[1..] == to.order + from.order;
      MoveValue(from.values, to.values, id);
    }
  }

  lemma MoveValue(from: map<Id, Bucket>, to: map<Id, Bucket>, id: Id)
    requires id in from && id !in to
    ensures to[id := from[id]] + (from - {id}) == to + from
  {}

  lemma EmptyTable(t: Table)
    requires TableOk(t) && t.order == []
    ensures t.values == map[]
  {
    assert forall id :: id in t.values ==> id in t.order;
  }

  lemma FrontKnown(t: Table)
    requires TableOk(t) && t.order != []
    ensures t.order[0] in t.values
  {
    PoppedOk(t);
  }

  lemma MoveOne(from: Table, to: Table)
    requires TableOk(from) && TableOk(to) && from.values.Keys !! to.values.Keys && from.order != []
    ensures from.order[0] in from.values
    ensures var id := from.order[0];
      var from', to' := Popped(from), Inserted(to, id, from.values[id]);
      && TableOk(from') && TableOk(to') && from'.values.Keys !! to'.values.Keys
      && from' == Table(from.order[1..], from.values - {id})
      && to' == Table(to.order + [id], to.values[id := from.values[id]])
  {
    var id := from.order[0];
    PoppedOk(from);
    InsertedOk(to, id, from.values[id]);
  }

  lemma MergeKeeps(s: State, thread: nat, h: seq<Event>, id: Id)
    requires StateOk(s) && thread in s.tables && Whole(s, h, id)
    ensures var s' := s.(tables := s.tables - {thread}, global := MoveAll(s.tables[thread], s.global));
      StateOk(s') && Whole(s', h, id)
  {
    hide ChannelOk, Outgoing, TableOk;
    assert LocalOk(s.tables[thread], thread);
    MoveAllFacts(s.tables[thread], s.global);
  }

  lemma DestroyedKeeps(s: State, thread: nat, now: nat, o: Options, h: seq<Event>, id: Id)
    requires StateOk(s) && Whole(s, h, id)
    ensures StateOk(OnThreadDestroyed(s, thread, now, o)) && Whole(OnThreadDestroyed(s, thread, now, o), h, id)
  {
    hide StateOk, Whole, Moved, FlushWhile, MoveAll;
    if thread in s.tables {
      var s1 := FlushLocal(s, thread, Due(now, o));
      var s2 := FlushGlobal(s1, Due(now, o));
      FlushLocalMoves(s, thread, Due(now, o), id);
      FlushGlobalMoves(s1, Due(now, o), id);
      MovedWhole(s, s1, Due(now, o), h, id);
      MovedWhole(s1, s2, Due(now, o), h, id);
      MergeKeeps(s2, thread, h, id);
    }
  }

  lemma TickMoves(s: State, now: nat, order: seq<nat>, o: Options, id: Id)
    requires StateOk(s) && Lists(order, s.tables)
    ensures StateOk(OnTick(s, now, order, o)) && Moved(s, OnTick(s, now, order, o), Due(now, o), id)
  {
    hide StateOk, Moved, FlushWhile, FlushEach;
    var s1 := FlushGlobal(s, Due(now, o));
    FlushGlobalMoves(s, Due(now, o), id);
    FlushEachMoves(s1, order, |order|, Due(now, o), id);
    MovedTrans(s, s1, FlushEach(s1, order, |order|, Due(now, o)), Due(now, o), id);
  }

  lemma {:induction false} FlushAlways(f: Flushed)
    requires FlushOk(f)
    ensures FlushWhile(f, Always()).table.values == map[]
    decreases |f.table.order|
  {
    if f.table.order == [] {
      assert forall id :: id in f.table.values ==> id in f.table.order;
    } else {
      PoppedOk(f.table);
      PopSettles(f, Always(), UNTRACKED);
      FlushAlways(Flushed(Popped(f.table), Send(f.channel, Batch(f.table.values[f.table.order[0]]))));
    }
  }

  lemma {:induction false} FlushEachAlways(s: State, order: seq<nat>, n: nat)
    requires StateOk(s) && n <= |order| && forall i :: 0 <= i < |order| ==> order[i] in s.tables
    ensures var s' := FlushEach(s, order, n, Always());
      forall i :: 0 <= i < n ==> s'.tables[order[i]].values == map[]
  {
    hide StateOk, Moved, FlushLocal, FlushEach;
    if n > 0 {
      FlushEachStep(s, order, n - 1, Always());
      FlushEachAlways(s, order, n - 1);
      FlushEachMoves(s, order, n - 1, Always(), UNTRACKED);
      LocalEmptied(FlushEach(s, order, n - 1, Always()), order[n - 1]);
    }
  }

  lemma LocalEmptied(s: State, thread: nat)
    requires StateOk(s) && thread in s.tables
    ensures var s' := FlushLocal(s, thread, Always());
      s'.tables.Keys == s.tables.Keys && s'.tables[thread].values == map[] &&
      forall t :: t in s.tables && t != thread ==> s'.tables[t] == s.tables[t]
  {
    hide FlushWhile;
    FlushAlways(Flushed(s.tables[thread], s.channel));
  }

  lemma ExitKeeps(s: State, order: seq<nat>, h: seq<Event>, id: Id)
    requires StateOk(s) && Lists(order, s.tables) && Whole(s, h, id)
    ensures StateOk(OnExit(s, order)) && Whole(OnExit(s, order), h, id)
  {
    hide ChannelOk, Outgoing, TableOk, FlushWhile, FlushEach, Moved;
    var s1 := FlushEach(s, order, |order|, Always());
    var s2 := FlushGlobal(s1, Always());
    FlushEachMoves(s, order, |order|, Always(), id);
    FlushEachAlways(s, order, |order|);
    FlushGlobalMoves(s1, Always(), id);
    FlushAlways(Flushed(s1.global, s1.channel));
    MovedWhole(s, s1, Always(), h, id);
    MovedWhole(s1, s2, Always(), h, id);
    forall t | t in s2.tables ensures s2.tables[t].values == map[] {
      var i :| 0 <= i < |order| && order[i] == t;
    }
  }

  lemma TakenKeeps(s: State, i: nat, h: seq<Event>, id: Id)
    requires StateOk(s) && i < QUEUES && s.channel.buffers[i] == [] && Whole(s, h, id)
    ensures StateOk(s.(channel := Take(s.channel, i))) && Whole(s.(channel := Take(s.channel, i)), h, id)
  {
    hide Outgoing, ChannelOk, TableOk, Take;
    TakeOutgoing(s.channel, i, id);
  }

  lemma DrainedKeeps(s: State, h: seq<Event>, id: Id)
    requires StateOk(s) && Whole(s, h, id)
    ensures StateOk(s.(channel := Drain(s.channel))) && Whole(s.(channel := Drain(s.channel)), h, id)
  {
    hide Outgoing, ChannelOk, TableOk, Drain;
    DrainOutgoing(s.channel, id);
  }

  /** Every possible step keeps every allocation's history whole. */
  lemma StepKeeps(s: State, steps: seq<Step>, n: nat, o: Options, id: Id)
    requires n < |steps| && StateOk(s) && Possible(s, steps, n) && Whole(s, History(steps, n, id), id)
    ensures StateOk(Apply(s, steps, n, o)) && Whole(Apply(s, steps, n, o), History(steps, n + 1, id), id)
  {
    hide StateOk, Whole, OnAllocation, OnReallocation, OnFree, OnThreadCreated;
    hide OnThreadDestroyed, OnTick, OnExit, Take, Drain, Moved;
    var h := History(steps, n, id);
    assert h + [] == h;
    match steps[n]
    case Call(e, caller) =>
      if e.Alloc? {
        AllocationKeeps(s, e, o, h, id);
      } else if e.Realloc? {
        ReallocationKeeps(s, e, o, h, id);
      } else {
        FreeKeeps(s, e, o, h, id);
      }
    case Created(thread) => CreatedKeeps(s, thread, h, id);
    case Destroyed(thread, at) => DestroyedKeeps(s, thread, at, o, h, id);
    case Tick(at, order) =>
      TickMoves(s, at, order, o, id);
      MovedWhole(s, OnTick(s, at, order, o), Due(at, o), h, id);
    case Exit(order) => ExitKeeps(s, order, h, id);
    case Taken(queue) => TakenKeeps(s, queue, h, id);
    case Drained => DrainedKeeps(s, h, id);
  }

  /** Over every run. */
  lemma {:induction false} RunKeeps(steps: seq<Step>, n: nat, o: Options, id: Id)
    requires n <= |steps| && After(steps, n, o).Some?
    ensures StateOk(After(steps, n, o).value) && Whole(After(steps, n, o).value, History(steps, n, id), id)
  {
    hide Apply, Possible, StateOk, Whole;
    if n == 0 {
      StartKeeps(id);
    } else {
      RunKeeps(steps, n - 1, o, id);
      StepKeeps(After(steps, n - 1, o).value, steps, n - 1, o, id);
    }
  }

  lemma StartKeeps(id: Id)
    ensures StateOk(START) && Whole(START, [], id)
  {}

  /**
   Whatever was written for an allocation is the beginning of its history, in order; all that was sent is
   nothing or the whole history, and nothing only while it is pending or if it was freed.
   */
  lemma WrittenInOrder(steps: seq<Step>, n: nat, o: Options, id: Id)
    requires n <= |steps| && After(steps, n, o).Some?
    ensures var s, h := After(steps, n, o).value, History(steps, n, id);
      && StateOk(s)
      && About(s.channel.received, id) <= Outgoing(s.channel, id)
      && (Outgoing(s.channel, id) == h || (Outgoing(s.channel, id) == [] && (Pending(s, id) || Ended(h))))
  {
    RunKeeps(steps, n, o, id);
  }
}
