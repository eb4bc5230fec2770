/** The culling tracker itself: ordered maps per thread and one for dead threads, and the queues they are flushed to. */
module Tracker {
  import opened Basics
  import opened OrderedMaps
  import opened Trace
  import opened TrackerSpec
  import opened TrackerRuns

  /** The producers' side of the sharded queues. */
  class Sender {
    var queues: Shards

    constructor ()
      ensures queues == IDLE.queues
    {
      queues := [[], [], [], [], []];
    }

    /** Appends to the queue of the shard key; yields its new length. */
    method Send(key: nat, m: Message) returns (length: nat)
      modifies this
      ensures queues == old(queues)[QueueOf(key) := old(queues)[QueueOf(key)] + [m]]
      ensures length == |queues[QueueOf(key)]|
    {
      var index := if key / 4 % 2 == 1 then 4 else 0;
      length := |queues[index]| + 1;
      queues := queues[index := queues[index] + [m]];
    }
  }

  /** The consumer's side: its buffers, and what it handled. */
  class Receiver {
    var buffers: Shards
    var received: seq<Message>

    constructor ()
      ensures buffers == IDLE.buffers && received == []
    {
      buffers, received := [[], [], [], [], []], [];
    }

    /** Swaps one queue with its empty buffer. */
    method Take(sender: Sender, i: nat)
      requires i < QUEUES
      modifies this`buffers, sender
      ensures Channel(sender.queues, buffers, received)
        == TrackerSpec.Take(old(Channel(sender.queues, buffers, received)), i)
    {
      var queue := sender.queues[i];
      sender.queues := sender.queues[i := buffers[i]];
      buffers := buffers[i := queue];
    }

    /** Handles what is in the buffers, one after the other. */
    method Drain()
      modifies this
      ensures buffers == IDLE.buffers
      ensures received == old(received + buffers[0] + buffers[1] + buffers[2] + buffers[3] + buffers[4])
    {
      ghost var b := buffers;
      var i := 0;
      while i < QUEUES
        invariant i <= QUEUES
        invariant forall k :: 0 <= k < QUEUES ==> buffers[k] == if k < i then [] else b[k]
        invariant i == 0 ==> received == old(received)
        invariant i == 1 ==> received == old(received) + b[0]
        invariant i == 2 ==> received == old(received) + b[0] + b[1]
        invariant i == 3 ==> received == old(received) + b[0] + b[1] + b[2]
        invariant i == 4 ==> received == old(received) + b[0] + b[1] + b[2] + b[3]
        invariant i == 5 ==> received == old(received) + b[0] + b[1] + b[2] + b[3] + b[4]
      {
        received := received + buffers[i];
        buffers := buffers[i := []];
        i := i + 1;
      }
    }
  }

  /** Writes a bucket: its allocation, then its reallocations, each from where the one before left the block. */
  method EmitAllocationBucket(bucket: Bucket) returns (written: seq<Event>)
    ensures written == EventsOf(Batch(bucket))
  {
    if |bucket.events| == 0 {
      return [];
    }
    var first := bucket.events[0];
    var oldPointer := first.body.pointer;
    written := [Alloc(bucket.id, first.timestamp, first.body)];
    var n := 1;
    assert Chain(bucket.id, bucket.events, 1) ==
      Chain(bucket.id, bucket.events, 0) + [Written(bucket.id, bucket.events, 0)];
    while n < |bucket.events|
      invariant 0 < n <= |bucket.events| && oldPointer == bucket.events[n - 1].body.pointer
      invariant written == Chain(bucket.id, bucket.events, n)
    {
      var next := bucket.events[n];
      written := written + [Realloc(bucket.id, next.timestamp, oldPointer, next.body)];
      oldPointer := next.body.pointer;
      n := n + 1;
    }
  }

  ghost function TableOf(m: OrderedMap<Id, Bucket>): Table
    reads m
  {
    Table(m.order, m.Values())
  }

  /** The front bucket decides how flushing goes on. */
  lemma FlushOnce(f: Flushed, due: (nat, Bucket) -> bool)
    requires TableOk(f.table)
    ensures f.table.order == [] ==> FlushWhile(f, due) == f
    ensures var t := f.table;
      t.order != [] ==>
        var front := t.order[0];
        && front in t.values && front in t.order
        && TableOk(Removed(t, front)) && Removed(t, front).order == t.order[1..]
        && FlushWhile(f, due) == if due(|t.order|, t.values[front])
             then FlushWhile(Flushed(Table(Without(t.order, front), t.values - {front}),
               Send(f.channel, Batch(t.values[front]))), due)
             else f
  {
    if f.table.order != [] {
      PoppedOk(f.table);
    }
  }

  /** Sending several buckets. */
  function SendAll(c: Channel, buckets: seq<Bucket>, n: nat): Channel
    requires n <= |buckets|
  {
    if n == 0 then c else Send(SendAll(c, buckets, n - 1), Batch(buckets[n - 1]))
  }

  lemma {:induction false} SendAllPrefix(c: Channel, buckets: seq<Bucket>, b: Bucket, n: nat)
    requires n <= |buckets|
    ensures SendAll(c, buckets + [b], n) == SendAll(c, buckets, n)
  {
    if n > 0 {
      SendAllPrefix(c, buckets, b, n - 1);
    }
  }

  lemma SendOneMore(c: Channel, buckets: seq<Bucket>, b: Bucket)
    ensures SendAll(c, buckets + [b], |buckets| + 1) == Send(SendAll(c, buckets, |buckets|), Batch(b))
  {
    SendAllPrefix(c, buckets, b, |buckets|);
  }

  /** Takes all buckets out of a table, oldest first. */
  method Collect(m: OrderedMap<Id, Bucket>, buckets: seq<Bucket>, ghost c: Channel) returns (all: seq<Bucket>)
    requires m.Valid() && TableOk(TableOf(m))
    modifies m
    ensures m.Valid()
    ensures FlushWhile(Flushed(old(TableOf(m)), SendAll(c, buckets, |buckets|)), Always())
      == Flushed(TableOf(m), SendAll(c, all, |all|))
  {
    hide TableOk, Send;
    all := buckets;
    var front := Some((UNTRACKED, Bucket(UNTRACKED, [])));
    while front.Some?
      invariant m.Valid() && TableOk(TableOf(m))
      invariant FlushWhile(Flushed(old(TableOf(m)), SendAll(c, buckets, |buckets|)), Always())
        == FlushWhile(Flushed(TableOf(m), SendAll(c, all, |all|)), Always())
      invariant front == None ==> m.order == []
      decreases |m.order|, front.Some?
    {
      ghost var t := TableOf(m);
      if t.order != [] {
        PoppedOk(t);
      }
      front := m.PopFront();
      if front.Some? {
        SendOneMore(c, all, front.value.1);
        all := all + [front.value.1];
      }
    }
  }

  class AllocationTracker {
    const options: Options
    var enabled: bool
    var perThread: map<nat, OrderedMap<Id, Bucket>>
    const global: OrderedMap<Id, Bucket>
    const sender: Sender
    const receiver: Receiver

    /** The thread numbers handed out so far. */
    ghost var seen: set<nat>

    ghost predicate Valid()
      reads this, perThread.Values, global
    {
      && global.Valid()
      && (forall t :: t in perThread ==> perThread[t].Valid() && perThread[t] != global)
      && (forall t, u :: t in perThread && u in perThread && t != u ==> perThread[t] != perThread[u])
    }

    ghost function Tables(): map<nat, Table>
      reads this, perThread.Values
    {
      map t | t in perThread :: TableOf(perThread[t])
    }

    ghost function Wire(): Channel
      reads sender, receiver
    {
      Channel(sender.queues, receiver.buffers, receiver.received)
    }

    ghost function View(): State
      reads this, perThread.Values, global, sender, receiver
    {
      State(Tables(), TableOf(global), Wire(), enabled, seen)
    }

    constructor (options: Options)
      ensures Valid() && View() == START && this.options == options && fresh(global) && fresh(sender) && fresh(receiver)
      ensures perThread == map[]
    {
      this.options := options;
      enabled, perThread, seen := true, map[], {};
      global := new OrderedMap();
      sender := new Sender();
      receiver := new Receiver();
      new;
      assert Tables() == map[];
    }

    method SendMessage(m: Message)
      modifies sender
      ensures Wire() == Send(old(Wire()), m)
    {
      var _ := sender.Send(MessageId(m).thread, m);
    }

    /** Sends buckets from the front of a table while there are too many of them or they lived long enough. */
    method FlushPending(m: OrderedMap<Id, Bucket>, now: nat)
      requires m.Valid() && TableOk(TableOf(m))
      modifies m, sender
      ensures m.Valid()
      ensures Flushed(TableOf(m), Wire()) == FlushWhile(old(Flushed(TableOf(m), Wire())), Due(now, options))
    {
      hide TableOk, Send, FlushWhile;
      var more := true;
      while more
        invariant m.Valid() && TableOk(TableOf(m))
        invariant FlushWhile(Flushed(TableOf(m), Wire()), Due(now, options))
          == FlushWhile(old(Flushed(TableOf(m), Wire())), Due(now, options))
        invariant !more ==> FlushWhile(Flushed(TableOf(m), Wire()), Due(now, options)) == Flushed(TableOf(m), Wire())
        decreases |m.order|, more
      {
        more := FlushFront(m, now);
      }
    }

    /** One round of that. */
    method FlushFront(m: OrderedMap<Id, Bucket>, now: nat) returns (more: bool)
      requires m.Valid() && TableOk(TableOf(m))
      modifies m, sender
      ensures m.Valid() && TableOk(TableOf(m))
      ensures FlushWhile(Flushed(TableOf(m), Wire()), Due(now, options))
        == FlushWhile(old(Flushed(TableOf(m), Wire())), Due(now, options))
      ensures !more ==> m.order == old(m.order)
      ensures if more then |m.order| < |old(m.order)|
        else FlushWhile(Flushed(TableOf(m), Wire()), Due(now, options)) == Flushed(TableOf(m), Wire())
    {
      hide TableOk, Send, FlushWhile;
      ghost var t := TableOf(m);
      var front := m.FrontKey();
      FlushOnce(Flushed(t, Wire()), Due(now, options));
      if front.None? {
        return false;
      }
      var count := m.Len();
      var bucket := m.Get(front.value);
      more := (options.limit.Some? && count > options.limit.value) || LongLived(bucket.value, now, options);
      if more {
        var taken := m.Remove(front.value);
        SendMessage(Batch(taken.value));
      }
    }

    /** Only one thread's table changed. */
    twostate lemma OneTable(thread: nat)
      requires old(Valid()) && thread in perThread && perThread == old(perThread)
      requires forall t :: t in perThread && t != thread ==> unchanged(perThread[t])
      ensures Tables() == old(Tables())[thread := TableOf(perThread[thread])]
    {
      hide OrderedMap.Valid, OrderedMap.Values;
    }

    /** One thread's table was added. */
    twostate lemma TableAdded(thread: nat)
      requires old(Valid()) && thread in perThread && perThread == old(perThread)[thread := perThread[thread]]
      requires forall t :: t in old(perThread) ==> unchanged(old(perThread)[t])
      requires unchanged(global) && fresh(perThread[thread]) && perThread[thread].Valid()
      ensures Valid() && Tables() == old(Tables())[thread := TableOf(perThread[thread])]
    {
      hide OrderedMap.Valid, OrderedMap.Values;
    }

    /** The table an allocation is looked for in. */
    method TableFor(id: Id) returns (m: OrderedMap<Id, Bucket>)
      requires Valid()
      ensures m == (if id.thread in perThread then perThread[id.thread] else global)
    {
      m := if id.thread in perThread then perThread[id.thread] else global;
    }

    /** That table changed, and the queues. */
    twostate lemma HomeChanged(id: Id)
      requires old(Valid()) && perThread == old(perThread) && enabled == old(enabled) && seen == old(seen)
      requires forall t :: t in perThread && t != id.thread ==> unchanged(perThread[t])
      requires id.thread in perThread ==> unchanged(global)
      requires Valid()
      ensures var m := if id.thread in perThread then perThread[id.thread] else global;
        View() == WithHome(old(View()), id, TableOf(m)).(channel := Wire())
    {
      hide OrderedMap.Valid, OrderedMap.Values;
      if id.thread in perThread {
        OneTable(id.thread);
      } else {
        assert Tables() == old(Tables());
      }
    }

    /** Flushes the table an allocation is looked for in. */
    method FlushHome(id: Id, now: nat)
      requires Valid() && StateOk(View())
      modifies perThread.Values, global, sender
      ensures Valid() && View() == TrackerRuns.FlushHome(old(View()), id, Due(now, options))
    {
      hide StateOk, FlushWhile, Send, OrderedMap.Valid, OrderedMap.Values;
      ghost var s := View();
      HomeTableOk(s, id);
      var m := TableFor(id);
      FlushPending(m, now);
      HomeChanged(id);
    }

    /** Inserts a bucket for an allocation of a live thread. */
    method InsertBucket(id: Id, bucket: Bucket)
      requires Valid() && StateOk(View()) && id.thread in perThread && bucket.id == id && bucket.events != []
      modifies perThread.Values
      ensures Valid() && View() == WithHome(old(View()), id, Inserted(Home(old(View()), id), id, bucket))
    {
      hide StateOk, OrderedMap.Valid, OrderedMap.Values;
      var m := perThread[id.thread];
      var _ := m.Insert(id, bucket);
      HomeChanged(id);
    }

    method OnAllocation(e: Event)
      requires Valid() && StateOk(View()) && e.Alloc? && (enabled ==> e.id.thread in perThread)
      modifies perThread.Values, global, sender
      ensures Valid() && View() == TrackerRuns.OnAllocation(old(View()), e, options)
    {
      hide StateOk, FlushLocal, Send, Inserted, WithHome;
      ghost var s := View();
      if enabled {
        var bucket := Bucket(e.id, [Buffered(e.timestamp, e.body)]);
        InsertBucket(e.id, bucket);
        InsertedStateOk(s, e.id, bucket);
        FlushHome(e.id, e.timestamp);
      } else {
        SendEvent(e);
      }
    }

    /** One more event for a pending allocation. */
    method AppendTo(id: Id, b: Buffered) returns (found: bool)
      requires Valid() && StateOk(View())
      modifies perThread.Values, global
      ensures Valid() && found == (id in Home(old(View()), id).values)
      ensures View() == WithHome(old(View()), id, Extended(Home(old(View()), id), id, b))
    {
      hide StateOk, TableOk, OrderedMap.Valid, OrderedMap.Values;
      HomeTableOk(View(), id);
      var m := TableFor(id);
      InOrder(TableOf(m), id);
      found := ExtendBucket(m, id, b);
      HomeChanged(id);
    }

    /** Takes a pending allocation out of its table. */
    method TakeBucket(id: Id) returns (bucket: Option<Bucket>)
      requires Valid() && StateOk(View())
      modifies perThread.Values, global
      ensures Valid() && View() == WithHome(old(View()), id, Removed(Home(old(View()), id), id))
      ensures var t := Home(old(View()), id); bucket == if id in t.values then Some(t.values[id]) else None
    {
      hide StateOk, TableOk, OrderedMap.Valid, OrderedMap.Values;
      HomeTableOk(View(), id);
      var m := TableFor(id);
      InOrder(TableOf(m), id);
      bucket := m.Remove(id);
      HomeChanged(id);
    }

    method SendEvent(e: Event)
      requires Valid()
      modifies sender
      ensures Valid() && View() == SendSingle(old(View()), e)
    {
      SendMessage(Single(e));
      SameTables();
    }

    method OnReallocation(e: Event)
      requires Valid() && StateOk(View()) && e.Realloc?
      modifies perThread.Values, global, sender
      ensures Valid() && View() == TrackerRuns.OnReallocation(old(View()), e, options)
    {
      hide StateOk, TrackerRuns.FlushHome, Send, WithHome, Moved, Home;
      ghost var s := View();
      if enabled {
        FlushHome(e.id, e.timestamp);
        FlushHomeMoves(s, e.id, Due(e.timestamp, options), e.id);
        SameHome(View(), e.id);
        var found := AppendTo(e.id, Buffered(e.timestamp, e.body));
        if !found {
          SendEvent(e);
        }
      } else {
        SendEvent(e);
      }
    }

    method OnFree(e: Event)
      requires Valid() && StateOk(View()) && e.Free?
      modifies perThread.Values, global, sender
      ensures Valid() && View() == TrackerRuns.OnFree(old(View()), e, options)
    {
      hide StateOk, TrackerRuns.FlushHome, Send, WithHome, Moved, Home, Removed;
      ghost var s := View();
      if enabled {
        FlushHome(e.id, e.timestamp);
        FlushHomeMoves(s, e.id, Due(e.timestamp, options), e.id);
        NotThere(View(), e.id);
        var bucket := TakeBucket(e.id);
        if bucket.Some? {
          if LongLived(bucket.value, e.timestamp, options) {
            SendBucket(bucket.value);
          } else {
            return;
          }
        }
      }
      SendEvent(e);
    }

    method SendBucket(b: Bucket)
      requires Valid()
      modifies sender
      ensures Valid() && View() == old(View()).(channel := Send(old(View()).channel, Batch(b)))
    {
      SendMessage(Batch(b));
      SameTables();
    }

    method OnThreadCreated(thread: nat)
      requires Valid() && thread !in seen && StateOk(View())
      modifies this`perThread, this`seen
      ensures Valid() && View() == TrackerRuns.OnThreadCreated(old(View()), thread)
      ensures fresh(perThread.Values - old(perThread.Values))
    {
      hide StateOk, OrderedMap.Valid, OrderedMap.Values, Valid;
      var m := new OrderedMap<Id, Bucket>();
      perThread := perThread[thread := m];
      seen := seen + {thread};
      TableAdded(thread);
    }

    /** A dead thread's pending allocations are flushed, and what remains moves to the global table. */
    method OnThreadDestroyed(thread: nat, now: nat)
      requires Valid() && StateOk(View())
      modifies this`perThread, perThread.Values, global, sender
      ensures Valid() && View() == TrackerRuns.OnThreadDestroyed(old(View()), thread, now, options)
      ensures perThread.Values <= old(perThread.Values)
    {
      hide StateOk, FlushWhile, Moved;
      ghost var s := View();
      if thread in perThread {
        FlushThread(thread, now);
        FlushLocalMoves(s, thread, Due(now, options), UNTRACKED);
        ghost var s1 := View();
        FlushOfGlobal(now);
        FlushGlobalMoves(s1, Due(now, options), UNTRACKED);
        Retire(thread);
      }
    }

    method FlushThread(thread: nat, now: nat)
      requires Valid() && StateOk(View()) && thread in perThread
      modifies perThread.Values, sender
      ensures Valid() && View() == FlushLocal(old(View()), thread, Due(now, options))
    {
      hide StateOk, FlushWhile, Send, OrderedMap.Valid, OrderedMap.Values;
      HomeTableOk(View(), Id(thread, 0));
      FlushPending(perThread[thread], now);
      HomeChanged(Id(thread, 0));
    }

    method FlushOfGlobal(now: nat)
      requires Valid() && StateOk(View())
      modifies global, sender
      ensures Valid() && View() == FlushGlobal(old(View()), Due(now, options))
    {
      hide FlushWhile, Send, TableOk, OrderedMap.Valid, OrderedMap.Values;
      FlushPending(global, now);
      assert Tables() == old(Tables());
    }

    /** Moves a thread's table to the back of the global one. */
    method Retire(thread: nat)
      requires Valid() && StateOk(View()) && thread in perThread
      modifies this`perThread, perThread.Values, global
      ensures Valid() && perThread == old(perThread) - {thread}
      ensures View() == old(View()).(tables := old(View()).tables - {thread},
        global := MoveAll(old(View()).tables[thread], old(View()).global))
    {
      hide StateOk, MoveAll, OrderedMap.Valid, OrderedMap.Values;
      var m := perThread[thread];
      HomeTableOk(View(), Id(thread, 0));
      perThread := perThread - {thread};
      MoveBuckets(m, global);
      assert Tables() == old(Tables()) - {thread};
    }

    /** Flushes every table; `order` is the order in which the threads are visited. */
    method OnTick(now: nat, order: seq<nat>)
      requires Valid() && StateOk(View()) && Lists(order, View().tables)
      modifies perThread.Values, global, sender
      ensures Valid() && View() == TrackerRuns.OnTick(old(View()), now, order, options)
    {
      hide StateOk, FlushLocal, FlushWhile, FlushEach, Moved, OrderedMap.Valid, OrderedMap.Values, Valid;
      FlushOfGlobal(now);
      FlushGlobalMoves(old(View()), Due(now, options), UNTRACKED);
      ghost var s1 := View();
      FlushEachNone(s1, order, Due(now, options));
      var n := 0;
      while n < |order|
        invariant n <= |order| && Valid() && View() == FlushEach(s1, order, n, Due(now, options))
      {
        FlushEachStep(s1, order, n, Due(now, options));
        FlushEachMoves(s1, order, n, Due(now, options), UNTRACKED);
        FlushThread(order[n], now);
        n := n + 1;
      }
    }

    /** Collects one thread's buckets. */
    method CollectThread(thread: nat, buckets: seq<Bucket>, ghost s: State) returns (all: seq<Bucket>)
      requires Valid() && thread in perThread && StateOk(s)
      requires s == View().(channel := s.channel) && s.channel == SendAll(Wire(), buckets, |buckets|)
      modifies perThread.Values
      ensures Valid() && View().(channel := SendAll(Wire(), all, |all|)) == FlushLocal(s, thread, Always())
    {
      hide StateOk, FlushWhile, Send, SendAll, OrderedMap.Valid, OrderedMap.Values;
      HomeTableOk(s, Id(thread, 0));
      all := Collect(perThread[thread], buckets, Wire());
      HomeChanged(Id(thread, 0));
    }

    /** Collects all threads' buckets. */
    method CollectThreads(order: seq<nat>) returns (buckets: seq<Bucket>)
      requires Valid() && StateOk(View()) && Lists(order, View().tables)
      modifies perThread.Values
      ensures Valid() &&
        View().(channel := SendAll(Wire(), buckets, |buckets|)) == FlushEach(old(View()), order, |order|, Always())
    {
      hide StateOk, FlushLocal, FlushWhile, FlushEach, Moved, Send, SendAll;
      hide OrderedMap.Valid, OrderedMap.Values, Valid;
      ghost var s := View();
      buckets := [];
      var n := 0;
      SendNone(Wire());
      FlushEachNone(s, order, Always());
      while n < |order|
        invariant n <= |order| && Valid()
        invariant View().(channel := SendAll(Wire(), buckets, |buckets|)) == FlushEach(s, order, n, Always())
      {
        FlushEachMoves(s, order, n, Always(), UNTRACKED);
        FlushEachStep(s, order, n, Always());
        buckets := CollectThread(order[n], buckets, FlushEach(s, order, n, Always()));
        n := n + 1;
      }
    }

    /** At exit all tables are emptied, and what was in them is sent. */
    method OnExit(order: seq<nat>)
      requires Valid() && StateOk(View()) && Lists(order, View().tables)
      modifies this`enabled, this`perThread, perThread.Values, global, sender
      ensures Valid() && View() == TrackerRuns.OnExit(old(View()), order) && perThread == map[]
    {
      hide StateOk, FlushEach, FlushWhile, Moved, Send, SendAll, OrderedMap.Valid, OrderedMap.Values, Valid;
      ghost var s := View();
      var buckets := CollectThreads(order);
      FlushEachMoves(s, order, |order|, Always(), UNTRACKED);
      CollectGlobalAndSend(buckets, FlushEach(s, order, |order|, Always()));
    }

    method CollectGlobalAndSend(buckets: seq<Bucket>, ghost s: State)
      requires Valid() && StateOk(s)
      requires s == View().(channel := s.channel) && s.channel == SendAll(Wire(), buckets, |buckets|)
      modifies this`enabled, this`perThread, global, sender
      ensures Valid() && View() == FlushGlobal(s, Always()).(tables := map[], enabled := false) && perThread == map[]
    {
      hide StateOk, FlushWhile, Send, OrderedMap.Valid, OrderedMap.Values;
      ghost var c := Wire();
      HomeTableGlobal(s);
      var all := Collect(global, buckets, c);
      enabled := false;
      perThread := map[];
      var n := 0;
      while n < |all|
        modifies sender
        invariant n <= |all| && Wire() == SendAll(c, all, n)
      {
        SendMessage(Batch(all[n]));
        n := n + 1;
      }
      assert Tables() == map[];
    }

    method OnTake(i: nat)
      requires Valid() && i < QUEUES
      modifies sender, receiver
      ensures Valid() && View() == old(View()).(channel := Take(old(View()).channel, i))
    {
      receiver.Take(sender, i);
      SameTables();
    }

    method OnDrain()
      requires Valid()
      modifies receiver
      ensures Valid() && View() == old(View()).(channel := Drain(old(View()).channel))
    {
      receiver.Drain();
      SameTables();
    }

    /** One step of a run. */
    method Perform(steps: seq<Step>, n: nat)
      requires n < |steps| && Valid() && StateOk(View()) && Possible(View(), steps, n)
      modifies this, perThread.Values, global, sender, receiver
      ensures Valid() && View() == Apply(old(View()), steps, n, options)
      ensures fresh(perThread.Values - old(perThread.Values))
    {
      hide StateOk, TrackerRuns.OnAllocation, TrackerRuns.OnReallocation, TrackerRuns.OnFree;
      hide TrackerRuns.OnThreadCreated, TrackerRuns.OnThreadDestroyed, TrackerRuns.OnTick, TrackerRuns.OnExit;
      hide Take, Drain, Valid;
      match steps[n] {
        case Call(e, _) =>
          if e.Alloc? {
            OnAllocation(e);
          } else if e.Realloc? {
            OnReallocation(e);
          } else {
            OnFree(e);
          }
        case Created(thread) => OnThreadCreated(thread);
        case Destroyed(thread, at) => OnThreadDestroyed(thread, at);
        case Tick(at, order) => OnTick(at, order);
        case Exit(order) => OnExit(order);
        case Taken(queue) => OnTake(queue);
        case Drained => OnDrain();
      }
    }

    /** No table changed. */
    twostate lemma SameTables()
      requires perThread == old(perThread) && forall t :: t in perThread ==> unchanged(perThread[t])
      requires unchanged(global) && old(Valid())
      ensures Valid() && Tables() == old(Tables())
    {}
  }

  lemma InOrder(t: Table, id: Id)
    requires TableOk(t)
    ensures id in t.order <==> id in t.values
  {}

  function Extended(t: Table, id: Id, b: Buffered): Table {
    if id in t.values then t.(values := t.values[id := t.values[id].(events := t.values[id].events + [b])]) else t
  }

  lemma SameHome(s: State, id: Id)
    ensures WithHome(s, id, Home(s, id)) == s
  {
    if id.thread in s.tables {
      assert s.tables[id.thread := s.tables[id.thread]] == s.tables;
    }
  }

  /** Removing an allocation that is not in its table changes nothing. */
  lemma NotThere(s: State, id: Id)
    requires StateOk(s)
    ensures id !in Home(s, id).values ==> WithHome(s, id, Removed(Home(s, id), id)) == s
  {
    HomeTableOk(s, id);
    SameHome(s, id);
    if id !in Home(s, id).values {
      assert Home(s, id).values - {id} == Home(s, id).values;
    }
  }

  /** Pops every bucket of one table and inserts it in the other. */
  method MoveBuckets(from: OrderedMap<Id, Bucket>, to: OrderedMap<Id, Bucket>)
    requires from.Valid() && to.Valid() && from != to && TableOk(TableOf(from))
    modifies from, to
    ensures to.Valid() && TableOf(to) == MoveAll(old(TableOf(from)), old(TableOf(to)))
  {
    hide TableOk;
    var more := true;
    while more
      invariant from.Valid() && to.Valid() && TableOk(TableOf(from))
      invariant MoveAll(TableOf(from), TableOf(to)) == MoveAll(old(TableOf(from)), old(TableOf(to)))
      invariant !more ==> from.order == []
      decreases |from.order|, more
    {
      if from.order != [] {
        PoppedOk(TableOf(from));
      }
      var front := from.PopFront();
      more := front.Some?;
      if more {
        var _ := to.Insert(front.value.0, front.value.1);
      }
    }
  }

  /** A whole run: what the consumer handled of an allocation is the beginning of its history. */
  method Run(steps: seq<Step>, options: Options) returns (tracker: AllocationTracker)
    requires After(steps, |steps|, options).Some?
    ensures fresh(tracker) && tracker.Valid() && tracker.View() == After(steps, |steps|, options).value
    ensures forall id :: About(tracker.receiver.received, id) <= History(steps, |steps|, id)
  {
    hide StateOk, Apply, Possible, Whole, History, About, AllocationTracker.Valid;
    tracker := new AllocationTracker(options);
    var n := 0;
    AfterPrefix(steps, |steps|, 0, options);
    while n < |steps|
      invariant n <= |steps| && tracker.options == options && tracker.Valid() && fresh(tracker.perThread.Values)
      invariant After(steps, n, options) == Some(tracker.View())
      invariant fresh(tracker) && fresh(tracker.global) && fresh(tracker.sender) && fresh(tracker.receiver)
    {
      AfterPrefix(steps, |steps|, n + 1, options);
      RunKeeps(steps, n, options, UNTRACKED);
      tracker.Perform(steps, n);
      n := n + 1;
    }
    forall id ensures About(tracker.receiver.received, id) <= History(steps, |steps|, id) {
      WrittenInOrder(steps, |steps|, options, id);
    }
  }

  lemma {:induction false} AfterPrefix(steps: seq<Step>, n: nat, k: nat, o: Options)
    requires k <= n <= |steps| && After(steps, n, o).Some?
    ensures After(steps, k, o).Some?
    decreases n
  {
    if k < n {
      AfterPrefix(steps, n - 1, k, o);
    }
  }

  lemma SendNone(c: Channel)
    ensures SendAll(c, [], 0) == c
  {}

  lemma HomeTableGlobal(s: State)
    requires StateOk(s)
    ensures TableOk(s.global)
  {}

  method ExtendBucket(m: OrderedMap<Id, Bucket>, id: Id, b: Buffered) returns (found: bool)
    requires m.Valid() && (id in m.order <==> id in m.Values())
    modifies m
    ensures m.Valid() && found == (id in old(m.Values())) && TableOf(m) == Extended(old(TableOf(m)), id, b)
  {
    var bucket := m.Get(id);
    found := bucket.Some?;
    if found {
      m.Set(id, bucket.value.(events := bucket.value.events + [b]));
    }
  }

  lemma InsertedStateOk(s: State, id: Id, b: Bucket)
    requires StateOk(s) && s.enabled && id.thread in s.tables && b.id == id && b.events != []
    ensures var s' := WithHome(s, id, Inserted(Home(s, id), id, b));
      StateOk(s') && id.thread in s'.tables
  {
    InsertedOk(Home(s, id), id, b);
    WithHomeOk(s, id, Inserted(Home(s, id), id, b));
  }

  lemma HomeTableOk(s: State, id: Id)
    requires StateOk(s)
    ensures TableOk(Home(s, id))
  {
    if id.thread in s.tables {
      assert LocalOk(s.tables[id.thread], id.thread);
    }
  }
}
