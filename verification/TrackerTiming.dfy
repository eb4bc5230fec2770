/** Which allocations are culled: without a limit on pending ones, exactly those that did not live long enough. */
module TrackerTiming {
  import opened Basics
  import opened Trace
  import opened TrackerSpec
  import opened TrackerRuns

  /** When the allocation was made, and when it was freed. */
  function Start(h: seq<Event>): nat { if h != [] && h[0].Alloc? then h[0].timestamp else 0 }

  function End(h: seq<Event>): nat { if Ended(h) then h[|h| - 1].timestamp else 0 }

  /**
   An allocation is not sent before it lived long enough, and once freed, nothing of it was sent exactly if it
   did not.
   */
  ghost predicate Punctual(s: State, h: seq<Event>, id: Id, now: nat, o: Options)
    requires StateOk(s)
  {
    && (Outgoing(s.channel, id) != [] ==> Start(h) + o.threshold <= now)
    && (Ended(h) ==> (Outgoing(s.channel, id) == [] <==> End(h) < Start(h) + o.threshold))
  }

  lemma LaterPunctual(s: State, s': State, h: seq<Event>, id: Id, clock: nat, now: nat, o: Options)
    requires StateOk(s) && StateOk(s') && Punctual(s, h, id, clock, o) && clock <= now
    requires Outgoing(s'.channel, id) == Outgoing(s.channel, id)
    ensures Punctual(s', h, id, now, o)
  {
    hide Outgoing, StateOk;
  }

  /** What a pending allocation's history looks like. */
  lemma PendingHistory(s: State, h: seq<Event>, id: Id)
    requires StateOk(s) && Whole(s, h, id) && Pending(s, id)
    ensures var b := Home(s, id).values[id];
      b.events != [] && h == EventsOf(Batch(b)) && h != [] && Start(h) == b.events[0].timestamp && !Ended(h)
  {
    hide ChannelOk, Outgoing;
    PendingSeen(s, id);
    var b := Home(s, id).values[id];
    ChainShape(id, b.events, |b.events|);
  }

  lemma DueLivedLong(b: Bucket, now: nat, o: Options)
    requires WasDue(b, Due(now, o)) && o.limit.None?
    ensures LongLived(b, now, o)
  {
    var n: nat :| Due(now, o)(n, b);
  }

  lemma MovedPunctual(s: State, s': State, h: seq<Event>, id: Id, clock: nat, now: nat, o: Options)
    requires StateOk(s) && StateOk(s') && Moved(s, s', Due(now, o), id) && Whole(s, h, id) && Whole(s', h, id)
    requires Punctual(s, h, id, clock, o) && clock <= now && o.limit.None?
    ensures Punctual(s', h, id, now, o)
  {
    hide ChannelOk, TableOk, LocalOk, Nothing, Outgoing, Home;
    if Pending(s, id) {
      PendingHistory(s, h, id);
      if !Pending(s', id) {
        DueLivedLong(Home(s, id).values[id], now, o);
      }
    } else {
      assert Outgoing(s.channel, id) + [] == Outgoing(s.channel, id);
      assert Outgoing(s'.channel, id) + [] == Outgoing(s'.channel, id);
    }
  }

  // ----- Step by step

  lemma AllocationPunctual(s: State, e: Event, o: Options, h: seq<Event>, id: Id, clock: nat)
    requires StateOk(s) && e.Alloc? && s.enabled && e.id.thread in s.tables && clock <= e.timestamp && o.limit.None?
    requires Whole(s, h, id) && (id == e.id ==> h == []) && Punctual(s, h, id, clock, o)
    ensures StateOk(OnAllocation(s, e, o))
    ensures Punctual(OnAllocation(s, e, o), if id == e.id then h + [e] else h, id, e.timestamp, o)
  {
    hide StateOk, Whole, FlushWhile, Moved, Outgoing, Home, Inserted;
    var h' := if id == e.id then h + [e] else h;
    var s1 := WithHome(s, e.id, Inserted(Home(s, e.id), e.id, Bucket(e.id, [Buffered(e.timestamp, e.body)])));
    var s2 := FlushLocal(s1, e.id.thread, Due(e.timestamp, o));
    InsertKeeps(s, e, h, id);
    if id == e.id {
      NewIsNot(s, id);
    }
    SameChannel(s, s1, id);
    FlushLocalMoves(s1, e.id.thread, Due(e.timestamp, o), id);
    MovedWhole(s1, s2, Due(e.timestamp, o), h', id);
    MovedPunctual(s1, s2, h', id, clock, e.timestamp, o);
  }

  lemma SameChannel(s: State, s': State, id: Id)
    requires StateOk(s) && StateOk(s') && s'.channel == s.channel
    ensures Outgoing(s'.channel, id) == Outgoing(s.channel, id)
  {}

  lemma ReallocatedPunctual(s1: State, e: Event, h: seq<Event>, id: Id, now: nat, o: Options)
    requires StateOk(s1) && e.Realloc? && s1.enabled && StateOk(Reallocated(s1, e))
    requires Whole(s1, h, id) && Punctual(s1, h, id, now, o) && (id == e.id ==> Address(h) == Some(e.oldPointer))
    ensures Punctual(Reallocated(s1, e), if id == e.id then h + [e] else h, id, now, o)
  {
    hide ChannelOk, TableOk, LocalOk, Nothing, Outgoing, Send;
    SendOutgoing(s1.channel, Single(e), id);
    assert Outgoing(s1.channel, id) + [] == Outgoing(s1.channel, id);
  }

  lemma ReallocationPunctual(s: State, e: Event, o: Options, h: seq<Event>, id: Id, clock: nat)
    requires StateOk(s) && e.Realloc? && s.enabled && clock <= e.timestamp && o.limit.None?
    requires Whole(s, h, id) && (id == e.id ==> Address(h) == Some(e.oldPointer)) && Punctual(s, h, id, clock, o)
    ensures StateOk(OnReallocation(s, e, o))
    ensures Punctual(OnReallocation(s, e, o), if id == e.id then h + [e] else h, id, e.timestamp, o)
  {
    hide StateOk, Whole, FlushHome, Moved, Reallocated, Punctual;
    var s1 := FlushHome(s, e.id, Due(e.timestamp, o));
    FlushHomeMoves(s, e.id, Due(e.timestamp, o), id);
    MovedWhole(s, s1, Due(e.timestamp, o), h, id);
    MovedPunctual(s, s1, h, id, clock, e.timestamp, o);
    ReallocKeeps(s1, e, h, id);
    ReallocatedPunctual(s1, e, h, id, e.timestamp, o);
  }

  lemma ReleasedPunctualOther(s1: State, e: Event, h: seq<Event>, id: Id, now: nat, o: Options)
    requires StateOk(s1) && e.Free? && s1.enabled && StateOk(Released(s1, e, o)) && id != e.id
    requires Punctual(s1, h, id, now, o)
    ensures Punctual(Released(s1, e, o), h, id, now, o)
  {
    hide ChannelOk, TableOk, LocalOk, Nothing, Outgoing, Send, Removed;
    var t := Home(s1, e.id);
    assert Outgoing(s1.channel, id) + [] == Outgoing(s1.channel, id);
    if e.id in t.values {
      PendingSeen(s1, e.id);
      SendOutgoing(s1.channel, Batch(t.values[e.id]), id);
      SendOutgoing(Send(s1.channel, Batch(t.values[e.id])), Single(e), id);
    } else {
      SendOutgoing(s1.channel, Single(e), id);
    }
  }

  lemma ReleasedPunctualOwn(s1: State, e: Event, h: seq<Event>, o: Options)
    requires StateOk(s1) && e.Free? && s1.enabled && StateOk(Released(s1, e, o))
    requires Whole(s1, h, e.id) && Address(h).Some? && Punctual(s1, h, e.id, e.timestamp, o)
    ensures Punctual(Released(s1, e, o), h + [e], e.id, e.timestamp, o)
  {
    hide ChannelOk, TableOk, LocalOk, Nothing, Outgoing, Released;
    ReleasedKeepsOwn(s1, e, o, h);
    assert Start(h + [e]) == Start(h) && End(h + [e]) == e.timestamp;
    if Pending(s1, e.id) {
      PendingHistory(s1, h, e.id);
    }
  }

  lemma FreePunctual(s: State, e: Event, o: Options, h: seq<Event>, id: Id, clock: nat)
    requires StateOk(s) && e.Free? && s.enabled && clock <= e.timestamp && o.limit.None?
    requires Whole(s, h, id) && (id == e.id ==> Address(h).Some?) && Punctual(s, h, id, clock, o)
    ensures StateOk(OnFree(s, e, o)) && Punctual(OnFree(s, e, o), if id == e.id then h + [e] else h, id, e.timestamp, o)
  {
    hide StateOk, Whole, FlushHome, Moved, Released, Punctual;
    var s1 := FlushHome(s, e.id, Due(e.timestamp, o));
    FlushHomeMoves(s, e.id, Due(e.timestamp, o), id);
    MovedWhole(s, s1, Due(e.timestamp, o), h, id);
    MovedPunctual(s, s1, h, id, clock, e.timestamp, o);
    if id == e.id {
      ReleasedKeepsOwn(s1, e, o, h);
      ReleasedPunctualOwn(s1, e, h, o);
    } else {
      ReleasedKeepsOther(s1, e, o, h, id);
      ReleasedPunctualOther(s1, e, h, id, e.timestamp, o);
    }
  }

  lemma DestroyedPunctual(s: State, thread: nat, now: nat, o: Options, h: seq<Event>, id: Id, clock: nat)
    requires StateOk(s) && Whole(s, h, id) && Punctual(s, h, id, clock, o) && clock <= now && o.limit.None?
    ensures StateOk(OnThreadDestroyed(s, thread, now, o))
    ensures Punctual(OnThreadDestroyed(s, thread, now, o), h, id, now, o)
  {
    hide StateOk, Whole, Moved, FlushWhile, MoveAll, Punctual;
    if thread in s.tables {
      var s1 := FlushLocal(s, thread, Due(now, o));
      var s2 := FlushGlobal(s1, Due(now, o));
      FlushLocalMoves(s, thread, Due(now, o), id);
      FlushGlobalMoves(s1, Due(now, o), id);
      MovedTrans(s, s1, s2, Due(now, o), id);
      MovedWhole(s, s2, Due(now, o), h, id);
      MovedPunctual(s, s2, h, id, clock, now, o);
      MergeKeeps(s2, thread, h, id);
      SameChannel(s2, OnThreadDestroyed(s, thread, now, o), id);
      LaterPunctual(s2, OnThreadDestroyed(s, thread, now, o), h, id, now, now, o);
    } else {
      LaterPunctual(s, s, h, id, clock, now, o);
    }
  }

  lemma StepPunctual(s: State, steps: seq<Step>, n: nat, o: Options, id: Id)
    requires n < |steps| && StateOk(s) && Possible(s, steps, n) && Whole(s, History(steps, n, id), id)
    requires s.enabled && !steps[n].Exit? && o.limit.None? && Punctual(s, History(steps, n, id), id, Clock(steps, n), o)
    ensures var s' := Apply(s, steps, n, o);
      StateOk(s') && s'.enabled && Punctual(s', History(steps, n + 1, id), id, Clock(steps, n + 1), o)
  {
    hide StateOk, Whole, Punctual, OnThreadDestroyed, OnTick, Take;
    hide Drain, Moved, FlushWhile, FlushEach, Inserted, Removed;
    var h, clock := History(steps, n, id), Clock(steps, n);
    assert h + [] == h;
    StepKeeps(s, steps, n, o, id);
    StaysEnabled(s, steps, n, o);
    match steps[n]
    case Call(e, caller) =>
      if e.Alloc? {
        AllocationPunctual(s, e, o, h, id, clock);
      } else if e.Realloc? {
        ReallocationPunctual(s, e, o, h, id, clock);
      } else {
        FreePunctual(s, e, o, h, id, clock);
      }
    case Created(thread) =>
      SameChannel(s, OnThreadCreated(s, thread), id);
      LaterPunctual(s, OnThreadCreated(s, thread), h, id, clock, clock, o);
    case Destroyed(thread, at) => DestroyedPunctual(s, thread, at, o, h, id, clock);
    case Tick(at, order) =>
      TickMoves(s, at, order, o, id);
      MovedWhole(s, OnTick(s, at, order, o), Due(at, o), h, id);
      MovedPunctual(s, OnTick(s, at, order, o), h, id, clock, at, o);
    case Taken(queue) =>
      OkChannel(s);
      TakeOutgoing(s.channel, queue, id);
      LaterPunctual(s, s.(channel := Take(s.channel, queue)), h, id, clock, clock, o);
    case Drained =>
      OkChannel(s);
      DrainOutgoing(s.channel, id);
      LaterPunctual(s, s.(channel := Drain(s.channel)), h, id, clock, clock, o);
  }

  lemma OkChannel(s: State)
    requires StateOk(s)
    ensures ChannelOk(s.channel)
  {}

  lemma {:induction false} FlushEachEnabled(s: State, order: seq<nat>, n: nat, due: (nat, Bucket) -> bool)
    requires n <= |order| && forall i :: 0 <= i < |order| ==> order[i] in s.tables
    ensures FlushEach(s, order, n, due).enabled == s.enabled
  {
    hide FlushWhile;
    if n > 0 {
      FlushEachEnabled(s, order, n - 1, due);
    }
  }

  lemma StaysEnabled(s: State, steps: seq<Step>, n: nat, o: Options)
    requires n < |steps| && Possible(s, steps, n) && !steps[n].Exit?
    ensures Apply(s, steps, n, o).enabled == s.enabled
  {
    hide FlushWhile, FlushEach, MoveAll;
    match steps[n]
    case Tick(at, order) => FlushEachEnabled(FlushGlobal(s, Due(at, o)), order, |order|, Due(at, o));
    case _ =>
  }

  ghost predicate NoExit(steps: seq<Step>, n: nat)
    requires n <= |steps|
  {
    forall i :: 0 <= i < n ==> !steps[i].Exit?
  }

  lemma {:induction false} RunPunctual(steps: seq<Step>, n: nat, o: Options, id: Id)
    requires n <= |steps| && After(steps, n, o).Some? && NoExit(steps, n) && o.limit.None?
    ensures var s := After(steps, n, o).value;
      StateOk(s) && s.enabled && Punctual(s, History(steps, n, id), id, Clock(steps, n), o)
  {
    hide Apply, Possible, StateOk, Whole, Punctual;
    if n == 0 {
      StartPunctual(id, o);
    } else {
      RunPunctual(steps, n - 1, o, id);
      RunKeeps(steps, n - 1, o, id);
      StepPunctual(After(steps, n - 1, o).value, steps, n - 1, o, id);
    }
  }

  lemma StartPunctual(id: Id, o: Options)
    ensures StateOk(START) && Punctual(START, [], id, 0, o)
  {}

  /** Of a freed allocation everything is sent if it lived long enough, and nothing if it did not. */
  lemma CulledIffShortLived(steps: seq<Step>, n: nat, o: Options, id: Id)
    requires n <= |steps| && After(steps, n, o).Some? && NoExit(steps, n) && o.limit.None?
    requires Ended(History(steps, n, id))
    ensures var s, h := After(steps, n, o).value, History(steps, n, id);
      && StateOk(s)
      && Outgoing(s.channel, id) == if End(h) < Start(h) + o.threshold then [] else h
  {
    RunKeeps(steps, n, o, id);
    RunPunctual(steps, n, o, id);
    var s, h := After(steps, n, o).value, History(steps, n, id);
    if Pending(s, id) {
      PendingHistory(s, h, id);
    }
  }

  // ----- With a limit, and through exit

  /** A freed allocation of which nothing was sent did not live long enough. */
  ghost predicate NotLost(s: State, h: seq<Event>, id: Id, o: Options)
    requires StateOk(s)
  {
    Ended(h) && Outgoing(s.channel, id) == [] ==> End(h) < Start(h) + o.threshold
  }

  /** What was freed is settled: flushing does not concern it. */
  lemma MovedNotLost(s: State, s': State, due: (nat, Bucket) -> bool, h: seq<Event>, id: Id, o: Options)
    requires StateOk(s) && StateOk(s') && Moved(s, s', due, id) && Whole(s, h, id) && NotLost(s, h, id, o)
    ensures NotLost(s', h, id, o)
  {
    hide ChannelOk, TableOk, LocalOk, Nothing, Outgoing, Home;
    if Pending(s, id) {
      PendingHistory(s, h, id);
    } else {
      assert Outgoing(s.channel, id) + [] == Outgoing(s.channel, id);
      assert Outgoing(s'.channel, id) + [] == Outgoing(s'.channel, id);
    }
  }

  lemma SendNotLost(s: State, m: Message, h: seq<Event>, id: Id, o: Options)
    requires StateOk(s) && StateOk(s.(channel := Send(s.channel, m)))
    requires if MessageId(m) == id then EventsOf(m) != [] else NotLost(s, h, id, o)
    ensures NotLost(s.(channel := Send(s.channel, m)), if MessageId(m) == id then h + EventsOf(m) else h, id, o)
  {
    hide ChannelOk, TableOk, LocalOk, Nothing, Outgoing, Send;
    SendOutgoing(s.channel, m, id);
    assert Outgoing(s.channel, id) + [] == Outgoing(s.channel, id);
  }

  lemma AllocationNotLost(s: State, e: Event, o: Options, h: seq<Event>, id: Id)
    requires StateOk(s) && e.Alloc? && (s.enabled ==> e.id.thread in s.tables)
    requires Whole(s, h, id) && (id == e.id ==> h == []) && NotLost(s, h, id, o)
    ensures StateOk(OnAllocation(s, e, o)) && NotLost(OnAllocation(s, e, o), if id == e.id then h + [e] else h, id, o)
  {
    hide StateOk, Whole, FlushWhile, Moved, Outgoing, Home, Inserted;
    var h' := if id == e.id then h + [e] else h;
    AllocationKeeps(s, e, o, h, id);
    if s.enabled {
      var s1 := WithHome(s, e.id, Inserted(Home(s, e.id), e.id, Bucket(e.id, [Buffered(e.timestamp, e.body)])));
      InsertKeeps(s, e, h, id);
      SameChannel(s, s1, id);
      FlushLocalMoves(s1, e.id.thread, Due(e.timestamp, o), id);
      MovedNotLost(s1, FlushLocal(s1, e.id.thread, Due(e.timestamp, o)), Due(e.timestamp, o), h', id, o);
    } else {
      SendNotLost(s, Single(e), h, id, o);
    }
  }

  lemma ReallocatedNotLost(s1: State, e: Event, h: seq<Event>, id: Id, o: Options)
    requires StateOk(s1) && e.Realloc? && s1.enabled && StateOk(Reallocated(s1, e)) && NotLost(s1, h, id, o)
    ensures NotLost(Reallocated(s1, e), if id == e.id then h + [e] else h, id, o)
  {
    hide ChannelOk, TableOk, LocalOk, Nothing, Outgoing, Send;
    if e.id !in Home(s1, e.id).values {
      SendNotLost(s1, Single(e), h, id, o);
    }
  }

  lemma ReallocationNotLost(s: State, e: Event, o: Options, h: seq<Event>, id: Id)
    requires StateOk(s) && e.Realloc?
    requires Whole(s, h, id) && (id == e.id ==> Address(h) == Some(e.oldPointer)) && NotLost(s, h, id, o)
    ensures StateOk(OnReallocation(s, e, o))
    ensures NotLost(OnReallocation(s, e, o), if id == e.id then h + [e] else h, id, o)
  {
    hide StateOk, Whole, FlushHome, Moved, Reallocated, NotLost;
    ReallocationKeeps(s, e, o, h, id);
    if s.enabled {
      var s1 := FlushHome(s, e.id, Due(e.timestamp, o));
      FlushHomeMoves(s, e.id, Due(e.timestamp, o), id);
      MovedNotLost(s, s1, Due(e.timestamp, o), h, id, o);
      ReallocatedNotLost(s1, e, h, id, o);
    } else {
      SendNotLost(s, Single(e), h, id, o);
    }
  }

  lemma ReleasedNotLostOther(s1: State, e: Event, h: seq<Event>, id: Id, o: Options)
    requires StateOk(s1) && e.Free? && s1.enabled && StateOk(Released(s1, e, o)) && id != e.id && NotLost(s1, h, id, o)
    ensures NotLost(Released(s1, e, o), h, id, o)
  {
    hide ChannelOk, TableOk, LocalOk, Nothing, Outgoing, Send, Removed;
    var t := Home(s1, e.id);
    assert Outgoing(s1.channel, id) + [] == Outgoing(s1.channel, id);
    if e.id in t.values {
      PendingSeen(s1, e.id);
      SendOutgoing(s1.channel, Batch(t.values[e.id]), id);
      SendOutgoing(Send(s1.channel, Batch(t.values[e.id])), Single(e), id);
    } else {
      SendOutgoing(s1.channel, Single(e), id);
    }
  }

  lemma ReleasedNotLostOwn(s1: State, e: Event, h: seq<Event>, o: Options)
    requires StateOk(s1) && e.Free? && s1.enabled && StateOk(Released(s1, e, o)) && Whole(s1, h, e.id)
    requires Address(h).Some?
    ensures NotLost(Released(s1, e, o), h + [e], e.id, o)
  {
    hide ChannelOk, TableOk, LocalOk, Nothing, Outgoing, Released;
    ReleasedKeepsOwn(s1, e, o, h);
    assert Start(h + [e]) == Start(h) && End(h + [e]) == e.timestamp;
    if Pending(s1, e.id) {
      PendingHistory(s1, h, e.id);
    }
  }

  lemma FreeNotLost(s: State, e: Event, o: Options, h: seq<Event>, id: Id)
    requires StateOk(s) && e.Free?
    requires Whole(s, h, id) && (id == e.id ==> Address(h).Some?) && NotLost(s, h, id, o)
    ensures StateOk(OnFree(s, e, o)) && NotLost(OnFree(s, e, o), if id == e.id then h + [e] else h, id, o)
  {
    hide StateOk, Whole, FlushHome, Moved, Released, NotLost;
    FreeKeeps(s, e, o, h, id);
    if s.enabled {
      var s1 := FlushHome(s, e.id, Due(e.timestamp, o));
      FlushHomeMoves(s, e.id, Due(e.timestamp, o), id);
      MovedWhole(s, s1, Due(e.timestamp, o), h, id);
      MovedNotLost(s, s1, Due(e.timestamp, o), h, id, o);
      if id == e.id {
        ReleasedNotLostOwn(s1, e, h, o);
      } else {
        ReleasedNotLostOther(s1, e, h, id, o);
      }
    } else {
      SendNotLost(s, Single(e), h, id, o);
    }
  }

  lemma SameNotLost(s: State, s': State, h: seq<Event>, id: Id, o: Options)
    requires StateOk(s) && StateOk(s') && NotLost(s, h, id, o) && Outgoing(s'.channel, id) == Outgoing(s.channel, id)
    ensures NotLost(s', h, id, o)
  {
    hide StateOk, Outgoing;
  }

  lemma DestroyedNotLost(s: State, thread: nat, now: nat, o: Options, h: seq<Event>, id: Id)
    requires StateOk(s) && Whole(s, h, id) && NotLost(s, h, id, o)
    ensures StateOk(OnThreadDestroyed(s, thread, now, o)) && NotLost(OnThreadDestroyed(s, thread, now, o), h, id, o)
  {
    hide StateOk, Whole, Moved, FlushWhile, MoveAll, NotLost;
    if thread in s.tables {
      var s1 := FlushLocal(s, thread, Due(now, o));
      var s2 := FlushGlobal(s1, Due(now, o));
      FlushLocalMoves(s, thread, Due(now, o), id);
      FlushGlobalMoves(s1, Due(now, o), id);
      MovedTrans(s, s1, s2, Due(now, o), id);
      MovedWhole(s, s2, Due(now, o), h, id);
      MovedNotLost(s, s2, Due(now, o), h, id, o);
      MergeKeeps(s2, thread, h, id);
      SameChannel(s2, OnThreadDestroyed(s, thread, now, o), id);
      SameNotLost(s2, OnThreadDestroyed(s, thread, now, o), h, id, o);
    }
  }

  lemma ExitNotLost(s: State, order: seq<nat>, h: seq<Event>, id: Id, o: Options)
    requires StateOk(s) && Lists(order, s.tables) && Whole(s, h, id) && NotLost(s, h, id, o)
    ensures StateOk(OnExit(s, order)) && NotLost(OnExit(s, order), h, id, o)
  {
    hide StateOk, Whole, Moved, FlushWhile, FlushEach, NotLost;
    var s1 := FlushEach(s, order, |order|, Always());
    var s2 := FlushGlobal(s1, Always());
    FlushEachMoves(s, order, |order|, Always(), id);
    FlushGlobalMoves(s1, Always(), id);
    MovedTrans(s, s1, s2, Always(), id);
    MovedNotLost(s, s2, Always(), h, id, o);
    ExitKeeps(s, order, h, id);
    SameChannel(s2, OnExit(s, order), id);
    SameNotLost(s2, OnExit(s, order), h, id, o);
  }

  lemma StepNotLost(s: State, steps: seq<Step>, n: nat, o: Options, id: Id)
    requires n < |steps| && StateOk(s) && Possible(s, steps, n) && Whole(s, History(steps, n, id), id)
    requires NotLost(s, History(steps, n, id), id, o)
    ensures StateOk(Apply(s, steps, n, o)) && NotLost(Apply(s, steps, n, o), History(steps, n + 1, id), id, o)
  {
    hide StateOk, Whole, NotLost, OnAllocation, OnReallocation, OnFree;
    hide OnThreadDestroyed, OnTick, OnExit, Take, Drain, Moved;
    var h := History(steps, n, id);
    assert h + [] == h;
    StepKeeps(s, steps, n, o, id);
    match steps[n]
    case Call(e, caller) =>
      if e.Alloc? {
        AllocationNotLost(s, e, o, h, id);
      } else if e.Realloc? {
        ReallocationNotLost(s, e, o, h, id);
      } else {
        FreeNotLost(s, e, o, h, id);
      }
    case Created(thread) =>
      SameChannel(s, OnThreadCreated(s, thread), id);
      SameNotLost(s, OnThreadCreated(s, thread), h, id, o);
    case Destroyed(thread, at) => DestroyedNotLost(s, thread, at, o, h, id);
    case Tick(at, order) =>
      TickMoves(s, at, order, o, id);
      MovedNotLost(s, OnTick(s, at, order, o), Due(at, o), h, id, o);
    case Exit(order) => ExitNotLost(s, order, h, id, o);
    case Taken(queue) =>
      OkChannel(s);
      TakeOutgoing(s.channel, queue, id);
      SameNotLost(s, s.(channel := Take(s.channel, queue)), h, id, o);
    case Drained =>
      OkChannel(s);
      DrainOutgoing(s.channel, id);
      SameNotLost(s, s.(channel := Drain(s.channel)), h, id, o);
  }

  lemma {:induction false} RunNotLost(steps: seq<Step>, n: nat, o: Options, id: Id)
    requires n <= |steps| && After(steps, n, o).Some?
    ensures StateOk(After(steps, n, o).value) && NotLost(After(steps, n, o).value, History(steps, n, id), id, o)
  {
    hide Apply, Possible, StateOk, Whole, NotLost;
    if n == 0 {
      StartNotLost(id, o);
    } else {
      RunNotLost(steps, n - 1, o, id);
      RunKeeps(steps, n - 1, o, id);
      StepNotLost(After(steps, n - 1, o).value, steps, n - 1, o, id);
    }
  }

  lemma StartNotLost(id: Id, o: Options)
    ensures StateOk(START) && NotLost(START, [], id, o)
  {}

  /** Whatever the limit, and also through exit: of a freed allocation that lived long enough everything is sent. */
  lemma LongLivedNotLost(steps: seq<Step>, n: nat, o: Options, id: Id)
    requires n <= |steps| && After(steps, n, o).Some? && Ended(History(steps, n, id))
    requires Start(History(steps, n, id)) + o.threshold <= End(History(steps, n, id))
    ensures StateOk(After(steps, n, o).value) && Outgoing(After(steps, n, o).value.channel, id) == History(steps, n, id)
  {
    RunKeeps(steps, n, o, id);
    RunNotLost(steps, n, o, id);
    var s, h := After(steps, n, o).value, History(steps, n, id);
    if Pending(s, id) {
      PendingHistory(s, h, id);
    }
  }

  /** After exit nothing is pending: of every allocation everything was sent, except of those culled. */
  lemma NothingPendingAfterExit(steps: seq<Step>, n: nat, o: Options, id: Id)
    requires n <= |steps| && After(steps, n, o).Some? && !After(steps, n, o).value.enabled
    ensures var s, h := After(steps, n, o).value, History(steps, n, id);
      && StateOk(s)
      && (Outgoing(s.channel, id) == h
          || (Outgoing(s.channel, id) == [] && Ended(h) && End(h) < Start(h) + o.threshold))
  {
    RunKeeps(steps, n, o, id);
    RunNotLost(steps, n, o, id);
  }
}
