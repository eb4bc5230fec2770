/** When pending allocations are flushed: what a flush leaves, and what is pending after every step of a run. */
module TrackerFlushing {
  import opened Links
  import opened Trace
  import opened OrderedMaps
  import opened TrackerSpec
  import opened TrackerRuns
  import opened TrackerTiming

  // ----- One flush

  /** What a flush does to the table alone. */
  function FlushTable(t: Table, due: (nat, Bucket) -> bool): Table
    decreases |t.order|
  {
    if t.order == [] || t.order[0] !in t.values || !due(|t.order|, t.values[t.order[0]]) then t
    else FlushTable(Popped(t), due)
  }

  lemma {:induction false} FlushIsTable(f: Flushed, due: (nat, Bucket) -> bool)
    ensures FlushWhile(f, due).table == FlushTable(f.table, due)
    decreases |f.table.order|
  {
    var t := f.table;
    if t.order != [] && t.order[0] in t.values && due(|t.order|, t.values[t.order[0]]) {
      FlushIsTable(Flushed(Popped(t), Send(f.channel, Batch(t.values[t.order[0]]))), due);
    }
  }

  /** When the allocation at a place of the table was made. */
  ghost function MadeAt(t: Table, i: nat): nat
    requires TableOk(t) && i < |t.order|
  {
    assert t.order[i] in t.order;
    t.values[t.order[i]].events[0].timestamp
  }

  /** Not too many are pending from here on, and the allocation here has not lived long enough. */
  ghost predicate Stops(t: Table, i: nat, now: nat, o: Options)
    requires TableOk(t) && i < |t.order|
  {
    (o.limit.Some? ==> |t.order| - i <= o.limit.value) && now < MadeAt(t, i) + o.threshold
  }

  lemma PoppedAt(t: Table, i: nat)
    requires TableOk(t) && i + 1 < |t.order|
    ensures TableOk(Popped(t)) && MadeAt(Popped(t), i) == MadeAt(t, i + 1)
  {
    PoppedOk(t);
    assert t.order[i + 1] != t.order[0];
  }

  lemma PoppedStops(t: Table, i: nat, now: nat, o: Options)
    requires TableOk(t) && i + 1 < |t.order|
    ensures TableOk(Popped(t)) && (Stops(Popped(t), i, now, o) <==> Stops(t, i + 1, now, o))
  {
    hide MadeAt, TableOk;
    PoppedAt(t, i);
  }

  lemma FrontDue(t: Table, now: nat, o: Options)
    requires TableOk(t) && t.order != []
    ensures t.order[0] in t.values && (Due(now, o)(|t.order|, t.values[t.order[0]]) <==> !Stops(t, 0, now, o))
  {
    hide TableOk, MadeAt;
    FrontAt(t);
    assert LongLived(t.values[t.order[0]], now, o) <==> now >= MadeAt(t, 0) + o.threshold;
  }

  lemma FrontAt(t: Table)
    requires TableOk(t) && t.order != []
    ensures t.order[0] in t.values && t.values[t.order[0]].events != []
    ensures MadeAt(t, 0) == t.values[t.order[0]].events[0].timestamp
  {
    assert t.order[0] in t.order;
  }

  /** A part of a table: from one place on, everything is as it was. */
  ghost predicate From(t: Table, q: nat, r: Table) {
    && TableOk(t) && TableOk(r) && q <= |t.order| && r.order == t.order[q..]
    && forall id :: id in r.values ==> id in t.values && r.values[id] == t.values[id]
  }

  lemma FromPopped(t: Table, q: nat, r: Table)
    requires TableOk(t) && t.order != [] && From(Popped(t), q, r)
    ensures From(t, q + 1, r)
  {
    PoppedOk(t);
    assert t.order[1..][q..] == t.order[q + 1..];
  }

  lemma FromStart(t: Table)
    requires TableOk(t)
    ensures From(t, 0, t)
  {}

  /** A flush leaves what comes from some place on. */
  lemma {:induction false} FlushSuffix(t: Table, due: (nat, Bucket) -> bool) returns (q: nat)
    requires TableOk(t)
    ensures From(t, q, FlushTable(t, due))
    decreases |t.order|
  {
    hide TableOk, From, Popped;
    if t.order == [] || t.order[0] !in t.values || !due(|t.order|, t.values[t.order[0]]) {
      FromStart(t);
      q := 0;
    } else {
      PoppedOk(t);
      PoppedLength(t);
      q := FlushSuffix(Popped(t), due);
      FromPopped(t, q, FlushTable(Popped(t), due));
      q := q + 1;
    }
  }

  lemma PoppedLength(t: Table)
    requires t.order != []
    ensures |Popped(t).order| == |t.order| - 1
  {}

  /** It goes on exactly up to the first place where it stops. */
  lemma {:induction false} FlushStops(t: Table, now: nat, o: Options) returns (q: nat)
    requires TableOk(t)
    ensures From(t, q, FlushTable(t, Due(now, o))) && q <= |t.order|
    ensures forall i :: 0 <= i < q ==> !Stops(t, i, now, o)
    ensures q < |t.order| ==> Stops(t, q, now, o)
    decreases |t.order|
  {
    hide TableOk, From, Popped, Stops, Due;
    if t.order == [] {
      FromStart(t);
      return 0;
    }
    FrontDue(t, now, o);
    if Stops(t, 0, now, o) {
      FromStart(t);
      return 0;
    }
    PoppedOk(t);
    PoppedLength(t);
    q := FlushStops(Popped(t), now, o);
    FromPopped(t, q, FlushTable(Popped(t), Due(now, o)));
    q := q + 1;
    forall i | 0 <= i < q ensures !Stops(t, i, now, o) {
      if i > 0 {
        PoppedStops(t, i - 1, now, o);
      }
    }
    if q < |t.order| {
      PoppedStops(t, q - 1, now, o);
    }
  }

  lemma FromMember(t: Table, q: nat, r: Table, p: nat)
    requires From(t, q, r) && p < |t.order|
    ensures t.order[p] in r.values <==> q <= p
  {
    if q <= p {
      assert r.order[p - q] == t.order[p];
    } else {
      forall i | 0 <= i < |r.order| ensures r.order[i] != t.order[p] {
        assert r.order[i] == t.order[q + i];
      }
    }
  }

  /** An allocation stays exactly if the flush stops at it or at one before it. */
  lemma StaysIff(t: Table, now: nat, o: Options, p: nat)
    requires TableOk(t) && p < |t.order|
    ensures t.order[p] in FlushTable(t, Due(now, o)).values <==> exists i :: 0 <= i <= p && Stops(t, i, now, o)
  {
    hide TableOk, From, Stops, FlushTable;
    var q := FlushStops(t, now, o);
    FromMember(t, q, FlushTable(t, Due(now, o)), p);
  }

  // ----- Tables of live threads are ordered by age

  /** Older allocations come first, and none is from the future. */
  ghost predicate ByAge(t: Table, clock: nat) {
    && TableOk(t) && (forall i, j :: 0 <= i < j < |t.order| ==> MadeAt(t, i) <= MadeAt(t, j))
    && (forall i :: 0 <= i < |t.order| ==> MadeAt(t, i) <= clock)
  }

  ghost predicate Few(t: Table, o: Options) {
    o.limit.Some? ==> |t.order| <= o.limit.value
  }

  lemma FromAt(t: Table, q: nat, r: Table, i: nat)
    requires From(t, q, r) && i < |r.order|
    ensures q + i < |t.order| && MadeAt(r, i) == MadeAt(t, q + i)
  {
    assert r.order[i] in r.order && r.order[i] == t.order[q + i];
  }

  lemma FlushByAge(t: Table, due: (nat, Bucket) -> bool, clock: nat)
    requires ByAge(t, clock)
    ensures ByAge(FlushTable(t, due), clock) && |FlushTable(t, due).order| <= |t.order|
  {
    hide TableOk, MadeAt, FlushTable;
    var r := FlushTable(t, due);
    var q := FlushSuffix(t, due);
    FromOk(t, q, r);
    forall i | 0 <= i < |r.order| ensures q + i < |t.order| && MadeAt(r, i) == MadeAt(t, q + i) {
      FromAt(t, q, r, i);
    }
  }

  lemma FromOk(t: Table, q: nat, r: Table)
    requires From(t, q, r)
    ensures TableOk(r) && q <= |t.order| && |r.order| == |t.order| - q
  {}

  /** In a table ordered by age nothing that lived long enough stays, and not too much. */
  lemma FlushedYoung(t: Table, now: nat, o: Options, clock: nat, i: nat)
    requires ByAge(t, clock)
    ensures var r := FlushTable(t, Due(now, o));
      TableOk(r) && Few(r, o) && (i < |r.order| ==> now < MadeAt(r, i) + o.threshold)
  {
    hide TableOk, MadeAt, FlushTable, From;
    var r := FlushTable(t, Due(now, o));
    var q := FlushStops(t, now, o);
    FromOk(t, q, r);
    if i < |r.order| {
      FromAt(t, q, r, i);
      assert Stops(t, q, now, o);
    }
  }

  lemma FlushedFew(t: Table, now: nat, o: Options)
    requires TableOk(t)
    ensures TableOk(FlushTable(t, Due(now, o))) && Few(FlushTable(t, Due(now, o)), o)
  {
    hide TableOk, MadeAt, FlushTable, From;
    var q := FlushStops(t, now, o);
    FromOk(t, q, FlushTable(t, Due(now, o)));
  }

  lemma NewByAge(t: Table, id: Id, b: Bucket, clock: nat, now: nat)
    requires ByAge(t, clock) && clock <= now && id !in t.values && b.id == id
    requires |b.events| == 1 && b.events[0].timestamp == now
    ensures ByAge(Inserted(t, id, b), now)
  {
    InsertedOk(t, id, b);
    var r := Inserted(t, id, b);
    assert id !in t.order;
    assert r.order == t.order + [id];
    forall i | 0 <= i < |r.order| ensures MadeAt(r, i) == if i < |t.order| then MadeAt(t, i) else now {
      assert r.order[i] in r.order;
      if i < |t.order| {
        assert t.order[i] in t.order && r.order[i] == t.order[i] != id;
      }
    }
  }

  lemma LaterByAge(t: Table, clock: nat, now: nat)
    requires ByAge(t, clock) && clock <= now
    ensures ByAge(t, now)
  {
    hide MadeAt, TableOk;
  }

  /** More events of an allocation do not change when it was made. */
  lemma GrownByAge(t: Table, id: Id, x: Buffered, clock: nat)
    requires ByAge(t, clock) && id in t.values
    ensures ByAge(t.(values := t.values[id := t.values[id].(events := t.values[id].events + [x])]), clock)
  {
    var r := t.(values := t.values[id := t.values[id].(events := t.values[id].events + [x])]);
    assert TableOk(r);
    forall i | 0 <= i < |r.order| ensures MadeAt(r, i) == MadeAt(t, i) {
      assert r.order[i] in t.order;
    }
  }

  lemma RemovedByAge(t: Table, id: Id, clock: nat)
    requires ByAge(t, clock) && id in t.values
    ensures ByAge(Removed(t, id), clock) && |Removed(t, id).order| < |t.order|
  {
    hide MadeAt, TableOk, Removed;
    var p := RemovedFrom(t, id);
    var r := Removed(t, id);
    forall i | 0 <= i < |r.order| ensures MadeAt(r, i) == MadeAt(t, if i < p then i else i + 1) {
      RemovedAt(t, id, p, i);
    }
  }

  lemma RemovedFrom(t: Table, id: Id) returns (p: nat)
    requires TableOk(t) && id in t.values
    ensures p < |t.order| && t.order[p] == id && TableOk(Removed(t, id)) && Removed(t, id).order == Cut(t.order, p)
    ensures |Removed(t, id).order| == |t.order| - 1
  {
    assert id in t.order;
    p := Position(t.order, id);
    WithoutAt(t.order, p);
    RemovedOk(t, id);
  }

  lemma RemovedAt(t: Table, id: Id, p: nat, i: nat)
    requires TableOk(t) && id in t.values && p < |t.order| && t.order[p] == id && TableOk(Removed(t, id))
    requires Removed(t, id).order == Cut(t.order, p) && i < |t.order| - 1 == |Removed(t, id).order|
    ensures MadeAt(Removed(t, id), i) == MadeAt(t, if i < p then i else i + 1)
  {
    var r, k := Removed(t, id), if i < p then i else i + 1;
    assert r.order[i] == t.order[k] != id;
    assert r.order[i] in r.order && t.order[k] in t.order;
  }

  // ----- Over every run

  /**
   The tables of live threads are ordered by age and hold no more than the limit; the global one never holds
   more than twice the limit.
   */
  ghost predicate Orderly(s: State, clock: nat, o: Options) {
    && (forall t :: t in s.tables ==> ByAge(s.tables[t], clock) && Few(s.tables[t], o))
    && (o.limit.Some? ==> |s.global.order| <= 2 * o.limit.value)
  }

  lemma LocalTable(s: State, thread: nat, due: (nat, Bucket) -> bool)
    requires thread in s.tables
    ensures var s' := FlushLocal(s, thread, due);
      s'.tables == s.tables[thread := FlushTable(s.tables[thread], due)] && s'.global == s.global
  {
    hide FlushWhile, FlushTable;
    FlushIsTable(Flushed(s.tables[thread], s.channel), due);
  }

  lemma GlobalTable(s: State, due: (nat, Bucket) -> bool)
    ensures var s' := FlushGlobal(s, due); s'.tables == s.tables && s'.global == FlushTable(s.global, due)
  {
    hide FlushWhile, FlushTable;
    FlushIsTable(Flushed(s.global, s.channel), due);
  }

  lemma LaterOrderly(s: State, clock: nat, now: nat, o: Options)
    requires Orderly(s, clock, o) && clock <= now
    ensures Orderly(s, now, o)
  {
    hide ByAge;
    forall t | t in s.tables ensures ByAge(s.tables[t], now) {
      LaterByAge(s.tables[t], clock, now);
    }
  }

  lemma FlushLocalOrderly(s: State, thread: nat, due: (nat, Bucket) -> bool, clock: nat, o: Options)
    requires Orderly(s, clock, o) && thread in s.tables
    ensures Orderly(FlushLocal(s, thread, due), clock, o)
  {
    hide ByAge, FlushTable, FlushLocal;
    LocalTable(s, thread, due);
    FlushByAge(s.tables[thread], due, clock);
  }

  lemma FlushGlobalOrderly(s: State, due: (nat, Bucket) -> bool, clock: nat, o: Options)
    requires Orderly(s, clock, o) && TableOk(s.global)
    ensures Orderly(FlushGlobal(s, due), clock, o)
  {
    hide ByAge, FlushTable, FlushGlobal, TableOk, From;
    GlobalTable(s, due);
    var q := FlushSuffix(s.global, due);
    FromOk(s.global, q, FlushTable(s.global, due));
  }

  lemma AllocationOrderly(s: State, e: Event, o: Options, clock: nat)
    requires StateOk(s) && e.Alloc? && (s.enabled ==> e.id.thread in s.tables && !Pending(s, e.id))
    requires Orderly(s, clock, o) && clock <= e.timestamp
    ensures Orderly(OnAllocation(s, e, o), e.timestamp, o)
  {
    hide ByAge, FlushTable, FlushLocal, StateOk, Inserted;
    LaterOrderly(s, clock, e.timestamp, o);
    if s.enabled {
      var t := s.tables[e.id.thread];
      var b := Bucket(e.id, [Buffered(e.timestamp, e.body)]);
      NewByAge(t, e.id, b, clock, e.timestamp);
      var s1 := WithHome(s, e.id, Inserted(t, e.id, b));
      LocalTable(s1, e.id.thread, Due(e.timestamp, o));
      FlushByAge(Inserted(t, e.id, b), Due(e.timestamp, o), e.timestamp);
      FlushedYoung(Inserted(t, e.id, b), e.timestamp, o, e.timestamp, 0);
    }
  }

  lemma HomeOrderly(s: State, of: Id, due: (nat, Bucket) -> bool, clock: nat, o: Options)
    requires StateOk(s) && Orderly(s, clock, o)
    ensures Orderly(FlushHome(s, of, due), clock, o)
  {
    hide Orderly, FlushLocal, FlushGlobal;
    if of.thread in s.tables {
      FlushLocalOrderly(s, of.thread, due, clock, o);
    } else {
      FlushGlobalOrderly(s, due, clock, o);
    }
  }

  lemma ReallocatedOrderly(s: State, e: Event, clock: nat, o: Options)
    requires Orderly(s, clock, o) && e.Realloc?
    ensures Orderly(Reallocated(s, e), clock, o)
  {
    hide ByAge;
    if e.id.thread in s.tables && e.id in s.tables[e.id.thread].values {
      GrownByAge(s.tables[e.id.thread], e.id, Buffered(e.timestamp, e.body), clock);
    }
  }

  lemma ReleasedOrderly(s: State, e: Event, clock: nat, o: Options)
    requires StateOk(s) && Orderly(s, clock, o) && e.Free?
    ensures Orderly(Released(s, e, o), clock, o)
  {
    hide ByAge, Removed, StateOk;
    if e.id in Home(s, e.id).values {
      if e.id.thread in s.tables {
        RemovedByAge(s.tables[e.id.thread], e.id, clock);
      } else {
        GlobalOk(s);
        RemovedShorter(s.global, e.id);
      }
    }
  }

  lemma GlobalOk(s: State)
    requires StateOk(s)
    ensures TableOk(s.global)
  {}

  lemma RemovedShorter(t: Table, id: Id)
    requires TableOk(t) && id in t.values
    ensures |Removed(t, id).order| < |t.order|
  {
    var p := RemovedFrom(t, id);
  }

  lemma DestroyedOrderly(s: State, thread: nat, now: nat, o: Options, clock: nat)
    requires StateOk(s) && Orderly(s, clock, o)
    ensures Orderly(OnThreadDestroyed(s, thread, now, o), clock, o)
  {
    hide ByAge, FlushTable, FlushLocal, FlushGlobal, StateOk, TableOk, MoveAll, Moved;
    if thread in s.tables {
      var s1 := FlushLocal(s, thread, Due(now, o));
      var s2 := FlushGlobal(s1, Due(now, o));
      FlushLocalOrderly(s, thread, Due(now, o), clock, o);
      FlushLocalMoves(s, thread, Due(now, o), UNTRACKED);
      FlushGlobalMoves(s1, Due(now, o), UNTRACKED);
      GlobalTable(s1, Due(now, o));
      LocalTable(s, thread, Due(now, o));
      GlobalOk(s1);
      FlushedFew(s1.global, now, o);
      MovedLength(s2, thread);
    }
  }

  lemma MovedLength(s: State, thread: nat)
    requires StateOk(s) && thread in s.tables
    ensures |MoveAll(s.tables[thread], s.global).order| == |s.global.order| + |s.tables[thread].order|
  {
    hide TableOk, MoveAll;
    assert LocalOk(s.tables[thread], thread);
    MoveAllFacts(s.tables[thread], s.global);
  }

  lemma {:induction false} EachOrderly(s: State, order: seq<nat>, n: nat, due: (nat, Bucket) -> bool, clock: nat,
      o: Options)
    requires n <= |order| && Orderly(s, clock, o) && forall i :: 0 <= i < |order| ==> order[i] in s.tables
    ensures Orderly(FlushEach(s, order, n, due), clock, o)
  {
    hide Orderly, FlushLocal, FlushEach;
    if n == 0 {
      FlushEachNone(s, order, due);
    } else {
      EachOrderly(s, order, n - 1, due, clock, o);
      FlushEachStep(s, order, n - 1, due);
      FlushLocalOrderly(FlushEach(s, order, n - 1, due), order[n - 1], due, clock, o);
    }
  }

  lemma ExitOrderly(s: State, order: seq<nat>, clock: nat, o: Options)
    requires StateOk(s) && Orderly(s, clock, o) && Lists(order, s.tables)
    ensures Orderly(OnExit(s, order), clock, o)
  {
    hide ByAge, StateOk, FlushGlobal, FlushEach, TableOk, Moved;
    EachOrderly(s, order, |order|, Always(), clock, o);
    FlushEachMoves(s, order, |order|, Always(), UNTRACKED);
    GlobalOk(FlushEach(s, order, |order|, Always()));
    FlushGlobalOrderly(FlushEach(s, order, |order|, Always()), Always(), clock, o);
  }

  lemma StepOrderly(s: State, steps: seq<Step>, n: nat, o: Options)
    requires n < |steps| && StateOk(s) && Possible(s, steps, n) && Orderly(s, Clock(steps, n), o)
    requires steps[n].Call? && steps[n].event.Alloc? ==>
      Whole(s, History(steps, n, steps[n].event.id), steps[n].event.id)
    ensures Orderly(Apply(s, steps, n, o), Clock(steps, n + 1), o)
  {
    hide StateOk, Whole, Orderly, OnAllocation, FlushHome, Reallocated, Released, FlushEach, FlushGlobal;
    hide OnThreadDestroyed, OnExit, Take, Drain, Moved;
    var clock := Clock(steps, n);
    match steps[n]
    case Call(e, caller) =>
      LaterOrderly(s, clock, e.timestamp, o);
      if e.Alloc? {
        if s.enabled {
          NewIsNot(s, e.id);
        }
        AllocationOrderly(s, e, o, clock);
      } else if s.enabled {
        HomeOrderly(s, e.id, Due(e.timestamp, o), e.timestamp, o);
        FlushHomeMoves(s, e.id, Due(e.timestamp, o), UNTRACKED);
        if e.Realloc? {
          ReallocatedOrderly(FlushHome(s, e.id, Due(e.timestamp, o)), e, e.timestamp, o);
        } else {
          ReleasedOrderly(FlushHome(s, e.id, Due(e.timestamp, o)), e, e.timestamp, o);
        }
      } else {
        ChannelOrderly(s, Send(s.channel, Single(e)), e.timestamp, o);
      }
    case Created(thread) => CreatedOrderly(s, thread, clock, o);
    case Destroyed(thread, at) =>
      LaterOrderly(s, clock, at, o);
      DestroyedOrderly(s, thread, at, o, at);
    case Tick(at, order) =>
      LaterOrderly(s, clock, at, o);
      GlobalOk(s);
      FlushGlobalOrderly(s, Due(at, o), at, o);
      GlobalTable(s, Due(at, o));
      EachOrderly(FlushGlobal(s, Due(at, o)), order, |order|, Due(at, o), at, o);
    case Exit(order) => ExitOrderly(s, order, clock, o);
    case Taken(queue) => ChannelOrderly(s, Take(s.channel, queue), clock, o);
    case Drained => ChannelOrderly(s, Drain(s.channel), clock, o);
  }

  lemma ChannelOrderly(s: State, c: Channel, clock: nat, o: Options)
    requires Orderly(s, clock, o)
    ensures Orderly(s.(channel := c), clock, o)
  {}

  lemma CreatedOrderly(s: State, thread: nat, clock: nat, o: Options)
    requires Orderly(s, clock, o)
    ensures Orderly(OnThreadCreated(s, thread), clock, o)
  {
    assert ByAge(NOTHING, clock);
  }

  /** Over every run, tables of live threads are ordered by age, and no table grows beyond its bound. */
  lemma {:induction false} RunOrderly(steps: seq<Step>, n: nat, o: Options)
    requires n <= |steps| && After(steps, n, o).Some?
    ensures StateOk(After(steps, n, o).value) && Orderly(After(steps, n, o).value, Clock(steps, n), o)
  {
    hide Apply, Possible, StateOk, Whole, Orderly;
    RunKeeps(steps, n, o, UNTRACKED);
    if n == 0 {
      StartOrderly(o);
    } else {
      RunOrderly(steps, n - 1, o);
      if steps[n - 1].Call? && steps[n - 1].event.Alloc? {
        RunKeeps(steps, n - 1, o, steps[n - 1].event.id);
      }
      StepOrderly(After(steps, n - 1, o).value, steps, n - 1, o);
    }
  }

  lemma StartOrderly(o: Options)
    ensures Orderly(START, 0, o)
  {}

  // ----- Right after a tick

  lemma {:induction false} FlushAgain(t: Table, due: (nat, Bucket) -> bool)
    ensures FlushTable(FlushTable(t, due), due) == FlushTable(t, due)
    decreases |t.order|
  {
    if t.order != [] && t.order[0] in t.values && due(|t.order|, t.values[t.order[0]]) {
      FlushAgain(Popped(t), due);
    }
  }

  lemma {:induction false} EachKeys(s: State, order: seq<nat>, n: nat, due: (nat, Bucket) -> bool)
    requires n <= |order| && forall i :: 0 <= i < |order| ==> order[i] in s.tables
    ensures var s' := FlushEach(s, order, n, due); s'.tables.Keys == s.tables.Keys && s'.global == s.global
  {
    hide FlushLocal, FlushEach, FlushTable;
    if n == 0 {
      FlushEachNone(s, order, due);
    } else {
      EachKeys(s, order, n - 1, due);
      FlushEachStep(s, order, n - 1, due);
      LocalTable(FlushEach(s, order, n - 1, due), order[n - 1], due);
    }
  }

  lemma {:induction false} EachTable(s: State, order: seq<nat>, n: nat, due: (nat, Bucket) -> bool, t: nat)
    requires n <= |order| && t in s.tables && forall i :: 0 <= i < |order| ==> order[i] in s.tables
    ensures var s' := FlushEach(s, order, n, due);
      t in s'.tables && s'.tables[t] == if t in order[..n] then FlushTable(s.tables[t], due) else s.tables[t]
  {
    hide FlushLocal, FlushEach, FlushTable;
    if n == 0 {
      FlushEachNone(s, order, due);
    } else {
      EachTable(s, order, n - 1, due, t);
      EachKeys(s, order, n - 1, due);
      FlushEachStep(s, order, n - 1, due);
      LocalTable(FlushEach(s, order, n - 1, due), order[n - 1], due);
      FlushAgain(s.tables[t], due);
      assert order[..n] == order[..n - 1] + [order[n - 1]];
    }
  }

  /** After a tick every table is what a flush leaves of it. */
  lemma TickTables(s: State, at: nat, order: seq<nat>, o: Options)
    requires Lists(order, s.tables)
    ensures var s' := OnTick(s, at, order, o);
      && s'.tables.Keys == s.tables.Keys && s'.global == FlushTable(s.global, Due(at, o))
      && forall t :: t in s.tables ==> s'.tables[t] == FlushTable(s.tables[t], Due(at, o))
  {
    hide FlushGlobal, FlushEach, FlushTable;
    GlobalTable(s, Due(at, o));
    var s1 := FlushGlobal(s, Due(at, o));
    assert order[..|order|] == order;
    EachKeys(s1, order, |order|, Due(at, o));
    forall t | t in s.tables
      ensures FlushEach(s1, order, |order|, Due(at, o)).tables[t] == FlushTable(s.tables[t], Due(at, o))
    {
      EachTable(s1, order, |order|, Due(at, o), t);
    }
  }

  /** When the pending allocation at a place of a table was made, by its history. */
  lemma MadeByHistory(steps: seq<Step>, n: nat, o: Options, t: Table, i: nat)
    requires n <= |steps| && After(steps, n, o).Some? && TableOk(t) && i < |t.order|
    requires var s := After(steps, n, o).value;
      StateOk(s) && Home(s, t.order[i]) == t
    ensures MadeAt(t, i) == Start(History(steps, n, t.order[i]))
  {
    hide StateOk, Whole;
    var s, id := After(steps, n, o).value, t.order[i];
    RunKeeps(steps, n, o, id);
    assert id in t.order;
    PendingHistory(s, History(steps, n, id), id);
  }

  /** A pending allocation of a table, and its place. */
  lemma PlaceOf(t: Table, id: Id) returns (i: nat)
    requires TableOk(t) && id in t.values
    ensures i < |t.order| && t.order[i] == id
  {
    assert id in t.order;
    i := Position(t.order, id);
  }

  /** Right after a tick no allocation of a live thread is pending that has lived long enough. */
  lemma TickSendsLongLived(steps: seq<Step>, n: nat, o: Options, id: Id)
    requires n < |steps| && steps[n].Tick? && After(steps, n + 1, o).Some?
    requires var s := After(steps, n + 1, o).value; Pending(s, id) && id.thread in s.tables
    ensures steps[n].at < Start(History(steps, n + 1, id)) + o.threshold
  {
    hide StateOk, Orderly, ByAge, OnTick, FlushTable, MadeAt;
    var s, s' := After(steps, n, o).value, After(steps, n + 1, o).value;
    RunOrderly(steps, n, o);
    RunOrderly(steps, n + 1, o);
    TickTables(s, steps[n].at, steps[n].order, o);
    LocalByAge(s, Clock(steps, n), o, id.thread);
    LocalByAge(s', Clock(steps, n + 1), o, id.thread);
    var i := PlaceOf(s'.tables[id.thread], id);
    FlushedYoung(s.tables[id.thread], steps[n].at, o, Clock(steps, n), i);
    MadeByHistory(steps, n + 1, o, s'.tables[id.thread], i);
  }

  lemma LocalByAge(s: State, clock: nat, o: Options, t: nat)
    requires Orderly(s, clock, o) && t in s.tables
    ensures ByAge(s.tables[t], clock) && TableOk(s.tables[t]) && Few(s.tables[t], o)
  {}

  /** The allocations of a state's own tables. */
  ghost predicate TableOf(s: State, t: Table) {
    t == s.global || exists thread :: thread in s.tables && s.tables[thread] == t
  }

  /** The flush of a tick stops here: not too many follow, and this one was made too short a time before. */
  ghost predicate StopsHere(steps: seq<Step>, n: nat, o: Options, t: Table, i: nat, at: nat)
    requires n <= |steps| && i < |t.order|
  {
    && (o.limit.Some? ==> |t.order| - i <= o.limit.value)
    && at < Start(History(steps, n, t.order[i])) + o.threshold
  }

  lemma StopsByHistory(steps: seq<Step>, n: nat, o: Options, t: Table, i: nat, at: nat)
    requires n <= |steps| && After(steps, n, o).Some? && TableOk(t) && i < |t.order|
    requires StateOk(After(steps, n, o).value) && TableOf(After(steps, n, o).value, t)
    ensures Stops(t, i, at, o) <==> StopsHere(steps, n, o, t, i, at)
  {
    var s := After(steps, n, o).value;
    assert t.order[i] in t.order;
    HomeOf(s, t, t.order[i]);
    MadeByHistory(steps, n, o, t, i);
  }

  lemma HomeOf(s: State, t: Table, id: Id)
    requires StateOk(s) && TableOf(s, t) && id in t.values
    ensures Home(s, id) == t
  {
    hide TableOk, ChannelOk, Nothing;
    if t != s.global || id.thread in s.tables {
      assert id !in s.global.values || id.thread !in s.tables;
      if t != s.global {
        var thread :| thread in s.tables && s.tables[thread] == t;
        assert LocalOk(s.tables[thread], thread);
      }
    }
  }

  /**
   Exactly which allocations a tick leaves pending, in any table: those at or behind the first one at which not
   too many are left and that has not lived long enough. The global table is not ordered by age, so there an
   allocation that lived long enough can be left behind a younger one.
   */
  lemma TickLeaves(steps: seq<Step>, n: nat, o: Options, t: Table, p: nat)
    requires n < |steps| && steps[n].Tick? && After(steps, n + 1, o).Some? && After(steps, n, o).Some?
    requires TableOf(After(steps, n, o).value, t) && p < |t.order|
    ensures Pending(After(steps, n + 1, o).value, t.order[p]) <==>
      exists i :: 0 <= i <= p && StopsHere(steps, n, o, t, i, steps[n].at)
  {
    hide StateOk, Orderly, OnTick, FlushTable, Stops, StopsHere, TableOf, Home;
    var s, s', at := After(steps, n, o).value, After(steps, n + 1, o).value, steps[n].at;
    RunOrderly(steps, n, o);
    TableIsOk(s, t);
    InTableOrder(t, p);
    HomeOf(s, t, t.order[p]);
    TickTables(s, at, steps[n].order, o);
    TickHome(s, s', t, t.order[p], Due(at, o));
    StaysIff(t, at, o, p);
    forall i | 0 <= i <= p ensures Stops(t, i, at, o) <==> StopsHere(steps, n, o, t, i, at) {
      StopsByHistory(steps, n, o, t, i, at);
    }
  }

  lemma InTableOrder(t: Table, p: nat)
    requires TableOk(t) && p < |t.order|
    ensures t.order[p] in t.values
  {
    assert t.order[p] in t.order;
  }

  lemma TableIsOk(s: State, t: Table)
    requires StateOk(s) && TableOf(s, t)
    ensures TableOk(t)
  {
    hide TableOk, ChannelOk;
    if t != s.global {
      var thread :| thread in s.tables && s.tables[thread] == t;
      assert LocalOk(s.tables[thread], thread);
    }
  }

  lemma TickHome(s: State, s': State, t: Table, id: Id, due: (nat, Bucket) -> bool)
    requires s'.tables.Keys == s.tables.Keys && s'.global == FlushTable(s.global, due)
    requires forall x :: x in s.tables ==> s'.tables[x] == FlushTable(s.tables[x], due)
    requires Home(s, id) == t
    ensures Home(s', id) == FlushTable(t, due)
  {}

  /** Right after a tick no table holds more than the limit. */
  lemma TickBounds(steps: seq<Step>, n: nat, o: Options)
    requires n < |steps| && steps[n].Tick? && After(steps, n + 1, o).Some? && o.limit.Some?
    ensures var s := After(steps, n + 1, o).value;
      && |s.global.order| <= o.limit.value
      && forall t :: t in s.tables ==> |s.tables[t].order| <= o.limit.value
  {
    hide StateOk, Orderly, OnTick, FlushTable, TableOk;
    var s := After(steps, n, o).value;
    RunOrderly(steps, n, o);
    TickTables(s, steps[n].at, steps[n].order, o);
    GlobalOk(s);
    FlushedFew(s.global, steps[n].at, o);
    forall t | t in s.tables ensures |FlushTable(s.tables[t], Due(steps[n].at, o)).order| <= o.limit.value {
      LocalByAge(s, Clock(steps, n), o, t);
      FlushedFew(s.tables[t], steps[n].at, o);
    }
  }

  /**
   At any time, not only after ticks, no live thread has more allocations pending than the limit, and of dead
   threads there are at most twice as many.
   */
  lemma AlwaysBounded(steps: seq<Step>, n: nat, o: Options)
    requires n <= |steps| && After(steps, n, o).Some? && o.limit.Some?
    ensures var s := After(steps, n, o).value;
      && |s.global.order| <= 2 * o.limit.value
      && forall t :: t in s.tables ==> |s.tables[t].order| <= o.limit.value
  {
    RunOrderly(steps, n, o);
  }

  /** Every bucket in the table is young. */
  ghost predicate AllYoung(t: Table, now: nat, o: Options) {
    forall id :: id in t.values ==> t.values[id].events != [] && now < t.values[id].events[0].timestamp + o.threshold
  }

  lemma FlushedAllYoung(t: Table, now: nat, o: Options, clock: nat)
    requires ByAge(t, clock)
    ensures AllYoung(FlushTable(t, Due(now, o)), now, o)
  {
    hide ByAge, FlushTable;
    var r := FlushTable(t, Due(now, o));
    FlushedYoung(t, now, o, clock, 0);
    forall id | id in r.values
      ensures r.values[id].events != [] && now < r.values[id].events[0].timestamp + o.threshold
    {
      var i := PlaceOf(r, id);
      FlushedYoung(t, now, o, clock, i);
    }
  }

  /** What a call leaves of the table of its thread is young. */
  lemma CallYoung(s: State, e: Event, o: Options, clock: nat)
    requires (e.Alloc? && !Pending(s, e.id)) || e.Realloc? || e.Free?
    requires StateOk(s) && Orderly(s, clock, o) && s.enabled && clock <= e.timestamp && e.id.thread in s.tables
    ensures var s' := if e.Alloc? then OnAllocation(s, e, o) else if e.Realloc? then OnReallocation(s, e, o)
        else OnFree(s, e, o);
      e.id.thread in s'.tables && AllYoung(s'.tables[e.id.thread], e.timestamp, o)
  {
    hide StateOk, Orderly, ByAge, FlushTable, FlushLocal, Inserted, Removed, TableOk;
    var t := s.tables[e.id.thread];
    LocalByAge(s, clock, o, e.id.thread);
    if e.Alloc? {
      var b := Bucket(e.id, [Buffered(e.timestamp, e.body)]);
      NewByAge(t, e.id, b, clock, e.timestamp);
      LocalTable(WithHome(s, e.id, Inserted(t, e.id, b)), e.id.thread, Due(e.timestamp, o));
      FlushedAllYoung(Inserted(t, e.id, b), e.timestamp, o, e.timestamp);
    } else {
      LocalTable(s, e.id.thread, Due(e.timestamp, o));
      FlushedAllYoung(t, e.timestamp, o, clock);
      RemovedValues(FlushTable(t, Due(e.timestamp, o)), e.id);
    }
  }

  lemma RemovedValues(t: Table, id: Id)
    ensures Removed(t, id).values == t.values - {id}
  {}

  lemma CallLeavesYoung(steps: seq<Step>, n: nat, o: Options)
    requires n < |steps| && steps[n].Call? && After(steps, n + 1, o).Some? && After(steps, n, o).Some?
    requires var s := After(steps, n, o).value; s.enabled && steps[n].event.id.thread in s.tables
    ensures var s, e := After(steps, n + 1, o).value, steps[n].event;
      (e.Alloc? || e.Realloc? || e.Free?) && e.id.thread in s.tables
      && AllYoung(s.tables[e.id.thread], e.timestamp, o)
  {
    hide StateOk, Orderly, AllYoung, OnAllocation, OnReallocation, OnFree, Whole;
    var s, e := After(steps, n, o).value, steps[n].event;
    RunOrderly(steps, n, o);
    if e.Alloc? {
      RunKeeps(steps, n, o, e.id);
      NewIsNot(s, e.id);
    }
    CallYoung(s, e, o, Clock(steps, n));
  }

  /** Also right after any call about an allocation of a live thread, none of its allocations is pending too long. */
  lemma CallSendsLongLived(steps: seq<Step>, n: nat, o: Options, id: Id)
    requires n < |steps| && steps[n].Call? && After(steps, n + 1, o).Some? && After(steps, n, o).Some?
    requires var s := After(steps, n, o).value;
      s.enabled && id.thread in s.tables && steps[n].event.id.thread == id.thread
    requires Pending(After(steps, n + 1, o).value, id)
    ensures steps[n].event.timestamp < Start(History(steps, n + 1, id)) + o.threshold
  {
    hide StateOk, Orderly, ByAge, MadeAt, Apply, Possible, History;
    var s := After(steps, n + 1, o).value;
    RunOrderly(steps, n + 1, o);
    CallLeavesYoung(steps, n, o);
    LocalByAge(s, Clock(steps, n + 1), o, id.thread);
    var i := PlaceOf(s.tables[id.thread], id);
    MadeByHistory(steps, n + 1, o, s.tables[id.thread], i);
    InTableAt(s.tables[id.thread], i);
  }

  lemma InTableAt(t: Table, i: nat)
    requires TableOk(t) && i < |t.order|
    ensures t.order[i] in t.values && t.values[t.order[i]].events != []
    ensures MadeAt(t, i) == t.values[t.order[i]].events[0].timestamp
  {
    assert t.order[i] in t.order;
  }

  /** What a dead thread leaves behind is young. */
  lemma DestroyedYoung(s: State, thread: nat, now: nat, o: Options, clock: nat, id: Id)
    requires StateOk(s) && Orderly(s, clock, o) && thread in s.tables && id.thread == thread
    ensures var t := OnThreadDestroyed(s, thread, now, o).global;
      id in t.values ==> t.values[id].events != [] && now < t.values[id].events[0].timestamp + o.threshold
  {
    hide StateOk, Orderly, ByAge, FlushTable, FlushLocal, FlushGlobal, TableOk, MoveAll, Moved;
    var s1 := FlushLocal(s, thread, Due(now, o));
    var s2 := FlushGlobal(s1, Due(now, o));
    LocalByAge(s, clock, o, thread);
    LocalTable(s, thread, Due(now, o));
    GlobalTable(s1, Due(now, o));
    FlushLocalMoves(s, thread, Due(now, o), UNTRACKED);
    FlushGlobalMoves(s1, Due(now, o), UNTRACKED);
    FlushedAllYoung(s.tables[thread], now, o, clock);
    MovedValues(s2, thread, id);
  }

  lemma MovedValues(s: State, thread: nat, id: Id)
    requires StateOk(s) && thread in s.tables && id.thread == thread
    ensures var t := MoveAll(s.tables[thread], s.global);
      id in t.values ==> id in s.tables[thread].values && t.values[id] == s.tables[thread].values[id]
  {
    hide TableOk, MoveAll;
    assert LocalOk(s.tables[thread], thread);
    MoveAllFacts(s.tables[thread], s.global);
  }

  /** Right after a thread ends, none of its allocations is pending too long. */
  lemma EndSendsLongLived(steps: seq<Step>, n: nat, o: Options, id: Id)
    requires n < |steps| && steps[n].Destroyed? && After(steps, n + 1, o).Some? && After(steps, n, o).Some?
    requires steps[n].thread == id.thread && id.thread in After(steps, n, o).value.tables
    requires Pending(After(steps, n + 1, o).value, id)
    ensures steps[n].at < Start(History(steps, n + 1, id)) + o.threshold
  {
    hide StateOk, Orderly, ByAge, MadeAt, MoveAll, FlushLocal, FlushGlobal;
    var s, s' := After(steps, n, o).value, After(steps, n + 1, o).value;
    RunOrderly(steps, n, o);
    RunOrderly(steps, n + 1, o);
    DestroyedYoung(s, id.thread, steps[n].at, o, Clock(steps, n), id);
    TableIsOk(s', s'.global);
    var i := PlaceOf(s'.global, id);
    MadeByHistory(steps, n + 1, o, s'.global, i);
    InTableAt(s'.global, i);
  }
}
