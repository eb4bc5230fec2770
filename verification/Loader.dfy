/** The loader: folds a trace into tables of allocations, counters per backtrace and totals. */
module Loader {
  import opened Basics
  import opened Trace
  import opened Allocations
  import opened Records
  import Backtraces
  import Chains

  // ----- Counters and live blocks agree, over every trace

  /** Everything that refers to a group refers to one there is. */
  ghost predicate Sound(s: Summary) {
    && (forall raw :: raw in s.meaning ==> s.meaning[raw] < |s.groups|)
    && (forall f :: f in s.numbers ==> s.numbers[f] < |s.groups|)
    && (forall k :: k in s.live ==> s.live[k].body.backtrace < |s.groups|)
  }

  ghost function CountIn(g: nat): (Id, LiveBlock) -> int {
    (k: Id, b: LiveBlock) => if b.body.backtrace == g then 1 else 0
  }

  ghost function SizeIn(g: nat): (Id, LiveBlock) -> int {
    (k: Id, b: LiveBlock) => if b.body.backtrace == g then UsableSize(b.body) else 0
  }

  ghost predicate BalancedIn(s: Summary, g: nat)
    requires g < |s.groups|
  {
    && s.groups[g].allocCount - s.groups[g].freeCount == Sum(s.live, CountIn(g))
    && s.groups[g].allocSize - s.groups[g].freeSize == Sum(s.live, SizeIn(g))
  }

  /** What was allocated at a backtrace and not freed is what is live there. */
  ghost predicate Balanced(s: Summary) {
    forall g :: 0 <= g < |s.groups| ==> BalancedIn(s, g)
  }

  lemma PutBalanced(s: Summary, key: Id, timestamp: nat, body: Body)
    requires Sound(s) && Balanced(s) && body.backtrace in s.meaning
    ensures Sound(Put(s, key, timestamp, body)) && Balanced(Put(s, key, timestamp, body))
  {
    if key !in s.live {
      var h := s.meaning[body.backtrace];
      var s', block := Put(s, key, timestamp, body), Recorded(timestamp, body, h);
      forall g | 0 <= g < |s'.groups| ensures BalancedIn(s', g) {
        assert BalancedIn(s, g);
        SumInsert(s.live, CountIn(g), key, block);
        SumInsert(s.live, SizeIn(g), key, block);
        assert s.live - {key} == s.live;
      }
    }
  }

  lemma DropBalanced(s: Summary, key: Id)
    requires Sound(s) && Balanced(s)
    ensures Sound(Drop(s, key)) && Balanced(Drop(s, key))
  {
    if key in s.live {
      var s' := Drop(s, key);
      forall g | 0 <= g < |s'.groups| ensures BalancedIn(s', g) {
        assert BalancedIn(s, g);
        SumRemove(s.live, CountIn(g), key);
        SumRemove(s.live, SizeIn(g), key);
      }
    }
  }

  lemma {:induction false} NoneInGroup(live: map<Id, LiveBlock>, g: nat)
    requires forall k :: k in live ==> live[k].body.backtrace < g
    ensures Sum(live, CountIn(g)) == 0 && Sum(live, SizeIn(g)) == 0
    decreases |live|
  {
    if live != map[] {
      var k :| k in live;
      Shrinks(live, k);
      NoneInGroup(live - {k}, g);
      SumRemove(live, CountIn(g), k);
      SumRemove(live, SizeIn(g), k);
    }
  }

  lemma DeclareBalanced(s: Summary, number: nat, addresses: seq<nat>, strip: seq<nat> -> seq<nat>)
    requires Sound(s) && Balanced(s)
    ensures Sound(Declare(s, number, addresses, strip)) && Balanced(Declare(s, number, addresses, strip))
  {
    var s' := Declare(s, number, addresses, strip);
    NoneInGroup(s.live, |s.groups|);
    forall g | 0 <= g < |s'.groups| ensures BalancedIn(s', g) {
      if g < |s.groups| {
        assert BalancedIn(s, g);
      }
    }
  }

  lemma StatisticsBalanced(s: Summary, raw: nat, count: nat, size: nat)
    requires Sound(s) && Balanced(s) && raw in s.meaning
    ensures var s' := s.(groups := Count(s.groups, s.meaning[raw], Gone(count, size)));
      Sound(s') && Balanced(s')
  {
    var s' := s.(groups := Count(s.groups, s.meaning[raw], Gone(count, size)));
    forall g | 0 <= g < |s'.groups| ensures BalancedIn(s', g) {
      assert BalancedIn(s, g);
    }
  }

  /** Every event keeps it, duplicate allocations and unknown frees included. */
  lemma LoadBalanced(s: Summary, e: Event, strip: seq<nat> -> seq<nat>)
    requires Sound(s) && Balanced(s) && Loadable(s, e)
    ensures Sound(Load(s, e, strip)) && Balanced(Load(s, e, strip))
  {
    match e
    case Alloc(id, timestamp, body) => PutBalanced(s, Key(id, body.pointer), timestamp, body);
    case Realloc(id, timestamp, oldPointer, body) =>
      if Key(id, oldPointer) in s.live {
        DropBalanced(s, Key(id, oldPointer));
        PutBalanced(Drop(s, Key(id, oldPointer)), Key(id, body.pointer), timestamp, body);
      }
    case Free(id, _, pointer, _, _) => DropBalanced(s, Key(id, pointer));
    case Backtrace(number, addresses) => DeclareBalanced(s, number, addresses, strip);
    case PartialBacktrace(number, onThread, _, _) =>
      var addresses := Expanded(s.previous, e);
      DeclareBalanced(s, number, addresses, strip);
      PreviousBalanced(Declare(s, number, addresses, strip), s.previous[onThread := addresses]);
    case Statistics(group, count, size) => StatisticsBalanced(s, group, count, size);
    case Other(_) =>
  }

  lemma PreviousBalanced(s: Summary, previous: map<nat, seq<nat>>)
    requires Sound(s) && Balanced(s)
    ensures Sound(s.(previous := previous)) && Balanced(s.(previous := previous))
  {
    forall g | 0 <= g < |s.groups| ensures BalancedIn(s.(previous := previous), g) {
      assert BalancedIn(s, g);
    }
  }

  lemma {:induction false} LoadedBalanced(events: seq<Event>, n: nat, strip: seq<nat> -> seq<nat>)
    requires n <= |events| && Loaded(events, n, strip).Some?
    ensures Sound(Loaded(events, n, strip).value) && Balanced(Loaded(events, n, strip).value)
  {
    hide Sound, Balanced, Load;
    if n == 0 {
      EmptyBalanced();
    } else {
      LoadedBalanced(events, n - 1, strip);
      LoadBalanced(Loaded(events, n - 1, strip).value, events[n - 1], strip);
    }
  }

  lemma EmptyBalanced()
    ensures Sound(EMPTY) && Balanced(EMPTY)
  {}

  lemma {:induction false} CountNotNegative(live: map<Id, LiveBlock>, g: nat)
    ensures Sum(live, CountIn(g)) >= 0
    decreases |live|
  {
    if live != map[] {
      var k :| k in live;
      Shrinks(live, k);
      CountNotNegative(live - {k}, g);
      SumRemove(live, CountIn(g), k);
    }
  }

  /** Leaked allocations of a backtrace can be counted by subtraction without going below zero. */
  lemma LeakedNotNegative(events: seq<Event>, strip: seq<nat> -> seq<nat>, g: nat)
    requires Loaded(events, |events|, strip).Some? && g < |Loaded(events, |events|, strip).value.groups|
    ensures var c := Loaded(events, |events|, strip).value.groups[g]; c.freeCount <= c.allocCount
  {
    LoadedBalanced(events, |events|, strip);
    assert BalancedIn(Loaded(events, |events|, strip).value, g);
    CountNotNegative(Loaded(events, |events|, strip).value.live, g);
  }

  // ----- The loader itself

  ghost function Sizes(): (Id, LiveBlock) -> int {
    (k: Id, b: LiveBlock) => b.body.size
  }

  ghost function Ones(): (Id, LiveBlock) -> int {
    (k: Id, b: LiveBlock) => 1
  }

  datatype Totals = Totals(made: int, madeCount: int, freed: int, freedCount: int)

  /** All that was allocated and not freed is live. */
  ghost predicate TotalsMatch(t: Totals, live: map<Id, LiveBlock>) {
    t.made - t.freed == Sum(live, Sizes()) && t.madeCount - t.freedCount == Sum(live, Ones())
  }

  /** The totals add up the table: requested sizes and numbers of entries, of all and of dead ones. */
  ghost predicate TotalsTell(t: Totals, table: seq<Allocation>) {
    && t.made == Total(table, (a: Allocation) => a.body.size)
    && t.madeCount == |table|
    && t.freed == Total(table, (a: Allocation) => if a.deallocation.Some? then a.body.size else 0)
    && t.freedCount == Total(table, (a: Allocation) => if a.deallocation.Some? then 1 else 0)
  }

  lemma TotalsTellAdd(t: Totals, table: seq<Allocation>, a: Allocation)
    requires TotalsTell(t, table) && a.deallocation.None?
    ensures TotalsTell(t.(made := t.made + a.body.size, madeCount := t.madeCount + 1), table + [a])
  {
    TotalAdd(table, a, (a: Allocation) => a.body.size);
    TotalAdd(table, a, (a: Allocation) => if a.deallocation.Some? then a.body.size else 0);
    TotalAdd(table, a, (a: Allocation) => if a.deallocation.Some? then 1 else 0);
  }

  lemma TotalsTellEnd(t: Totals, table: seq<Allocation>, i: nat, a: Allocation)
    requires TotalsTell(t, table) && i < |table| && table[i].deallocation.None?
    requires a.deallocation.Some? && a.body == table[i].body
    ensures TotalsTell(t.(freed := t.freed + a.body.size, freedCount := t.freedCount + 1), table[i := a])
  {
    TotalChange(table, i, a, (a: Allocation) => a.body.size);
    TotalChange(table, i, a, (a: Allocation) => if a.deallocation.Some? then a.body.size else 0);
    TotalChange(table, i, a, (a: Allocation) => if a.deallocation.Some? then 1 else 0);
  }

  lemma {:induction false} OnesCount(live: map<Id, LiveBlock>)
    ensures Sum(live, Ones()) == |live|
    decreases |live|
  {
    if live != map[] {
      var k :| k in live;
      Shrinks(live, k);
      OnesCount(live - {k});
      SumRemove(live, Ones(), k);
    }
  }

  lemma TotalsAdd(t: Totals, live: map<Id, LiveBlock>, key: Id, b: LiveBlock)
    requires TotalsMatch(t, live) && key !in live
    ensures TotalsMatch(t.(made := t.made + b.body.size, madeCount := t.madeCount + 1), live[key := b])
  {
    SumInsert(live, Sizes(), key, b);
    SumInsert(live, Ones(), key, b);
    assert live - {key} == live;
  }

  lemma TotalsEnd(t: Totals, live: map<Id, LiveBlock>, key: Id)
    requires TotalsMatch(t, live) && key in live
    ensures TotalsMatch(t.(freed := t.freed + live[key].body.size, freedCount := t.freedCount + 1), live - {key})
  {
    SumRemove(live, Sizes(), key);
    SumRemove(live, Ones(), key);
  }

  /** Nothing is known about chains yet, and only the dead were reallocated. */
  ghost predicate Plain(table: seq<Allocation>) {
    forall i :: 0 <= i < |table| ==>
      Chains.Unknown(table, i) && (table[i].deallocation.None? ==> table[i].reallocation.None?)
  }

  lemma PlainAdd(table: seq<Allocation>, a: Allocation)
    requires Plain(table) && a.deallocation.None? && a.reallocation.None? && a.firstInChain.None?
    requires a.positionInChain == 0
    ensures Plain(table + [a])
  {
    var table' := table + [a];
    forall i | 0 <= i < |table'|
      ensures Chains.Unknown(table', i) && (table'[i].deallocation.None? ==> table'[i].reallocation.None?)
    {
      if i < |table| {
        assert Chains.Unknown(table, i);
      }
    }
  }

  lemma PlainEnd(table: seq<Allocation>, j: nat, a: Allocation)
    requires Plain(table) && j < |table| && table[j].deallocation.None?
    requires a.deallocation.Some? && a.firstInChain == table[j].firstInChain
    requires a.positionInChain == table[j].positionInChain
    ensures table[j].reallocation.None? && Plain(table[j := a])
  {
    var table' := table[j := a];
    forall i | 0 <= i < |table'|
      ensures Chains.Unknown(table', i) && (table'[i].deallocation.None? ==> table'[i].reallocation.None?)
    {
      assert Chains.Unknown(table, i);
    }
  }

  /** A reallocation whose new key is taken by another allocation: the old one ends and no new one begins. */
  predicate Lands(s: Summary, e: Event) {
    e.Realloc? && Key(e.id, e.oldPointer) in s.live &&
    Key(e.id, e.body.pointer) in s.live && Key(e.id, e.oldPointer) != Key(e.id, e.body.pointer)
  }

  /** A new entry, with the loader's number of its backtrace. */
  function Fresh(timestamp: nat, body: Body, g: nat, from: Option<nat>): Allocation {
    Allocation(timestamp, body.(backtrace := g), None, None, from, None, 0)
  }

  class Loader {
    var allocations: seq<Allocation>
    var allocationMap: map<Id, nat>
    var groups: seq<Counts>
    var numbers: map<seq<nat>, nat>
    var meaning: map<nat, nat>
    var previous: map<nat, seq<nat>>
    var totals: Totals
    const strip: seq<nat> -> seq<nat>

    ghost predicate Valid()
      reads this
    {
      Core() && Backward(allocations)
    }

    ghost predicate Core()
      reads this
    {
      && Indexed(allocations, allocationMap) && Plain(allocations)
      && Sound(View()) && Balanced(View()) && TotalsMatch(totals, View().live) && TotalsTell(totals, allocations)
    }

    ghost function Pages(): Book
      reads this
    {
      Book(allocations, allocationMap)
    }

    ghost function View(): Summary
      reads this
      requires InTable(allocationMap, allocations)
    {
      Summary(numbers, meaning, previous, groups, Live(allocations, allocationMap))
    }

    constructor (strip: seq<nat> -> seq<nat>)
      ensures Valid() && View() == EMPTY && Pages() == Book([], map[]) && this.strip == strip
    {
      allocations, allocationMap, groups, numbers, meaning, previous := [], map[], [], map[], map[], map[];
      totals := Totals(0, 0, 0, 0);
      this.strip := strip;
      new;
      assert Live(allocations, allocationMap) == map[];
    }

    /** Adds an allocation of group `g` unless its key is taken. */
    method HandleAlloc(id: Id, timestamp: nat, body: Body, g: nat)
      requires Valid() && g < |groups| && body.backtrace in meaning && meaning[body.backtrace] == g
      modifies this`allocations, this`allocationMap, this`groups, this`totals
      ensures Valid() && View() == Put(old(View()), Key(id, body.pointer), timestamp, body)
      ensures Pages() == Noted(old(Pages()), meaning, Alloc(id, timestamp, body))
      ensures old(Inverse(allocations)) ==> Inverse(allocations)
      ensures StillBroken(old(allocations), allocations)
    {
      hide Core, Inverse, Backward, Put;
      CoreTable();
      var key := Key(id, body.pointer);
      if key in allocationMap {
        PutTaken(View(), key, timestamp, body);
        return;
      }
      AddBroken(allocations, Fresh(timestamp, body, g, None));
      AddBackward(allocations, Fresh(timestamp, body, g, None));
      Begin(key, timestamp, body, g, None);
    }

    /** A new entry in the table, and its backtrace's counters. */
    method Begin(key: Id, timestamp: nat, body: Body, g: nat, from: Option<nat>)
      requires Core() && g < |groups| && body.backtrace in meaning && meaning[body.backtrace] == g
      requires key !in allocationMap
      modifies this`allocations, this`allocationMap, this`groups, this`totals
      ensures Core() && InTable(allocationMap, allocations)
      ensures InTable(old(allocationMap), old(allocations)) && View() == Put(old(View()), key, timestamp, body)
      ensures Pages() == Begun(old(Pages()), key, Fresh(timestamp, body, g, from))
      ensures old(Inverse(allocations)) && from.None? ==> Inverse(allocations)
    {
      hide Sound, Balanced, TotalsMatch, TotalsTell, Inverse, Holds, Plain, Indexed, Live;
      IndexedTable(allocations, allocationMap);
      var a := Fresh(timestamp, body, g, from);
      PutBalanced(View(), key, timestamp, body);
      PlainAdd(allocations, a);
      AddLive(allocations, allocationMap, key, a);
      IndexedTable(allocations + [a], allocationMap[key := |allocations|]);
      LiveKeys(allocations, allocationMap);
      TotalsAdd(totals, View().live, key, LiveBlock(a.timestamp, a.body));
      TotalsTellAdd(totals, allocations, a);
      if Inverse(allocations) && from.None? {
        AddUnlinked(allocations, a);
      }
      allocationMap := allocationMap[key := |allocations|];
      allocations := allocations + [a];
      totals := totals.(made := totals.made + a.body.size, madeCount := totals.madeCount + 1);
      groups := Count(groups, g, Allocated(UsableSize(body)));
    }

    /** The end of an entry, and its backtrace's counters. */
    method End(key: Id, d: Deallocation, next: Option<nat>) returns (i: nat)
      requires Core() && key in allocationMap
      modifies this`allocations, this`allocationMap, this`groups, this`totals
      ensures Core() && InTable(allocationMap, allocations)
      ensures InTable(old(allocationMap), old(allocations)) && View() == Drop(old(View()), key)
      ensures i == old(allocationMap)[key] && old(allocations)[i].reallocation.None?
      ensures old(allocations)[i].deallocation.None?
      ensures Pages() == Closed(old(Pages()), key, d, next)
    {
      hide Sound, Balanced, TotalsMatch, TotalsTell, Plain, Indexed, Live, Count;
      LiveEntry(allocations, allocationMap, key);
      DropBalanced(View(), key);
      i := allocationMap[key];
      var a := allocations[i].(deallocation := Some(d), reallocation := next);
      PlainEnd(allocations, i, a);
      EndLive(allocations, allocationMap, key, a);
      TotalsEnd(totals, View().live, key);
      TotalsTellEnd(totals, allocations, i, a);
      IndexedTable(allocations[i := a], allocationMap - {key});
      allocationMap := allocationMap - {key};
      allocations := allocations[i := a];
      totals := totals.(freed := totals.freed + a.body.size, freedCount := totals.freedCount + 1);
      groups := Count(groups, a.body.backtrace, Freed(UsableSize(a.body)));
    }

    lemma CoreTable()
      requires Core()
      ensures InTable(allocationMap, allocations) && View().live.Keys == allocationMap.Keys
    {}

    /** Ends the allocation under a key, if there is one. */
    method HandleFree(id: Id, timestamp: nat, pointer: nat, backtrace: Option<nat>, thread: nat)
      requires Valid()
      modifies this`allocations, this`allocationMap, this`groups, this`totals
      ensures Valid() && View() == Drop(old(View()), Key(id, pointer))
      ensures Key(id, pointer) !in old(allocationMap) ==> Pages() == old(Pages())
      ensures Key(id, pointer) in old(allocationMap) ==>
        Pages() == Closed(old(Pages()), Key(id, pointer), Deallocation(timestamp, thread, backtrace), None)
      ensures old(Inverse(allocations)) ==> Inverse(allocations)
      ensures StillBroken(old(allocations), allocations)
    {
      hide Core, Inverse, Backward, Drop;
      CoreTable();
      var key := Key(id, pointer);
      if key !in allocationMap {
        DropUnknown(View(), key);
        return;
      }
      var i := End(key, Deallocation(timestamp, thread, backtrace), None);
      EndBroken(old(allocations), i, allocations[i]);
      EndBackward(old(allocations), i, allocations[i]);
      if old(Inverse(allocations)) {
        SameLinks(old(allocations), i, allocations[i]);
      }
    }

    /**
     Ends the allocation under the old key and begins one under the new key, linked to it. If another allocation
     has the new key only the first half happens, and the link that was made leads nowhere.
     */
    method HandleRealloc(id: Id, timestamp: nat, oldPointer: nat, body: Body, g: nat)
      requires Valid() && g < |groups| && body.backtrace in meaning && meaning[body.backtrace] == g
      modifies this`allocations, this`allocationMap, this`groups, this`totals
      ensures Valid() && View() == Load(old(View()), Realloc(id, timestamp, oldPointer, body), strip)
      ensures Pages() == Noted(old(Pages()), meaning, Realloc(id, timestamp, oldPointer, body))
      ensures old(Inverse(allocations)) && !Lands(old(View()), Realloc(id, timestamp, oldPointer, body)) ==>
        Inverse(allocations)
      ensures Lands(old(View()), Realloc(id, timestamp, oldPointer, body)) ==> exists i :: Broken(allocations, i)
      ensures StillBroken(old(allocations), allocations)
    {
      hide Core, Inverse, Backward, StillBroken, Broken, Put, Drop;
      CoreTable();
      var oldKey, newKey := Key(id, oldPointer), Key(id, body.pointer);
      if oldKey !in allocationMap {
        SameBroken(allocations);
        return;
      }
      DropLive(View(), oldKey);
      var next := |allocations|;
      var i := End(oldKey, Deallocation(timestamp, body.thread, Some(g)), Some(next));
      CoreTable();
      if newKey in allocationMap {
        PutTaken(View(), newKey, timestamp, body);
        LinkedNowhere(old(allocations), i, allocations[i]);
        return;
      }
      LinkedOn(old(allocations), i, allocations[i], Fresh(timestamp, body, g, Some(i)));
      Begin(newKey, timestamp, body, g, Some(i));
    }

    /** A backtrace is numbered by its frames; one seen before keeps its number. */
    method AddBacktrace(number: nat, addresses: seq<nat>)
      requires Valid()
      modifies this`numbers, this`meaning, this`groups
      ensures Valid() && View() == Declare(old(View()), number, addresses, strip)
    {
      hide Sound, Balanced, TotalsMatch, TotalsTell, Backward, Holds, Plain;
      DeclareBalanced(View(), number, addresses, strip);
      var frames := strip(addresses);
      if frames in numbers {
        meaning := meaning[number := numbers[frames]];
        return;
      }
      var g := |groups|;
      meaning := meaning[number := g];
      numbers := numbers[frames := g];
      groups := groups + [Zero()];
    }

    /** Loads one event. */
    method Process(e: Event)
      requires Valid() && Loadable(View(), e)
      modifies this
      ensures Valid() && View() == Load(old(View()), e, strip)
      ensures Pages() == Noted(old(Pages()), old(meaning), e)
      ensures old(Inverse(allocations)) && !Lands(old(View()), e) ==> Inverse(allocations)
      ensures Lands(old(View()), e) ==> exists i :: Broken(allocations, i)
      ensures StillBroken(old(allocations), allocations)
    {
      hide Sound, Balanced, TotalsMatch, TotalsTell, Inverse, Backward, Holds, Plain, Put, Drop, Declare;
      LoadBalanced(View(), e, strip);
      match e {
        case Alloc(id, timestamp, body) =>
          GroupOf(View(), body.backtrace);
          HandleAlloc(id, timestamp, body, meaning[body.backtrace]);
        case Realloc(id, timestamp, oldPointer, body) =>
          GroupOf(View(), body.backtrace);
          HandleRealloc(id, timestamp, oldPointer, body, meaning[body.backtrace]);
        case Free(id, timestamp, pointer, freedAt, thread) =>
          HandleFree(id, timestamp, pointer, if freedAt in meaning then Some(meaning[freedAt]) else None, thread);
        case Backtrace(number, addresses) =>
          AddBacktrace(number, addresses);
        case PartialBacktrace(number, onThread, _, _) =>
          var addresses := Expanded(previous, e);
          AddBacktrace(number, addresses);
          previous := previous[onThread := addresses];
        case Statistics(raw, count, size) =>
          var g := meaning[raw];
          groups := Count(groups, g, Gone(count, size));
        case Other(_) =>
      }
    }
  }

  lemma GroupOf(s: Summary, raw: nat)
    requires Sound(s) && raw in s.meaning
    ensures s.meaning[raw] < |s.groups|
  {}

  lemma {:induction false} LoadedBefore(events: seq<Event>, n: nat, k: nat, strip: seq<nat> -> seq<nat>)
    requires k <= n <= |events| && Loaded(events, n, strip).Some?
    ensures Loaded(events, k, strip).Some?
    decreases n
  {
    if k < n {
      LoadedBefore(events, n - 1, k, strip);
    }
  }

  /** No reallocation of the trace takes the key of another live allocation. */
  ghost predicate NeverLands(events: seq<Event>, strip: seq<nat> -> seq<nat>) {
    forall n :: 0 <= n < |events| ==> !LandsAt(events, n, strip)
  }

  ghost predicate LandsAt(events: seq<Event>, n: nat, strip: seq<nat> -> seq<nat>)
    requires n < |events|
  {
    Loaded(events, n, strip).Some? && Lands(Loaded(events, n, strip).value, events[n])
  }

  lemma StepIsOk(events: seq<Event>, n: nat, strip: seq<nat> -> seq<nat>, b: Book)
    requires n < |events| && Loaded(events, n + 1, strip).Some? && BookTells(events, n, strip, b)
    requires InTable(b.index, b.table)
    ensures StepOk(events, n, strip, b)
  {
    hide Loadable, Load, Alive;
    LoadedStep(events, n, strip);
  }

  lemma ViewTogether(loader: Loader)
    requires loader.Valid()
    ensures InTable(loader.allocationMap, loader.allocations) && Together(loader.View(), loader.Pages())
  {}

  /**
   Loads a whole trace. Every entry of the table tells which event made it and which one ended it, the counters add
   up the table, and backtraces are numbered by their frames. The links between reallocations are in order exactly
   if none took another's key.
   */
  method LoadTrace(events: seq<Event>, strip: seq<nat> -> seq<nat>) returns (loader: Loader)
    requires Loaded(events, |events|, strip).Some?
    ensures fresh(loader) && loader.Valid() && loader.View() == Loaded(events, |events|, strip).value
    ensures BookTells(events, |events|, strip, Book(loader.allocations, loader.allocationMap))
    ensures CountersTell(events, |events|, strip, loader.groups, loader.allocations)
    ensures Backtraces.Numbered(events, |events|, strip, loader.View())
    ensures Inverse(loader.allocations) <==> NeverLands(events, strip)
  {
    hide Inverse, Broken, Lands, Load, Loadable, BookTells, CountersTell, Together, Noted, Loader.Valid;
    hide Backtraces.Numbered;
    loader := new Loader(strip);
    EmptyInverse();
    EmptyTells(events, strip);
    NoCounters(events, strip);
    ViewTogether(loader);
    var n := 0;
    ghost var landed: Option<nat> := None;
    while n < |events|
      invariant n <= |events| && fresh(loader) && loader.strip == strip && loader.Valid()
      invariant InTable(loader.allocationMap, loader.allocations) && Together(loader.View(), loader.Pages())
      invariant Loaded(events, n, strip) == Some(loader.View())
      invariant BookTells(events, n, strip, loader.Pages())
      invariant CountersTell(events, n, strip, loader.groups, loader.allocations)
      invariant landed.None? ==> Inverse(loader.allocations)
      invariant landed.Some? ==> exists i :: Broken(loader.allocations, i)
      invariant landed.None? ==> forall k :: 0 <= k < n ==> !LandsAt(events, k, strip)
      invariant landed.Some? ==> landed.value < n && LandsAt(events, landed.value, strip)
    {
      LoadedBefore(events, |events|, n + 1, strip);
      LoadedStep(events, n, strip);
      StepIsOk(events, n, strip, loader.Pages());
      BookKept(events, n, strip, loader.Pages());
      CountersKept(events, n, strip, loader.Pages());
      if landed.None? && Lands(loader.View(), events[n]) {
        landed := Some(n);
      }
      loader.Process(events[n]);
      ViewTogether(loader);
      n := n + 1;
    }
    Backtraces.LoadedNumbered(events, |events|, strip);
    if landed.Some? {
      ghost var i :| Broken(loader.allocations, i);
      BrokenNotInverse(loader.allocations, i);
    }
  }

  /**
   Loading and then assigning the chains, of any trace: members of closed chains learn their chain, the others
   learn nothing. If no reallocation took another's key all chains are closed.
   */
  method LoadAndFinalize(events: seq<Event>, strip: seq<nat> -> seq<nat>)
    returns (loader: Loader, table: seq<Allocation>, chains: map<nat, Chains.Chain>)
    requires Loaded(events, |events|, strip).Some?
    ensures fresh(loader) && loader.Valid() && loader.View() == Loaded(events, |events|, strip).value
    ensures Backward(loader.allocations) && Chains.SameBut(loader.allocations, table)
    ensures Chains.KnownUpTo(loader.allocations, table, |table|)
    ensures Chains.ChainsUpTo(loader.allocations, chains, |table|)
    ensures NeverLands(events, strip) ==> forall i :: 0 <= i < |table| ==> Chains.Closed(loader.allocations, i)
  {
    hide NeverLands, Inverse, Backward, Loaded;
    loader := LoadTrace(events, strip);
    table, chains := Chains.AssignChains(loader.allocations);
    if NeverLands(events, strip) {
      forall i | 0 <= i < |table| ensures Chains.Closed(loader.allocations, i) {
        Chains.InverseCloses(loader.allocations, i);
      }
    }
  }

  lemma EmptyInverse()
    ensures Inverse([])
  {}

  /** Tracked identifiers cannot cause it: their old and new key are the same. */
  lemma TrackedNeverLands(s: Summary, e: Event)
    requires e.Realloc? && Tracked(e.id)
    ensures !Lands(s, e)
  {}

  /** A trace that reallocates a block to the address of another untracked one. */
  const LANDING_TRACE := [
    Backtrace(0, [100]),
    Alloc(UNTRACKED, 0, Body(16, 8, 0, 0, 1, 0)),
    Alloc(UNTRACKED, 1, Body(32, 8, 0, 0, 1, 0)),
    Realloc(UNTRACKED, 2, 16, Body(32, 8, 0, 0, 1, 0))]

  lemma LandsExample(strip: seq<nat> -> seq<nat>)
    ensures Loaded(LANDING_TRACE, 4, strip).Some? && LandsAt(LANDING_TRACE, 3, strip)
  {
    var events := LANDING_TRACE;
    assert Loaded(events, 0, strip) == Some(EMPTY);
    var s1 := Loaded(events, 1, strip).value;
    assert 0 in s1.meaning && |s1.groups| == 1 && s1.live == map[];
    var s2 := Loaded(events, 2, strip).value;
    assert Id(0, 16) in s2.live && Id(0, 32) !in s2.live && s2.meaning == s1.meaning;
    var s3 := Loaded(events, 3, strip).value;
    assert Id(0, 16) in s3.live && Id(0, 32) in s3.live && s3.meaning == s1.meaning;
  }

  /** Loading it leaves links that are not in order. */
  method LoadLandingTrace(strip: seq<nat> -> seq<nat>) returns (table: seq<Allocation>)
    ensures Backward(table) && !Inverse(table)
  {
    LandsExample(strip);
    var loader := LoadTrace(LANDING_TRACE, strip);
    table := loader.allocations;
  }
}
