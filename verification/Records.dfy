/**
 What the loader's table records of a trace, read off its events: which of them made an entry, which event ended it,
 and what its times, threads, backtraces and links are.
 */
module Records {
  import opened Basics
  import opened Trace
  import opened Allocations

  // ----- Read off the events

  /** Untracked blocks go by their address, all others by their identifier. */
  function Named(id: Id, pointer: nat): Id {
    if id == UNTRACKED || id == INVALID then Id(0, pointer) else id
  }

  predicate Begins(e: Event, key: Id) {
    (e.Alloc? || e.Realloc?) && Named(e.id, e.body.pointer) == key
  }

  predicate Ends(e: Event, key: Id) {
    (e.Free? && Named(e.id, e.pointer) == key) || (e.Realloc? && Named(e.id, e.oldPointer) == key)
  }

  /** There is a block of this name after the first `n` events; reallocations of unknown blocks are ignored. */
  ghost predicate Alive(events: seq<Event>, n: nat, key: Id)
    requires n <= |events|
  {
    n > 0 &&
    var e := events[n - 1];
    if e.Realloc? && !Alive(events, n - 1, Named(e.id, e.oldPointer)) then Alive(events, n - 1, key)
    else Begins(e, key) || (Alive(events, n - 1, key) && !Ends(e, key))
  }

  /** The event makes an entry: it names a block there is not, other than the one it ends. */
  ghost predicate Makes(events: seq<Event>, o: nat)
    requires o < |events|
  {
    var e := events[o];
    || (e.Alloc? && !Alive(events, o, Named(e.id, e.body.pointer)))
    || (e.Realloc? && Alive(events, o, Named(e.id, e.oldPointer)) &&
        (Ends(e, Named(e.id, e.body.pointer)) || !Alive(events, o, Named(e.id, e.body.pointer))))
  }

  /** The events among the first `n` that made an entry, in order. */
  ghost function Entries(events: seq<Event>, n: nat): (r: seq<nat>)
    requires n <= |events|
    ensures forall i :: 0 <= i < |r| ==> r[i] < n && Makes(events, r[i])
  {
    if n == 0 then []
    else Entries(events, n - 1) + if Makes(events, n - 1) then [n - 1] else []
  }

  /** The key of the entry that an event made. */
  ghost function KeyAt(events: seq<Event>, o: nat): Id
    requires o < |events| && Makes(events, o)
  {
    Named(events[o].id, events[o].body.pointer)
  }

  /** The first event after `o`, of the first `n`, that names the block `o` made as the one to end. */
  ghost function Ended(events: seq<Event>, n: nat, o: nat): (r: Option<nat>)
    requires o < n <= |events| && Makes(events, o)
    ensures r.Some? ==> o < r.value < n && Ends(events[r.value], KeyAt(events, o))
  {
    if n == o + 1 then None
    else if Ended(events, n - 1, o).Some? then Ended(events, n - 1, o)
    else if Ends(events[n - 1], KeyAt(events, o)) then Some(n - 1)
    else None
  }

  lemma {:induction false} EndedFirst(events: seq<Event>, n: nat, o: nat, j: nat)
    requires o < n <= |events| && Makes(events, o) && o < j < n && Ends(events[j], KeyAt(events, o))
    ensures Ended(events, n, o).Some? && Ended(events, n, o).value <= j
  {
    if j < n - 1 {
      EndedFirst(events, n - 1, o, j);
    }
  }

  /** The loader's numbers of the backtraces declared so far. */
  ghost function Meaning(events: seq<Event>, n: nat, strip: seq<nat> -> seq<nat>): map<nat, nat>
    requires n <= |events|
  {
    if Loaded(events, n, strip).Some? then Loaded(events, n, strip).value.meaning else map[]
  }

  function Lookup(m: map<nat, nat>, raw: nat): Option<nat> {
    if raw in m then Some(m[raw]) else None
  }

  /** How the event at `j` ends an entry. */
  ghost function Ending(events: seq<Event>, j: nat, strip: seq<nat> -> seq<nat>): Deallocation
    requires j < |events| && (events[j].Free? || events[j].Realloc?)
  {
    var m := Meaning(events, j, strip);
    match events[j]
    case Free(_, timestamp, _, freedAt, thread) => Deallocation(timestamp, thread, Lookup(m, freedAt))
    case Realloc(_, timestamp, _, body) => Deallocation(timestamp, body.thread, Lookup(m, body.backtrace))
  }

  /** An entry has the time and the description of the event that made it. */
  ghost predicate TellsStart(events: seq<Event>, strip: seq<nat> -> seq<nat>, a: Allocation, o: nat)
    requires o < |events| && Makes(events, o)
  {
    var e := events[o];
    && Lookup(Meaning(events, o, strip), e.body.backtrace) == Some(a.body.backtrace)
    && a.timestamp == e.timestamp && a.body == e.body.(backtrace := a.body.backtrace)
  }

  /** An entry is dead exactly if an event ended it, and then has that event's time, thread and backtrace. */
  ghost predicate TellsEnd(events: seq<Event>, strip: seq<nat> -> seq<nat>, a: Allocation, ended: Option<nat>)
    requires ended.Some? ==> ended.value < |events| && (events[ended.value].Free? || events[ended.value].Realloc?)
  {
    match ended
    case None => a.deallocation.None? && a.reallocation.None?
    case Some(j) =>
      && a.deallocation == Some(Ending(events, j, strip))
      && a.reallocation == if events[j].Realloc? then Some(|Entries(events, j)|) else None
  }

  /** An entry made by a reallocation names the entry that this reallocation ended. */
  ghost predicate TellsOrigin(events: seq<Event>, n: nat, a: Allocation, i: nat)
    requires n <= |events| && i < |Entries(events, n)|
  {
    var entries := Entries(events, n);
    match a.reallocatedFrom
    case None => events[entries[i]].Alloc?
    case Some(k) => events[entries[i]].Realloc? && k < i && Ended(events, n, entries[k]) == Some(entries[i])
  }

  ghost predicate Tells(events: seq<Event>, n: nat, strip: seq<nat> -> seq<nat>, a: Allocation, i: nat)
    requires n <= |events| && i < |Entries(events, n)|
  {
    var o := Entries(events, n)[i];
    TellsStart(events, strip, a, o) && TellsEnd(events, strip, a, Ended(events, n, o)) && TellsOrigin(events, n, a, i)
  }

  /** The table has one entry for each event that made one, in order, and each tells its story. */
  ghost predicate TableTells(events: seq<Event>, n: nat, strip: seq<nat> -> seq<nat>, table: seq<Allocation>)
    requires n <= |events|
  {
    |table| == |Entries(events, n)| && forall i :: 0 <= i < |table| ==> Tells(events, n, strip, table[i], i)
  }

  /** The index holds exactly the entries that no event ended. */
  ghost predicate IndexTells(events: seq<Event>, n: nat, index: map<Id, nat>)
    requires n <= |events|
  {
    && (forall key :: key in index <==> Alive(events, n, key))
    && (forall key :: key in index ==> index[key] < |Entries(events, n)| && Under(events, n, index[key], key))
    && (forall i :: 0 <= i < |Entries(events, n)| ==> Found(events, n, index, i))
  }

  ghost predicate Under(events: seq<Event>, n: nat, i: nat, key: Id)
    requires n <= |events| && i < |Entries(events, n)|
  {
    var o := Entries(events, n)[i];
    KeyAt(events, o) == key && Ended(events, n, o).None?
  }

  ghost predicate Found(events: seq<Event>, n: nat, index: map<Id, nat>, i: nat)
    requires n <= |events| && i < |Entries(events, n)|
  {
    var o := Entries(events, n)[i];
    Ended(events, n, o).None? ==> KeyAt(events, o) in index && index[KeyAt(events, o)] == i
  }

  // ----- What the loader does with its table

  /** The table and the index of its live entries. */
  datatype Book = Book(table: seq<Allocation>, index: map<Id, nat>)

  function Begun(b: Book, key: Id, a: Allocation): Book {
    Book(b.table + [a], b.index[key := |b.table|])
  }

  function Closed(b: Book, key: Id, d: Deallocation, next: Option<nat>): Book
    requires key in b.index && b.index[key] < |b.table|
  {
    var i := b.index[key];
    Book(b.table[i := b.table[i].(deallocation := Some(d), reallocation := next)], b.index - {key})
  }

  function Noted(b: Book, meaning: map<nat, nat>, e: Event): Book
    requires InTable(b.index, b.table)
    requires e.Alloc? || e.Realloc? ==> e.body.backtrace in meaning
  {
    match e
    case Alloc(id, timestamp, body) =>
      var key := Key(id, body.pointer);
      if key in b.index then b
      else Begun(b, key, Allocation(timestamp, body.(backtrace := meaning[body.backtrace]), None, None, None, None, 0))
    case Realloc(id, timestamp, oldPointer, body) =>
      var oldKey, key, g := Key(id, oldPointer), Key(id, body.pointer), meaning[body.backtrace];
      if oldKey !in b.index then b
      else
        var i, n := b.index[oldKey], |b.table|;
        var c := Closed(b, oldKey, Deallocation(timestamp, body.thread, Some(g)), Some(n));
        if key in c.index then c
        else Begun(c, key, Allocation(timestamp, body.(backtrace := g), None, None, Some(i), None, 0))
    case Free(id, timestamp, pointer, freedAt, thread) =>
      var key := Key(id, pointer);
      if key !in b.index then b
      else Closed(b, key, Deallocation(timestamp, thread, Lookup(meaning, freedAt)), None)
    case _ => b
  }

  // ----- Every event keeps the account

  lemma KeyIsName(id: Id, pointer: nat)
    ensures Key(id, pointer) == Named(id, pointer)
  {}

  /** The entry that an event ends, if any. */
  ghost function Target(index: map<Id, nat>, e: Event): Option<nat> {
    if e.Free? && Named(e.id, e.pointer) in index then Some(index[Named(e.id, e.pointer)])
    else if e.Realloc? && Named(e.id, e.oldPointer) in index then Some(index[Named(e.id, e.oldPointer)])
    else None
  }

  /** An event ends the entry that the index has under the name it ends, and no other. */
  lemma EndsTarget(events: seq<Event>, n: nat, index: map<Id, nat>, i: nat)
    requires n < |events| && IndexTells(events, n, index) && i < |Entries(events, n)|
    ensures var o := Entries(events, n)[i];
      && Ended(events, n + 1, o) == (if Target(index, events[n]) == Some(i) then Some(n) else Ended(events, n, o))
      && (Target(index, events[n]) == Some(i) ==> Ended(events, n, o).None?)
  {
    var o := Entries(events, n)[i];
    assert Found(events, n, index, i);
    if key :| key in index && index[key] == i && Ends(events[n], key) {
      assert Under(events, n, i, key);
    }
  }

  /** What becomes of an entry that was there. */
  ghost function Updated(events: seq<Event>, n: nat, strip: seq<nat> -> seq<nat>, table: seq<Allocation>,
      index: map<Id, nat>, i: nat): Allocation
    requires n < |events| && i < |table|
  {
    if Target(index, events[n]) != Some(i) then table[i]
    else table[i].(deallocation := Some(Ending(events, n, strip)),
        reallocation := if events[n].Realloc? then Some(|table|) else None)
  }

  /** The entry that an event makes. */
  ghost predicate Opens(events: seq<Event>, n: nat, strip: seq<nat> -> seq<nat>, index: map<Id, nat>, a: Allocation)
    requires n < |events| && Makes(events, n)
  {
    && TellsStart(events, strip, a, n) && a.deallocation.None? && a.reallocation.None?
    && a.reallocatedFrom == if events[n].Realloc? then Target(index, events[n]) else None
  }

  /** How an event changes the table. */
  ghost predicate TableStep(events: seq<Event>, n: nat, strip: seq<nat> -> seq<nat>, b: Book, table': seq<Allocation>)
    requires n < |events|
  {
    && |table'| == |b.table| + (if Makes(events, n) then 1 else 0)
    && (forall i :: 0 <= i < |b.table| ==> table'[i] == Updated(events, n, strip, b.table, b.index, i))
    && (Makes(events, n) ==> Opens(events, n, strip, b.index, table'[|b.table|]))
  }

  /** How an event changes the index. */
  ghost predicate IndexStep(events: seq<Event>, n: nat, b: Book, index': map<Id, nat>)
    requires n < |events|
  {
    && (forall key :: key in index' <==>
          NewName(events, n, key) || (key in b.index && !EndedName(events, n, b.index, key)))
    && (forall key :: key in index' ==> index'[key] == if NewName(events, n, key) then |b.table| else b.index[key])
  }

  ghost predicate NewName(events: seq<Event>, n: nat, key: Id)
    requires n < |events|
  {
    Makes(events, n) && KeyAt(events, n) == key
  }

  ghost predicate EndedName(events: seq<Event>, n: nat, index: map<Id, nat>, key: Id)
    requires n < |events|
  {
    key in index && Ends(events[n], key)
  }

  /** Before an event: it can be loaded, and the index has the blocks there are. */
  ghost predicate StepOk(events: seq<Event>, n: nat, strip: seq<nat> -> seq<nat>, b: Book)
    requires n < |events|
  {
    && Loaded(events, n, strip).Some? && Loadable(Loaded(events, n, strip).value, events[n])
    && InTable(b.index, b.table) && forall key :: key in b.index <==> Alive(events, n, key)
  }

  ghost predicate StepsTo(events: seq<Event>, n: nat, strip: seq<nat> -> seq<nat>, b: Book, b': Book)
    requires n < |events|
  {
    TableStep(events, n, strip, b, b'.table) && IndexStep(events, n, b, b'.index)
  }

  lemma NotedAlloc(events: seq<Event>, n: nat, strip: seq<nat> -> seq<nat>, b: Book)
    requires n < |events| && events[n].Alloc? && StepOk(events, n, strip, b)
    ensures StepsTo(events, n, strip, b, Noted(b, Meaning(events, n, strip), events[n]))
  {
    hide Loaded, Alive;
    KeyIsName(events[n].id, events[n].body.pointer);
  }

  lemma NotedFree(events: seq<Event>, n: nat, strip: seq<nat> -> seq<nat>, b: Book)
    requires n < |events| && events[n].Free? && StepOk(events, n, strip, b)
    ensures StepsTo(events, n, strip, b, Noted(b, Meaning(events, n, strip), events[n]))
  {
    hide Loaded, Alive;
    KeyIsName(events[n].id, events[n].pointer);
  }

  lemma NotedRealloc(events: seq<Event>, n: nat, strip: seq<nat> -> seq<nat>, b: Book)
    requires n < |events| && events[n].Realloc? && StepOk(events, n, strip, b)
    ensures StepsTo(events, n, strip, b, Noted(b, Meaning(events, n, strip), events[n]))
  {
    hide Loaded, Alive;
    KeyIsName(events[n].id, events[n].oldPointer);
    KeyIsName(events[n].id, events[n].body.pointer);
  }

  lemma NotedSteps(events: seq<Event>, n: nat, strip: seq<nat> -> seq<nat>, b: Book)
    requires n < |events| && StepOk(events, n, strip, b)
    ensures StepsTo(events, n, strip, b, Noted(b, Meaning(events, n, strip), events[n]))
  {
    hide Loaded, Alive, Noted;
    if events[n].Alloc? {
      NotedAlloc(events, n, strip, b);
    } else if events[n].Free? {
      NotedFree(events, n, strip, b);
    } else if events[n].Realloc? {
      NotedRealloc(events, n, strip, b);
    } else {
      NotedOther(events, n, strip, b);
    }
  }

  lemma NotedOther(events: seq<Event>, n: nat, strip: seq<nat> -> seq<nat>, b: Book)
    requires n < |events| && StepOk(events, n, strip, b)
    requires !events[n].Alloc? && !events[n].Free? && !events[n].Realloc?
    ensures StepsTo(events, n, strip, b, Noted(b, Meaning(events, n, strip), events[n]))
  {
    hide Loaded, Alive;
  }

  /** The entries that were there still tell their story. */
  lemma UpdatedTells(events: seq<Event>, n: nat, strip: seq<nat> -> seq<nat>, b: Book, i: nat)
    requires n < |events| && TableTells(events, n, strip, b.table) && IndexTells(events, n, b.index) && i < |b.table|
    ensures i < |Entries(events, n + 1)|
    ensures Tells(events, n + 1, strip, Updated(events, n, strip, b.table, b.index, i), i)
  {
    hide Meaning, Ending, IndexTells, Makes, Ended, TableTells;
    TellsAt(events, n, strip, b.table, i);
    EntriesStep(events, n);
    EndsTarget(events, n, b.index, i);
    var a := b.table[i];
    if a.reallocatedFrom.Some? {
      EndsTarget(events, n, b.index, a.reallocatedFrom.value);
    }
  }

  lemma TellsAt(events: seq<Event>, n: nat, strip: seq<nat> -> seq<nat>, table: seq<Allocation>, i: nat)
    requires n <= |events| && TableTells(events, n, strip, table) && i < |table|
    ensures |table| == |Entries(events, n)| && Tells(events, n, strip, table[i], i)
  {}

  lemma EntriesStep(events: seq<Event>, n: nat)
    requires n < |events|
    ensures Entries(events, n + 1) == Entries(events, n) + if Makes(events, n) then [n] else []
  {}

  /** So does the new one. */
  lemma OpenedTells(events: seq<Event>, n: nat, strip: seq<nat> -> seq<nat>, b: Book, a: Allocation)
    requires n < |events| && TableTells(events, n, strip, b.table) && IndexTells(events, n, b.index)
    requires Makes(events, n) && Opens(events, n, strip, b.index, a)
    ensures |b.table| < |Entries(events, n + 1)| && Tells(events, n + 1, strip, a, |b.table|)
  {
    hide TellsStart, Ending, TableTells;
    assert |b.table| == |Entries(events, n)| by {
      SameLength(events, n, strip, b.table);
    }
    EntriesStep(events, n);
    if events[n].Realloc? {
      var key := Named(events[n].id, events[n].oldPointer);
      assert key in b.index;
      EndsTarget(events, n, b.index, b.index[key]);
    }
  }

  lemma SameLength(events: seq<Event>, n: nat, strip: seq<nat> -> seq<nat>, table: seq<Allocation>)
    requires n <= |events| && TableTells(events, n, strip, table)
    ensures |table| == |Entries(events, n)|
  {}

  lemma TableKept(events: seq<Event>, n: nat, strip: seq<nat> -> seq<nat>, b: Book, table': seq<Allocation>)
    requires n < |events| && TableTells(events, n, strip, b.table) && IndexTells(events, n, b.index)
    requires TableStep(events, n, strip, b, table')
    ensures TableTells(events, n + 1, strip, table')
  {
    hide Tells, IndexTells, Makes, Opens, Updated, Entries;
    SameLength(events, n, strip, b.table);
    EntriesStep(events, n);
    forall i | 0 <= i < |table'| ensures Tells(events, n + 1, strip, table'[i], i) {
      if i < |b.table| {
        UpdatedTells(events, n, strip, b, i);
      } else {
        OpenedTells(events, n, strip, b, table'[i]);
      }
    }
  }

  lemma NamesKept(events: seq<Event>, n: nat, b: Book, index': map<Id, nat>)
    requires n < |events| && IndexTells(events, n, b.index) && IndexStep(events, n, b, index')
    ensures forall key :: key in index' <==> Alive(events, n + 1, key)
  {
    hide Entries, Ended;
    forall key ensures key in index' <==> Alive(events, n + 1, key) {
      assert key in b.index <==> Alive(events, n, key);
    }
  }

  lemma IndexKept(events: seq<Event>, n: nat, b: Book, index': map<Id, nat>)
    requires n < |events| && IndexTells(events, n, b.index) && IndexStep(events, n, b, index')
    requires |b.table| == |Entries(events, n)|
    ensures IndexTells(events, n + 1, index')
  {
    hide Makes, Entries, Ended, Alive;
    NamesKept(events, n, b, index');
    EntriesStep(events, n);
    var m := n + 1;
    forall key | key in index' ensures index'[key] < |Entries(events, m)| && Under(events, m, index'[key], key) {
      UnderKept(events, n, b, index', key);
    }
    forall i | 0 <= i < |Entries(events, m)| ensures Found(events, m, index', i) {
      FoundKept(events, n, b, index', i);
    }
  }

  lemma UnderKept(events: seq<Event>, n: nat, b: Book, index': map<Id, nat>, key: Id)
    requires n < |events| && IndexTells(events, n, b.index) && IndexStep(events, n, b, index')
    requires |b.table| == |Entries(events, n)| && key in index'
    ensures index'[key] < |Entries(events, n + 1)| && Under(events, n + 1, index'[key], key)
  {
    hide Makes, Alive, Ended;
    EntriesStep(events, n);
    if NewName(events, n, key) {
      NotEnded(events, n);
    } else {
      var i := b.index[key];
      assert Under(events, n, i, key);
      EndsTarget(events, n, b.index, i);
      if Target(b.index, events[n]) == Some(i) {
        TargetKey(events, n, b.index, i, key);
      }
    }
  }

  lemma NotEnded(events: seq<Event>, n: nat)
    requires n < |events| && Makes(events, n)
    ensures Ended(events, n + 1, n).None?
  {}

  lemma TargetKey(events: seq<Event>, n: nat, index: map<Id, nat>, i: nat, key: Id)
    requires n < |events| && IndexTells(events, n, index) && i < |Entries(events, n)|
    requires Target(index, events[n]) == Some(i) && key in index && index[key] == i
    ensures Ends(events[n], key)
  {
    hide Makes, Alive, Ended, Entries;
    assert Under(events, n, i, key);
    var e := events[n];
    assert Under(events, n, i, Named(e.id, if e.Free? then e.pointer else e.oldPointer));
  }

  lemma FoundKept(events: seq<Event>, n: nat, b: Book, index': map<Id, nat>, i: nat)
    requires n < |events| && IndexTells(events, n, b.index) && IndexStep(events, n, b, index')
    requires |b.table| == |Entries(events, n)| && i < |Entries(events, n + 1)|
    ensures Found(events, n + 1, index', i)
  {
    hide Makes, Alive, Ended;
    EntriesStep(events, n);
    if i < |b.table| {
      var o := Entries(events, n)[i];
      EndsTarget(events, n, b.index, i);
      assert Found(events, n, b.index, i);
      if Ended(events, n + 1, o).None? && NewName(events, n, KeyAt(events, o)) {
        NewNameWasFree(events, n, KeyAt(events, o));
      }
    }
  }

  lemma NewNameWasFree(events: seq<Event>, n: nat, key: Id)
    requires n < |events| && NewName(events, n, key)
    ensures !Alive(events, n, key) || Ends(events[n], key)
  {}

  lemma LoadedStep(events: seq<Event>, n: nat, strip: seq<nat> -> seq<nat>)
    requires n < |events| && Loaded(events, n + 1, strip).Some?
    ensures Loaded(events, n, strip).Some? && Loadable(Loaded(events, n, strip).value, events[n])
    ensures Loaded(events, n + 1, strip) == Some(Load(Loaded(events, n, strip).value, events[n], strip))
  {}

  /** The table and the index tell what the first `n` events say. */
  ghost predicate BookTells(events: seq<Event>, n: nat, strip: seq<nat> -> seq<nat>, b: Book)
    requires n <= |events|
  {
    TableTells(events, n, strip, b.table) && IndexTells(events, n, b.index)
  }

  lemma EmptyTells(events: seq<Event>, strip: seq<nat> -> seq<nat>)
    ensures BookTells(events, 0, strip, Book([], map[]))
  {}

  lemma BookKept(events: seq<Event>, n: nat, strip: seq<nat> -> seq<nat>, b: Book)
    requires n < |events| && BookTells(events, n, strip, b) && StepOk(events, n, strip, b)
    ensures BookTells(events, n + 1, strip, Noted(b, Meaning(events, n, strip), events[n]))
  {
    hide TableTells, IndexTells, Noted, TableStep, IndexStep;
    var b' := Noted(b, Meaning(events, n, strip), events[n]);
    NotedSteps(events, n, strip, b);
    TableKept(events, n, strip, b, b'.table);
    SameLength(events, n, strip, b.table);
    IndexKept(events, n, b, b'.index);
  }

  // ----- The counters add up the table

  /** The sum of a quantity over all entries. */
  ghost function Total(table: seq<Allocation>, f: Allocation -> int): int {
    if table == [] then 0 else Total(table[..|table| - 1], f) + f(table[|table| - 1])
  }

  lemma TotalAdd(table: seq<Allocation>, a: Allocation, f: Allocation -> int)
    ensures Total(table + [a], f) == Total(table, f) + f(a)
  {
    assert (table + [a])[..|table|] == table;
  }

  lemma {:induction false} TotalChange(table: seq<Allocation>, i: nat, a: Allocation, f: Allocation -> int)
    requires i < |table|
    ensures Total(table[i := a], f) == Total(table, f) - f(table[i]) + f(a)
  {
    var last := |table| - 1;
    if i < last {
      TotalChange(table[..last], i, a, f);
      assert table[i := a][..last] == table[..last][i := a];
    } else {
      assert table[i := a][..last] == table[..last];
    }
  }

  /** What an entry adds to a counter of group `g`: dead entries count as freed, sizes are usable sizes. */
  ghost function Share(g: nat, m: Metric): Allocation -> int {
    (a: Allocation) =>
      if a.body.backtrace != g then 0
      else match m
        case AllocCount => 1
        case AllocSize => a.body.size + a.body.extra
        case FreeCount => if a.deallocation.Some? then 1 else 0
        case FreeSize => if a.deallocation.Some? then a.body.size + a.body.extra else 0
  }

  /** What statistics about allocations that are not in the trace add to a counter. */
  ghost function Added(meaning: map<nat, nat>, e: Event, g: nat, m: Metric): int {
    if e.Statistics? && Lookup(meaning, e.group) == Some(g)
    then (if m.AllocCount? || m.FreeCount? then e.count else e.totalSize)
    else 0
  }

  ghost function Stated(events: seq<Event>, n: nat, strip: seq<nat> -> seq<nat>, g: nat, m: Metric): int
    requires n <= |events|
  {
    if n == 0 then 0
    else Stated(events, n - 1, strip, g, m) + Added(Meaning(events, n - 1, strip), events[n - 1], g, m)
  }

  ghost predicate CounterTells(events: seq<Event>, n: nat, strip: seq<nat> -> seq<nat>, groups: seq<Counts>,
      table: seq<Allocation>, g: nat, m: Metric)
    requires n <= |events|
  {
    At(groups, g, m) == Total(table, Share(g, m)) + Stated(events, n, strip, g, m)
  }

  /** Every counter of every group is the sum over the entries of the group and the statistics about it. */
  ghost predicate CountersTell(events: seq<Event>, n: nat, strip: seq<nat> -> seq<nat>, groups: seq<Counts>,
      table: seq<Allocation>)
    requires n <= |events|
  {
    forall g: nat, m: Metric :: CounterTells(events, n, strip, groups, table, g, m)
  }

  lemma NoCounters(events: seq<Event>, strip: seq<nat> -> seq<nat>)
    ensures CountersTell(events, 0, strip, [], [])
  {}

  /** A counter without what the table gives. */
  ghost function Gap(groups: seq<Counts>, table: seq<Allocation>, g: nat, m: Metric): int {
    At(groups, g, m) - Total(table, Share(g, m))
  }

  /** An entry begins. */
  lemma BegunGap(groups: seq<Counts>, table: seq<Allocation>, a: Allocation, g: nat, m: Metric)
    requires a.deallocation.None? && a.body.backtrace < |groups|
    ensures Gap(Count(groups, a.body.backtrace, Allocated(UsableSize(a.body))), table + [a], g, m)
      == Gap(groups, table, g, m)
  {
    TotalAdd(table, a, Share(g, m));
    CountAt(groups, a.body.backtrace, Allocated(UsableSize(a.body)), g, m);
  }

  /** An entry ends. */
  lemma ClosedGap(groups: seq<Counts>, b: Book, key: Id, d: Deallocation, next: Option<nat>, g: nat, m: Metric)
    requires key in b.index && b.index[key] < |b.table|
    requires var a := b.table[b.index[key]]; a.deallocation.None? && a.body.backtrace < |groups|
    ensures var a := b.table[b.index[key]];
      Gap(Count(groups, a.body.backtrace, Freed(UsableSize(a.body))), Closed(b, key, d, next).table, g, m)
        == Gap(groups, b.table, g, m)
  {
    var i := b.index[key];
    var a := b.table[i];
    TotalChange(b.table, i, a.(deallocation := Some(d), reallocation := next), Share(g, m));
    CountAt(groups, a.body.backtrace, Freed(UsableSize(a.body)), g, m);
  }

  /** The state of the loader and its table belong together. */
  ghost predicate Together(s: Summary, b: Book) {
    && Indexed(b.table, b.index) && s.live == Live(b.table, b.index)
    && (forall k :: k in s.live ==> s.live[k].body.backtrace < |s.groups|)
    && (forall raw :: raw in s.meaning ==> s.meaning[raw] < |s.groups|)
  }

  lemma Entry(s: Summary, b: Book, key: Id)
    requires Together(s, b)
    ensures key in s.live <==> key in b.index
    ensures key in b.index ==>
      b.index[key] < |b.table| && b.table[b.index[key]].deallocation.None? &&
      s.live[key].body == b.table[b.index[key]].body && b.table[b.index[key]].body.backtrace < |s.groups|
  {
    if key in b.index {
      assert Holds(b.index, b.index[key]);
      assert key in s.live;
    }
  }

  lemma PutGap(s: Summary, b: Book, key: Id, timestamp: nat, body: Body, previous: Option<nat>, g: nat, m: Metric)
    requires body.backtrace in s.meaning && s.meaning[body.backtrace] < |s.groups| && key !in s.live
    ensures var g' := s.meaning[body.backtrace];
      var a := Allocation(timestamp, body.(backtrace := g'), None, None, previous, None, 0);
      Gap(Put(s, key, timestamp, body).groups, Begun(b, key, a).table, g, m) == Gap(s.groups, b.table, g, m)
  {
    hide Gap, Count;
    var a := Allocation(timestamp, body.(backtrace := s.meaning[body.backtrace]), None, None, previous, None, 0);
    BegunGap(s.groups, b.table, a, g, m);
  }

  lemma DropGap(s: Summary, b: Book, key: Id, d: Deallocation, next: Option<nat>, g: nat, m: Metric)
    requires Together(s, b) && key in b.index
    ensures b.index[key] < |b.table| && |Drop(s, key).groups| == |s.groups|
    ensures Gap(Drop(s, key).groups, Closed(b, key, d, next).table, g, m) == Gap(s.groups, b.table, g, m)
  {
    hide Gap, Together;
    Entry(s, b, key);
    ClosedGap(s.groups, b, key, d, next, g, m);
  }

  lemma ReallocGap(s: Summary, e: Event, strip: seq<nat> -> seq<nat>, b: Book, g: nat, m: Metric)
    requires Together(s, b) && Loadable(s, e) && e.Realloc?
    ensures Gap(Load(s, e, strip).groups, Noted(b, s.meaning, e).table, g, m) == Gap(s.groups, b.table, g, m)
  {
    hide Gap, Put, Drop, Key, Count;
    var oldKey, key, h := Key(e.id, e.oldPointer), Key(e.id, e.body.pointer), s.meaning[e.body.backtrace];
    Entry(s, b, oldKey);
    if oldKey in b.index {
      Entry(s, b, key);
      var d := Deallocation(e.timestamp, e.body.thread, Some(h));
      DropGap(s, b, oldKey, d, Some(|b.table|), g, m);
      var s1, c := Drop(s, oldKey), Closed(b, oldKey, d, Some(|b.table|));
      DropLive(s, oldKey);
      if key !in c.index {
        PutGap(s1, c, key, e.timestamp, e.body, Some(b.index[oldKey]), g, m);
      } else {
        PutTaken(s1, key, e.timestamp, e.body);
      }
    }
  }

  lemma DropLive(s: Summary, key: Id)
    ensures Drop(s, key).live == s.live - {key} && Drop(s, key).meaning == s.meaning
    ensures |Drop(s, key).groups| == |s.groups|
  {}

  lemma PutTaken(s: Summary, key: Id, timestamp: nat, body: Body)
    requires body.backtrace in s.meaning && key in s.live
    ensures Put(s, key, timestamp, body) == s
  {}

  lemma LoadGap(s: Summary, e: Event, strip: seq<nat> -> seq<nat>, b: Book, g: nat, m: Metric)
    requires Together(s, b) && Loadable(s, e)
    ensures Gap(Load(s, e, strip).groups, Noted(b, s.meaning, e).table, g, m)
      == Gap(s.groups, b.table, g, m) + Added(s.meaning, e, g, m)
  {
    hide Put, Drop, Key, Count, Total;
    match e
    case Alloc(id, timestamp, body) =>
      Entry(s, b, Key(id, body.pointer));
      if Key(id, body.pointer) in b.index {
        PutTaken(s, Key(id, body.pointer), timestamp, body);
      } else {
        PutGap(s, b, Key(id, body.pointer), timestamp, body, None, g, m);
      }
    case Realloc(_, _, _, _) => ReallocGap(s, e, strip, b, g, m);
    case Free(id, timestamp, pointer, freedAt, thread) =>
      Entry(s, b, Key(id, pointer));
      if Key(id, pointer) in b.index {
        DropGap(s, b, Key(id, pointer), Deallocation(timestamp, thread, Lookup(s.meaning, freedAt)), None, g, m);
      } else {
        DropUnknown(s, Key(id, pointer));
      }
    case Statistics(group, count, size) => CountAt(s.groups, s.meaning[group], Gone(count, size), g, m);
    case _ =>
  }

  lemma DropUnknown(s: Summary, key: Id)
    requires key !in s.live
    ensures Drop(s, key) == s
  {}

  lemma CountersKept(events: seq<Event>, n: nat, strip: seq<nat> -> seq<nat>, b: Book)
    requires n < |events| && Loaded(events, n + 1, strip).Some?
    requires Loaded(events, n, strip).Some? && Together(Loaded(events, n, strip).value, b)
    requires CountersTell(events, n, strip, Loaded(events, n, strip).value.groups, b.table)
    ensures Loadable(Loaded(events, n, strip).value, events[n])
    ensures CountersTell(events, n + 1, strip, Loaded(events, n + 1, strip).value.groups,
      Noted(b, Meaning(events, n, strip), events[n]).table)
  {
    hide Load, Loadable, Noted, Together;
    var s, m := Loaded(events, n, strip).value, n + 1;
    LoadedStep(events, n, strip);
    TogetherTable(s, b);
    LoadableKnows(s, events[n]);
    var s', b' := Load(s, events[n], strip), Noted(b, s.meaning, events[n]);
    forall g: nat, c: Metric ensures CounterTells(events, m, strip, s'.groups, b'.table, g, c) {
      LoadGap(s, events[n], strip, b, g, c);
      assert CounterTells(events, n, strip, s.groups, b.table, g, c);
    }
  }

  lemma TogetherTable(s: Summary, b: Book)
    requires Together(s, b)
    ensures InTable(b.index, b.table)
  {}

  lemma LoadableKnows(s: Summary, e: Event)
    requires Loadable(s, e)
    ensures e.Alloc? || e.Realloc? ==> e.body.backtrace in s.meaning
  {}
}
