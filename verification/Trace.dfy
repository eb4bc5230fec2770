/** Profiling traces: their events, and what loading one computes per backtrace and for the live heap. */
module Trace {
  import opened Basics

  /** An allocation's identifier. */
  datatype Id = Id(thread: nat, allocation: nat)

  const UNTRACKED := Id(0, 0)
  const INVALID := Id(0xFFFF_FFFF_FFFF_FFFF, 0xFFFF_FFFF_FFFF_FFFF)

  predicate Tracked(id: Id) { id != UNTRACKED && id != INVALID }

  /** The part of an allocation event that describes the block; `backtrace` is the raw number used in the trace. */
  datatype Body = Body(pointer: nat, size: nat, extra: nat, backtrace: nat, thread: nat, flags: nat)

  function UsableSize(b: Body): nat { b.size + b.extra }

  datatype Event =
    | Alloc(id: Id, timestamp: nat, body: Body)
    | Realloc(id: Id, timestamp: nat, oldPointer: nat, body: Body)
    | Free(id: Id, timestamp: nat, pointer: nat, freedAt: nat, thread: nat)
    | Backtrace(number: nat, addresses: seq<nat>)
    | PartialBacktrace(number: nat, onThread: nat, invalidated: Option<nat>, addresses: seq<nat>)
    | Statistics(group: nat, count: nat, totalSize: nat)
    | Other(tag: nat)

  /** Allocation and free counters of a group of allocations. */
  datatype Counts = Counts(allocCount: int, allocSize: int, freeCount: int, freeSize: int)

  function Zero(): Counts { Counts(0, 0, 0, 0) }

  function Plus(a: Counts, b: Counts): Counts {
    Counts(a.allocCount + b.allocCount, a.allocSize + b.allocSize, a.freeCount + b.freeCount, a.freeSize + b.freeSize)
  }

  function Allocated(size: nat): Counts { Counts(1, size, 0, 0) }
  function Freed(size: nat): Counts { Counts(0, 0, 1, size) }
  function Gone(count: nat, size: nat): Counts { Counts(count, size, count, size) }

  /** A live block: when it was made, and its description with the backtrace as numbered by the loader. */
  datatype LiveBlock = LiveBlock(timestamp: nat, body: Body)

  /** A block as the loader records it, given the loader's number of its backtrace. */
  function Recorded(timestamp: nat, body: Body, g: nat): LiveBlock {
    LiveBlock(timestamp, body.(backtrace := g))
  }

  /** The key of an allocation in the table of live blocks. */
  function Key(id: Id, pointer: nat): Id {
    if Tracked(id) then id else Id(0, pointer)
  }

  /**
   What loading keeps: the loader's number of every backtrace seen, the meaning of the trace's raw
   numbers, the counters per backtrace, and the live blocks.
   */
  datatype Summary = Summary(
    numbers: map<seq<nat>, nat>,
    meaning: map<nat, nat>,
    previous: map<nat, seq<nat>>,
    groups: seq<Counts>,
    live: map<Id, LiveBlock>)

  const EMPTY := Summary(map[], map[], map[], [], map[])

  function Count(groups: seq<Counts>, g: nat, c: Counts): seq<Counts> {
    if g < |groups| then groups[g := Plus(groups[g], c)] else groups
  }

  /** The full address list of a partial backtrace. */
  function Expanded(previous: map<nat, seq<nat>>, e: Event): seq<nat>
    requires e.PartialBacktrace?
  {
    match e.invalidated
    case None => e.addresses
    case Some(n) =>
      var last := if e.onThread in previous then previous[e.onThread] else [];
      e.addresses + (if n <= |last| then last[n..] else [])
  }

  /** The raw backtrace numbers an event relies on are known. */
  predicate Loadable(s: Summary, e: Event) {
    match e
    case Alloc(_, _, body) => body.backtrace in s.meaning
    case Realloc(_, _, _, body) => body.backtrace in s.meaning
    case Statistics(group, _, _) => group in s.meaning
    case _ => true
  }

  /** A backtrace is numbered by its addresses without the profiler's own frames, which `strip` takes off. */
  function Declare(s: Summary, number: nat, addresses: seq<nat>, strip: seq<nat> -> seq<nat>): Summary {
    var frames := strip(addresses);
    if frames in s.numbers then s.(meaning := s.meaning[number := s.numbers[frames]])
    else
      var g := |s.groups|;
      s.(numbers := s.numbers[frames := g], meaning := s.meaning[number := g], groups := s.groups + [Zero()])
  }

  function Put(s: Summary, key: Id, timestamp: nat, body: Body): Summary
    requires body.backtrace in s.meaning
  {
    var g := s.meaning[body.backtrace];
    if key in s.live then s
    else s.(groups := Count(s.groups, g, Allocated(UsableSize(body))),
        live := s.live[key := Recorded(timestamp, body, g)])
  }

  function Drop(s: Summary, key: Id): Summary {
    if key !in s.live then s
    else
      var block := s.live[key];
      s.(groups := Count(s.groups, block.body.backtrace, Freed(UsableSize(block.body))), live := s.live - {key})
  }

  /** Loading one event: duplicate allocations and unknown frees are ignored. */
  function Load(s: Summary, e: Event, strip: seq<nat> -> seq<nat>): Summary
    requires Loadable(s, e)
  {
    match e
    case Alloc(id, timestamp, body) => Put(s, Key(id, body.pointer), timestamp, body)
    case Realloc(id, timestamp, oldPointer, body) =>
      var oldKey := Key(id, oldPointer);
      if oldKey !in s.live then s else Put(Drop(s, oldKey), Key(id, body.pointer), timestamp, body)
    case Free(id, _, pointer, _, _) => Drop(s, Key(id, pointer))
    case Backtrace(number, addresses) => Declare(s, number, addresses, strip)
    case PartialBacktrace(number, onThread, _, _) =>
      var addresses := Expanded(s.previous, e);
      Declare(s, number, addresses, strip).(previous := s.previous[onThread := addresses])
    case Statistics(group, count, size) => s.(groups := Count(s.groups, s.meaning[group], Gone(count, size)))
    case Other(_) => s
  }

  /** The first `n` events can be loaded, and this is what comes of it. */
  ghost function Loaded(events: seq<Event>, n: nat, strip: seq<nat> -> seq<nat>): Option<Summary>
    requires n <= |events|
  {
    if n == 0 then Some(EMPTY)
    else
      match Loaded(events, n - 1, strip)
      case None => None
      case Some(s) => if Loadable(s, events[n - 1]) then Some(Load(s, events[n - 1], strip)) else None
  }

  lemma {:induction false} LoadedPrefix(a: seq<Event>, b: seq<Event>, n: nat, strip: seq<nat> -> seq<nat>)
    requires n <= |a|
    ensures Loaded(a + b, n, strip) == Loaded(a, n, strip)
  {
    if n > 0 {
      LoadedPrefix(a, b, n - 1, strip);
    }
  }

  /** Loading one event more. */
  lemma LoadedAppend(events: seq<Event>, e: Event, strip: seq<nat> -> seq<nat>)
    requires Loaded(events, |events|, strip).Some? && Loadable(Loaded(events, |events|, strip).value, e)
    ensures Loaded(events + [e], |events| + 1, strip) == Some(Load(Loaded(events, |events|, strip).value, e, strip))
  {
    LoadedPrefix(events, [e], |events|, strip);
  }

  // ----- Allocations held back

  /** An allocation or reallocation that was held back. */
  datatype Buffered = Buffered(timestamp: nat, body: Body)

  /** How the `i`-th event of a pending allocation is written. */
  function Written(id: Id, events: seq<Buffered>, i: nat): Event
    requires i < |events|
  {
    if i == 0 then Alloc(id, events[0].timestamp, events[0].body)
    else Realloc(id, events[i].timestamp, events[i - 1].body.pointer, events[i].body)
  }

  /** The first `n` events of a pending allocation, as written. */
  function Chain(id: Id, events: seq<Buffered>, n: nat): (r: seq<Event>)
    requires n <= |events|
  {
    if n == 0 then [] else Chain(id, events, n - 1) + [Written(id, events, n - 1)]
  }

  // ----- One counter at a time

  datatype Metric = AllocCount | AllocSize | FreeCount | FreeSize

  function Value(c: Counts, m: Metric): int {
    match m
    case AllocCount => c.allocCount
    case AllocSize => c.allocSize
    case FreeCount => c.freeCount
    case FreeSize => c.freeSize
  }

  /** One counter of a group; groups not there yet count nothing. */
  function At(groups: seq<Counts>, g: nat, m: Metric): int {
    if g < |groups| then Value(groups[g], m) else 0
  }

  lemma CountAt(groups: seq<Counts>, g: nat, c: Counts, h: nat, m: Metric)
    requires g < |groups|
    ensures |Count(groups, g, c)| == |groups|
    ensures At(Count(groups, g, c), h, m) == At(groups, h, m) + (if h == g then Value(c, m) else 0)
  {}

  /** Groups are equal when all their counters are. */
  lemma SameAt(a: seq<Counts>, b: seq<Counts>)
    requires |a| == |b|
    requires forall g: nat, m: Metric :: At(a, g, m) == At(b, g, m)
    ensures a == b
  {
    forall g | 0 <= g < |a| ensures a[g] == b[g] {
      assert At(a, g, AllocCount) == At(b, g, AllocCount);
      assert At(a, g, AllocSize) == At(b, g, AllocSize);
      assert At(a, g, FreeCount) == At(b, g, FreeCount);
      assert At(a, g, FreeSize) == At(b, g, FreeSize);
    }
  }

  // ----- Sums over tables

  /** The sum of a quantity over all entries of a table. */
  ghost function Sum<K(!new), V(!new)>(m: map<K, V>, f: (K, V) -> int): int
    decreases |m|
  {
    if m == map[] then 0
    else
      var k :| k in m;
      Shrinks(m, k);
      f(k, m[k]) + Sum(m - {k}, f)
  }

  lemma Shrinks<K, V>(m: map<K, V>, k: K)
    requires k in m
    ensures |m - {k}| == |m| - 1
  {
    assert (m - {k}).Keys == m.Keys - {k};
  }

  /** Any entry can be taken out first. */
  lemma {:induction false} SumRemove<K(!new), V(!new)>(m: map<K, V>, f: (K, V) -> int, k: K)
    requires k in m
    ensures Sum(m, f) == f(k, m[k]) + Sum(m - {k}, f)
    decreases |m|
  {
    var j :| j in m && Sum(m, f) == f(j, m[j]) + Sum(m - {j}, f);
    if j != k {
      Shrinks(m, j);
      SumRemove(m - {j}, f, k);
      Shrinks(m, k);
      SumRemove(m - {k}, f, j);
      assert m - {k} - {j} == m - {j} - {k};
      assert (m - {j})[k] == m[k] && (m - {k})[j] == m[j];
    }
  }

  lemma SumInsert<K(!new), V(!new)>(m: map<K, V>, f: (K, V) -> int, k: K, v: V)
    ensures Sum(m[k := v], f) == f(k, v) + Sum(m - {k}, f)
  {
    SumRemove(m[k := v], f, k);
    assert m[k := v] - {k} == m - {k};
  }
}
