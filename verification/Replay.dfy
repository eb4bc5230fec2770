/**
 The replay format: a trace of heap operations is compiled to slot operations and call-stack moves,
 which a recursive interpreter executes.
 */
module Replay {
  import opened Basics

  type Pointer = nat
  type Frame = nat

  /** What a memory allocator returned: a block, or nothing. */
  type Block = Option<nat>

  // ----- The trace

  /** An operation of the trace; backtraces list frames from the outermost in. */
  datatype Operation =
    | Allocation(pointer: Pointer, size: nat, timestamp: nat, backtrace: seq<Frame>)
    | Deallocation(pointer: Pointer, timestamp: nat, recorded: Option<seq<Frame>>)
    | Reallocation(oldPointer: Pointer, pointer: Pointer, size: nat, timestamp: nat, backtrace: seq<Frame>)

  /** The operation makes sense when exactly these pointers are live. */
  predicate Possible(live: set<Pointer>, op: Operation) {
    match op
    case Allocation(p, _, _, _) => p !in live
    case Deallocation(p, _, _) => p in live
    case Reallocation(o, p, _, _, _) => o in live && p !in live - {o}
  }

  function LiveAfter(live: set<Pointer>, op: Operation): set<Pointer> {
    match op
    case Allocation(p, _, _, _) => live + {p}
    case Deallocation(p, _, _) => live - {p}
    case Reallocation(o, p, _, _, _) => live - {o} + {p}
  }

  /** The pointers live after the first `n` operations. */
  function Live(ops: seq<Operation>, n: nat): set<Pointer>
    requires n <= |ops|
  {
    if n == 0 then {} else LiveAfter(Live(ops, n - 1), ops[n - 1])
  }

  predicate PossibleAt(ops: seq<Operation>, n: nat)
    requires n < |ops|
  {
    Possible(Live(ops, n), ops[n])
  }

  /** Allocations never return a live pointer; frees and reallocations name live ones. */
  ghost predicate WellFormed(ops: seq<Operation>) {
    forall n :: 0 <= n < |ops| ==> PossibleAt(ops, n)
  }

  /** The largest number of pointers live at the same time during the first `n` operations. */
  ghost function Peak(ops: seq<Operation>, n: nat): nat
    requires n <= |ops|
  {
    if n == 0 then 0 else Max(Peak(ops, n - 1), |Live(ops, n)|)
  }

  // ----- What the trace does, by pointer

  /** One effect on the heap, and the call stack it happened on. */
  datatype Event =
    | Malloc(size: nat, timestamp: nat, stack: seq<nat>)
    | Free(block: Block, timestamp: nat, stack: seq<nat>)
    | Realloc(block: Block, size: nat, timestamp: nat, stack: seq<nat>)

  /** The heap by pointer: the block each live pointer stands for, the last recorded backtrace, what happened so far. */
  datatype World = World(blocks: map<Pointer, Block>, backtrace: seq<Frame>, count: nat, log: seq<Event>)

  const START := World(map[], [], 0, [])

  /** The backtrace an operation records, if it records one. */
  function Recorded(op: Operation): Option<seq<Frame>> {
    if op.Deallocation? then op.recorded else Some(op.backtrace)
  }

  function BacktraceAfter(before: seq<Frame>, op: Operation): seq<Frame> {
    if Recorded(op).Some? then Recorded(op).value else before
  }

  /** `frames` numbers the frames of a backtrace. */
  function Numbered(frames: map<Frame, nat>, backtrace: seq<Frame>): seq<nat>
    requires forall i :: 0 <= i < |backtrace| ==> backtrace[i] in frames
  {
    seq(|backtrace|, i requires 0 <= i < |backtrace| => frames[backtrace[i]])
  }

  predicate Known(frames: map<Frame, nat>, backtrace: seq<Frame>) {
    forall i :: 0 <= i < |backtrace| ==> backtrace[i] in frames
  }

  /** What an operation does to the heap, on the call stack of its backtrace. */
  function Effect(w: World, op: Operation): Event
    requires Possible(w.blocks.Keys, op)
  {
    var stack := BacktraceAfter(w.backtrace, op);
    match op
    case Allocation(_, size, timestamp, _) => Malloc(size, timestamp, stack)
    case Deallocation(p, timestamp, _) => Free(w.blocks[p], timestamp, stack)
    case Reallocation(o, _, size, timestamp, _) => Realloc(w.blocks[o], size, timestamp, stack)
  }

  /** Executes an operation by pointer; `heap` is what the allocator answers to each request in turn. */
  function Perform(w: World, op: Operation, heap: nat -> Block): World
    requires Possible(w.blocks.Keys, op)
  {
    var backtrace, log := BacktraceAfter(w.backtrace, op), w.log + [Effect(w, op)];
    match op
    case Allocation(p, _, _, _) => World(w.blocks[p := heap(w.count)], backtrace, w.count + 1, log)
    case Deallocation(p, _, _) => World(w.blocks - {p}, backtrace, w.count, log)
    case Reallocation(o, p, _, _, _) =>
      World((w.blocks - {o})[p := heap(w.count)], backtrace, w.count + 1, log)
  }

  /** The second log is the first with its frames numbered. */
  ghost predicate SameEffects(frames: map<Frame, nat>, log: seq<Event>, numbered: seq<Event>) {
    && |log| == |numbered|
    && forall k :: 0 <= k < |log| ==>
      Known(frames, log[k].stack) && numbered[k] == log[k].(stack := Numbered(frames, log[k].stack))
  }

  /** A table of frames by number, with every frame at its own number. */
  ghost predicate IsTable(order: seq<Frame>, frames: map<Frame, nat>) {
    && (forall i :: 0 <= i < |order| ==> order[i] in frames && frames[order[i]] == i)
    && (forall f :: f in frames ==> f in order)
  }

  predicate Readable(order: seq<Frame>, stack: seq<nat>) {
    forall i :: 0 <= i < |stack| ==> stack[i] < |order|
  }

  /** The frames a call stack of numbers stands for. */
  function Read(order: seq<Frame>, stack: seq<nat>): seq<Frame>
    requires Readable(order, stack)
  {
    seq(|stack|, i requires 0 <= i < |stack| => order[stack[i]])
  }

  /** With the numbers read as frames, the second log is the first. */
  ghost predicate ReadsAs(order: seq<Frame>, numbered: seq<Event>, log: seq<Event>) {
    && |numbered| == |log|
    && forall k :: 0 <= k < |log| ==>
      Readable(order, numbered[k].stack) && numbered[k].(stack := Read(order, numbered[k].stack)) == log[k]
  }

  lemma NumberedReads(order: seq<Frame>, frames: map<Frame, nat>, backtrace: seq<Frame>)
    requires IsTable(order, frames) && Known(frames, backtrace)
    ensures Readable(order, Numbered(frames, backtrace)) && Read(order, Numbered(frames, backtrace)) == backtrace
  {
    var stack := Numbered(frames, backtrace);
    forall i | 0 <= i < |stack| ensures stack[i] < |order| && order[stack[i]] == backtrace[i] {
      var j :| 0 <= j < |order| && order[j] == backtrace[i];
    }
  }

  /** Numbering by a table loses nothing: read through the table, every call stack is the recorded one. */
  lemma SameEffectsRead(order: seq<Frame>, frames: map<Frame, nat>, log: seq<Event>, numbered: seq<Event>)
    requires IsTable(order, frames) && SameEffects(frames, log, numbered)
    ensures ReadsAs(order, numbered, log)
  {
    forall k | 0 <= k < |log|
      ensures Readable(order, numbered[k].stack) && numbered[k].(stack := Read(order, numbered[k].stack)) == log[k]
    {
      NumberedReads(order, frames, log[k].stack);
    }
  }

  // ----- First pass: slots

  datatype Slots = Slots(free: seq<nat>, count: nat, byPointer: map<Pointer, nat>)

  const NO_SLOTS := Slots([], 0, map[])

  /** The slot an operation uses. */
  function SlotOf(s: Slots, op: Operation): nat
    requires Possible(s.byPointer.Keys, op)
  {
    match op
    case Allocation(_, _, _, _) => if s.free == [] then s.count else s.free[|s.free| - 1]
    case Deallocation(p, _, _) => s.byPointer[p]
    case Reallocation(o, _, _, _, _) => s.byPointer[o]
  }

  function SlotsAfter(s: Slots, op: Operation): Slots
    requires Possible(s.byPointer.Keys, op)
  {
    var slot := SlotOf(s, op);
    match op
    case Allocation(p, _, _, _) =>
      if s.free == [] then Slots([], s.count + 1, s.byPointer[p := slot])
      else Slots(s.free[..|s.free| - 1], s.count, s.byPointer[p := slot])
    case Deallocation(p, _, _) => Slots(s.free + [slot], s.count, s.byPointer - {p})
    case Reallocation(o, p, _, _, _) => Slots(s.free, s.count, (s.byPointer - {o})[p := slot])
  }

  /** Every slot is either free, once, or held by exactly one live pointer. */
  ghost predicate SlotsInv(s: Slots) {
    && Distinct(s.free) && (forall i :: 0 <= i < |s.free| ==> s.free[i] < s.count)
    && (forall p :: p in s.byPointer ==> s.byPointer[p] < s.count && s.byPointer[p] !in s.free)
    && (forall p, q :: p in s.byPointer && q in s.byPointer && s.byPointer[p] == s.byPointer[q] ==> p == q)
  }

  /** What one operation does to the slots: it keeps them apart. */
  ghost predicate StepKeeps(s: Slots, op: Operation)
    requires Possible(s.byPointer.Keys, op)
  {
    var t := SlotsAfter(s, op);
    && SlotsInv(t) && t.byPointer.Keys == LiveAfter(s.byPointer.Keys, op)
    && SlotOf(s, op) < t.count
    && (op.Allocation? ==> forall p :: p in s.byPointer ==> s.byPointer[p] != SlotOf(s, op))
  }

  lemma FreshSlot(s: Slots, op: Operation)
    requires SlotsInv(s) && op.Allocation? && Possible(s.byPointer.Keys, op) && s.free == []
    ensures StepKeeps(s, op)
  {}

  lemma ReusedSlot(s: Slots, op: Operation)
    requires SlotsInv(s) && op.Allocation? && Possible(s.byPointer.Keys, op) && s.free != []
    ensures StepKeeps(s, op)
  {
    var t, last := SlotsAfter(s, op), |s.free| - 1;
    assert s.free[last] !in t.free;
    assert forall x :: x in t.free ==> x in s.free;
  }

  lemma ReleasedSlot(s: Slots, op: Operation)
    requires SlotsInv(s) && op.Deallocation? && Possible(s.byPointer.Keys, op)
    ensures StepKeeps(s, op)
  {
    assert forall x :: x in s.free + [s.byPointer[op.pointer]] <==> x in s.free || x == s.byPointer[op.pointer];
  }

  lemma MovedSlot(s: Slots, op: Operation)
    requires SlotsInv(s) && op.Reallocation? && Possible(s.byPointer.Keys, op)
    ensures StepKeeps(s, op)
  {}

  lemma SlotsStep(s: Slots, op: Operation)
    requires SlotsInv(s) && Possible(s.byPointer.Keys, op)
    ensures StepKeeps(s, op)
  {
    match op {
      case Allocation(_, _, _, _) => if s.free == [] { FreshSlot(s, op); } else { ReusedSlot(s, op); }
      case Deallocation(_, _, _) => ReleasedSlot(s, op);
      case Reallocation(_, _, _, _, _) => MovedSlot(s, op);
    }
  }

  lemma SlotsAfterKeys(s: Slots, op: Operation)
    requires Possible(s.byPointer.Keys, op)
    ensures SlotsAfter(s, op).byPointer.Keys == LiveAfter(s.byPointer.Keys, op)
    ensures s.count <= SlotsAfter(s, op).count
  {}

  /** The slots after the first `n` operations. */
  function SlotsFor(ops: seq<Operation>, n: nat): (s: Slots)
    requires WellFormed(ops) && n <= |ops|
    ensures s.byPointer.Keys == Live(ops, n)
  {
    if n == 0 then NO_SLOTS
    else
      assert PossibleAt(ops, n - 1);
      SlotsAfterKeys(SlotsFor(ops, n - 1), ops[n - 1]);
      SlotsAfter(SlotsFor(ops, n - 1), ops[n - 1])
  }

  lemma SlotsNext(ops: seq<Operation>, n: nat)
    requires WellFormed(ops) && n < |ops|
    ensures Possible(SlotsFor(ops, n).byPointer.Keys, ops[n])
    ensures SlotsFor(ops, n + 1) == SlotsAfter(SlotsFor(ops, n), ops[n])
    ensures SlotsFor(ops, n).count <= SlotsFor(ops, n + 1).count
  {
    assert PossibleAt(ops, n);
    SlotsAfterKeys(SlotsFor(ops, n), ops[n]);
  }

  lemma SlotsInvStep(ops: seq<Operation>, n: nat)
    requires WellFormed(ops) && n < |ops| && SlotsInv(SlotsFor(ops, n))
    ensures SlotsInv(SlotsFor(ops, n + 1))
  {
    hide SlotsFor, SlotsInv;
    SlotsNext(ops, n);
    SlotsStep(SlotsFor(ops, n), ops[n]);
  }

  lemma NoSlotsInv(ops: seq<Operation>)
    requires WellFormed(ops)
    ensures SlotsInv(SlotsFor(ops, 0))
  {}

  /** Over every run, the slots stay apart. */
  lemma {:induction false} SlotsForInv(ops: seq<Operation>, n: nat)
    requires WellFormed(ops) && n <= |ops|
    ensures SlotsInv(SlotsFor(ops, n))
  {
    hide SlotsFor, SlotsInv, WellFormed;
    if n == 0 {
      NoSlotsInv(ops);
    } else {
      SlotsForInv(ops, n - 1);
      SlotsInvStep(ops, n - 1);
    }
  }

  /** The slot operation `n` uses. */
  function SlotAt(ops: seq<Operation>, n: nat): nat
    requires WellFormed(ops) && n < |ops|
  {
    assert PossibleAt(ops, n);
    SlotOf(SlotsFor(ops, n), ops[n])
  }

  /** How many pointers are live, counted along. */
  function LiveCount(ops: seq<Operation>, n: nat): int
    requires n <= |ops|
  {
    if n == 0 then 0
    else LiveCount(ops, n - 1) + (match ops[n - 1]
      case Allocation(_, _, _, _) => 1
      case Deallocation(_, _, _) => -1
      case Reallocation(_, _, _, _, _) => 0)
  }

  lemma LiveAfterSize(live: set<Pointer>, op: Operation)
    requires Possible(live, op)
    ensures |LiveAfter(live, op)| == |live| + (if op.Allocation? then 1 else if op.Deallocation? then -1 else 0)
  {
    if op.Reallocation? {
      assert |live - {op.oldPointer}| == |live| - 1;
      assert |live - {op.oldPointer} + {op.pointer}| == |live - {op.oldPointer}| + 1;
    }
  }

  lemma {:induction false} LiveCountIsSize(ops: seq<Operation>, n: nat)
    requires WellFormed(ops) && n <= |ops|
    ensures LiveCount(ops, n) == |Live(ops, n)|
  {
    hide LiveAfter;
    if n > 0 {
      assert PossibleAt(ops, n - 1);
      LiveCountIsSize(ops, n - 1);
      LiveAfterSize(Live(ops, n - 1), ops[n - 1]);
    }
  }

  /** Slots are free or live, and a new one is made only when all are live. */
  lemma {:induction false} SlotCountStep(ops: seq<Operation>, n: nat)
    requires WellFormed(ops) && n <= |ops|
    ensures |SlotsFor(ops, n).free| + LiveCount(ops, n) == SlotsFor(ops, n).count
    ensures n > 0 ==> SlotsFor(ops, n).count == Max(SlotsFor(ops, n - 1).count, LiveCount(ops, n))
  {
    if n > 0 {
      assert PossibleAt(ops, n - 1);
      SlotCountStep(ops, n - 1);
    }
  }

  ghost function PeakCount(ops: seq<Operation>, n: nat): int
    requires n <= |ops|
  {
    if n == 0 then 0 else Max(PeakCount(ops, n - 1), LiveCount(ops, n))
  }

  lemma {:induction false} PeakCountIsPeak(ops: seq<Operation>, n: nat)
    requires WellFormed(ops) && n <= |ops|
    ensures PeakCount(ops, n) == Peak(ops, n)
  {
    hide LiveCount, Live, LiveAfter, WellFormed;
    if n > 0 {
      PeakCountIsPeak(ops, n - 1);
      LiveCountIsSize(ops, n);
    }
  }

  lemma {:induction false} SlotCountIsPeakCount(ops: seq<Operation>, n: nat)
    requires WellFormed(ops) && n <= |ops|
    ensures SlotsFor(ops, n).count == PeakCount(ops, n)
  {
    if n > 0 {
      SlotCountIsPeakCount(ops, n - 1);
      SlotCountStep(ops, n);
    }
  }

  /** The number of slots is exactly the peak number of simultaneously live allocations. */
  lemma SlotCountIsPeak(ops: seq<Operation>, n: nat)
    requires WellFormed(ops) && n <= |ops|
    ensures SlotsFor(ops, n).count == Peak(ops, n)
  {
    SlotCountIsPeakCount(ops, n);
    PeakCountIsPeak(ops, n);
  }
}
