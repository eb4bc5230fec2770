/** The two-pass exporter, and the proof that its program does what the trace did. */
module ReplayExporter {
  import opened Basics
  import opened Replay
  import opened ReplayMachine

  function Ups(n: nat): seq<Op> {
    if n == 0 then [] else [GoUp] + Ups(n - 1)
  }

  function Downs(frames: seq<nat>): seq<Op> {
    seq(|frames|, i requires 0 <= i < |frames| => GoDown(frames[i]))
  }

  /** The length of the common part of two backtraces, from the outermost frame in. */
  function CommonLength(a: seq<Frame>, b: seq<Frame>): (n: nat)
    ensures n <= |a| && n <= |b| && a[..n] == b[..n]
  {
    if a == [] || b == [] || a[0] != b[0] then 0
    else
      var n := CommonLength(a[1..], b[1..]);
      FirstAndNext(a, n);
      FirstAndNext(b, n);
      n + 1
  }

  lemma FirstAndNext(a: seq<Frame>, n: nat)
    requires n < |a|
    ensures a[..n + 1] == [a[0]] + a[1..][..n]
  {
    var next := a[1..];
    forall i | 0 <= i < n ensures a[..n + 1][i + 1] == next[..n][i] {
    }
  }

  /** The moves from the call stack of one backtrace to that of another. */
  function Traversal(frames: map<Frame, nat>, from: seq<Frame>, to: seq<Frame>): seq<Op>
    requires Known(frames, to)
  {
    var common := CommonLength(to, from);
    Ups(|from| - common) + Downs(Numbered(frames, to[common..]))
  }

  /** The heap operation of an exported operation. A free carries the timestamp of its allocation. */
  function Generate(slot: nat, op: Operation): Op {
    match op
    case Allocation(_, size, timestamp, _) => OpAlloc(slot, timestamp, size)
    case Deallocation(_, timestamp, _) => OpFree(slot, timestamp)
    case Reallocation(_, _, size, timestamp, _) => OpRealloc(slot, timestamp, size)
  }

  lemma {:induction false} UpsRun(n: nat, m: Machine, heap: nat -> Block)
    requires n <= |m.stack|
    ensures After(Ups(n), m, heap) == Some(m.(stack := m.stack[..|m.stack| - n]))
  {
    if n == 0 {
      assert m.stack[..|m.stack|] == m.stack;
    } else {
      var shorter := m.stack[..|m.stack| - 1];
      UpsRun(n - 1, m.(stack := shorter), heap);
      assert Ups(n)[1..] == Ups(n - 1) && shorter[..|m.stack| - n] == m.stack[..|m.stack| - n];
    }
  }

  lemma {:induction false} DownsRun(frames: seq<nat>, m: Machine, heap: nat -> Block)
    ensures After(Downs(frames), m, heap) == Some(m.(stack := m.stack + frames))
    decreases |frames|
  {
    if frames == [] {
      assert m.stack + frames == m.stack;
    } else {
      DownsRun(frames[1..], m.(stack := m.stack + [frames[0]]), heap);
      assert Downs(frames)[1..] == Downs(frames[1..]);
      assert m.stack + [frames[0]] + frames[1..] == m.stack + frames;
    }
  }

  /** After the moves the call stack is the new backtrace, and nothing else has changed. */
  lemma TraversalRuns(frames: map<Frame, nat>, from: seq<Frame>, to: seq<Frame>, m: Machine, heap: nat -> Block)
    requires Known(frames, from) && Known(frames, to) && m.stack == Numbered(frames, from)
    ensures After(Traversal(frames, from, to), m, heap) == Some(m.(stack := Numbered(frames, to)))
  {
    hide After, Ups, Downs, CommonLength;
    var common := CommonLength(to, from);
    var tail := Numbered(frames, to[common..]);
    NumberedJoin(frames, from, to, common);
    UpsRun(|from| - common, m, heap);
    DownsRun(tail, m.(stack := m.stack[..common]), heap);
    AfterConcat(Ups(|from| - common), Downs(tail), m, heap);
  }

  lemma NumberedJoin(frames: map<Frame, nat>, from: seq<Frame>, to: seq<Frame>, common: nat)
    requires Known(frames, from) && Known(frames, to) && common <= |from| && common <= |to|
    requires from[..common] == to[..common]
    ensures Numbered(frames, from)[..common] + Numbered(frames, to[common..]) == Numbered(frames, to)
  {
    var joined := Numbered(frames, from)[..common] + Numbered(frames, to[common..]);
    forall i | 0 <= i < |to| ensures joined[i] == Numbered(frames, to)[i] {
      if i < common {
        assert from[..common][i] == to[..common][i];
      }
    }
  }

  /** Every recorded backtrace has its frames numbered. */
  ghost predicate AllKnown(frames: map<Frame, nat>, ops: seq<Operation>) {
    forall i :: 0 <= i < |ops| && Recorded(ops[i]).Some? ==> Known(frames, Recorded(ops[i]).value)
  }

  /** The most recent backtrace recorded by the first `n` operations. */
  function LastBacktrace(ops: seq<Operation>, n: nat): seq<Frame>
    requires n <= |ops|
  {
    if n == 0 then [] else BacktraceAfter(LastBacktrace(ops, n - 1), ops[n - 1])
  }

  lemma {:induction false} LastKnown(frames: map<Frame, nat>, ops: seq<Operation>, n: nat)
    requires AllKnown(frames, ops) && n <= |ops|
    ensures Known(frames, LastBacktrace(ops, n))
  {
    if n > 0 {
      LastKnown(frames, ops, n - 1);
    }
  }

  /** What is generated for one operation. */
  function Segment(frames: map<Frame, nat>, from: seq<Frame>, slot: nat, op: Operation): seq<Op>
    requires Recorded(op).Some? ==> Known(frames, Recorded(op).value)
  {
    (if Recorded(op).Some? then Traversal(frames, from, Recorded(op).value) else []) + [Generate(slot, op)]
  }

  /** The program of the first `n` operations, without an end mark. */
  function Program(frames: map<Frame, nat>, ops: seq<Operation>, n: nat): seq<Op>
    requires WellFormed(ops) && AllKnown(frames, ops) && n <= |ops|
  {
    if n == 0 then []
    else Program(frames, ops, n - 1) + Segment(frames, LastBacktrace(ops, n - 1), SlotAt(ops, n - 1), ops[n - 1])
  }

  lemma PerformKeys(w: World, op: Operation, heap: nat -> Block)
    requires Possible(w.blocks.Keys, op)
    ensures Perform(w, op, heap).blocks.Keys == LiveAfter(w.blocks.Keys, op)
    ensures Perform(w, op, heap).backtrace == BacktraceAfter(w.backtrace, op)
  {}

  /** What the first `n` operations of the trace do, by pointer. */
  function WorldFor(ops: seq<Operation>, n: nat, heap: nat -> Block): (w: World)
    requires WellFormed(ops) && n <= |ops|
    ensures w.blocks.Keys == Live(ops, n) && w.backtrace == LastBacktrace(ops, n)
  {
    if n == 0 then START
    else
      assert PossibleAt(ops, n - 1);
      PerformKeys(WorldFor(ops, n - 1, heap), ops[n - 1], heap);
      Perform(WorldFor(ops, n - 1, heap), ops[n - 1], heap)
  }

  lemma PerformLog(w: World, op: Operation, heap: nat -> Block)
    requires Possible(w.blocks.Keys, op)
    ensures Perform(w, op, heap).log == w.log + [Effect(w, op)]
    ensures Effect(w, op).stack == BacktraceAfter(w.backtrace, op)
  {}

  // ----- The effects, read off the operations

  /** The operation asks the allocator for a block at this pointer. */
  predicate Makes(op: Operation, p: Pointer) { !op.Deallocation? && op.pointer == p }

  /** How often the first `n` operations ask the allocator for a block. */
  function Requests(ops: seq<Operation>, n: nat): nat
    requires n <= |ops|
  {
    if n == 0 then 0 else Requests(ops, n - 1) + if ops[n - 1].Deallocation? then 0 else 1
  }

  /** Operation `j` is the latest of the first `n` that made a block at this pointer. */
  ghost predicate LastMaker(ops: seq<Operation>, n: nat, p: Pointer, j: nat) {
    j < n <= |ops| && Makes(ops[j], p) && forall i :: j < i < n ==> !Makes(ops[i], p)
  }

  /** The block is what the allocator answered when the pointer was last made, before operation `n`. */
  ghost predicate MadeAs(ops: seq<Operation>, n: nat, p: Pointer, block: Block, heap: nat -> Block) {
    exists j :: LastMaker(ops, n, p, j) && block == heap(Requests(ops, j))
  }

  /** Entry `k` of a log is what operation `k` says: its size, its time, the block it is about, its call stack. */
  ghost predicate Says(ops: seq<Operation>, log: seq<Event>, k: nat, heap: nat -> Block)
    requires k < |ops| && k < |log|
  {
    match ops[k]
    case Allocation(_, size, timestamp, backtrace) => log[k] == Malloc(size, timestamp, backtrace)
    case Reallocation(o, _, size, timestamp, backtrace) =>
      && log[k].Realloc? && log[k].size == size && log[k].timestamp == timestamp && log[k].stack == backtrace
      && MadeAs(ops, k, o, log[k].block, heap)
    case Deallocation(p, timestamp, recorded) =>
      && log[k].Free? && log[k].timestamp == timestamp && MadeAs(ops, k, p, log[k].block, heap)
      && match recorded
         case Some(backtrace) => log[k].stack == backtrace
         case None => k > 0 && log[k].stack == log[k - 1].stack
  }

  lemma {:induction false} RequestsCounted(ops: seq<Operation>, n: nat, heap: nat -> Block)
    requires WellFormed(ops) && n <= |ops|
    ensures WorldFor(ops, n, heap).count == Requests(ops, n)
  {
    hide Live, LiveAfter;
    if n > 0 {
      assert PossibleAt(ops, n - 1);
      RequestsCounted(ops, n - 1, heap);
    }
  }

  lemma StillMade(ops: seq<Operation>, n: nat, p: Pointer, block: Block, heap: nat -> Block)
    requires n < |ops| && MadeAs(ops, n, p, block, heap) && !Makes(ops[n], p)
    ensures MadeAs(ops, n + 1, p, block, heap)
  {
    var j :| LastMaker(ops, n, p, j) && block == heap(Requests(ops, j));
    assert LastMaker(ops, n + 1, p, j);
  }

  lemma {:induction false} BlocksMade(ops: seq<Operation>, n: nat, p: Pointer, heap: nat -> Block)
    requires WellFormed(ops) && n <= |ops| && p in WorldFor(ops, n, heap).blocks
    ensures MadeAs(ops, n, p, WorldFor(ops, n, heap).blocks[p], heap)
  {
    hide Live, LiveAfter, MadeAs;
    if n > 0 {
      assert PossibleAt(ops, n - 1);
      if Makes(ops[n - 1], p) {
        RequestsCounted(ops, n - 1, heap);
        NowMade(ops, n, p, heap);
      } else {
        BlocksMade(ops, n - 1, p, heap);
        StillMade(ops, n - 1, p, WorldFor(ops, n - 1, heap).blocks[p], heap);
      }
    }
  }

  lemma NowMade(ops: seq<Operation>, n: nat, p: Pointer, heap: nat -> Block)
    requires 0 < n <= |ops| && Makes(ops[n - 1], p)
    ensures MadeAs(ops, n, p, heap(Requests(ops, n - 1)), heap)
  {
    assert LastMaker(ops, n, p, n - 1);
  }

  lemma PerformSays(ops: seq<Operation>, n: nat, heap: nat -> Block)
    requires WellFormed(ops) && n < |ops|
    requires |WorldFor(ops, n, heap).log| == n
    requires n > 0 ==> WorldFor(ops, n, heap).log[n - 1].stack == LastBacktrace(ops, n)
    ensures var log := WorldFor(ops, n + 1, heap).log;
      |log| == n + 1 && Says(ops, log, n, heap) && log[n].stack == LastBacktrace(ops, n + 1)
  {
    hide Live, LiveAfter, MadeAs;
    assert PossibleAt(ops, n);
    var w := WorldFor(ops, n, heap);
    if n == 0 {
      assert Live(ops, 0) == {};
    }
    match ops[n] {
      case Allocation(_, _, _, _) =>
      case Deallocation(p, _, _) => BlocksMade(ops, n, p, heap);
      case Reallocation(o, _, _, _, _) => BlocksMade(ops, n, o, heap);
    }
  }

  lemma SaysPrefix(ops: seq<Operation>, log: seq<Event>, e: Event, k: nat, heap: nat -> Block)
    requires k < |ops| && k < |log| && Says(ops, log, k, heap)
    ensures Says(ops, log + [e], k, heap)
  {
    hide MadeAs;
  }

  /** Every operation has one effect, in order, which is what the operation says. */
  lemma {:induction false} EffectsInOrder(ops: seq<Operation>, n: nat, heap: nat -> Block)
    requires WellFormed(ops) && n <= |ops|
    ensures var log := WorldFor(ops, n, heap).log;
      && |log| == n && (forall k :: 0 <= k < n ==> Says(ops, log, k, heap))
      && (n > 0 ==> log[n - 1].stack == LastBacktrace(ops, n))
  {
    hide Perform, Effect, Live, LiveAfter, Says;
    if n > 0 {
      assert PossibleAt(ops, n - 1);
      EffectsInOrder(ops, n - 1, heap);
      PerformSays(ops, n - 1, heap);
      var w := WorldFor(ops, n - 1, heap);
      PerformLog(w, ops[n - 1], heap);
      forall k | 0 <= k < n - 1 ensures Says(ops, WorldFor(ops, n, heap).log, k, heap) {
        SaysPrefix(ops, w.log, Effect(w, ops[n - 1]), k, heap);
      }
    }
  }

  ghost predicate Held(byPointer: map<Pointer, nat>, slot: nat) {
    exists p :: p in byPointer && byPointer[p] == slot
  }

  /** The slots hold the blocks of the live pointers, each in its own, and nothing else. */
  ghost predicate Agree(byPointer: map<Pointer, nat>, blocks: map<Pointer, Block>, slots: seq<Block>) {
    && byPointer.Keys == blocks.Keys
    && (forall p :: p in byPointer ==> byPointer[p] < |slots| && slots[byPointer[p]] == blocks[p])
    && (forall p, q :: p in byPointer && q in byPointer && byPointer[p] == byPointer[q] ==> p == q)
    && (forall i :: 0 <= i < |slots| && !Held(byPointer, i) ==> slots[i] == None)
  }

  lemma HeldPut(byPointer: map<Pointer, nat>, p: Pointer, slot: nat)
    requires p !in byPointer
    ensures forall i :: Held(byPointer[p := slot], i) <==> i == slot || Held(byPointer, i)
    ensures !Held(byPointer, slot) ==> forall q :: q in byPointer ==> byPointer[q] != slot
  {
    var t := byPointer[p := slot];
    assert t[p] == slot;
    forall i | Held(byPointer, i) ensures Held(t, i) {
      var q :| q in byPointer && byPointer[q] == i;
      assert t[q] == i;
    }
  }

  lemma HeldDrop(byPointer: map<Pointer, nat>, p: Pointer)
    requires p in byPointer && forall q :: q in byPointer && byPointer[p] == byPointer[q] ==> p == q
    ensures forall i :: Held(byPointer - {p}, i) <==> i != byPointer[p] && Held(byPointer, i)
  {
    var t := byPointer - {p};
    forall i | i != byPointer[p] && Held(byPointer, i) ensures Held(t, i) {
      var q :| q in byPointer && byPointer[q] == i;
      assert t[q] == i;
    }
  }

  lemma AgreePut(byPointer: map<Pointer, nat>, blocks: map<Pointer, Block>, slots: seq<Block>, p: Pointer, slot: nat,
      block: Block)
    requires Agree(byPointer, blocks, slots) && p !in byPointer && slot < |slots| && !Held(byPointer, slot)
    ensures Agree(byPointer[p := slot], blocks[p := block], slots[slot := block])
  {
    hide Held;
    HeldPut(byPointer, p, slot);
  }

  lemma AgreeDrop(byPointer: map<Pointer, nat>, blocks: map<Pointer, Block>, slots: seq<Block>, p: Pointer)
    requires Agree(byPointer, blocks, slots) && p in byPointer
    ensures Agree(byPointer - {p}, blocks - {p}, slots[byPointer[p] := None])
    ensures !Held(byPointer - {p}, byPointer[p])
  {
    hide Held;
    HeldDrop(byPointer, p);
  }

  /** The machine's state is the trace's, with blocks found by slot instead of by pointer. */
  ghost predicate Matches(s: Slots, w: World, m: Machine, frames: map<Frame, nat>) {
    && Known(frames, w.backtrace) && m.stack == Numbered(frames, w.backtrace)
    && m.count == w.count && SameEffects(frames, w.log, m.log) && Agree(s.byPointer, w.blocks, m.slots)
  }

  /** A heap operation is about to happen in matching states, with enough slots. */
  ghost predicate Ready(s: Slots, blocks: map<Pointer, Block>, slots: seq<Block>, op: Operation) {
    && SlotsInv(s) && Possible(s.byPointer.Keys, op) && SlotsAfter(s, op).count <= |slots|
    && Agree(s.byPointer, blocks, slots)
  }

  lemma AllocationAgrees(s: Slots, blocks: map<Pointer, Block>, slots: seq<Block>, op: Operation, block: Block)
    requires op.Allocation? && Ready(s, blocks, slots, op)
    ensures s.byPointer.Keys == blocks.Keys
    ensures var slot := SlotOf(s, op);
      && slot < |slots| && slots[slot] == None
      && Agree(SlotsAfter(s, op).byPointer, blocks[op.pointer := block], slots[slot := block])
  {
    SlotsStep(s, op);
    assert !Held(s.byPointer, SlotOf(s, op));
    AgreePut(s.byPointer, blocks, slots, op.pointer, SlotOf(s, op), block);
  }

  lemma DeallocationAgrees(s: Slots, blocks: map<Pointer, Block>, slots: seq<Block>, op: Operation)
    requires op.Deallocation? && Ready(s, blocks, slots, op)
    ensures s.byPointer.Keys == blocks.Keys
    ensures var slot := SlotOf(s, op);
      && slot < |slots| && slots[slot] == blocks[op.pointer]
      && Agree(SlotsAfter(s, op).byPointer, blocks - {op.pointer}, slots[slot := None])
  {
    AgreeDrop(s.byPointer, blocks, slots, op.pointer);
  }

  lemma ReallocationAgrees(s: Slots, blocks: map<Pointer, Block>, slots: seq<Block>, op: Operation, block: Block)
    requires op.Reallocation? && Ready(s, blocks, slots, op)
    ensures s.byPointer.Keys == blocks.Keys
    ensures var slot := SlotOf(s, op);
      && slot < |slots| && slots[slot] == blocks[op.oldPointer]
      && Agree(SlotsAfter(s, op).byPointer, (blocks - {op.oldPointer})[op.pointer := block], slots[slot := block])
  {
    var slot := SlotOf(s, op);
    AgreeDrop(s.byPointer, blocks, slots, op.oldPointer);
    AgreePut(s.byPointer - {op.oldPointer}, blocks - {op.oldPointer}, slots[slot := None], op.pointer, slot, block);
    assert slots[slot := None][slot := block] == slots[slot := block];
  }

  ghost predicate AboutToPerform(s: Slots, w: World, m: Machine, op: Operation, frames: map<Frame, nat>) {
    && Ready(s, w.blocks, m.slots, op) && Known(frames, BacktraceAfter(w.backtrace, op))
    && m.stack == Numbered(frames, BacktraceAfter(w.backtrace, op))
    && m.count == w.count && SameEffects(frames, w.log, m.log)
  }

  /** The heap operation on slots matches the operation by pointer, and does not abort. */
  ghost predicate Performed(s: Slots, w: World, m: Machine, op: Operation, frames: map<Frame, nat>, heap: nat -> Block)
    requires AboutToPerform(s, w, m, op, frames)
  {
    var next := Step(Generate(SlotOf(s, op), op), m, heap);
    && next.Running? && |next.machine.slots| == |m.slots|
    && Matches(SlotsAfter(s, op), Perform(w, op, heap), next.machine, frames)
  }

  /** An operation adds the same effect to both logs. */
  lemma EffectsExtend(frames: map<Frame, nat>, log: seq<Event>, numbered: seq<Event>, e: Event, f: Event)
    requires SameEffects(frames, log, numbered)
    requires Known(frames, e.stack) && f == e.(stack := Numbered(frames, e.stack))
    ensures SameEffects(frames, log + [e], numbered + [f])
  {
    hide Known, Numbered;
  }

  lemma AllocationMatches(s: Slots, w: World, m: Machine, op: Operation, frames: map<Frame, nat>, heap: nat -> Block)
    requires op.Allocation? && AboutToPerform(s, w, m, op, frames)
    ensures Performed(s, w, m, op, frames, heap)
  {
    hide Agree, SameEffects, Numbered, SlotsInv;
    AllocationAgrees(s, w.blocks, m.slots, op, heap(m.count));
    EffectsExtend(frames, w.log, m.log, Effect(w, op), Malloc(op.size, op.timestamp, m.stack));
  }

  lemma DeallocationMatches(s: Slots, w: World, m: Machine, op: Operation, frames: map<Frame, nat>, heap: nat -> Block)
    requires op.Deallocation? && AboutToPerform(s, w, m, op, frames)
    ensures Performed(s, w, m, op, frames, heap)
  {
    hide Agree, SameEffects, Numbered, SlotsInv;
    DeallocationAgrees(s, w.blocks, m.slots, op);
    EffectsExtend(frames, w.log, m.log, Effect(w, op), Free(w.blocks[op.pointer], op.timestamp, m.stack));
  }

  lemma ReallocationMatches(s: Slots, w: World, m: Machine, op: Operation, frames: map<Frame, nat>, heap: nat -> Block)
    requires op.Reallocation? && AboutToPerform(s, w, m, op, frames)
    ensures Performed(s, w, m, op, frames, heap)
  {
    hide Agree, SameEffects, Numbered, SlotsInv;
    ReallocationAgrees(s, w.blocks, m.slots, op, heap(m.count));
    EffectsExtend(frames, w.log, m.log, Effect(w, op),
      Realloc(w.blocks[op.oldPointer], op.size, op.timestamp, m.stack));
  }

  lemma OperationMatches(s: Slots, w: World, m: Machine, op: Operation, frames: map<Frame, nat>, heap: nat -> Block)
    requires AboutToPerform(s, w, m, op, frames)
    ensures Performed(s, w, m, op, frames, heap)
  {
    match op {
      case Allocation(_, _, _, _) => AllocationMatches(s, w, m, op, frames, heap);
      case Deallocation(_, _, _) => DeallocationMatches(s, w, m, op, frames, heap);
      case Reallocation(_, _, _, _, _) => ReallocationMatches(s, w, m, op, frames, heap);
    }
  }

  /** The machine before the program starts. */
  function Fresh(slotCount: nat): Machine {
    Machine([], seq(slotCount, _ => None), 0, [])
  }

  /** The segment of an operation moves to its backtrace and performs it. */
  lemma SegmentMatches(s: Slots, w: World, m: Machine, op: Operation, frames: map<Frame, nat>, heap: nat -> Block)
    requires SlotsInv(s) && Possible(s.byPointer.Keys, op) && Possible(w.blocks.Keys, op)
    requires Known(frames, BacktraceAfter(w.backtrace, op)) && Matches(s, w, m, frames)
    requires SlotsAfter(s, op).count <= |m.slots|
    ensures var after := After(Segment(frames, w.backtrace, SlotOf(s, op), op), m, heap);
      && after.Some? && |after.value.slots| == |m.slots|
      && Matches(SlotsAfter(s, op), Perform(w, op, heap), after.value, frames)
  {
    var moves := if Recorded(op).Some? then Traversal(frames, w.backtrace, Recorded(op).value) else [];
    var m' := m.(stack := Numbered(frames, BacktraceAfter(w.backtrace, op)));
    if Recorded(op).Some? {
      TraversalRuns(frames, w.backtrace, Recorded(op).value, m, heap);
    }
    AfterConcat(moves, [Generate(SlotOf(s, op), op)], m, heap);
    OperationMatches(s, w, m', op, frames, heap);
  }

  /** The program of the first `n` operations, run from the start, matches what they did. */
  ghost predicate RunMatches(frames: map<Frame, nat>, ops: seq<Operation>, n: nat, slotCount: nat, heap: nat -> Block)
    requires WellFormed(ops) && AllKnown(frames, ops) && n <= |ops|
  {
    var after := After(Program(frames, ops, n), Fresh(slotCount), heap);
    && after.Some? && |after.value.slots| == slotCount
    && Matches(SlotsFor(ops, n), WorldFor(ops, n, heap), after.value, frames)
  }

  lemma OneMoreMatches(frames: map<Frame, nat>, ops: seq<Operation>, n: nat, slotCount: nat, heap: nat -> Block)
    requires WellFormed(ops) && AllKnown(frames, ops) && n < |ops| && SlotsFor(ops, n + 1).count <= slotCount
    requires RunMatches(frames, ops, n, slotCount, heap)
    ensures RunMatches(frames, ops, n + 1, slotCount, heap)
  {
    var m := After(Program(frames, ops, n), Fresh(slotCount), heap).value;
    assert PossibleAt(ops, n);
    LastKnown(frames, ops, n + 1);
    SlotsForInv(ops, n);
    SegmentMatches(SlotsFor(ops, n), WorldFor(ops, n, heap), m, ops[n], frames, heap);
    AfterConcat(Program(frames, ops, n), Segment(frames, LastBacktrace(ops, n), SlotAt(ops, n), ops[n]),
      Fresh(slotCount), heap);
  }

  lemma StartMatches(frames: map<Frame, nat>, ops: seq<Operation>, slotCount: nat, heap: nat -> Block)
    requires WellFormed(ops) && AllKnown(frames, ops)
    ensures RunMatches(frames, ops, 0, slotCount, heap)
  {
    assert Numbered(frames, []) == [];
  }

  /**
   The exported program, run up to any point, has done exactly what the trace did up to there: the same
   blocks allocated, freed and reallocated, each under the most recent recorded backtrace, without a failure.
   */
  lemma {:induction false} ProgramMatches(frames: map<Frame, nat>, ops: seq<Operation>, n: nat, slotCount: nat,
      heap: nat -> Block)
    requires WellFormed(ops) && AllKnown(frames, ops) && n <= |ops| && SlotsFor(ops, n).count <= slotCount
    ensures RunMatches(frames, ops, n, slotCount, heap)
  {
    hide *;
    if n == 0 {
      StartMatches(frames, ops, slotCount, heap);
    } else {
      SlotsNext(ops, n - 1);
      ProgramMatches(frames, ops, n - 1, slotCount, heap);
      OneMoreMatches(frames, ops, n - 1, slotCount, heap);
    }
  }

  /**
   The whole exported file finishes, having done what the trace did, with as many slots as the peak of live
   allocations.
   */
  lemma ReplayIsFaithful(frames: map<Frame, nat>, ops: seq<Operation>, heap: nat -> Block)
    requires WellFormed(ops) && AllKnown(frames, ops)
    ensures SlotsFor(ops, |ops|).count == Peak(ops, |ops|)
    ensures var outcome := Execute(Program(frames, ops, |ops|) + [End], Fresh(Peak(ops, |ops|)), heap);
      outcome.Finished? && SameEffects(frames, WorldFor(ops, |ops|, heap).log, outcome.machine.log)
  {
    SlotCountIsPeak(ops, |ops|);
    ProgramMatches(frames, ops, |ops|, Peak(ops, |ops|), heap);
    ExecuteAfter(Program(frames, ops, |ops|), Fresh(Peak(ops, |ops|)), heap);
  }

  // ----- The exporter itself

  /** How often a frame occurs in the backtraces recorded by the first `n` operations. */
  function TotalUses(ops: seq<Operation>, n: nat, f: Frame): nat
    requires n <= |ops|
  {
    if n == 0 then 0
    else TotalUses(ops, n - 1, f) + match ops[n - 1]
      case Allocation(_, _, _, backtrace) => multiset(backtrace)[f]
      case Reallocation(_, _, _, _, backtrace) => multiset(backtrace)[f]
      case Deallocation(_, _, None) => 0
      case Deallocation(_, _, Some(backtrace)) => multiset(backtrace)[f]
  }

  function Uses(used: map<Frame, nat>, f: Frame): nat {
    if f in used then used[f] else 0
  }

  /** The frame table of a trace: every recorded frame once and no other, the more often used ones first. */
  ghost predicate IsFrameTable(ops: seq<Operation>, order: seq<Frame>) {
    && Distinct(order) && (forall f :: f in order <==> TotalUses(ops, |ops|, f) > 0)
    && (forall i, j :: 0 <= i < j < |order| ==> TotalUses(ops, |ops|, order[i]) >= TotalUses(ops, |ops|, order[j]))
  }

  /** The counts of the first `n` operations: only frames that occurred, each with how often. */
  ghost predicate Counted(used: map<Frame, nat>, ops: seq<Operation>, n: nat)
    requires n <= |ops|
  {
    (forall f :: Uses(used, f) == TotalUses(ops, n, f)) && (forall f :: f in used ==> used[f] > 0)
  }

  lemma CountedTable(used: map<Frame, nat>, ops: seq<Operation>, order: seq<Frame>)
    requires Counted(used, ops, |ops|) && ByUse(used, order) && forall f :: f in used ==> f in order
    ensures IsFrameTable(ops, order)
  {
    forall f ensures f in order <==> TotalUses(ops, |ops|, f) > 0 {
      assert Uses(used, f) == TotalUses(ops, |ops|, f);
    }
    forall i, j | 0 <= i < j < |order|
      ensures TotalUses(ops, |ops|, order[i]) >= TotalUses(ops, |ops|, order[j])
    {
      assert Uses(used, order[i]) == TotalUses(ops, |ops|, order[i]);
      assert Uses(used, order[j]) == TotalUses(ops, |ops|, order[j]);
    }
  }

  /** Lists exactly these frames, once each, the more often used ones first. */
  ghost predicate ByUse(used: map<Frame, nat>, order: seq<Frame>) {
    && Distinct(order) && (forall i :: 0 <= i < |order| ==> order[i] in used)
    && (forall i, j :: 0 <= i < j < |order| ==> Uses(used, order[i]) >= Uses(used, order[j]))
  }

  method SortFrames(used: map<Frame, nat>) returns (order: seq<Frame>)
    ensures ByUse(used, order) && forall f :: f in used ==> f in order
  {
    order := [];
    var left := used.Keys;
    while left != {}
      invariant ByUse(used, order) && left <= used.Keys
      invariant forall f :: f in used ==> f in left || f in order
      invariant forall i :: 0 <= i < |order| ==> order[i] !in left
      invariant forall i, f :: 0 <= i < |order| && f in left ==> Uses(used, order[i]) >= Uses(used, f)
      decreases left
    {
      var best := MostUsed(used, left);
      order, left := order + [best], left - {best};
    }
  }

  /** Numbers the used frames, the more often used ones first. */
  method NumberFrames(used: map<Frame, nat>) returns (order: seq<Frame>, frames: map<Frame, nat>)
    ensures ByUse(used, order) && frames.Keys == used.Keys && IsTable(order, frames)
  {
    order := SortFrames(used);
    frames := map[];
    for n := 0 to |order|
      invariant forall i :: 0 <= i < n ==> order[i] in frames && frames[order[i]] == i
      invariant forall f :: f in frames ==> f in order
    {
      frames := frames[order[n] := n];
    }
    assert forall f :: f in order ==> f in frames;
  }

  method MostUsed(used: map<Frame, nat>, among: set<Frame>) returns (best: Frame)
    requires among != {}
    ensures best in among && forall f :: f in among ==> Uses(used, f) <= Uses(used, best)
  {
    best :| best in among;
    var left := among - {best};
    while left != {}
      invariant left <= among && best in among
      invariant forall f :: f in among && f !in left ==> Uses(used, f) <= Uses(used, best)
      decreases left
    {
      var f :| f in left;
      if Uses(used, f) > Uses(used, best) {
        best := f;
      }
      left := left - {f};
    }
  }

  method CountCommon(to: seq<Frame>, from: seq<Frame>) returns (common: nat)
    ensures common == CommonLength(to, from)
  {
    common := 0;
    while common < |to| && common < |from| && to[common] == from[common]
      invariant common <= |to| && common <= |from|
      invariant CommonLength(to, from) == common + CommonLength(to[common..], from[common..])
      decreases |to| - common
    {
      CommonStep(to, from, common);
      common := common + 1;
    }
  }

  lemma CommonStep(to: seq<Frame>, from: seq<Frame>, n: nat)
    requires n < |to| && n < |from| && to[n] == from[n]
    ensures CommonLength(to[n..], from[n..]) == 1 + CommonLength(to[n + 1..], from[n + 1..])
  {
    assert to[n..][1..] == to[n + 1..] && from[n..][1..] == from[n + 1..];
  }

  method GenerateUps(n: nat) returns (moves: seq<Op>)
    ensures moves == Ups(n)
  {
    moves := [];
    for i := 0 to n
      invariant moves == Ups(i)
    {
      UpsExtend(i);
      moves := moves + [GoUp];
    }
  }

  lemma {:induction false} UpsExtend(n: nat)
    ensures Ups(n + 1) == Ups(n) + [GoUp]
  {
    if n > 0 {
      UpsExtend(n - 1);
    }
  }

  method GenerateDowns(frames: map<Frame, nat>, backtrace: seq<Frame>) returns (moves: seq<Op>)
    requires Known(frames, backtrace)
    ensures moves == Downs(Numbered(frames, backtrace))
  {
    moves := [];
    for i := 0 to |backtrace|
      invariant moves == Downs(Numbered(frames, backtrace[..i]))
    {
      assert backtrace[..i + 1] == backtrace[..i] + [backtrace[i]];
      DownsExtend(frames, backtrace[..i], backtrace[i]);
      moves := moves + [GoDown(frames[backtrace[i]])];
    }
    assert backtrace[..|backtrace|] == backtrace;
  }

  /** The moves between two backtraces. */
  method GenerateTraversal(frames: map<Frame, nat>, from: seq<Frame>, to: seq<Frame>) returns (moves: seq<Op>)
    requires Known(frames, to)
    ensures moves == Traversal(frames, from, to)
  {
    var common := CountCommon(to, from);
    var ups := GenerateUps(|from| - common);
    var downs := GenerateDowns(frames, to[common..]);
    moves := ups + downs;
  }

  lemma DownsExtend(frames: map<Frame, nat>, backtrace: seq<Frame>, f: Frame)
    requires Known(frames, backtrace) && f in frames
    ensures Known(frames, backtrace + [f])
    ensures Downs(Numbered(frames, backtrace + [f])) == Downs(Numbered(frames, backtrace)) + [GoDown(frames[f])]
  {}

  lemma StartCounting(ops: seq<Operation>)
    requires WellFormed(ops)
    ensures SlotsFor(ops, 0) == NO_SLOTS && Counted(map[], ops, 0)
  {}

  /** The tables of the first pass. */
  class Exporter {
    var freeSlots: seq<nat>
    var slotCount: nat
    var slotByPointer: map<Pointer, nat>
    var slotByIndex: seq<nat>
    var usedFrames: map<Frame, nat>

    ghost function Tables(): Slots
      reads this
    {
      Slots(freeSlots, slotCount, slotByPointer)
    }

    constructor ()
      ensures Tables() == NO_SLOTS && slotByIndex == [] && usedFrames == map[]
    {
      freeSlots, slotCount, slotByPointer, slotByIndex, usedFrames := [], 0, map[], [], map[];
    }

    method PreprocessAlloc(op: Operation)
      requires op.Allocation? && Possible(slotByPointer.Keys, op)
      modifies this`freeSlots, this`slotCount, this`slotByPointer, this`slotByIndex
      ensures Tables() == SlotsAfter(old(Tables()), op)
      ensures slotByIndex == old(slotByIndex) + [SlotOf(old(Tables()), op)]
    {
      var slot;
      if freeSlots == [] {
        slot := slotCount;
        slotCount := slotCount + 1;
      } else {
        slot := freeSlots[|freeSlots| - 1];
        freeSlots := freeSlots[..|freeSlots| - 1];
      }
      slotByPointer := slotByPointer[op.pointer := slot];
      slotByIndex := slotByIndex + [slot];
    }

    method PreprocessDealloc(op: Operation)
      requires op.Deallocation? && Possible(slotByPointer.Keys, op)
      modifies this`freeSlots, this`slotByPointer, this`slotByIndex
      ensures Tables() == SlotsAfter(old(Tables()), op)
      ensures slotByIndex == old(slotByIndex) + [SlotOf(old(Tables()), op)]
    {
      var slot := slotByPointer[op.pointer];
      slotByPointer := slotByPointer - {op.pointer};
      freeSlots := freeSlots + [slot];
      slotByIndex := slotByIndex + [slot];
    }

    method PreprocessRealloc(op: Operation)
      requires op.Reallocation? && Possible(slotByPointer.Keys, op)
      modifies this`slotByPointer, this`slotByIndex
      ensures Tables() == SlotsAfter(old(Tables()), op)
      ensures slotByIndex == old(slotByIndex) + [SlotOf(old(Tables()), op)]
    {
      var slot := slotByPointer[op.oldPointer];
      slotByPointer := (slotByPointer - {op.oldPointer})[op.pointer := slot];
      slotByIndex := slotByIndex + [slot];
    }

    method PreprocessBacktrace(backtrace: seq<Frame>)
      modifies this`usedFrames
      ensures forall f :: Uses(usedFrames, f) == Uses(old(usedFrames), f) + multiset(backtrace)[f]
      ensures old(usedFrames).Keys <= usedFrames.Keys && Known(usedFrames, backtrace)
      ensures (forall f :: f in old(usedFrames) ==> old(usedFrames)[f] > 0) ==>
        forall f :: f in usedFrames ==> usedFrames[f] > 0
    {
      for i := 0 to |backtrace|
        invariant (forall f :: f in old(usedFrames) ==> old(usedFrames)[f] > 0) ==>
          forall f :: f in usedFrames ==> usedFrames[f] > 0
        invariant forall f :: Uses(usedFrames, f) == Uses(old(usedFrames), f) + multiset(backtrace[..i])[f]
        invariant old(usedFrames).Keys <= usedFrames.Keys && Known(usedFrames, backtrace[..i])
      {
        var f := backtrace[i];
        assert backtrace[..i + 1] == backtrace[..i] + [f];
        usedFrames := usedFrames[f := Uses(usedFrames, f) + 1];
      }
      assert backtrace[..|backtrace|] == backtrace;
    }

    method Preprocess(op: Operation, ghost ops: seq<Operation>, ghost n: nat)
      requires Possible(slotByPointer.Keys, op) && n < |ops| && ops[n] == op && Counted(usedFrames, ops, n)
      modifies this
      ensures Counted(usedFrames, ops, n + 1)
      ensures Tables() == SlotsAfter(old(Tables()), op)
      ensures slotByIndex == old(slotByIndex) + [SlotOf(old(Tables()), op)]
      ensures old(usedFrames).Keys <= usedFrames.Keys
      ensures Recorded(op).Some? ==> Known(usedFrames, Recorded(op).value)
    {
      if Recorded(op).Some? {
        PreprocessBacktrace(Recorded(op).value);
      }
      match op {
        case Allocation(_, _, _, _) => PreprocessAlloc(op);
        case Deallocation(_, _, _) => PreprocessDealloc(op);
        case Reallocation(_, _, _, _, _) => PreprocessRealloc(op);
      }
    }

    /** First pass: a slot for every operation, and the frames used. */
    method PreprocessAll(ops: seq<Operation>)
      requires WellFormed(ops) && Tables() == NO_SLOTS && slotByIndex == [] && usedFrames == map[]
      modifies this
      ensures Tables() == SlotsFor(ops, |ops|) && AllKnown(usedFrames, ops) && Counted(usedFrames, ops, |ops|)
      ensures |slotByIndex| == |ops| && forall k :: 0 <= k < |ops| ==> slotByIndex[k] == SlotAt(ops, k)
    {
      hide SlotsFor, SlotsAfter, SlotOf, Counted, Live, LiveAfter, WellFormed, Possible;
      StartCounting(ops);
      for n := 0 to |ops|
        invariant Tables() == SlotsFor(ops, n) && |slotByIndex| == n && Counted(usedFrames, ops, n)
        invariant forall k :: 0 <= k < n ==> slotByIndex[k] == SlotAt(ops, k)
        invariant forall k :: 0 <= k < n && Recorded(ops[k]).Some? ==> Known(usedFrames, Recorded(ops[k]).value)
      {
        SlotsNext(ops, n);
        Preprocess(ops[n], ops, n);
      }
    }

    /** Both passes: the number of slots and the program, end mark included. */
    method Process(ops: seq<Operation>)
      returns (slotCount: nat, program: seq<Op>, order: seq<Frame>, frames: map<Frame, nat>)
      requires WellFormed(ops) && Tables() == NO_SLOTS && slotByIndex == [] && usedFrames == map[]
      modifies this
      ensures AllKnown(frames, ops) && IsTable(order, frames) && IsFrameTable(ops, order)
      ensures slotCount == SlotsFor(ops, |ops|).count
      ensures program == Program(frames, ops, |ops|) + [End]
    {
      PreprocessAll(ops);
      slotCount := this.slotCount;
      order, frames := NumberFrames(usedFrames);
      CountedTable(usedFrames, ops, order);
      program := GenerateAll(ops, slotByIndex, frames);
      program := program + [End];
    }
  }

  /** Second pass: moves and heap operations for every operation of the trace. */
  method GenerateAll(ops: seq<Operation>, slots: seq<nat>, frames: map<Frame, nat>) returns (program: seq<Op>)
    requires WellFormed(ops) && AllKnown(frames, ops)
    requires |slots| == |ops| && forall k :: 0 <= k < |ops| ==> slots[k] == SlotAt(ops, k)
    ensures program == Program(frames, ops, |ops|)
  {
    program := [];
    var last: seq<Frame> := [];
    for n := 0 to |ops|
      invariant last == LastBacktrace(ops, n) && program == Program(frames, ops, n)
    {
      var op := ops[n];
      var moves := [];
      if Recorded(op).Some? {
        moves := GenerateTraversal(frames, last, Recorded(op).value);
        last := Recorded(op).value;
      }
      ConcatAssoc(program, moves, [Generate(slots[n], op)]);
      program := program + moves + [Generate(slots[n], op)];
    }
  }

  /**
   Exports a trace and replays it: for every allocator the interpreter reaches the end mark, with exactly
   as many slots as were ever needed at once. What it did is what the trace did, in the same order: the
   same blocks, sizes and timestamps, each on a call stack that, read through the frame table, is the
   operation's own backtrace, or that of the operation before for a free without one.
   */
  method ExportAndReplay(ops: seq<Operation>, heap: nat -> Block)
    returns (exit: Exit, slotCount: nat, order: seq<Frame>, ghost log: seq<Event>)
    requires WellFormed(ops)
    ensures IsFrameTable(ops, order) && slotCount == Peak(ops, |ops|)
    ensures exit == ByEnd && ReadsAs(order, log, WorldFor(ops, |ops|, heap).log)
    ensures |log| == |ops| && forall k :: 0 <= k < |ops| ==> Says(ops, WorldFor(ops, |ops|, heap).log, k, heap)
  {
    var exporter := new Exporter();
    var program, frames;
    slotCount, program, order, frames := exporter.Process(ops);
    ReplayIsFaithful(frames, ops, heap);
    var interpreter := new Interpreter(program, slotCount, heap);
    assert program[0..] == program;
    exit := interpreter.Run();
    log := interpreter.log;
    SameEffectsRead(order, frames, WorldFor(ops, |ops|, heap).log, log);
    EffectsInOrder(ops, |ops|, heap);
  }
}
