/** The interpreter of exported replay programs. */
module ReplayMachine {
  import opened Basics
  import opened Replay

  datatype Op =
    | End
    | OpAlloc(slot: nat, timestamp: nat, size: nat)
    | OpFree(slot: nat, timestamp: nat)
    | OpRealloc(slot: nat, timestamp: nat, size: nat)
    | GoDown(frame: nat)
    | GoUp

  /** The interpreter's state with its call stack made explicit. */
  datatype Machine = Machine(stack: seq<nat>, slots: seq<Block>, count: nat, log: seq<Event>)

  /** What one operation leads to. */
  datatype Next = Running(machine: Machine) | Ended | ReturnedEarly | Aborted | OutOfBounds

  function Step(op: Op, m: Machine, heap: nat -> Block): Next {
    match op
    case End => Ended
    case OpAlloc(slot, timestamp, size) =>
      if slot >= |m.slots| then OutOfBounds
      else if m.slots[slot].Some? then Aborted
      else Running(m.(slots := m.slots[slot := heap(m.count)], count := m.count + 1,
                      log := m.log + [Malloc(size, timestamp, m.stack)]))
    case OpFree(slot, timestamp) =>
      if slot >= |m.slots| then OutOfBounds
      else Running(m.(slots := m.slots[slot := None], log := m.log + [Free(m.slots[slot], timestamp, m.stack)]))
    case OpRealloc(slot, timestamp, size) =>
      if slot >= |m.slots| then OutOfBounds
      else Running(m.(slots := m.slots[slot := heap(m.count)], count := m.count + 1,
                      log := m.log + [Realloc(m.slots[slot], size, timestamp, m.stack)]))
    case GoDown(frame) => Running(m.(stack := m.stack + [frame]))
    case GoUp => if m.stack == [] then ReturnedEarly else Running(m.(stack := m.stack[..|m.stack| - 1]))
  }

  /** How a program ends, and in which state. */
  datatype Outcome = Finished(machine: Machine) | Failed(reason: Next)

  function Execute(program: seq<Op>, m: Machine, heap: nat -> Block): Outcome {
    if program == [] then Failed(OutOfBounds)
    else match Step(program[0], m, heap)
      case Running(m') => Execute(program[1..], m', heap)
      case Ended => Finished(m)
      case other => Failed(other)
  }

  /** The state after operations that all go on running. */
  function After(ops: seq<Op>, m: Machine, heap: nat -> Block): Option<Machine> {
    if ops == [] then Some(m)
    else match Step(ops[0], m, heap)
      case Running(m') => After(ops[1..], m', heap)
      case _ => None
  }

  lemma {:induction false} AfterConcat(a: seq<Op>, b: seq<Op>, m: Machine, heap: nat -> Block)
    requires After(a, m, heap).Some?
    ensures After(a + b, m, heap) == After(b, After(a, m, heap).value, heap)
    decreases |a|
  {
    if a == [] {
      assert a + b == b;
    } else {
      assert (a + b)[0] == a[0] && (a + b)[1..] == a[1..] + b;
      AfterConcat(a[1..], b, Step(a[0], m, heap).machine, heap);
    }
  }

  lemma {:induction false} ExecuteAfter(ops: seq<Op>, m: Machine, heap: nat -> Block)
    requires After(ops, m, heap).Some?
    ensures Execute(ops + [End], m, heap) == Finished(After(ops, m, heap).value)
    decreases |ops|
  {
    if ops == [] {
      assert ops + [End] == [End];
    } else {
      assert (ops + [End])[0] == ops[0] && (ops + [End])[1..] == ops[1..] + [End];
      ExecuteAfter(ops[1..], Step(ops[0], m, heap).machine, heap);
    }
  }

  /** Executing a program from one of its operations on. */
  lemma ExecuteAt(program: seq<Op>, i: nat, m: Machine, heap: nat -> Block)
    requires i <= |program|
    ensures i == |program| ==> Execute(program[i..], m, heap) == Failed(OutOfBounds)
    ensures i < |program| ==>
      match Step(program[i], m, heap)
      case Running(m') => Execute(program[i..], m, heap) == Execute(program[i + 1..], m', heap)
      case Ended => Execute(program[i..], m, heap) == Finished(m)
      case other => Execute(program[i..], m, heap) == Failed(other)
  {
    hide Step;
    if i < |program| {
      assert program[i..][0] == program[i] && program[i..][1..] == program[i + 1..];
    }
  }

  /** How a call of the interpreter loop returns. */
  datatype Exit = ByEnd | ByGoUp | ByFailure(reason: Next)

  /**
   The recursive interpreter. The call stack is the host's own: going down calls the loop again, going
   up returns from it. `stack` records it for the proof, `log` what was done.
   */
  class Interpreter {
    const program: seq<Op>
    const heap: nat -> Block
    const slots: array<Block>
    var i: nat
    var count: nat
    ghost var stack: seq<nat>
    ghost var log: seq<Event>

    ghost function State(): Machine
      reads this, slots
    {
      Machine(stack, slots[..], count, log)
    }

    constructor (program: seq<Op>, slotCount: nat, heap: nat -> Block)
      ensures fresh(slots) && this.program == program && this.heap == heap && i == 0
      ensures State() == Machine([], seq(slotCount, _ => None), 0, [])
    {
      this.program, this.heap, i, count := program, heap, 0, 0;
      slots := new Block[slotCount](_ => None);
      stack, log := [], [];
      new;
      assert slots[..] == seq(slotCount, _ => None);
    }

    /** Executes one heap operation. */
    method Touch(op: Op) returns (failure: Option<Next>)
      requires op.OpAlloc? || op.OpFree? || op.OpRealloc?
      modifies slots, this`count, this`log
      ensures failure.None? ==> Step(op, old(State()), heap) == Running(State())
      ensures failure.Some? ==>
        Step(op, old(State()), heap) == failure.value && (failure.value.Aborted? || failure.value.OutOfBounds?)
    {
      if op.slot >= slots.Length {
        return Some(OutOfBounds);
      }
      ghost var block, before := slots[op.slot], slots[..];
      match op {
        case OpAlloc(slot, timestamp, size) =>
          if slots[slot].Some? {
            return Some(Aborted);
          }
          slots[slot] := heap(count);
          count, log := count + 1, log + [Malloc(size, timestamp, stack)];
        case OpFree(slot, timestamp) =>
          slots[slot] := None;
          log := log + [Free(block, timestamp, stack)];
        case OpRealloc(slot, timestamp, size) =>
          slots[slot] := heap(count);
          count, log := count + 1, log + [Realloc(block, size, timestamp, stack)];
      }
      assert slots[..] == before[op.slot := slots[op.slot]];
      return None;
    }

    /** One activation of the interpreter loop, which returns at the end, when it goes up, or on a failure. */
    method Run() returns (exit: Exit)
      requires i <= |program|
      modifies this, slots
      ensures i <= |program|
      ensures exit.ByEnd? ==>
        Execute(program[old(i)..], old(State()), heap) == Finished(State()) && i < |program| && program[i].End?
      ensures exit.ByFailure? ==> Execute(program[old(i)..], old(State()), heap) == Failed(exit.reason)
      ensures exit.ByGoUp? && old(stack) == [] ==>
        Execute(program[old(i)..], old(State()), heap) == Failed(ReturnedEarly)
      ensures exit.ByGoUp? && old(stack) != [] ==>
        stack == old(stack)[..|old(stack)| - 1] && old(i) < i &&
        Execute(program[i..], State(), heap) == Execute(program[old(i)..], old(State()), heap)
      decreases |program| - i
    {
      hide Execute;
      while true
        invariant old(i) <= i <= |program| && stack == old(stack)
        invariant Execute(program[i..], State(), heap) == Execute(program[old(i)..], old(State()), heap)
        decreases |program| - i
      {
        ExecuteAt(program, i, State(), heap);
        if i == |program| {
          return ByFailure(OutOfBounds);
        }
        var op := program[i];
        if op.End? {
          return ByEnd;
        }
        i := i + 1;
        if op.GoDown? {
          stack := stack + [op.frame];
          var inner := Run();
          assert (old(stack) + [op.frame])[..|old(stack)|] == old(stack);
          if inner.ByFailure? || inner.ByEnd? {
            // At the end the caller would look at the same end operation again and return as well.
            return inner;
          }
        } else if op.GoUp? {
          if stack != [] {
            stack := stack[..|stack| - 1];
          }
          return ByGoUp;
        } else {
          var failure := Touch(op);
          if failure.Some? {
            return ByFailure(failure.value);
          }
        }
      }
    }
  }
}
