/** Criteria on an allocation's size, address and life span, compiled to ranges. */
module CommonFilter {
  import opened Basics

  const MAX := 0xFFFF_FFFF_FFFF_FFFF

  /** The beginning and end of the trace. */
  datatype Span = Span(initial: nat, last: nat)

  datatype Item = Item(pointer: nat, size: nat, timestamp: nat, deallocation: Option<nat>)

  /** The criteria; times are offsets from the beginning of the trace. */
  datatype Criteria = Criteria(
    largerOrEqual: Option<nat>,
    larger: Option<nat>,
    smallerOrEqual: Option<nat>,
    smaller: Option<nat>,
    addressAtLeast: Option<nat>,
    addressAtMost: Option<nat>,
    allocatedAfter: Option<nat>,
    allocatedUntil: Option<nat>,
    deallocatedAfter: Option<nat>,
    deallocatedUntil: Option<nat>,
    aliveAt: seq<nat>,
    aliveForAtLeast: Option<nat>,
    aliveForAtMost: Option<nat>,
    leakedOrDeallocatedAfter: Option<nat>,
    leaked: bool,
    temporary: bool)

  const NO_CRITERIA :=
    Criteria(None, None, None, None, None, None, None, None, None, None, [], None, None, None, false, false)

  // ----- What the criteria mean

  predicate AtLeast(bound: Option<nat>, x: nat) { bound.Some? ==> bound.value <= x }

  predicate AtMost(bound: Option<nat>, x: nat) { bound.Some? ==> x <= bound.value }

  function Shifted(offset: Option<nat>, span: Span): Option<nat> {
    if offset.Some? then Some(span.initial + offset.value) else None
  }

  /** When an allocation ended; one that was not freed lives to the end of the trace. */
  function End(span: Span, item: Item): nat {
    if item.deallocation.Some? then item.deallocation.value else span.last
  }

  predicate AliveAt(t: nat, item: Item) {
    item.timestamp <= t && (item.deallocation.Some? ==> item.deallocation.value > t)
  }

  predicate SizeMeant(c: Criteria, item: Item) {
    && AtLeast(c.largerOrEqual, item.size) && AtMost(c.smallerOrEqual, item.size)
    && (c.larger.Some? ==> c.larger.value < item.size) && (c.smaller.Some? ==> item.size < c.smaller.value)
  }

  predicate EndMeant(c: Criteria, span: Span, item: Item) {
    && (c.deallocatedAfter.Some? || c.deallocatedUntil.Some? || c.temporary ==> item.deallocation.Some?)
    && (item.deallocation.Some? ==>
          && (c.deallocatedAfter.Some? ==> item.deallocation.value >= span.initial + c.deallocatedAfter.value)
          && (c.deallocatedUntil.Some? ==> item.deallocation.value <= span.initial + c.deallocatedUntil.value)
          && !c.leaked
          && (c.leakedOrDeallocatedAfter.Some? ==>
                item.deallocation.value > span.initial + c.leakedOrDeallocatedAfter.value))
  }

  /** The criteria, apart from those on the lifetime. */
  predicate MeantApart(c: Criteria, span: Span, item: Item) {
    && SizeMeant(c, item)
    && AtLeast(c.addressAtLeast, item.pointer) && AtMost(c.addressAtMost, item.pointer)
    && (c.allocatedAfter.Some? ==> item.timestamp >= span.initial + c.allocatedAfter.value)
    && (c.allocatedUntil.Some? ==> item.timestamp <= span.initial + c.allocatedUntil.value)
    && EndMeant(c, span, item)
    && (forall i :: 0 <= i < |c.aliveAt| ==> AliveAt(span.initial + c.aliveAt[i], item))
  }

  predicate LifetimeMeant(c: Criteria, lifetime: int) {
    && (c.aliveForAtLeast.Some? ==> c.aliveForAtLeast.value <= lifetime)
    && (c.aliveForAtMost.Some? ==> lifetime <= c.aliveForAtMost.value)
  }

  /**
   What is not freed lives until the end of the trace. An allocation that is recorded as freed before it was made has
   a negative lifetime.
   */
  predicate Means(c: Criteria, span: Span, item: Item) {
    && MeantApart(c, span, item)
    && (item.deallocation.Some? ==> LifetimeMeant(c, item.deallocation.value - item.timestamp))
    && (item.deallocation.None? ==> LifetimeMeant(c, span.last - item.timestamp))
  }

  // ----- What they are compiled to

  datatype Compiled = Compiled(
    impossible: bool,
    sizeFrom: nat,
    sizeTo: int,
    addressFrom: nat,
    addressTo: nat,
    allocatedFrom: nat,
    allocatedTo: nat,
    deallocatedBetween: Option<(nat, nat)>,
    aliveForAtLeast: nat,
    aliveForAtMost: Option<nat>,
    deallocatedAfter: nat)

  function Or(x: Option<nat>, default: nat): nat { if x.Some? then x.value else default }

  /** The latest allocation time that the first `n` moments of being alive permit. */
  function LatestStart(c: Criteria, span: Span, n: nat): nat
    requires n <= |c.aliveAt|
  {
    if n == 0 then Or(Shifted(c.allocatedUntil, span), span.last)
    else Min(LatestStart(c, span, n - 1), c.aliveAt[n - 1] + span.initial)
  }

  /** The time after which it may be freed. */
  function EarliestEnd(c: Criteria, span: Span, n: nat): nat
    requires n <= |c.aliveAt|
  {
    if n == 0 then if c.leaked then span.last else Or(Shifted(c.leakedOrDeallocatedAfter, span), span.initial)
    else Max(EarliestEnd(c, span, n - 1), c.aliveAt[n - 1] + span.initial)
  }

  function Between(c: Criteria, span: Span): Option<(nat, nat)> {
    var asked := if c.deallocatedAfter.Some? || c.deallocatedUntil.Some?
      then Some((Or(Shifted(c.deallocatedAfter, span), span.initial),
                 Or(Shifted(c.deallocatedUntil, span), span.last)))
      else None;
    if !c.temporary then asked
    else if asked.Some? then Some((Max(asked.value.0, span.initial), Min(asked.value.1, span.last)))
    else Some((span.initial, span.last))
  }

  function Compile(c: Criteria, span: Span): Compiled {
    Compiled(
      (c.larger == Some(MAX)) || (c.smaller == Some(0)) || (c.leaked && c.temporary),
      if c.larger.Some? && c.larger != Some(MAX) then Max(Or(c.largerOrEqual, 0), c.larger.value + 1)
      else Or(c.largerOrEqual, 0),
      if c.smaller.Some? && c.smaller != Some(0) then Min(Or(c.smallerOrEqual, MAX), c.smaller.value - 1)
      else Or(c.smallerOrEqual, MAX),
      Or(c.addressAtLeast, 0), Or(c.addressAtMost, MAX),
      Or(Shifted(c.allocatedAfter, span), span.initial), LatestStart(c, span, |c.aliveAt|),
      Between(c, span),
      Or(c.aliveForAtLeast, 0), c.aliveForAtMost,
      EarliestEnd(c, span, |c.aliveAt|))
  }

  /** A difference of times in 64 bits, which wraps around when the second comes before the first. */
  function Elapsed(from: nat, until: nat): nat { (until - from) % (MAX + 1) }

  predicate TryMatch(f: Compiled, span: Span, item: Item) {
    && !f.impossible
    && f.sizeFrom <= item.size <= f.sizeTo
    && f.addressFrom <= item.pointer <= f.addressTo
    && f.allocatedFrom <= item.timestamp <= f.allocatedTo
    && (f.deallocatedBetween.Some? ==>
          item.deallocation.Some? &&
          f.deallocatedBetween.value.0 <= item.deallocation.value <= f.deallocatedBetween.value.1)
    && f.aliveForAtLeast <= Elapsed(item.timestamp, End(span, item))
    && (f.aliveForAtMost.Some? ==> Elapsed(item.timestamp, End(span, item)) <= f.aliveForAtMost.value)
    && (item.deallocation.Some? ==> item.deallocation.value > f.deallocatedAfter)
  }

  // ----- They agree

  /** In 64 bits, and nothing happened after the end of the trace. */
  predicate InTrace(span: Span, item: Item) {
    && item.timestamp <= span.last <= MAX && item.size <= MAX && item.pointer <= MAX
    && (item.deallocation.Some? ==> item.deallocation.value <= span.last)
  }

  lemma ElapsedForward(from: nat, until: nat)
    requires from <= until <= MAX
    ensures Elapsed(from, until) == until - from
  {}

  lemma ElapsedBackward(from: nat, until: nat)
    requires until < from <= MAX
    ensures Elapsed(from, until) == MAX + 1 - (from - until)
  {}

  /**
   What a compiled filter asks besides its criteria: an allocation from the beginning of the trace on, unless
   a time was given, and one that was not freed up to the very first moment.
   */
  predicate SinceStart(c: Criteria, span: Span, item: Item) {
    && (c.allocatedAfter.None? ==> span.initial <= item.timestamp)
    && (item.deallocation.Some? ==> span.initial < item.deallocation.value)
  }

  lemma {:induction false} LatestStartMeans(c: Criteria, span: Span, n: nat, t: nat)
    requires n <= |c.aliveAt| && t <= span.last
    ensures t <= LatestStart(c, span, n)
      <==> AtMost(Shifted(c.allocatedUntil, span), t) && forall i :: 0 <= i < n ==> t <= span.initial + c.aliveAt[i]
  {
    if n > 0 {
      LatestStartMeans(c, span, n - 1, t);
    }
  }

  lemma {:induction false} EarliestEndMeans(c: Criteria, span: Span, n: nat, d: nat)
    requires n <= |c.aliveAt|
    ensures d > EarliestEnd(c, span, n)
      <==> d > EarliestEnd(c, span, 0) && forall i :: 0 <= i < n ==> d > span.initial + c.aliveAt[i]
  {
    if n > 0 {
      EarliestEndMeans(c, span, n - 1, d);
    }
  }

  lemma SizeMeans(c: Criteria, span: Span, item: Item)
    requires item.size <= MAX
    ensures var f := Compile(c, span);
      c.larger != Some(MAX) && c.smaller != Some(0) && f.sizeFrom <= item.size <= f.sizeTo <==> SizeMeant(c, item)
  {}

  /** The end of an allocation: the compiled filter also refuses one freed up to the first moment of the trace. */
  lemma EndMeans(c: Criteria, span: Span, item: Item)
    requires InTrace(span, item) && !(c.leaked && c.temporary)
    ensures var f := Compile(c, span);
      && (f.deallocatedBetween.Some? ==>
            && item.deallocation.Some?
            && f.deallocatedBetween.value.0 <= item.deallocation.value <= f.deallocatedBetween.value.1)
      && (item.deallocation.Some? ==> item.deallocation.value > EarliestEnd(c, span, 0))
      <==> EndMeant(c, span, item) && (item.deallocation.Some? ==> item.deallocation.value > span.initial)
  {}

  /** The criteria, with lifetimes judged by their 64-bit difference, among allocations since the start. */
  predicate Accepted(c: Criteria, span: Span, item: Item) {
    && MeantApart(c, span, item) && SinceStart(c, span, item)
    && LifetimeMeant(c, Elapsed(item.timestamp, End(span, item)))
  }

  /** What a compiled filter accepts, in terms of its criteria. */
  lemma CompiledAccepts(c: Criteria, span: Span, item: Item)
    requires InTrace(span, item)
    ensures TryMatch(Compile(c, span), span, item) <==> Accepted(c, span, item)
  {
    hide SizeMeant, EndMeant, Between, Elapsed;
    SizeMeans(c, span, item);
    LatestStartMeans(c, span, |c.aliveAt|, item.timestamp);
    if item.deallocation.Some? {
      EarliestEndMeans(c, span, |c.aliveAt|, item.deallocation.value);
    }
    if c.leaked && c.temporary {
      ContradictoryEnd(c, span, item);
    } else {
      EndMeans(c, span, item);
    }
  }

  /**
   It makes no difference whether the lifetime is negative or wraps around: with a lower bound both are refused,
   without one both are admitted.
   */
  predicate WrapsAlike(c: Criteria, wrapped: nat) {
    if c.aliveForAtLeast.Some? then !LifetimeMeant(c, wrapped)
    else c.aliveForAtMost.Some? ==> wrapped <= c.aliveForAtMost.value
  }

  /**
   A compiled filter accepts exactly what its criteria mean among the allocations since the start, except that
   the lifetime of one recorded as freed before it was made wraps around; the second part says exactly when
   that makes a difference.
   */
  lemma CompiledMeans(c: Criteria, span: Span, item: Item)
    requires InTrace(span, item)
    ensures item.timestamp <= End(span, item) ==>
      (TryMatch(Compile(c, span), span, item) <==> Means(c, span, item) && SinceStart(c, span, item))
    ensures End(span, item) < item.timestamp ==>
      ((TryMatch(Compile(c, span), span, item) <==> Means(c, span, item) && SinceStart(c, span, item))
       <==> (MeantApart(c, span, item) && SinceStart(c, span, item) ==>
             WrapsAlike(c, MAX + 1 - (item.timestamp - End(span, item)))))
  {
    hide MeantApart, SinceStart, TryMatch, Compile, Elapsed;
    CompiledAccepts(c, span, item);
    if item.timestamp <= End(span, item) {
      ElapsedForward(item.timestamp, End(span, item));
    } else {
      ElapsedBackward(item.timestamp, End(span, item));
    }
  }

  /** Freed a moment before it was made, an allocation passes for one that lived longer than any other. */
  lemma FreedBeforeMade(initial: nat, pointer: nat, size: nat)
    requires initial + 2 <= MAX && pointer <= MAX && size <= MAX
    ensures var span, item := Span(initial, initial + 2), Item(pointer, size, initial + 2, Some(initial + 1));
      var c := NO_CRITERIA.(aliveForAtLeast := Some(MAX));
      InTrace(span, item) && !Means(c, span, item) && TryMatch(Compile(c, span), span, item)
  {
    var span, item := Span(initial, initial + 2), Item(pointer, size, initial + 2, Some(initial + 1));
    CompiledMeans(NO_CRITERIA.(aliveForAtLeast := Some(MAX)), span, item);
  }

  lemma ContradictoryEnd(c: Criteria, span: Span, item: Item)
    requires c.leaked && c.temporary
    ensures !EndMeant(c, span, item)
  {}

  /** An allocation freed at the first moment of the trace is refused even when nothing is asked. */
  lemma FirstMomentRefused(t: nat, last: nat, pointer: nat, size: nat)
    requires t <= last <= MAX && pointer <= MAX && size <= MAX
    ensures var span, item := Span(t, last), Item(pointer, size, t, Some(t));
      InTrace(span, item) && Means(NO_CRITERIA, span, item) && !TryMatch(Compile(NO_CRITERIA, span), span, item)
  {
    var span, item := Span(t, last), Item(pointer, size, t, Some(t));
    CompiledMeans(NO_CRITERIA, span, item);
  }

  // ----- Combinations

  datatype Filter<T>
    = Basic(basic: T)
    | And(lhs: Filter<T>, rhs: Filter<T>)
    | Either(lhs: Filter<T>, rhs: Filter<T>)
    | Not(inner: Filter<T>)

  function CompileAll<T, C>(f: Filter<T>, compile: T -> C): Filter<C> {
    match f
    case Basic(b) => Basic(compile(b))
    case And(l, r) => And(CompileAll(l, compile), CompileAll(r, compile))
    case Either(l, r) => Either(CompileAll(l, compile), CompileAll(r, compile))
    case Not(g) => Not(CompileAll(g, compile))
  }

  predicate Accepts<T>(f: Filter<T>, basic: T -> bool) {
    match f
    case Basic(b) => basic(b)
    case And(l, r) => Accepts(l, basic) && Accepts(r, basic)
    case Either(l, r) => Accepts(l, basic) || Accepts(r, basic)
    case Not(g) => !Accepts(g, basic)
  }

  /** Compiling a combination of filters keeps its meaning if compiling the basic ones does. */
  lemma {:induction false} CombinationMeans<T, C>(f: Filter<T>, compile: T -> C, means: T -> bool, matches: C -> bool)
    requires forall b :: matches(compile(b)) <==> means(b)
    ensures Accepts(CompileAll(f, compile), matches) <==> Accepts(f, means)
  {
    match f
    case Basic(b) =>
    case And(l, r) =>
      CombinationMeans(l, compile, means, matches);
      CombinationMeans(r, compile, means, matches);
    case Either(l, r) =>
      CombinationMeans(l, compile, means, matches);
      CombinationMeans(r, compile, means, matches);
    case Not(g) => CombinationMeans(g, compile, means, matches);
  }

  /** Made and freed inside the trace, after its first moment, in that order. */
  predicate Regular(span: Span, item: Item) {
    && span.initial <= item.timestamp <= End(span, item)
    && (item.deallocation.Some? ==> span.initial < item.deallocation.value)
  }

  /**
   Any combination of criteria, compiled, accepts what it means, with every basic filter restricted to the
   allocations since the start and judging lifetimes in 64 bits. For a regular allocation that makes no
   difference.
   */
  lemma CompiledCombination(f: Filter<Criteria>, span: Span, item: Item)
    requires InTrace(span, item)
    ensures var accepted :=
        Accepts(CompileAll(f, (c: Criteria) => Compile(c, span)), (k: Compiled) => TryMatch(k, span, item));
      && (accepted <==> Accepts(f, (c: Criteria) => Accepted(c, span, item)))
      && (Regular(span, item) ==> (accepted <==> Accepts(f, (c: Criteria) => Means(c, span, item))))
  {
    hide Means, MeantApart, LifetimeMeant, Elapsed, TryMatch, Compile;
    var compile, matches := (c: Criteria) => Compile(c, span), (k: Compiled) => TryMatch(k, span, item);
    var accepted := (c: Criteria) => Accepted(c, span, item);
    forall c: Criteria ensures TryMatch(Compile(c, span), span, item) <==> accepted(c) {
      CompiledAccepts(c, span, item);
    }
    CombinationMeans(f, compile, accepted, matches);
    if Regular(span, item) {
      forall c: Criteria ensures TryMatch(Compile(c, span), span, item) <==> Means(c, span, item) {
        CompiledMeans(c, span, item);
      }
      CombinationMeans(f, compile, (c: Criteria) => Means(c, span, item), matches);
    }
  }
}
