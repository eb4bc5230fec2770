/** The squeezer: rewrites a trace with short-lived allocations replaced by statistics. */
module Squeeze {
  import opened Basics
  import opened Trace
  import opened SqueezeSpec
  import opened SqueezeSteps
  import opened SqueezeFates
  import opened SqueezeLines

  // ----- The traces it is meant for

  /**
   An event that makes sense after what was loaded: tracked identifiers are not allocated twice at a
   time, reallocations and frees name live ones, and backtrace numbers are given once, before their use.
   */
  predicate Proper(s: Summary, e: Event) {
    match e
    case Alloc(id, _, body) => Tracked(id) && id !in s.live && body.backtrace in s.meaning
    case Realloc(id, _, _, body) => Tracked(id) && id in s.live && body.backtrace in s.meaning
    case Free(id, _, _, _, _) => Tracked(id) && id in s.live
    case Backtrace(number, _) => number !in s.meaning
    case PartialBacktrace(number, _, _, _) => number !in s.meaning
    case Statistics(group, _, _) => group in s.meaning
    case Other(_) => true
  }

  /** The first `n` events make sense one after the other, and load to this. */
  ghost function Original(events: seq<Event>, n: nat, strip: seq<nat> -> seq<nat>): Option<Summary>
    requires n <= |events|
  {
    if n == 0 then Some(EMPTY)
    else
      match Original(events, n - 1, strip)
      case None => None
      case Some(s) => if Proper(s, events[n - 1]) then Some(Load(s, events[n - 1], strip)) else None
  }

  lemma {:induction false} OriginalLoads(events: seq<Event>, n: nat, strip: seq<nat> -> seq<nat>)
    requires n <= |events| && Original(events, n, strip).Some?
    ensures Loaded(events, n, strip) == Original(events, n, strip)
  {
    if n > 0 {
      OriginalLoads(events, n - 1, strip);
    }
  }

  /** Proper events do not change what earlier numbers mean. */
  lemma KeepsMeaning(s: Summary, e: Event, strip: seq<nat> -> seq<nat>)
    requires Proper(s, e)
    ensures Agrees(s.meaning, Load(s, e, strip).meaning)
  {}

  lemma AgreesTrans(a: map<nat, nat>, b: map<nat, nat>, c: map<nat, nat>)
    requires Agrees(a, b) && Agrees(b, c)
    ensures Agrees(a, c)
  {}

  lemma {:induction false} OriginalPrefix(events: seq<Event>, n: nat, k: nat, strip: seq<nat> -> seq<nat>)
    requires k <= n <= |events| && Original(events, n, strip).Some?
    ensures Original(events, k, strip).Some?
    ensures Agrees(Original(events, k, strip).value.meaning, Original(events, n, strip).value.meaning)
    decreases n
  {
    hide Load, Proper, Agrees;
    if k < n {
      OriginalPrefix(events, n - 1, k, strip);
      KeepsMeaning(Original(events, n - 1, strip).value, events[n - 1], strip);
      AgreesTrans(Original(events, k, strip).value.meaning, Original(events, n - 1, strip).value.meaning,
        Original(events, n, strip).value.meaning);
    } else {
      AgreesRefl(Original(events, n, strip).value.meaning);
    }
  }

  // ----- Tables

  ghost predicate PartOf(part: map<Id, Pending>, table: map<Id, Pending>) {
    forall id :: id in part ==> id in table && part[id] == table[id]
  }

  /** Part of a table was written out: `left` of it remains, and `still` of all that is held. */
  ghost predicate Progress(held: map<Id, Pending>, table: map<Id, Pending>, left: map<Id, Pending>,
      still: map<Id, Pending>) {
    && PartOf(left, table) && PartOf(left, still) && PartOf(still, held)
    && forall id :: id in held ==> (id in still <==> id in left || id !in table)
  }

  lemma ProgressStart(held: map<Id, Pending>, table: map<Id, Pending>)
    requires PartOf(table, held)
    ensures Progress(held, table, table, held)
  {}

  lemma ProgressStep(held: map<Id, Pending>, table: map<Id, Pending>, left: map<Id, Pending>, still: map<Id, Pending>,
      id: Id)
    requires Progress(held, table, left, still) && id in left
    ensures Progress(held, table, left - {id}, still - {id}) && |left - {id}| < |left|
  {
    Shrinks(left, id);
  }

  lemma ProgressEnd(held: map<Id, Pending>, table: map<Id, Pending>, still: map<Id, Pending>)
    requires Progress(held, table, map[], still)
    ensures still == held - table.Keys
  {}

  lemma NonEmptyHeld(into: Summary, sq: Squeezed, meaning: map<nat, nat>, strip: seq<nat> -> seq<nat>)
    requires Related(into, sq, meaning, strip)
    ensures NotEmpty(sq.pending)
  {
    forall id | id in sq.pending ensures sq.pending[id].events != [] {
      assert Held(id, sq.pending[id], into.live, sq.out.live, sq.out.meaning, sq.stats);
    }
  }

  lemma SameRaw(into: Summary, sq: Squeezed, meaning: map<nat, nat>, strip: seq<nat> -> seq<nat>)
    requires Related(into, sq, meaning, strip)
    ensures sq.renamed.Keys == into.meaning.Keys
  {}

  lemma NotPending(into: Summary, sq: Squeezed, meaning: map<nat, nat>, strip: seq<nat> -> seq<nat>, id: Id)
    requires Related(into, sq, meaning, strip) && id !in into.live
    ensures id !in sq.pending
  {
    if id in sq.pending {
      PendingBlock(into, sq, meaning, strip, id);
    }
  }

  lemma PreviousUnrelated(into: Summary, previous: map<nat, seq<nat>>, sq: Squeezed, meaning: map<nat, nat>,
      strip: seq<nat> -> seq<nat>)
    requires Related(into, sq, meaning, strip)
    ensures Related(into.(previous := previous), sq, meaning, strip)
  {}

  lemma LoadPartial(s: Summary, e: Event, strip: seq<nat> -> seq<nat>)
    requires e.PartialBacktrace?
    ensures var addresses := Expanded(s.previous, e);
      Load(s, e, strip) == Declare(s, e.number, addresses, strip).(previous := s.previous[e.onThread := addresses])
  {}

  /** Updating or removing an entry in either table does so in their union. */
  lemma Unions(young: map<Id, Pending>, mature: map<Id, Pending>, id: Id, p: Pending)
    ensures id !in mature ==> young[id := p] + mature == (young + mature)[id := p]
    ensures young + mature[id := p] == (young + mature)[id := p]
    ensures id !in mature ==> (young - {id}) + mature == (young + mature) - {id}
    ensures id !in young ==> young + (mature - {id}) == (young + mature) - {id}
  {
    UnionPut(young, mature, id, p);
    UnionDrop(young, mature, id);
  }

  lemma UnionPut(young: map<Id, Pending>, mature: map<Id, Pending>, id: Id, p: Pending)
    ensures id !in mature ==> young[id := p] + mature == (young + mature)[id := p]
    ensures young + mature[id := p] == (young + mature)[id := p]
  {}

  lemma UnionDrop(young: map<Id, Pending>, mature: map<Id, Pending>, id: Id)
    ensures id !in mature ==> (young - {id}) + mature == (young + mature) - {id}
    ensures id !in young ==> young + (mature - {id}) == (young + mature) - {id}
  {}

  lemma AgreesRefl(m: map<nat, nat>)
    ensures Agrees(m, m)
  {}

  lemma ChainStart(was: Summary, id: Id, events: seq<Buffered>, meaning: map<nat, nat>)
    requires forall i :: 0 <= i < |events| ==> events[i].body.backtrace in was.meaning
    ensures ChainLoaded(was, was, id, events, 0, meaning) && Chain(id, events, 0) == []
  {}

  lemma LoadsRealloc(s: Summary, id: Id, timestamp: nat, oldPointer: nat, body: Body, strip: seq<nat> -> seq<nat>)
    requires Tracked(id) && id in s.live && body.backtrace in s.meaning
    ensures Loadable(s, Realloc(id, timestamp, oldPointer, body)) && body.backtrace in Drop(s, id).meaning
    ensures Load(s, Realloc(id, timestamp, oldPointer, body), strip) == Put(Drop(s, id), id, timestamp, body)
    ensures Put(Drop(s, id), id, timestamp, body).previous == s.previous
  {}

  lemma LoadsFree(s: Summary, e: Event, strip: seq<nat> -> seq<nat>)
    requires e.Free? && Tracked(e.id)
    ensures Load(s, e, strip) == Drop(s, e.id)
  {}

  lemma DropPrevious(s: Summary, id: Id)
    ensures Drop(s, id).previous == s.previous
  {}

  lemma PutPrevious(s: Summary, id: Id, timestamp: nat, body: Body)
    requires body.backtrace in s.meaning
    ensures Put(s, id, timestamp, body).previous == s.previous
  {}

  lemma PutTaken(s: Summary, id: Id, timestamp: nat, body: Body)
    requires body.backtrace in s.meaning && id in s.live
    ensures Put(s, id, timestamp, body) == s
  {}

  lemma SamePrevious(s: Summary, number: nat, addresses: seq<nat>, strip: seq<nat> -> seq<nat>)
    ensures Declare(s, number, addresses, strip).previous == s.previous
  {}

  /** A pending allocation can be written to the output. */
  lemma ReadyToWrite(into: Summary, sq: Squeezed, meaning: map<nat, nat>, strip: seq<nat> -> seq<nat>, id: Id)
    requires Related(into, sq, meaning, strip) && id in sq.pending
    ensures var events := sq.pending[id].events;
      events != [] && forall i :: 0 <= i < |events| ==> events[i].body.backtrace in sq.out.meaning
    ensures Tracked(id) && id !in sq.out.live && Agrees(sq.out.meaning, meaning) && ProperNames(NamesOf(sq.out))
  {
    PendingBlock(into, sq, meaning, strip, id);
    var events := sq.pending[id].events;
    forall i | 0 <= i < |events| ensures events[i].body.backtrace in sq.out.meaning {
      assert Ready(events[i], sq.out.meaning, sq.stats);
    }
  }

  ghost predicate NotEmpty(table: map<Id, Pending>) {
    forall id :: id in table ==> table[id].events != []
  }

  /** No allocation of the table arrived before this one. */
  predicate Oldest(table: map<Id, Pending>, id: Id) {
    id in table && forall i :: i in table ==> table[id].counter <= table[i].counter
  }

  lemma {:induction false} HasOldest(table: map<Id, Pending>)
    requires table != map[]
    ensures exists id :: Oldest(table, id)
    decreases |table|
  {
    var id :| id in table;
    assert forall i :: i in table ==> i == id || i in table - {id};
    if table - {id} == map[] {
      assert Oldest(table, id);
    } else {
      Shrinks(table, id);
      HasOldest(table - {id});
      var j :| Oldest(table - {id}, j);
      if table[id].counter <= table[j].counter {
        assert Oldest(table, id);
      } else {
        assert Oldest(table, j);
      }
    }
  }

  /** The identifiers written so far, oldest first, and those left, all at least as old. */
  ghost predicate ByAge(order: seq<Id>, table: map<Id, Pending>, left: map<Id, Pending>) {
    && Distinct(order) && PartOf(left, table)
    && (forall id :: id in table <==> id in order || id in left)
    && (forall i :: 0 <= i < |order| ==> order[i] in table && order[i] !in left)
    && (forall i, j :: 0 <= i < j < |order| ==> table[order[i]].counter <= table[order[j]].counter)
    && (forall i, id :: 0 <= i < |order| && id in left ==> table[order[i]].counter <= left[id].counter)
  }

  lemma ByAgeStep(order: seq<Id>, table: map<Id, Pending>, left: map<Id, Pending>, id: Id)
    requires ByAge(order, table, left) && Oldest(left, id)
    ensures ByAge(order + [id], table, left - {id})
  {
    var order', left' := order + [id], left - {id};
    forall i | 0 <= i < |order'| ensures order'[i] in table && order'[i] !in left' {
      assert order'[i] == if i < |order| then order[i] else id;
    }
    forall i, j | 0 <= i < j < |order'|
      ensures order'[i] != order'[j] && table[order'[i]].counter <= table[order'[j]].counter
    {
      assert order'[i] == order[i] && order'[j] == if j < |order| then order[j] else id;
    }
    forall i, x | 0 <= i < |order'| && x in left' ensures table[order'[i]].counter <= left'[x].counter {
      assert order'[i] == if i < |order| then order[i] else id;
    }
    MemberNext(order, id);
  }

  lemma MemberNext(order: seq<Id>, id: Id)
    ensures forall x :: x in order + [id] <==> x in order || x == id
  {}

  lemma ByAgeStart(table: map<Id, Pending>)
    ensures ByAge([], table, table)
  {}

  predicate Covers(order: seq<Id>, table: map<Id, Pending>) {
    forall i :: 0 <= i < |order| ==> order[i] in table
  }

  /** The allocations of the first `n` identifiers, as written. */
  function Chains(order: seq<Id>, table: map<Id, Pending>, n: nat): seq<Event>
    requires n <= |order| && Covers(order, table)
  {
    if n == 0 then []
    else
      var events := table[order[n - 1]].events;
      Chains(order, table, n - 1) + Chain(order[n - 1], events, |events|)
  }

  lemma {:induction false} ChainsPrefix(order: seq<Id>, id: Id, table: map<Id, Pending>, n: nat)
    requires n <= |order| && id in table && Covers(order, table)
    ensures Chains(order + [id], table, n) == Chains(order, table, n)
  {
    if n > 0 {
      ChainsPrefix(order, id, table, n - 1);
    }
  }

  lemma NoChains(output: seq<Event>, table: map<Id, Pending>)
    ensures Covers([], table) && output == output + Chains([], table, 0)
  {}

  lemma ChainsStep(output: seq<Event>, order: seq<Id>, id: Id, table: map<Id, Pending>)
    requires id in table && Covers(order, table)
    ensures Covers(order + [id], table)
    ensures output + Chains(order, table, |order|) + Chain(id, table[id].events, |table[id].events|)
      == output + Chains(order + [id], table, |order| + 1)
  {
    hide Chain;
    ChainsPrefix(order, id, table, |order|);
    ConcatAssoc(output, Chains(order, table, |order|), Chain(id, table[id].events, |table[id].events|));
  }

  lemma PartNotEmpty(part: map<Id, Pending>, table: map<Id, Pending>)
    requires PartOf(part, table) && NotEmpty(table)
    ensures NotEmpty(part)
  {}

  /** The tables once the young have matured and the mature ones that are due were taken out. */
  lemma FlushTables(young: map<Id, Pending>, mature: map<Id, Pending>, due: map<Id, Pending>, rest: map<Id, Pending>)
    requires young.Keys !! mature.Keys && PartOf(due, mature) && PartOf(rest, mature)
    requires forall id :: id in mature ==> (id in due <==> id !in rest)
    ensures (young + mature) - due.Keys == map[] + (young + rest)
    ensures PartOf(due, young + mature) && PartOf(young, young + rest) && PartOf(young + rest, young + mature)
  {}

  /** Part of a table: the allocations made before now, at least the threshold ago. */
  ghost predicate OldEnough(table: map<Id, Pending>, due: map<Id, Pending>, now: nat, threshold: nat) {
    forall id :: id in table ==>
      && table[id].events != []
      && (id in due <==> table[id].events[0].timestamp < now && table[id].events[0].timestamp + threshold <= now)
  }

  /** Splits a table into the allocations old enough to be written out and the others. */
  method Partition(table: map<Id, Pending>, now: nat, threshold: nat)
    returns (due: map<Id, Pending>, rest: map<Id, Pending>)
    requires NotEmpty(table)
    ensures PartOf(due, table) && PartOf(rest, table)
    ensures OldEnough(table, due, now, threshold) && forall id :: id in table ==> (id in rest <==> id !in due)
  {
    var left := table;
    due, rest := map[], map[];
    while left != map[]
      invariant PartOf(due, table) && PartOf(rest, table) && PartOf(left, table)
      invariant forall id :: id in table && id !in left ==>
        var made := table[id].events[0].timestamp; id in due <==> made < now && now >= made + threshold
      invariant forall id :: id in table && id !in left ==> (id in rest <==> id !in due)
      invariant forall id :: id in left ==> id !in due && id !in rest
      decreases |left|
    {
      var id :| id in left;
      var made := left[id].events[0].timestamp;
      if made < now && now - made >= threshold {
        due := due[id := left[id]];
      } else {
        rest := rest[id := left[id]];
      }
      Shrinks(left, id);
      left := left - {id};
    }
  }

  // ----- The squeezer

  class Squeezer {
    const threshold: Option<nat>
    var output: seq<Event>
    var cache: map<seq<nat>, nat>
    var renamed: map<nat, nat>
    var previous: map<nat, seq<nat>>
    var stats: map<nat, Stat>
    var young: map<Id, Pending>
    var mature: map<Id, Pending>
    var now: nat
    var lastFlush: nat
    var counter: nat

    /** What the output loads to, what the input loaded to so far, and what its numbers mean in the end. */
    ghost var out: Summary
    ghost var into: Summary
    ghost const meaning: map<nat, nat>
    ghost const strip: seq<nat> -> seq<nat>

    ghost predicate ValidWith(held: map<Id, Pending>)
      reads this
    {
      && Loaded(output, |output|, strip) == Some(out)
      && Related(into, Squeezed(out, cache, renamed, stats, held), meaning, strip)
      && previous == into.previous && lastFlush <= now
    }

    ghost predicate Valid()
      reads this
    {
      young.Keys !! mature.Keys && ValidWith(young + mature)
    }

    ghost function Stored(): Store
      reads this
    {
      Store(young + mature, output)
    }

    constructor (start: nat, threshold: Option<nat>, ghost meaning: map<nat, nat>, ghost strip: seq<nat> -> seq<nat>)
      ensures Valid() && into == EMPTY && Stored() == Store(map[], []) && now == start
      ensures this.threshold == threshold && this.meaning == meaning && this.strip == strip
    {
      this.threshold := threshold;
      this.meaning, this.strip := meaning, strip;
      output, cache, renamed, previous, stats := [], map[], map[], map[], map[];
      young, mature := map[], map[];
      now, lastFlush, counter := start, start, 0;
      out, into := EMPTY, EMPTY;
      new;
      assert young + mature == map[];
    }

    /** Writes one event. */
    method WriteOut(e: Event)
      requires Loaded(output, |output|, strip) == Some(out) && Loadable(out, e)
      modifies this`output, this`out
      ensures output == old(output) + [e] && out == Load(old(out), e, strip)
      ensures Loaded(output, |output|, strip) == Some(out)
    {
      LoadedAppend(output, e, strip);
      output := output + [e];
      out := Load(out, e, strip);
    }

    /** Writes one event of a pending allocation. */
    method WriteNext(id: Id, e: Event, ghost events: seq<Buffered>, ghost n: nat, ghost was: Summary,
        ghost before: seq<Event>)
      requires n < |events| && e == Written(id, events, n)
      requires forall i :: 0 <= i < |events| ==> events[i].body.backtrace in was.meaning
      requires Tracked(id) && id !in was.live && Agrees(was.meaning, meaning) && ProperNames(NamesOf(was))
      requires Loaded(output, |output|, strip) == Some(out) && output == before + Chain(id, events, n)
      requires ChainLoaded(was, out, id, events, n, meaning)
      modifies this`output, this`out
      ensures Loaded(output, |output|, strip) == Some(out) && output == before + Chain(id, events, n + 1)
      ensures ChainLoaded(was, out, id, events, n + 1, meaning)
    {
      hide ChainLoaded, Loaded, Load, Loadable, Agrees, ProperNames;
      ChainStep(was, out, id, events, n, meaning, strip);
      ConcatAssoc(before, Chain(id, events, n), [e]);
      WriteOut(e);
    }

    /** Writes a pending allocation: its allocation, then its reallocations. */
    method WriteChain(id: Id, events: seq<Buffered>)
      requires Loaded(output, |output|, strip) == Some(out) && events != []
      requires forall i :: 0 <= i < |events| ==> events[i].body.backtrace in out.meaning
      requires Tracked(id) && id !in out.live && Agrees(out.meaning, meaning) && ProperNames(NamesOf(out))
      modifies this`output, this`out
      ensures output == old(output) + Chain(id, events, |events|)
      ensures Loaded(output, |output|, strip) == Some(out)
      ensures ChainLoaded(old(out), out, id, events, |events|, meaning)
    {
      hide ChainLoaded, Loaded, Chain, Agrees, ProperNames;
      ghost var was, before := out, output;
      ChainStart(was, id, events, meaning);
      assert before + Chain(id, events, 0) == before;
      WriteNext(id, Alloc(id, events[0].timestamp, events[0].body), events, 0, was, before);
      var oldPointer := events[0].body.pointer;
      var n := 1;
      while n < |events|
        invariant 0 < n <= |events| && oldPointer == events[n - 1].body.pointer
        invariant output == before + Chain(id, events, n)
        invariant Loaded(output, |output|, strip) == Some(out)
        invariant ChainLoaded(was, out, id, events, n, meaning)
      {
        WriteNext(id, Realloc(id, events[n].timestamp, oldPointer, events[n].body), events, n, was, before);
        oldPointer := events[n].body.pointer;
        n := n + 1;
      }
    }

    /** Writes out one of the allocations held back. */
    method Emit(id: Id, events: seq<Buffered>, ghost held: map<Id, Pending>)
      requires ValidWith(held) && id in held && held[id].events == events
      modifies this`output, this`out
      ensures ValidWith(held - {id})
      ensures output == old(output) + Chain(id, events, |events|)
      ensures AllStay(Store(held, old(output)), Store(held - {id}, output))
    {
      hide Related, ChainLoaded, AllStay, Agrees, ProperNames, Loaded, Chain;
      ghost var sq := Squeezed(out, cache, renamed, stats, held);
      ReadyToWrite(into, sq, meaning, strip, id);
      EmitStays(Store(held, output), id, events);
      WriteChain(id, events);
      EmitPending(into, sq, out, meaning, strip, id);
    }

    /** Writes out all allocations of a table, in any order. */
    method EmitAll(table: map<Id, Pending>, ghost held: map<Id, Pending>)
      requires ValidWith(held) && PartOf(table, held)
      modifies this`output, this`out
      ensures ValidWith(held - table.Keys) && AllStay(Store(held, old(output)), Store(held - table.Keys, output))
    {
      hide Related, AllStay, Loaded, Chain;
      var left := table;
      ghost var still := held;
      StayRefl(Store(held, output));
      ProgressStart(held, table);
      while left != map[]
        invariant Progress(held, table, left, still)
        invariant ValidWith(still) && AllStay(Store(held, old(output)), Store(still, output))
        decreases |left|
      {
        var id :| id in left;
        ghost var before := output;
        Emit(id, left[id].events, still);
        StayTrans(Store(held, old(output)), Store(still, before), Store(still - {id}, output));
        ProgressStep(held, table, left, still, id);
        left := left - {id};
        still := still - {id};
      }
      ProgressEnd(held, table, still);
    }

    /** Writes out the oldest allocation of a table. */
    method EmitOldest(left: map<Id, Pending>, ghost held: map<Id, Pending>) returns (id: Id)
      requires ValidWith(held) && PartOf(left, held) && left != map[]
      modifies this`output, this`out
      ensures Oldest(left, id) && ValidWith(held - {id})
      ensures AllStay(Store(held, old(output)), Store(held - {id}, output))
      ensures output == old(output) + Chain(id, left[id].events, |left[id].events|)
    {
      hide Related, AllStay, Loaded, Chain;
      HasOldest(left);
      id :| Oldest(left, id);
      Emit(id, left[id].events, held);
    }

    /** Writes out all allocations of a table, oldest first. */
    method EmitByAge(table: map<Id, Pending>, ghost held: map<Id, Pending>) returns (ghost order: seq<Id>)
      requires ValidWith(held) && PartOf(table, held)
      modifies this`output, this`out
      ensures ValidWith(held - table.Keys) && AllStay(Store(held, old(output)), Store(held - table.Keys, output))
      ensures ByAge(order, table, map[]) && Covers(order, table)
      ensures output == old(output) + Chains(order, table, |order|)
    {
      hide Related, AllStay, Loaded, Chain, Chains, ByAge, Covers;
      var left := table;
      ghost var still := held;
      order := [];
      StayRefl(Store(held, output));
      NoChains(output, table);
      ByAgeStart(table);
      ProgressStart(held, table);
      while left != map[]
        invariant Progress(held, table, left, still)
        invariant ValidWith(still) && AllStay(Store(held, old(output)), Store(still, output))
        invariant Covers(order, table) && ByAge(order, table, left)
        invariant output == old(output) + Chains(order, table, |order|)
        decreases |left|
      {
        ghost var before := output;
        var id := EmitOldest(left, still);
        StayTrans(Store(held, old(output)), Store(still, before), Store(still - {id}, output));
        ByAgeStep(order, table, left, id);
        ChainsStep(old(output), order, id, table);
        ProgressStep(held, table, left, still, id);
        left := left - {id};
        still := still - {id};
        order := order + [id];
      }
      ProgressEnd(held, table, still);
    }

    /** Every so often, allocations that have been held back for long enough are written out, oldest first. */
    method Flush(limit: nat) returns (ghost order: seq<Id>, ghost due: map<Id, Pending>)
      requires Valid()
      modifies this`output, this`out, this`young, this`mature, this`lastFlush
      ensures Valid() && AllStay(old(Stored()), Stored()) && OldEnough(old(mature), due, now, limit)
      ensures young == map[] && lastFlush == now
      ensures PartOf(due, old(mature)) && PartOf(old(young), mature) && PartOf(mature, old(young + mature))
      ensures forall id :: id in old(mature) ==> (id in due <==> id !in mature)
      ensures ByAge(order, due, map[]) && Covers(order, due) && output == old(output) + Chains(order, due, |order|)
    {
      hide Related, AllStay, Loaded, Chain, Chains, ByAge;
      ghost var held := young + mature;
      NonEmptyHeld(into, Squeezed(out, cache, renamed, stats, held), meaning, strip);
      var aging := mature;
      PartNotEmpty(aging, held);
      var flushed, rest := Partition(aging, now, limit);
      due := flushed;
      mature := young + rest;
      young := map[];
      lastFlush := now;
      FlushTables(old(young), aging, flushed, rest);
      order := EmitByAge(flushed, held);
    }

    /** A backtrace already in the output gets another number. */
    method NameKnown(number: nat, addresses: seq<nat>)
      requires Valid() && number !in into.meaning && addresses in cache
      requires Agrees(Declare(into, number, addresses, strip).meaning, meaning)
      modifies this`into, this`renamed
      ensures Valid() && into == old(Declare(into, number, addresses, strip))
      ensures renamed == old(renamed)[number := cache[addresses]]
    {
      hide Related, Loaded, Declare, Agrees;
      DeclareKnown(into, Squeezed(out, cache, renamed, stats, young + mature), meaning, strip, number, addresses);
      renamed := renamed[number := cache[addresses]];
      SamePrevious(into, number, addresses, strip);
      into := Declare(into, number, addresses, strip);
    }

    /** A new backtrace is written. */
    method NameNew(number: nat, addresses: seq<nat>)
      requires Valid() && number !in into.meaning && addresses !in cache
      requires Agrees(Declare(into, number, addresses, strip).meaning, meaning)
      modifies this`output, this`out, this`into, this`cache, this`renamed
      ensures Valid() && into == old(Declare(into, number, addresses, strip))
      ensures renamed == old(renamed)[number := number] && output == old(output) + [Backtrace(number, addresses)]
    {
      hide Related, Loaded, Declare, Agrees;
      DeclareNew(into, Squeezed(out, cache, renamed, stats, young + mature), meaning, strip, number, addresses);
      cache := cache[addresses := number];
      renamed := renamed[number := number];
      WriteOut(Backtrace(number, addresses));
      SamePrevious(into, number, addresses, strip);
      into := Declare(into, number, addresses, strip);
    }

    /** A backtrace, in full; one already in the output under another number is not written again. */
    method OnBacktrace(number: nat, addresses: seq<nat>)
      requires Valid() && number !in into.meaning
      requires Agrees(Declare(into, number, addresses, strip).meaning, meaning)
      modifies this`output, this`out, this`into, this`cache, this`renamed
      ensures Valid() && into == old(Declare(into, number, addresses, strip))
      ensures Agrees(old(renamed), renamed)
      ensures output == old(output) + if addresses in old(cache) then [] else [Backtrace(number, addresses)]
    {
      hide Related, Loaded, Declare;
      SameRaw(into, Squeezed(out, cache, renamed, stats, young + mature), meaning, strip);
      if addresses in cache {
        NameKnown(number, addresses);
      } else {
        NameNew(number, addresses);
      }
    }

    /** A backtrace given as the frames that changed since the last one on its thread. */
    method OnPartialBacktrace(e: Event)
      requires Valid() && e.PartialBacktrace? && e.number !in into.meaning
      requires Agrees(Load(into, e, strip).meaning, meaning)
      modifies this`output, this`out, this`into, this`cache, this`renamed, this`previous
      ensures Valid() && into == old(Load(into, e, strip)) && Agrees(old(renamed), renamed)
      ensures output == old(output) +
        if old(Expanded(previous, e) in cache) then []
        else [Backtrace(e.number, old(Expanded(previous, e)))]
    {
      hide Related, Loaded, Load, Declare, Expanded;
      LoadPartial(into, e, strip);
      var addresses := Expanded(previous, e);
      OnBacktrace(e.number, addresses);
      previous := previous[e.onThread := addresses];
      PreviousUnrelated(into, previous, Squeezed(out, cache, renamed, stats, young + mature), meaning, strip);
      into := into.(previous := previous);
    }

    /** The statistics of a backtrace are opened when it is first used. */
    method OpenStats(raw: nat)
      requires Valid() && raw in out.meaning
      modifies this`stats
      ensures Valid() && raw in stats
    {
      hide Related, Loaded;
      Open(into, Squeezed(out, cache, renamed, stats, young + mature), meaning, strip, raw);
      if raw !in stats {
        stats := stats[raw := Stat(0, 0)];
      }
      assert stats == Added(old(stats), raw, 0, 0);
    }

    /** Holds back an allocation. */
    method HoldAlloc(e: Event, body: Body)
      requires Valid() && e.Alloc? && Tracked(e.id) && e.id !in into.live && e.body.backtrace in into.meaning
      requires e.body.backtrace in renamed && body == Rename(e.body, renamed) && body.backtrace in stats
      modifies this`young, this`into, this`counter
      ensures into == old(Put(into, e.id, e.timestamp, e.body))
      ensures young == old(young)[e.id := Pending(old(counter), [Buffered(e.timestamp, body)])]
      ensures counter == old(counter) + 1 && Effect(old(Stored()), Stored(), e, threshold, renamed, now)
      ensures Valid()
    {
      hide Related, Loaded, Effect, Put, Holdable, Latest, UsableSize;
      ghost var sq := Squeezed(out, cache, renamed, stats, young + mature);
      var p := Pending(counter, [Buffered(e.timestamp, body)]);
      NotPending(into, sq, meaning, strip, e.id);
      HoldBack(into, sq, meaning, strip, e.id, e.timestamp, e.body, counter);
      AddEffect(Stored(), p, e, threshold, renamed, now);
      Unions(young, mature, e.id, p);
      PutPrevious(into, e.id, e.timestamp, e.body);
      young := young[e.id := p];
      counter := counter + 1;
      into := Put(into, e.id, e.timestamp, e.body);
    }

    /** An allocation is held back; one of an identifier that is still young is dropped. */
    method OnAlloc(e: Event)
      requires Valid() && e.Alloc? && Tracked(e.id) && (e.id in young || e.id !in into.live)
      requires e.body.backtrace in into.meaning
      modifies this`stats, this`young, this`into, this`now, this`counter
      ensures into == old(Put(into, e.id, e.timestamp, e.body)) && e.body.backtrace in renamed
      ensures e.id in young && now == Max(e.timestamp, old(now))
      ensures e.id in old(young) ==> young == old(young) && counter == old(counter)
      ensures e.id !in old(young) ==>
        && young == old(young)[e.id := Pending(old(counter), [Buffered(e.timestamp, Rename(e.body, renamed))])]
        && counter == old(counter) + 1
      ensures Effect(old(Stored()), Stored(), e, threshold, renamed, old(now))
      ensures Valid()
    {
      hide Related, Loaded, Effect, Put, Holdable, Latest, UsableSize;
      RenamedMeans(into, Squeezed(out, cache, renamed, stats, young + mature), meaning, strip, e.body.backtrace);
      var body := Rename(e.body, renamed);
      OpenStats(body.backtrace);
      if e.id in young {
        PendingBlock(into, Squeezed(out, cache, renamed, stats, young + mature), meaning, strip, e.id);
        PutTaken(into, e.id, e.timestamp, e.body);
        StayRefl(Stored());
        QuietEffect(Stored(), Stored(), e, threshold, renamed, now);
      } else {
        HoldAlloc(e, body);
      }
      now := Max(e.timestamp, now);
    }

    /** One more event of an allocation held back, in whichever table it is. */
    method Append(id: Id, b: Buffered)
      requires id in young + mature && young.Keys !! mature.Keys
      modifies this`young, this`mature
      ensures var p := old(young + mature)[id];
        young + mature == old(young + mature)[id := p.(events := p.events + [b])]
      ensures young.Keys == old(young.Keys) && mature.Keys == old(mature.Keys)
    {
      if id in young {
        var p := young[id].(events := young[id].events + [b]);
        Unions(young, mature, id, p);
        young := young[id := p];
      } else {
        var p := mature[id].(events := mature[id].events + [b]);
        Unions(young, mature, id, p);
        mature := mature[id := p];
      }
    }

    /** Holds back a reallocation with its allocation. */
    method HoldRealloc(e: Event, body: Body)
      requires Valid() && e.Realloc? && Tracked(e.id) && (e.id in young || e.id in mature)
      requires e.body.backtrace in into.meaning && e.body.backtrace in renamed
      requires body == Rename(e.body, renamed) && body.backtrace in stats
      modifies this`young, this`mature, this`into
      ensures into == old(Put(Drop(into, e.id), e.id, e.timestamp, e.body))
      ensures Effect(old(Stored()), Stored(), e, threshold, renamed, now)
      ensures Valid()
    {
      hide Related, Loaded, Effect, Put, Drop, Latest, UsableSize, Holdable, Loadable, Load;
      ghost var sq := Squeezed(out, cache, renamed, stats, young + mature);
      var b := Buffered(e.timestamp, body);
      Extend(into, sq, meaning, strip, e.id, e.timestamp, e.body);
      PendingBlock(into, sq, meaning, strip, e.id);
      ExtendEffect(Stored(), e, threshold, renamed, now);
      Append(e.id, b);
      LoadsRealloc(into, e.id, e.timestamp, e.oldPointer, e.body, strip);
      into := Put(Drop(into, e.id), e.id, e.timestamp, e.body);
    }

    /** Passes a reallocation on. */
    method PassOn(e: Event, body: Body)
      requires Valid() && e.Realloc? && Tracked(e.id) && e.id !in young && e.id !in mature && e.id in into.live
      requires e.body.backtrace in into.meaning && e.body.backtrace in renamed && body == Rename(e.body, renamed)
      modifies this`into, this`out, this`output
      ensures into == old(Put(Drop(into, e.id), e.id, e.timestamp, e.body))
      ensures Effect(old(Stored()), Stored(), e, threshold, renamed, now)
      ensures Valid()
    {
      hide Related, Loaded, Effect, Load, Loadable, Put, Drop, UsableSize;
      ghost var sq := Squeezed(out, cache, renamed, stats, young + mature);
      var written := Realloc(e.id, e.timestamp, e.oldPointer, body);
      PassRealloc(into, sq, meaning, strip, e.id, e.timestamp, e.body);
      LoadsRealloc(out, e.id, e.timestamp, e.oldPointer, body, strip);
      PassReallocEffect(Stored(), e, threshold, renamed, now);
      WriteOut(written);
      LoadsRealloc(into, e.id, e.timestamp, e.oldPointer, e.body, strip);
      into := Put(Drop(into, e.id), e.id, e.timestamp, e.body);
    }

    /** A reallocation is held back with its allocation, or passed on if that was written out. */
    method OnRealloc(e: Event)
      requires Valid() && e.Realloc? && Tracked(e.id) && e.id in into.live && e.body.backtrace in into.meaning
      modifies this`stats, this`young, this`mature, this`into, this`out, this`output
      ensures into == old(Put(Drop(into, e.id), e.id, e.timestamp, e.body)) && e.body.backtrace in renamed
      ensures Effect(old(Stored()), Stored(), e, threshold, renamed, old(now))
      ensures Valid()
    {
      hide Related, Loaded, Effect, Put, Drop;
      RenamedMeans(into, Squeezed(out, cache, renamed, stats, young + mature), meaning, strip, e.body.backtrace);
      var body := Rename(e.body, renamed);
      OpenStats(body.backtrace);
      if e.id in young || e.id in mature {
        HoldRealloc(e, body);
      } else {
        PassOn(e, body);
      }
    }

    /** The statistics of a culled allocation. */
    method CullEvents(events: seq<Buffered>)
      requires forall i :: 0 <= i < |events| ==> events[i].body.backtrace in stats
      modifies this`stats
      ensures stats == Culled(old(stats), events, |events|)
    {
      var n := 0;
      while n < |events|
        invariant n <= |events| && stats == Culled(old(stats), events, n) && stats.Keys == old(stats.Keys)
      {
        var raw := events[n].body.backtrace;
        var was := stats[raw];
        stats := stats[raw := Stat(was.count + 1, was.size + UsableSize(events[n].body))];
        n := n + 1;
      }
    }

    /**
     The end of an allocation taken out of the tables: short-lived ones become statistics, others are written with
     their free.
     */
    method Settle(p: Pending, e: Event, ghost held: map<Id, Pending>)
      requires ValidWith(held) && e.Free? && Tracked(e.id) && e.id in held && held[e.id] == p && p.events != []
      modifies this`stats, this`into, this`out, this`output
      ensures into == old(Drop(into, e.id))
      ensures Short(p.events[0].timestamp, e.timestamp, threshold) ==> output == old(output)
      ensures !Short(p.events[0].timestamp, e.timestamp, threshold) ==>
        output == old(output) + Chain(e.id, p.events, |p.events|) + [e]
      ensures ValidWith(held - {e.id})
    {
      hide Related, Loaded, Chain, AllStay, Culled;
      ghost var sq := Squeezed(out, cache, renamed, stats, held);
      if e.timestamp >= p.events[0].timestamp && threshold.Some? &&
        e.timestamp - p.events[0].timestamp > threshold.value {
        PendingBlock(into, sq, meaning, strip, e.id);
        Emit(e.id, p.events, held);
        PassFree(into, Squeezed(out, cache, renamed, stats, held - {e.id}), meaning, strip, e.id);
        WriteOut(e);
      } else {
        StatsOpen(into, sq, meaning, strip, e.id);
        Cull(into, sq, meaning, strip, e.id);
        CullEvents(p.events);
      }
      into := Drop(into, e.id);
    }

    /** Takes an allocation out of the table it is in. */
    method TakeOut(id: Id) returns (p: Pending)
      requires id in young + mature && young.Keys !! mature.Keys
      modifies this`young, this`mature
      ensures p == old(young + mature)[id] && young + mature == old(young + mature) - {id}
      ensures young.Keys !! mature.Keys
    {
      if id in young {
        p := young[id];
        Unions(young, mature, id, p);
        young := young - {id};
      } else {
        p := mature[id];
        Unions(young, mature, id, p);
        mature := mature - {id};
      }
    }

    /** A free ends an allocation held back, or is passed on. */
    method OnFree(e: Event)
      requires Valid() && e.Free? && Tracked(e.id) && e.id in into.live
      modifies this`stats, this`young, this`mature, this`into, this`out, this`output
      ensures Valid() && into == old(Drop(into, e.id))
      ensures Effect(old(Stored()), Stored(), e, threshold, renamed, old(now))
    {
      hide Related, Loaded, Chain, Effect, Short, Drop, Load;
      ghost var held := young + mature;
      if e.id in young || e.id in mature {
        NonEmptyHeld(into, Squeezed(out, cache, renamed, stats, held), meaning, strip);
        var p := TakeOut(e.id);
        Settle(p, e, held);
        SettleEffect(old(Stored()), output, e, p, threshold, renamed, now);
      } else {
        PassFree(into, Squeezed(out, cache, renamed, stats, held), meaning, strip, e.id);
        LoadsFree(out, e, strip);
        PassFreeEffect(Stored(), e, threshold, renamed, now);
        WriteOut(e);
        DropPrevious(into, e.id);
        into := Drop(into, e.id);
      }
    }

    /** Statistics of a trace squeezed before are added up. */
    method OnStatistics(raw: nat, count: nat, size: nat)
      requires Valid() && raw in into.meaning
      modifies this`stats, this`into
      ensures into == Load(old(into), Statistics(raw, count, size), strip)
      ensures Valid()
    {
      hide Related, Loaded, Count;
      ghost var sq := Squeezed(out, cache, renamed, stats, young + mature);
      RenamedMeans(into, sq, meaning, strip, raw);
      Collect(into, sq, meaning, strip, raw, count, size);
      var name := renamed[raw];
      var was := if name in stats then stats[name] else Stat(0, 0);
      stats := stats[name := Stat(was.count + count, was.size + size)];
      into := Load(into, Statistics(raw, count, size), strip);
    }

    /** Any other event is passed on. */
    method OnOther(e: Event)
      requires Valid() && e.Other?
      modifies this`output, this`out
      ensures output == old(output) + [e]
      ensures Valid()
    {
      hide Related, Loaded;
      WriteOut(e);
    }

    /** Handles one event, apart from flushing. */
    method Dispatch(e: Event)
      requires Valid() && Proper(into, e) && Agrees(Load(into, e, strip).meaning, meaning)
      modifies this
      ensures into == old(Load(into, e, strip)) && Agrees(old(renamed), renamed)
      ensures Effect(old(Stored()), Stored(), e, threshold, renamed, old(now))
      ensures e.Alloc? || e.Realloc? ==> e.body.backtrace in renamed
      ensures now == (if e.Alloc? then Max(e.timestamp, old(now)) else old(now)) && lastFlush == old(lastFlush)
      ensures Valid()
    {
      hide Related, Loaded, Effect, Declare, Put, Drop, Agrees, Count, UsableSize;
      ghost var before, known := Stored(), cache;
      AgreesRefl(renamed);
      match e {
        case Alloc(_, _, _) =>
          NotPending(into, Squeezed(out, cache, renamed, stats, before.held), meaning, strip, e.id);
          OnAlloc(e);
        case Realloc(_, _, _, _) => OnRealloc(e);
        case Free(_, _, _, _, _) => OnFree(e);
        case Backtrace(number, addresses) =>
          OnBacktrace(number, addresses);
          DeclaredEffect(before, Stored(), addresses in known, number, addresses, e, threshold, renamed, now);
        case PartialBacktrace(number, _, _, _) =>
          ghost var addresses := Expanded(previous, e);
          OnPartialBacktrace(e);
          DeclaredEffect(before, Stored(), addresses in known, number, addresses, e, threshold, renamed, now);
        case Statistics(group, count, size) =>
          OnStatistics(group, count, size);
          StayRefl(before);
          QuietEffect(before, before, e, threshold, renamed, now);
        case Other(_) =>
          OnOther(e);
          OtherEffect(before, e, threshold, renamed, now);
      }
    }

    /** Handles one event: first a flush, if the last one was long enough ago, then the event itself. */
    method Process(e: Event)
      requires Valid() && Proper(into, e) && Agrees(Load(into, e, strip).meaning, meaning)
      modifies this
      ensures into == old(Load(into, e, strip)) && Agrees(old(renamed), renamed)
      ensures Effect(old(Stored()), Stored(), e, threshold, renamed, old(now))
      ensures e.Alloc? || e.Realloc? ==> e.body.backtrace in renamed
      ensures now == if e.Alloc? then Max(e.timestamp, old(now)) else old(now)
      ensures lastFlush ==
        if threshold.Some? && old(now - lastFlush) > threshold.value then old(now) else old(lastFlush)
      ensures threshold.Some? && old(now - lastFlush) > threshold.value ==>
        forall id :: id in old(mature) && id in young + mature ==> NotDue(old(mature)[id], old(now), threshold.value)
      ensures Valid()
    {
      hide Related, Loaded, Effect, Load, AllStay, Agrees, ByAge, Chains;
      ghost var start := Stored();
      if e.Alloc? {
        NotPending(into, Squeezed(out, cache, renamed, stats, start.held), meaning, strip, e.id);
      }
      if threshold.Some? && now - lastFlush > threshold.value {
        ghost var order, due := Flush(threshold.value);
        ghost var mid := Stored();
        Dispatch(e);
        FlushEffect(start, mid, Stored(), e, threshold, renamed, old(now));
        HeldBefore(mid, Stored(), e, threshold, renamed, old(now));
      } else {
        Dispatch(e);
      }
    }

    /** The statistics go to the end of the output, in any order. */
    method WriteStatistics()
      requires ValidWith(map[])
      modifies this`output, this`out, this`stats
      ensures ValidWith(map[]) && stats == map[]
      ensures AllStay(Store(map[], old(output)), Store(map[], output))
    {
      hide Related, Loaded, Load, AllStay;
      StayRefl(Store(map[], output));
      while stats != map[]
        invariant ValidWith(map[])
        invariant AllStay(Store(map[], old(output)), Store(map[], output))
        decreases |stats|
      {
        var raw :| raw in stats;
        var e := Statistics(raw, stats[raw].count, stats[raw].size);
        WriteStat(into, Squeezed(out, cache, renamed, stats, map[]), meaning, strip, raw);
        ghost var before := Store(map[], output);
        WriteOut(e);
        OtherStays(before, e);
        StayTrans(Store(map[], old(output)), before, Store(map[], output));
        Shrinks(stats, raw);
        stats := stats - {raw};
      }
    }

    /** Writes everything still held back, mature allocations first, then the statistics. */
    method Finish()
      requires Valid()
      modifies this`output, this`out, this`stats
      ensures ValidWith(map[]) && stats == map[]
      ensures AllStay(old(Stored()), Store(map[], output))
    {
      hide Related, Loaded, AllStay;
      ghost var held := young + mature;
      EmitAll(mature, held);
      ghost var first := output;
      ghost var rest := held - mature.Keys;
      assert PartOf(young, rest);
      EmitAll(young, rest);
      ghost var second := output;
      assert rest - young.Keys == map[];
      WriteStatistics();
      StayTrans(Store(held, old(output)), Store(rest, first), Store(map[], second));
      StayTrans(Store(held, old(output)), Store(map[], second), Store(map[], output));
    }
  }

  /** A backtrace is written, or not if it is known. */
  lemma DeclaredEffect(s: Store, t: Store, known: bool, number: nat, addresses: seq<nat>, e: Event,
      threshold: Option<nat>, names: map<nat, nat>, now: nat)
    requires e.Backtrace? || e.PartialBacktrace?
    requires t == Store(s.held, s.output + if known then [] else [Backtrace(number, addresses)])
    ensures Effect(s, t, e, threshold, names, now)
  {
    hide AllStay, Effect;
    if known {
      assert t == s;
      StayRefl(s);
    } else {
      OtherStays(s, Backtrace(number, addresses));
    }
    QuietEffect(s, t, e, threshold, names, now);
  }

  /** Too young to be written out. */
  predicate NotDue(p: Pending, now: nat, threshold: nat) {
    p.events != [] && (now <= p.events[0].timestamp || now < p.events[0].timestamp + threshold)
  }

  /** An event holds nothing back but its own allocation. */
  lemma HeldBefore(s: Store, t: Store, e: Event, threshold: Option<nat>, names: map<nat, nat>, now: nat)
    requires Effect(s, t, e, threshold, names, now)
    ensures forall id :: id in t.held ==> id in s.held || (e.Alloc? && e.id == id)
  {
    forall id | id in t.held ensures id in s.held || (e.Alloc? && e.id == id) {
      assert LineStep(s, t, e, threshold, names, now, Block(id));
    }
  }

  // ----- Squeezing a whole trace

  /** The output's numbers for backtraces mean what the original ones did. */
  ghost predicate SameMeaning(renamed: map<nat, nat>, was: Summary, now: Summary) {
    && renamed.Keys == was.meaning.Keys
    && forall raw :: raw in renamed ==>
      renamed[raw] in now.meaning && now.meaning[renamed[raw]] == was.meaning[raw]
  }

  lemma NamesMean(into: Summary, sq: Squeezed, meaning: map<nat, nat>, strip: seq<nat> -> seq<nat>)
    requires Related(into, sq, meaning, strip)
    ensures SameMeaning(sq.renamed, into, sq.out)
  {}

  // ----- Blocks of the trace

  /** In a trace that makes sense, the live blocks are those of the allocations that were not freed. */
  lemma {:induction false} LiveIsLiving(events: seq<Event>, n: nat, strip: seq<nat> -> seq<nat>, id: Id)
    requires n <= |events| && Original(events, n, strip).Some?
    ensures id in Original(events, n, strip).value.live <==> Living(events, n, id)
  {
    hide Count, UsableSize, Declare;
    if n > 0 {
      LiveIsLiving(events, n - 1, strip, id);
      LiveStep(events, n - 1, strip, id);
      if Living(events, n - 1, id) && !About(events[n - 1], Block(id)) {
        assert NotFreed(events, Birth(events, n, id).value, n);
      }
    }
  }

  lemma LiveStep(events: seq<Event>, n: nat, strip: seq<nat> -> seq<nat>, id: Id)
    requires n < |events| && Original(events, n + 1, strip).Some?
    ensures Original(events, n, strip).Some?
    ensures var s, s', e := Original(events, n, strip).value, Original(events, n + 1, strip).value, events[n];
      && (id in s'.live <==> (if About(e, Block(id)) then !e.Free? else id in s.live))
      && (e.Alloc? ==> e.id !in s.live) && (e.Realloc? || e.Free? ==> e.id in s.live)
  {
    hide Count, UsableSize;
  }

  lemma SensibleTrace(events: seq<Event>, strip: seq<nat> -> seq<nat>)
    requires Original(events, |events|, strip).Some?
    ensures OneAtATime(events)
  {
    hide Proper, Load;
    forall n | 0 <= n < |events| && events[n].Alloc? ensures !Living(events, n, events[n].id) {
      OriginalPrefix(events, |events|, n + 1, strip);
      LiveStep(events, n, strip, events[n].id);
      LiveIsLiving(events, n, strip, events[n].id);
    }
  }

  /** What is held back is live. */
  lemma Sensible(events: seq<Event>, n: nat, strip: seq<nat> -> seq<nat>, s: Squeezer)
    requires n < |events| && Original(events, n + 1, strip).Some? && s.Valid()
    requires Original(events, n, strip) == Some(s.into)
    ensures MakesSense(events, n, s.Stored())
  {
    hide Proper, Load, Related, Loaded;
    var e := events[n];
    if e.Alloc? || e.Realloc? || e.Free? {
      LiveStep(events, n, strip, e.id);
      LiveIsLiving(events, n, strip, e.id);
      if e.Alloc? {
        NotPending(s.into, Squeezed(s.out, s.cache, s.renamed, s.stats, s.young + s.mature), s.meaning, s.strip, e.id);
      }
    }
  }

  /** All that the invariants of squeezing say about the fates of events. */
  ghost predicate FatesOk(events: seq<Event>, start: nat, n: nat, f: Fate, s: Store, threshold: Option<nat>, now: nat)
    requires n <= |events|
  {
    && LinesOk(events, n, f, s, threshold, now) && DroppedSoon(events, n, f, threshold)
    && (InTime(events, start) ==> NotAfterFrees(events, n, now))
    && (InTime(events, start) || threshold.None? ==> EarlyDropped(events, n, f, threshold))
    && (threshold.None? ==> AllChained(events, n, f))
  }

  lemma FatesStart(events: seq<Event>, start: nat, names: map<nat, nat>, threshold: Option<nat>)
    ensures FatesOk(events, start, 0, Fate(names, {}, {}), Store(map[], []), threshold, start)
  {
    NothingTold(events, names, threshold, start);
    if InTime(events, start) {
      FromStart(events, start);
    }
  }

  lemma FatesStep(events: seq<Event>, start: nat, n: nat, f: Fate, s: Store, t: Store, threshold: Option<nat>,
      names: map<nat, nat>, now: nat)
    requires n < |events| && FatesOk(events, start, n, f, s, threshold, now) && OneAtATime(events)
    requires MakesSense(events, n, s) && Agrees(f.names, names) && Effect(s, t, events[n], threshold, names, now)
    requires events[n].Alloc? || events[n].Realloc? ==> events[n].body.backtrace in names
    ensures FatesOk(events, start, n + 1, NextFate(events, n, f, s, t, threshold, names), t, threshold,
      if events[n].Alloc? then Max(events[n].timestamp, now) else now)
  {
    hide LineOk, MakesSense, Agrees, Effect, InTime, NotAfterFrees, DroppedSoon, EarlyDropped, AllChained, OneAtATime;
    hide NextFate;
    var later := if events[n].Alloc? then Max(events[n].timestamp, now) else now;
    LinesKept(events, n, f, s, t, threshold, names, now, later);
    DroppedKept(events, n, f, s, t, threshold, names, now);
    if InTime(events, start) {
      TimePasses(events, start, n, now);
    }
    if InTime(events, start) || threshold.None? {
      EarlyKept(events, n, f, s, t, threshold, names, now);
    }
    if threshold.None? {
      ChainedKept(events, n, f, s, t, names, now);
    }
  }

  /**
   Squeezes a trace; `start` is the time in its header. The output loads to the same counters and live blocks,
   with backtraces under numbers that mean the same. About each block it says what the trace says, event by event,
   without the allocations that were dropped; these are freed soon, and if times do not go back, all that are freed
   early are among them.
   */
  method SqueezeTrace(events: seq<Event>, start: nat, threshold: Option<nat>, ghost strip: seq<nat> -> seq<nat>)
    returns (output: seq<Event>, ghost fate: Fate)
    requires Original(events, |events|, strip).Some?
    ensures Loaded(events, |events|, strip).Some? && Loaded(output, |output|, strip).Some?
    ensures var was, now := Loaded(events, |events|, strip).value, Loaded(output, |output|, strip).value;
      && was.numbers == now.numbers && was.groups == now.groups && was.live == now.live
      && SameMeaning(fate.names, was, now)
    ensures OneAtATime(events) && TellsAll(events, fate, output) && DroppedSoon(events, |events|, fate, threshold)
    ensures InTime(events, start) || threshold.None? ==> EarlyDropped(events, |events|, fate, threshold)
    ensures threshold.None? ==> AllChained(events, |events|, fate)
    ensures (forall x :: x in output && x.Free? ==> x in events) && LateFreesKept(events, fate, output, threshold)
    ensures AllAccounted(events, fate, output, threshold)
    ensures InTime(events, start) || threshold.None? ==> NoneEarly(events, fate, output, threshold)
    ensures threshold.None? ==> AllLive(output, Loaded(output, |output|, strip).value.live)
  {
    hide Related, Loaded, Effect, Load, AllStay, Agrees, Proper, FatesOk, MakesSense, OneAtATime, NextFate;
    hide TellsAll, DroppedSoon, EarlyDropped, AllChained, AllAccounted, InTime, NoneEarly, SameMeaning, AllLive;
    hide LateFreesKept;
    ghost var meaning := Original(events, |events|, strip).value.meaning;
    OriginalPrefix(events, |events|, 0, strip);
    SensibleTrace(events, strip);
    var s := new Squeezer(start, threshold, meaning, strip);
    var n := 0;
    fate := Fate(s.renamed, {}, {});
    FatesStart(events, start, s.renamed, threshold);
    while n < |events|
      invariant n <= |events| && s.Valid() && Original(events, n, strip) == Some(s.into)
      invariant s.threshold == threshold && s.meaning == meaning && s.strip == strip && fate.names == s.renamed
      invariant FatesOk(events, start, n, fate, s.Stored(), threshold, s.now)
    {
      ghost var before, now := s.Stored(), s.now;
      OriginalPrefix(events, |events|, n + 1, strip);
      Sensible(events, n, strip, s);
      s.Process(events[n]);
      FatesStep(events, start, n, fate, before, s.Stored(), threshold, s.renamed, now);
      fate := NextFate(events, n, fate, before, s.Stored(), threshold, s.renamed);
      n := n + 1;
    }
    ghost var before := s.Stored();
    s.Finish();
    output := s.output;
    FatesEnd(events, start, fate, before, threshold, s.now, output);
    ghost var sq := Squeezed(s.out, s.cache, s.renamed, map[], map[]);
    FreesAreOwn(events, fate, output);
    LateFrees(events, fate, output, threshold);
    NothingHeld(s.into, sq, meaning, strip);
    NamesMean(s.into, sq, meaning, strip);
    OriginalLoads(events, |events|, strip);
    if threshold.None? {
      OnlyLeaked(events, fate, output, strip);
    }
  }

  lemma FatesEnd(events: seq<Event>, start: nat, f: Fate, s: Store, threshold: Option<nat>, now: nat,
      output: seq<Event>)
    requires FatesOk(events, start, |events|, f, s, threshold, now) && AllStay(s, Store(map[], output))
    ensures TellsAll(events, f, output) && DroppedSoon(events, |events|, f, threshold)
    ensures InTime(events, start) || threshold.None? ==> EarlyDropped(events, |events|, f, threshold)
    ensures threshold.None? ==> AllChained(events, |events|, f)
    ensures AllAccounted(events, f, output, threshold)
    ensures InTime(events, start) || threshold.None? ==> NoneEarly(events, f, output, threshold)
  {
    hide LinesOk, AllStay, InTime, DroppedSoon, EarlyDropped, AllChained, AllAccounted, NoneEarly, TellsAll;
    AllTold(events, f, s, threshold, now, output);
    Accounted(events, f, output, threshold);
    if InTime(events, start) || threshold.None? {
      EarlyGone(events, f, output, threshold);
    }
  }

  ghost predicate AllLive(output: seq<Event>, live: map<Id, LiveBlock>) {
    forall e :: e in output && e.Alloc? ==> e.id in live
  }

  /** Without a threshold only allocations that were never freed are written as such. */
  lemma OnlyLeaked(events: seq<Event>, f: Fate, output: seq<Event>, strip: seq<nat> -> seq<nat>)
    requires NoneEarly(events, f, output, None) && Original(events, |events|, strip).Some? && OneAtATime(events)
    ensures AllLive(output, Original(events, |events|, strip).value.live)
  {
    forall x | x in output && x.Alloc? ensures x.id in Original(events, |events|, strip).value.live {
      assert NotEarly(events, f, x, None);
      var k :| Origin(events, k, f, x) && !FreedEarly(events, k, None);
      NeverFreed(events, k, |events|);
      BirthOf(events, k, |events|);
      LiveIsLiving(events, |events|, strip, x.id);
    }
  }

  // ----- Old pointers

  /** A trace that says of a block it reallocates that it is somewhere else. */
  const MISPLACED_TRACE := [
    Backtrace(0, [100]),
    Alloc(Id(1, 1), 0, Body(16, 8, 0, 0, 1, 0)),
    Realloc(Id(1, 1), 1, 99, Body(32, 8, 0, 0, 1, 0))]

  lemma MisplacedExample(strip: seq<nat> -> seq<nat>)
    ensures Original(MISPLACED_TRACE, 3, strip).Some? && !Placed(MISPLACED_TRACE)
  {
    var events := MISPLACED_TRACE;
    assert Original(events, 0, strip) == Some(EMPTY);
    var s1 := Original(events, 1, strip).value;
    assert 0 in s1.meaning && s1.live == map[];
    var s2 := Original(events, 2, strip).value;
    assert Id(1, 1) in s2.live && s2.meaning == s1.meaning;
    assert PointerBefore(events, 2, Id(1, 1)) == 16;
    assert events[2].Realloc?;
  }

  /** Squeezing it corrects the old pointer. */
  method SqueezeMisplaced(ghost strip: seq<nat> -> seq<nat>) returns (output: seq<Event>)
    ensures exists x :: x in output && x.Realloc? && x.id == Id(1, 1) && x.timestamp == 1 && x.oldPointer == 16
  {
    MisplacedExample(strip);
    ghost var f;
    output, f := SqueezeTrace(MISPLACED_TRACE, 0, None, strip);
    MisplacedTold(f);
    ghost var x := AsWritten(MISPLACED_TRACE, 2, f);
    assert x in OfTopic(output, Block(Id(1, 1)));
    OfMember(output, x, Block(Id(1, 1)));
  }

  lemma MisplacedTold(f: Fate)
    requires DroppedSoon(MISPLACED_TRACE, 3, f, None) && 2 in f.chained
    ensures var x := AsWritten(MISPLACED_TRACE, 2, f);
      && x in Told(MISPLACED_TRACE, 3, f, Block(Id(1, 1)))
      && x.Realloc? && x.id == Id(1, 1) && x.timestamp == 1 && x.oldPointer == 16
  {
    var events := MISPLACED_TRACE;
    assert Birth(events, 2, Id(1, 1)) == Some(1);
    assert Birth(events, 3, Id(1, 1)) == Some(1);
    assert PointerBefore(events, 2, Id(1, 1)) == 16;
    assert !FreedSoon(events, 1, 3, None);
  }
}
