/**
 What a squeezed trace says about each block: what the original said, event by event and in order, except for whole
 lifetimes that were short.
 */
module SqueezeLines {
  import opened Basics
  import opened Trace
  import opened SqueezeSpec
  import opened SqueezeFates

  // ----- Lifetimes in the original

  /** The latest allocation of an identifier among the first `n` events. */
  ghost function Birth(events: seq<Event>, n: nat, id: Id): (r: Option<nat>)
    requires n <= |events|
    ensures r.Some? ==> r.value < n && events[r.value].Alloc? && events[r.value].id == id
  {
    if n == 0 then None
    else if events[n - 1].Alloc? && events[n - 1].id == id then Some(n - 1)
    else Birth(events, n - 1, id)
  }

  lemma {:induction false} BirthStays(events: seq<Event>, n: nat, m: nat, id: Id)
    requires m <= n <= |events| && Birth(events, n, id).Some? && Birth(events, n, id).value < m
    ensures Birth(events, m, id) == Birth(events, n, id)
    decreases n
  {
    if m < n {
      BirthStays(events, n - 1, m, id);
    }
  }

  /** Where the latest allocation or reallocation put the block. */
  ghost function PointerBefore(events: seq<Event>, n: nat, id: Id): nat
    requires n <= |events|
  {
    if n == 0 then 0
    else if (events[n - 1].Alloc? || events[n - 1].Realloc?) && events[n - 1].id == id then events[n - 1].body.pointer
    else PointerBefore(events, n - 1, id)
  }

  /** The allocation of the `k`-th event is not freed before the `n`-th. */
  ghost predicate NotFreed(events: seq<Event>, k: nat, n: nat)
    requires k < n <= |events| && events[k].Alloc?
  {
    forall j :: k < j < n ==> !FreeOf(events[j], events[k].id)
  }

  ghost predicate Living(events: seq<Event>, n: nat, id: Id)
    requires n <= |events|
  {
    Birth(events, n, id).Some? && NotFreed(events, Birth(events, n, id).value, n)
  }

  /** The `j`-th event is the first to free the allocation of the `k`-th. */
  ghost predicate Frees(events: seq<Event>, k: nat, j: nat)
    requires k < |events| && events[k].Alloc?
  {
    k < j < |events| && FreeOf(events[j], events[k].id) && NotFreed(events, k, j)
  }

  // ----- How it is told

  /** The new numbers of backtraces, the allocations that were dropped, and the reallocations that joined theirs. */
  datatype Fate = Fate(names: map<nat, nat>, dropped: set<nat>, chained: set<nat>)

  function Renamed(body: Body, names: map<nat, nat>): Body {
    if body.backtrace in names then Rename(body, names) else body
  }

  /** An event of the original, as written; a reallocation that joined its allocation goes on from where that was. */
  ghost function AsWritten(events: seq<Event>, j: nat, f: Fate): Event
    requires j < |events|
  {
    match events[j]
    case Alloc(id, timestamp, body) => Alloc(id, timestamp, Renamed(body, f.names))
    case Realloc(id, timestamp, oldPointer, body) =>
      Realloc(id, timestamp, if j in f.chained then PointerBefore(events, j, id) else oldPointer,
        Renamed(body, f.names))
    case e => e
  }

  /** The event belongs to an allocation that was dropped. */
  ghost predicate Lost(events: seq<Event>, j: nat, dropped: set<nat>)
    requires j < |events|
  {
    var e := events[j];
    (e.Alloc? || e.Realloc? || e.Free?) && Birth(events, j + 1, e.id).Some? &&
    Birth(events, j + 1, e.id).value in dropped
  }

  /** What the first `n` events say about a topic, without what was dropped. */
  ghost function Told(events: seq<Event>, n: nat, f: Fate, topic: Topic): seq<Event>
    requires n <= |events|
  {
    if n == 0 then []
    else
      Told(events, n - 1, f, topic) +
      if About(events[n - 1], topic) && !Lost(events, n - 1, f.dropped) then [AsWritten(events, n - 1, f)] else []
  }

  /** The same events are written the same way. */
  lemma {:induction false} ToldSame(events: seq<Event>, n: nat, f: Fate, g: Fate, topic: Topic)
    requires n <= |events|
    requires forall j :: 0 <= j < n && About(events[j], topic) ==>
      (Lost(events, j, f.dropped) <==> Lost(events, j, g.dropped)) && AsWritten(events, j, f) == AsWritten(events, j, g)
    ensures Told(events, n, f, topic) == Told(events, n, g, topic)
  {
    if n > 0 {
      ToldSame(events, n - 1, f, g, topic);
    }
  }

  /** Dropping an allocation takes away everything from it on. */
  lemma {:induction false} ToldCut(events: seq<Event>, n: nat, f: Fate, id: Id, k: nat)
    requires k <= n <= |events| && k in f.dropped
    requires forall m :: k < m <= n ==> Birth(events, m, id) == Some(k)
    ensures Told(events, n, f, Block(id)) == Told(events, k, f, Block(id))
    decreases n
  {
    if k < n {
      ToldCut(events, n - 1, f, id, k);
    }
  }

  // ----- What holds after every event

  /** All backtraces used have new numbers. */
  ghost predicate Named(events: seq<Event>, n: nat, names: map<nat, nat>)
    requires n <= |events|
  {
    forall j :: 0 <= j < n && (events[j].Alloc? || events[j].Realloc?) ==> events[j].body.backtrace in names
  }

  /** An allocation that is held back: what was written about its identifier is from before it. */
  ghost predicate HeldOk(events: seq<Event>, n: nat, f: Fate, s: Store, id: Id)
    requires n <= |events| && id in s.held
  {
    var p := s.held[id];
    && Living(events, n, id) && p.events != []
    && p.events[0].timestamp == events[Birth(events, n, id).value].timestamp
    && p.events[|p.events| - 1].body.pointer == PointerBefore(events, n, id)
    && OfTopic(s.output, Block(id)) == Told(events, Birth(events, n, id).value, f, Block(id))
  }

  /** The allocation of the `k`-th event was made at least the threshold ago. */
  predicate Ripe(events: seq<Event>, k: nat, threshold: Option<nat>, now: nat)
    requires k < |events| && events[k].Alloc?
  {
    threshold.Some? && events[k].timestamp + threshold.value <= now
  }

  ghost predicate BlockOk(events: seq<Event>, n: nat, f: Fate, s: Store, threshold: Option<nat>, now: nat, id: Id)
    requires n <= |events|
  {
    && (id in s.held ==> HeldOk(events, n, f, s, id))
    && (Living(events, n, id) ==>
          var k := Birth(events, n, id).value;
          k !in f.dropped && (id !in s.held ==> Ripe(events, k, threshold, now)))
  }

  ghost predicate LineOk(events: seq<Event>, n: nat, f: Fate, s: Store, threshold: Option<nat>, now: nat, topic: Topic)
    requires n <= |events|
  {
    && Line(s, topic) == Told(events, n, f, topic)
    && (topic.Block? ==> BlockOk(events, n, f, s, threshold, now, topic.id))
  }

  ghost predicate LinesOk(events: seq<Event>, n: nat, f: Fate, s: Store, threshold: Option<nat>, now: nat)
    requires n <= |events|
  {
    && Named(events, n, f.names) && (forall k :: k in f.dropped || k in f.chained ==> k < n)
    && forall topic :: LineOk(events, n, f, s, threshold, now, topic)
  }

  lemma NothingTold(events: seq<Event>, names: map<nat, nat>, threshold: Option<nat>, now: nat)
    ensures LinesOk(events, 0, Fate(names, {}, {}), Store(map[], []), threshold, now)
  {}

  /** What an event changes. */
  ghost function NextFate(events: seq<Event>, n: nat, f: Fate, s: Store, t: Store, threshold: Option<nat>,
      names: map<nat, nat>): (g: Fate)
    requires n < |events|
    ensures g.names == names
  {
    var e := events[n];
    Fate(names,
      f.dropped + (if e.Free? && Drops(s, t, e, threshold) && Birth(events, n, e.id).Some?
        then {Birth(events, n, e.id).value} else {}),
      f.chained + (if e.Realloc? && e.id in t.held then {n} else {}))
  }

  /** An event that makes sense: blocks are allocated when they are not there, and ended when they are. */
  ghost predicate MakesSense(events: seq<Event>, n: nat, s: Store)
    requires n < |events|
  {
    var e := events[n];
    (e.Alloc? ==> e.id !in s.held && !Living(events, n, e.id)) && (e.Realloc? || e.Free? ==> Living(events, n, e.id))
  }

  /** What the step needs of the names. */
  ghost predicate NamesOk(events: seq<Event>, n: nat, names: map<nat, nat>, names': map<nat, nat>)
    requires n < |events|
  {
    Named(events, n, names) && Agrees(names, names') &&
    (events[n].Alloc? || events[n].Realloc? ==> events[n].body.backtrace in names')
  }

  /** What was told before stays the same. */
  lemma ToldKept(events: seq<Event>, n: nat, m: nat, f: Fate, g: Fate, topic: Topic, more: set<nat>)
    requires m <= n <= |events| && Named(events, n, f.names) && Agrees(f.names, g.names)
    requires forall k :: k in g.chained && k < n ==> k in f.chained
    requires f.chained <= g.chained && g.dropped == f.dropped + more
    requires topic.Block? ==>
      forall j :: 0 <= j < m && About(events[j], topic) && Birth(events, j + 1, topic.id).Some? ==>
        Birth(events, j + 1, topic.id).value !in more
    ensures Told(events, m, f, topic) == Told(events, m, g, topic)
  {
    forall j | 0 <= j < m && About(events[j], topic)
      ensures Lost(events, j, f.dropped) <==> Lost(events, j, g.dropped)
      ensures AsWritten(events, j, f) == AsWritten(events, j, g)
    {
    }
    ToldSame(events, m, f, g, topic);
  }

  /** An event, and what it does to a topic. */
  ghost predicate Step(events: seq<Event>, n: nat, f: Fate, s: Store, t: Store, threshold: Option<nat>,
      names: map<nat, nat>, now: nat, topic: Topic)
    requires n < |events|
  {
    && Named(events, n, f.names) && (forall k :: k in f.dropped || k in f.chained ==> k < n)
    && LineOk(events, n, f, s, threshold, now, topic) && MakesSense(events, n, s) && NamesOk(events, n, f.names, names)
    && LineStep(s, t, events[n], threshold, names, now, topic)
  }

  /** Other topics are told as before. */
  lemma FateElsewhere(events: seq<Event>, n: nat, f: Fate, s: Store, t: Store, threshold: Option<nat>,
      names: map<nat, nat>, topic: Topic, m: nat)
    requires n < |events| && m <= n && NamesOk(events, n, f.names, names) && !About(events[n], topic)
    ensures Told(events, m, NextFate(events, n, f, s, t, threshold, names), topic) == Told(events, m, f, topic)
  {
    var g := NextFate(events, n, f, s, t, threshold, names);
    ToldKept(events, n, m, f, g, topic, g.dropped - f.dropped);
  }

  /** The event's own topic is too, if nothing is dropped or only what comes later. */
  lemma FateHere(events: seq<Event>, n: nat, f: Fate, s: Store, t: Store, threshold: Option<nat>,
      names: map<nat, nat>, topic: Topic, m: nat)
    requires n < |events| && m <= n && NamesOk(events, n, f.names, names) && About(events[n], topic)
    requires var e := events[n];
      e.Free? && Drops(s, t, e, threshold) && Birth(events, n, e.id).Some? ==> m <= Birth(events, n, e.id).value
    ensures Told(events, m, NextFate(events, n, f, s, t, threshold, names), topic) == Told(events, m, f, topic)
  {
    var g := NextFate(events, n, f, s, t, threshold, names);
    ToldKept(events, n, m, f, g, topic, g.dropped - f.dropped);
  }

  lemma QuietOk(events: seq<Event>, n: nat, f: Fate, s: Store, t: Store, threshold: Option<nat>,
      names: map<nat, nat>, now: nat, now': nat, topic: Topic)
    requires n < |events| && Step(events, n, f, s, t, threshold, names, now, topic) && now <= now'
    requires !About(events[n], topic)
    ensures LineOk(events, n + 1, NextFate(events, n, f, s, t, threshold, names), t, threshold, now', topic)
  {
    hide Line, OfTopic, AsWritten, Lost, Birth, PointerBefore, NotFreed, Living;
    FateElsewhere(events, n, f, s, t, threshold, names, topic, n);
    if topic.Block? {
      QuietBirth(events, n, topic.id);
      if Birth(events, n, topic.id).Some? {
        FateElsewhere(events, n, f, s, t, threshold, names, topic, Birth(events, n, topic.id).value);
      }
      LivingBorn(events, n, topic.id);
    }
  }

  lemma LivingBorn(events: seq<Event>, n: nat, id: Id)
    requires n <= |events|
    ensures Living(events, n, id) ==> Birth(events, n, id).Some?
  {}

  /** Nothing happens to a block that an event is not about. */
  lemma QuietBirth(events: seq<Event>, n: nat, id: Id)
    requires n < |events| && !About(events[n], Block(id))
    ensures Birth(events, n + 1, id) == Birth(events, n, id)
    ensures PointerBefore(events, n + 1, id) == PointerBefore(events, n, id)
    ensures Living(events, n + 1, id) <==> Living(events, n, id)
  {}

  lemma RestOk(events: seq<Event>, n: nat, f: Fate, s: Store, t: Store, threshold: Option<nat>,
      names: map<nat, nat>, now: nat, now': nat)
    requires n < |events| && Step(events, n, f, s, t, threshold, names, now, Rest) && events[n].Other?
    ensures LineOk(events, n + 1, NextFate(events, n, f, s, t, threshold, names), t, threshold, now', Rest)
  {
    FateHere(events, n, f, s, t, threshold, names, Rest, n);
  }

  lemma AllocOk(events: seq<Event>, n: nat, f: Fate, s: Store, t: Store, threshold: Option<nat>,
      names: map<nat, nat>, now: nat, now': nat, topic: Topic)
    requires n < |events| && Step(events, n, f, s, t, threshold, names, now, topic)
    requires events[n].Alloc? && About(events[n], topic)
    ensures LineOk(events, n + 1, NextFate(events, n, f, s, t, threshold, names), t, threshold, now', topic)
  {
    FateHere(events, n, f, s, t, threshold, names, topic, n);
    ChainOne(events[n].id, t.held[events[n].id].events[0]);
  }

  lemma ChainOne(id: Id, b: Buffered)
    ensures Chain(id, [b], 1) == [Alloc(id, b.timestamp, b.body)]
  {
    assert Chain(id, [b], 0) == [];
  }

  lemma ChainMore(id: Id, events: seq<Buffered>, b: Buffered)
    requires events != []
    ensures Chain(id, events + [b], |events| + 1)
      == Chain(id, events, |events|) + [Realloc(id, b.timestamp, events[|events| - 1].body.pointer, b.body)]
  {
    ChainKept(id, events, b, |events|);
  }

  lemma {:induction false} ChainKept(id: Id, events: seq<Buffered>, b: Buffered, n: nat)
    requires n <= |events|
    ensures Chain(id, events + [b], n) == Chain(id, events, n)
  {
    if n > 0 {
      ChainKept(id, events, b, n - 1);
    }
  }

  lemma JoinedOk(events: seq<Event>, n: nat, f: Fate, s: Store, t: Store, threshold: Option<nat>,
      names: map<nat, nat>, now: nat, now': nat, topic: Topic)
    requires n < |events| && Step(events, n, f, s, t, threshold, names, now, topic) && now <= now'
    requires events[n].Realloc? && About(events[n], topic) && events[n].id in t.held
    ensures LineOk(events, n + 1, NextFate(events, n, f, s, t, threshold, names), t, threshold, now', topic)
  {
    hide OfTopic, Chain, NotFreed;
    var e := events[n];
    FateHere(events, n, f, s, t, threshold, names, topic, n);
    FateHere(events, n, f, s, t, threshold, names, topic, Birth(events, n, e.id).value);
    ChainMore(e.id, s.held[e.id].events, Buffered(e.timestamp, Rename(e.body, names)));
    StillLiving(events, n, e.id);
  }

  lemma StillLiving(events: seq<Event>, n: nat, id: Id)
    requires n < |events| && Living(events, n, id) && !events[n].Alloc? && !FreeOf(events[n], id)
    ensures Living(events, n + 1, id) && Birth(events, n + 1, id) == Birth(events, n, id)
  {}

  lemma PassedOk(events: seq<Event>, n: nat, f: Fate, s: Store, t: Store, threshold: Option<nat>,
      names: map<nat, nat>, now: nat, now': nat, topic: Topic)
    requires n < |events| && Step(events, n, f, s, t, threshold, names, now, topic) && now <= now'
    requires events[n].Realloc? && About(events[n], topic) && events[n].id !in t.held
    ensures LineOk(events, n + 1, NextFate(events, n, f, s, t, threshold, names), t, threshold, now', topic)
  {
    hide OfTopic, Chain, NotFreed;
    FateHere(events, n, f, s, t, threshold, names, topic, n);
    StillLiving(events, n, events[n].id);
  }

  lemma FreeOk(events: seq<Event>, n: nat, f: Fate, s: Store, t: Store, threshold: Option<nat>,
      names: map<nat, nat>, now: nat, now': nat, topic: Topic)
    requires n < |events| && Step(events, n, f, s, t, threshold, names, now, topic)
    requires events[n].Free? && About(events[n], topic)
    ensures LineOk(events, n + 1, NextFate(events, n, f, s, t, threshold, names), t, threshold, now', topic)
  {
    hide OfTopic, Chain;
    var e, k, g := events[n], Birth(events, n, events[n].id).value, NextFate(events, n, f, s, t, threshold, names);
    if Drops(s, t, e, threshold) {
      FateHere(events, n, f, s, t, threshold, names, topic, k);
      forall m | k < m <= n + 1 ensures Birth(events, m, e.id) == Some(k) {
        BirthStays(events, n + 1, m, e.id);
      }
      ToldCut(events, n + 1, g, e.id, k);
    } else {
      FateHere(events, n, f, s, t, threshold, names, topic, n);
    }
  }

  /** Every event keeps the lines. */
  lemma LinesKept(events: seq<Event>, n: nat, f: Fate, s: Store, t: Store, threshold: Option<nat>,
      names: map<nat, nat>, now: nat, now': nat)
    requires n < |events| && LinesOk(events, n, f, s, threshold, now) && now <= now'
    requires MakesSense(events, n, s) && NamesOk(events, n, f.names, names)
    requires Effect(s, t, events[n], threshold, names, now)
    ensures LinesOk(events, n + 1, NextFate(events, n, f, s, t, threshold, names), t, threshold, now')
  {
    hide LineOk, LineStep, MakesSense;
    var g, m := NextFate(events, n, f, s, t, threshold, names), n + 1;
    forall topic ensures LineOk(events, m, g, t, threshold, now', topic) {
      assert LineOk(events, n, f, s, threshold, now, topic) && LineStep(s, t, events[n], threshold, names, now, topic);
      LineKept(events, n, f, s, t, threshold, names, now, now', topic);
    }
  }

  lemma LineKept(events: seq<Event>, n: nat, f: Fate, s: Store, t: Store, threshold: Option<nat>,
      names: map<nat, nat>, now: nat, now': nat, topic: Topic)
    requires n < |events| && Step(events, n, f, s, t, threshold, names, now, topic) && now <= now'
    ensures LineOk(events, n + 1, NextFate(events, n, f, s, t, threshold, names), t, threshold, now', topic)
  {
    hide LineOk, Step, NextFate;
    if !About(events[n], topic) {
      QuietOk(events, n, f, s, t, threshold, names, now, now', topic);
    } else if events[n].Alloc? {
      AllocOk(events, n, f, s, t, threshold, names, now, now', topic);
    } else if events[n].Realloc? {
      if events[n].id in t.held {
        JoinedOk(events, n, f, s, t, threshold, names, now, now', topic);
      } else {
        PassedOk(events, n, f, s, t, threshold, names, now, now', topic);
      }
    } else if events[n].Free? {
      FreeOk(events, n, f, s, t, threshold, names, now, now', topic);
    } else {
      RestOk(events, n, f, s, t, threshold, names, now, now');
    }
  }

  // ----- Which allocations are dropped

  /** The allocation of the `k`-th event is freed by one of the first `n`, a short time after it was made. */
  ghost predicate FreedSoon(events: seq<Event>, k: nat, n: nat, threshold: Option<nat>)
    requires k < n <= |events| && events[k].Alloc?
  {
    exists j :: k < j < n && Frees(events, k, j) && Short(events[k].timestamp, events[j].timestamp, threshold)
  }

  /** Only allocations that are freed soon are dropped. */
  ghost predicate DroppedSoon(events: seq<Event>, n: nat, f: Fate, threshold: Option<nat>)
    requires n <= |events|
  {
    forall k :: k in f.dropped ==> k < n && events[k].Alloc? && FreedSoon(events, k, n, threshold)
  }

  /** The allocation of the `k`-th event is freed early: less than the threshold after it, if there is one. */
  ghost predicate FreedEarly(events: seq<Event>, k: nat, threshold: Option<nat>)
    requires k < |events| && events[k].Alloc?
  {
    exists j :: k < j < |events| && Frees(events, k, j) && Early(events, k, j, threshold)
  }

  predicate Early(events: seq<Event>, k: nat, j: nat, threshold: Option<nat>)
    requires k < |events| && events[k].Alloc? && j < |events| && events[j].Free?
  {
    threshold.Some? ==> events[j].timestamp < events[k].timestamp + threshold.value
  }

  /** Those that one of the first `n` events frees early are. */
  ghost predicate EarlyDropped(events: seq<Event>, n: nat, f: Fate, threshold: Option<nat>)
    requires n <= |events|
  {
    forall k, j :: 0 <= k < j < n && events[k].Alloc? && Frees(events, k, j) && Early(events, k, j, threshold) ==>
      k in f.dropped
  }

  lemma DroppedKept(events: seq<Event>, n: nat, f: Fate, s: Store, t: Store, threshold: Option<nat>,
      names: map<nat, nat>, now: nat)
    requires n < |events| && LinesOk(events, n, f, s, threshold, now) && DroppedSoon(events, n, f, threshold)
    ensures DroppedSoon(events, n + 1, NextFate(events, n, f, s, t, threshold, names), threshold)
  {
    hide LineOk, Told;
    var e, g := events[n], NextFate(events, n, f, s, t, threshold, names);
    forall k | k in g.dropped ensures k < n + 1 && events[k].Alloc? && FreedSoon(events, k, n + 1, threshold) {
      if k in f.dropped {
        assert FreedSoon(events, k, n, threshold);
      } else {
        HeldLine(events, n, f, s, threshold, now, e.id);
        assert Frees(events, k, n);
      }
    }
  }

  lemma HeldLine(events: seq<Event>, n: nat, f: Fate, s: Store, threshold: Option<nat>, now: nat, id: Id)
    requires n <= |events| && LinesOk(events, n, f, s, threshold, now)
    ensures BlockOk(events, n, f, s, threshold, now, id)
  {
    assert LineOk(events, n, f, s, threshold, now, Block(id));
  }

  // ----- In traces whose times do not go back

  /** No allocation before a free is later than it, nor is the start. */
  ghost predicate InTime(events: seq<Event>, start: nat) {
    && (forall j :: 0 <= j < |events| && events[j].Free? ==> start <= events[j].timestamp)
    && (forall i, j :: 0 <= i < j < |events| && events[i].Alloc? && events[j].Free? ==>
          events[i].timestamp <= events[j].timestamp)
  }

  /** No free from the `n`-th event on is before this time. */
  ghost predicate NotAfterFrees(events: seq<Event>, n: nat, now: nat) {
    forall j :: n <= j < |events| && events[j].Free? ==> now <= events[j].timestamp
  }

  lemma TimePasses(events: seq<Event>, start: nat, n: nat, now: nat)
    requires InTime(events, start) && n < |events| && NotAfterFrees(events, n, now)
    ensures NotAfterFrees(events, n + 1, if events[n].Alloc? then Max(events[n].timestamp, now) else now)
  {}

  lemma FromStart(events: seq<Event>, start: nat)
    requires InTime(events, start)
    ensures NotAfterFrees(events, 0, start)
  {}

  /** An allocation made while another one of its identifier was there would not make sense. */
  ghost predicate OneAtATime(events: seq<Event>) {
    forall n :: 0 <= n < |events| && events[n].Alloc? ==> !Living(events, n, events[n].id)
  }

  lemma {:induction false} BirthOf(events: seq<Event>, k: nat, n: nat)
    requires OneAtATime(events) && k < n <= |events| && events[k].Alloc? && NotFreed(events, k, n)
    ensures Birth(events, n, events[k].id) == Some(k)
  {
    if k < n - 1 {
      BirthOf(events, k, n - 1);
    }
  }

  /** A free that is passed on is not early. */
  lemma PassedLate(events: seq<Event>, n: nat, k: nat, f: Fate, s: Store, t: Store, threshold: Option<nat>,
      names: map<nat, nat>, now: nat)
    requires n < |events| && LinesOk(events, n, f, s, threshold, now) && OneAtATime(events)
    requires k < n && events[k].Alloc? && Frees(events, k, n)
    requires Effect(s, t, events[n], threshold, names, now) && !Drops(s, t, events[n], threshold)
    requires threshold.Some? ==> NotAfterFrees(events, n, now)
    ensures !Early(events, k, n, threshold)
  {
    hide Told, Line, LinesOk, Effect, OfTopic;
    BirthOf(events, k, n);
    HeldLine(events, n, f, s, threshold, now, events[n].id);
    EffectOn(s, t, events[n], threshold, names, now, Block(events[n].id));
  }

  lemma EffectOn(s: Store, t: Store, e: Event, threshold: Option<nat>, names: map<nat, nat>, now: nat, topic: Topic)
    requires Effect(s, t, e, threshold, names, now)
    ensures LineStep(s, t, e, threshold, names, now, topic)
  {}

  lemma EarlyKept(events: seq<Event>, n: nat, f: Fate, s: Store, t: Store, threshold: Option<nat>,
      names: map<nat, nat>, now: nat)
    requires n < |events| && LinesOk(events, n, f, s, threshold, now) && OneAtATime(events)
    requires EarlyDropped(events, n, f, threshold) && Effect(s, t, events[n], threshold, names, now)
    requires threshold.Some? ==> NotAfterFrees(events, n, now)
    ensures EarlyDropped(events, n + 1, NextFate(events, n, f, s, t, threshold, names), threshold)
  {
    hide LinesOk, Effect, Drops, Early;
    var g := NextFate(events, n, f, s, t, threshold, names);
    forall k, j | 0 <= k < j < n + 1 && events[k].Alloc? && Frees(events, k, j) && Early(events, k, j, threshold)
      ensures k in g.dropped
    {
      if j == n {
        BirthOf(events, k, n);
        if !Drops(s, t, events[n], threshold) {
          PassedLate(events, n, k, f, s, t, threshold, names, now);
        }
      }
    }
  }

  /** Without a threshold every reallocation joins its allocation. */
  ghost predicate AllChained(events: seq<Event>, n: nat, f: Fate)
    requires n <= |events|
  {
    forall j :: 0 <= j < n && events[j].Realloc? ==> j in f.chained
  }

  lemma ChainedKept(events: seq<Event>, n: nat, f: Fate, s: Store, t: Store, names: map<nat, nat>, now: nat)
    requires n < |events| && LinesOk(events, n, f, s, None, now) && MakesSense(events, n, s)
    requires Effect(s, t, events[n], None, names, now) && AllChained(events, n, f)
    ensures AllChained(events, n + 1, NextFate(events, n, f, s, t, None, names))
  {
    hide LinesOk, Effect, Told, Line, OfTopic;
    if events[n].Realloc? {
      HeldLine(events, n, f, s, None, now, events[n].id);
      EffectOn(s, t, events[n], None, names, now, Block(events[n].id));
    }
  }

  // ----- What this means for the events of the output

  /** The output says about every topic what the original says, without the allocations that were dropped. */
  ghost predicate TellsAll(events: seq<Event>, f: Fate, output: seq<Event>) {
    forall topic :: OfTopic(output, topic) == Told(events, |events|, f, topic)
  }

  lemma AllTold(events: seq<Event>, f: Fate, s: Store, threshold: Option<nat>, now: nat, output: seq<Event>)
    requires LinesOk(events, |events|, f, s, threshold, now) && AllStay(s, Store(map[], output))
    ensures TellsAll(events, f, output)
  {
    forall topic ensures OfTopic(output, topic) == Told(events, |events|, f, topic) {
      assert LineOk(events, |events|, f, s, threshold, now, topic);
      assert Stays(s, Store(map[], output), topic);
      assert OfTopic(output, topic) + [] == OfTopic(output, topic);
    }
  }

  lemma {:induction false} ToldFrom(events: seq<Event>, n: nat, f: Fate, topic: Topic, x: Event) returns (j: nat)
    requires n <= |events| && x in Told(events, n, f, topic)
    ensures j < n && About(events[j], topic) && !Lost(events, j, f.dropped) && AsWritten(events, j, f) == x
  {
    if x in Told(events, n - 1, f, topic) {
      j := ToldFrom(events, n - 1, f, topic, x);
    } else {
      j := n - 1;
    }
  }

  lemma {:induction false} ToldPlace(events: seq<Event>, n: nat, f: Fate, topic: Topic, j: nat) returns (p: nat)
    requires n <= |events| && j < n && About(events[j], topic) && !Lost(events, j, f.dropped)
    ensures p < |Told(events, n, f, topic)| && Told(events, n, f, topic)[p] == AsWritten(events, j, f)
    ensures |Told(events, j, f, topic)| <= p
  {
    if j == n - 1 {
      p := |Told(events, n - 1, f, topic)|;
    } else {
      p := ToldPlace(events, n - 1, f, topic, j);
    }
  }

  lemma {:induction false} ToldOrder(events: seq<Event>, n: nat, f: Fate, topic: Topic, i: nat, j: nat)
    returns (p: nat, q: nat)
    requires n <= |events| && i < j < n && About(events[i], topic) && About(events[j], topic)
    requires !Lost(events, i, f.dropped) && !Lost(events, j, f.dropped)
    ensures p < q < |Told(events, n, f, topic)| && Told(events, n, f, topic)[p] == AsWritten(events, i, f)
    ensures Told(events, n, f, topic)[q] == AsWritten(events, j, f)
  {
    if j == n - 1 {
      p := ToldPlace(events, n - 1, f, topic, i);
      q := |Told(events, n - 1, f, topic)|;
    } else {
      p, q := ToldOrder(events, n - 1, f, topic, i, j);
    }
  }

  /** Every free in the output is an event of the original. */
  lemma FreesAreOwn(events: seq<Event>, f: Fate, output: seq<Event>)
    requires TellsAll(events, f, output)
    ensures forall x :: x in output && x.Free? ==> x in events
  {
    forall x | x in output && x.Free? ensures x in events {
      OfMember(output, x, Block(x.id));
      var j := ToldFrom(events, |events|, f, Block(x.id), x);
      assert x == events[j];
    }
  }

  /**
   Every reallocation in the output is one of the original, at its time and with its backtrace renamed. Its old pointer
   is the original's too, or, if it joined its allocation, where that block was.
   */
  lemma ReallocsAreOwn(events: seq<Event>, f: Fate, output: seq<Event>, x: Event) returns (j: nat)
    requires TellsAll(events, f, output) && x in output && x.Realloc?
    ensures j < |events| && events[j].Realloc? && x.id == events[j].id && x.timestamp == events[j].timestamp
    ensures x.body == Renamed(events[j].body, f.names)
    ensures x.oldPointer == if j in f.chained then PointerBefore(events, j, x.id) else events[j].oldPointer
  {
    OfMember(output, x, Block(x.id));
    j := ToldFrom(events, |events|, f, Block(x.id), x);
  }

  /** The original names blocks where they are. */
  ghost predicate Placed(events: seq<Event>) {
    forall j :: 0 <= j < |events| && events[j].Realloc? ==>
      events[j].oldPointer == PointerBefore(events, j, events[j].id)
  }

  /** Then reallocations keep their old pointers. */
  lemma PointersAreOwn(events: seq<Event>, f: Fate, output: seq<Event>, x: Event) returns (j: nat)
    requires TellsAll(events, f, output) && x in output && x.Realloc? && Placed(events)
    ensures j < |events| && events[j].Realloc?
    ensures x == events[j].(body := Renamed(events[j].body, f.names))
  {
    j := ReallocsAreOwn(events, f, output, x);
  }

  /** Events that are not dropped are in the output, in their order. */
  lemma KeptInOrder(events: seq<Event>, f: Fate, output: seq<Event>, topic: Topic, i: nat, j: nat)
    returns (p: nat, q: nat)
    requires TellsAll(events, f, output) && i < j < |events| && About(events[i], topic) && About(events[j], topic)
    requires !Lost(events, i, f.dropped) && !Lost(events, j, f.dropped)
    ensures p < q < |output| && output[p] == AsWritten(events, i, f) && output[q] == AsWritten(events, j, f)
  {
    p, q := ToldOrder(events, |events|, f, topic, i, j);
    p, q := OfOrder(output, topic, p, q);
  }

  /** The free of an allocation that is not dropped is in the output, as it is, after its allocation. */
  lemma FreesAreKept(events: seq<Event>, f: Fate, output: seq<Event>, k: nat, j: nat) returns (p: nat, q: nat)
    requires TellsAll(events, f, output) && OneAtATime(events)
    requires k < |events| && events[k].Alloc? && Frees(events, k, j) && k !in f.dropped
    ensures p < q < |output| && output[q] == events[j]
    ensures output[p] == Alloc(events[k].id, events[k].timestamp, Renamed(events[k].body, f.names))
  {
    BirthOf(events, k, j);
    p, q := KeptInOrder(events, f, output, Block(events[k].id), k, j);
  }

  ghost predicate Follows(output: seq<Event>, a: Event, b: Event) {
    exists p, q :: 0 <= p < q < |output| && output[p] == a && output[q] == b
  }

  ghost predicate FreesLate(events: seq<Event>, k: nat, j: nat, threshold: Option<nat>)
    requires k < j < |events| && events[k].Alloc?
  {
    Frees(events, k, j) && !Short(events[k].timestamp, events[j].timestamp, threshold)
  }

  /** Every free is in the output, after its allocation, unless it comes soon after that. */
  ghost predicate LateFreesKept(events: seq<Event>, f: Fate, output: seq<Event>, threshold: Option<nat>) {
    forall k, j :: 0 <= k < j < |events| && events[k].Alloc? && FreesLate(events, k, j, threshold) ==>
      Follows(output, Alloc(events[k].id, events[k].timestamp, Renamed(events[k].body, f.names)), events[j])
  }

  lemma LateFrees(events: seq<Event>, f: Fate, output: seq<Event>, threshold: Option<nat>)
    requires TellsAll(events, f, output) && OneAtATime(events) && DroppedSoon(events, |events|, f, threshold)
    ensures LateFreesKept(events, f, output, threshold)
  {
    hide TellsAll, OneAtATime;
    forall k, j | 0 <= k < j < |events| && events[k].Alloc? && FreesLate(events, k, j, threshold)
      ensures Follows(output, Alloc(events[k].id, events[k].timestamp, Renamed(events[k].body, f.names)), events[j])
    {
      NotDropped(events, f, threshold, k, j);
      var p, q := FreesAreKept(events, f, output, k, j);
    }
  }

  /** An allocation has only one first free. */
  lemma NotDropped(events: seq<Event>, f: Fate, threshold: Option<nat>, k: nat, j: nat)
    requires DroppedSoon(events, |events|, f, threshold) && k < j < |events| && events[k].Alloc?
    requires FreesLate(events, k, j, threshold)
    ensures k !in f.dropped
  {
    assert forall i :: k < i < |events| && Frees(events, k, i) ==> i == j;
  }

  /** Every allocation is in the output, unless it is freed soon. */
  ghost predicate AllAccounted(events: seq<Event>, f: Fate, output: seq<Event>, threshold: Option<nat>) {
    forall k :: 0 <= k < |events| && events[k].Alloc? ==>
      Alloc(events[k].id, events[k].timestamp, Renamed(events[k].body, f.names)) in output
      || FreedSoon(events, k, |events|, threshold)
  }

  lemma Accounted(events: seq<Event>, f: Fate, output: seq<Event>, threshold: Option<nat>)
    requires TellsAll(events, f, output) && DroppedSoon(events, |events|, f, threshold)
    ensures AllAccounted(events, f, output, threshold)
  {
    hide Told, OfTopic;
    forall k | 0 <= k < |events| && events[k].Alloc? && k !in f.dropped
      ensures Alloc(events[k].id, events[k].timestamp, Renamed(events[k].body, f.names)) in output
    {
      var topic := Block(events[k].id);
      var p := ToldPlace(events, |events|, f, topic, k);
      p := OfPlace(output, topic, p);
    }
  }

  /** The allocation of the `k`-th event, as it is written. */
  ghost predicate Origin(events: seq<Event>, k: nat, f: Fate, x: Event)
    requires x.Alloc?
  {
    && k < |events| && events[k].Alloc? && x.id == events[k].id && x.timestamp == events[k].timestamp
    && x.body == Renamed(events[k].body, f.names)
  }

  ghost predicate NotEarly(events: seq<Event>, f: Fate, x: Event, threshold: Option<nat>)
    requires x.Alloc?
  {
    exists k :: Origin(events, k, f, x) && !FreedEarly(events, k, threshold)
  }

  /** The allocations in the output are allocations of the trace, and none of them is freed early. */
  ghost predicate NoneEarly(events: seq<Event>, f: Fate, output: seq<Event>, threshold: Option<nat>) {
    forall x :: x in output && x.Alloc? ==> NotEarly(events, f, x, threshold)
  }

  lemma EarlyGone(events: seq<Event>, f: Fate, output: seq<Event>, threshold: Option<nat>)
    requires TellsAll(events, f, output) && EarlyDropped(events, |events|, f, threshold)
    ensures NoneEarly(events, f, output, threshold)
  {
    forall x | x in output && x.Alloc? ensures NotEarly(events, f, x, threshold) {
      OfMember(output, x, Block(x.id));
      var k := ToldFrom(events, |events|, f, Block(x.id), x);
      assert Birth(events, k + 1, x.id) == Some(k);
      assert Origin(events, k, f, x) && !FreedEarly(events, k, threshold);
    }
  }

  lemma {:induction false} NeverFreed(events: seq<Event>, k: nat, n: nat)
    requires k < n <= |events| && events[k].Alloc? && !FreedEarly(events, k, None)
    ensures NotFreed(events, k, n)
  {
    if k < n - 1 {
      NeverFreed(events, k, n - 1);
      assert !Frees(events, k, n - 1);
    }
  }
}
