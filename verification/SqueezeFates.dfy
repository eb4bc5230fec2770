/** What becomes of each event while a trace is squeezed: held back, written or dropped, in what order, and why. */
module SqueezeFates {
  import opened Basics
  import opened Trace
  import opened SqueezeSpec

  /** The allocations held back, and what was written so far. */
  datatype Store = Store(held: map<Id, Pending>, output: seq<Event>)

  /** A lifetime short enough to be culled. */
  predicate Short(from: nat, to: nat, threshold: Option<nat>) {
    to < from || threshold.None? || to - from <= threshold.value
  }

  predicate FreeOf(e: Event, id: Id) { e.Free? && e.id == id }

  // ----- The events about one allocation

  /** What an event is about: a block, or something that squeezing does not look at. */
  datatype Topic = Block(id: Id) | Rest

  predicate About(e: Event, topic: Topic) {
    match topic
    case Block(id) => (e.Alloc? || e.Realloc? || e.Free?) && e.id == id
    case Rest => e.Other?
  }

  /** The events about a topic, in order. */
  function OfTopic(output: seq<Event>, topic: Topic): seq<Event> {
    if output == [] then []
    else
      var last := output[|output| - 1];
      OfTopic(output[..|output| - 1], topic) + if About(last, topic) then [last] else []
  }

  lemma {:induction false} OfConcat(a: seq<Event>, b: seq<Event>, topic: Topic)
    ensures OfTopic(a + b, topic) == OfTopic(a, topic) + OfTopic(b, topic)
  {
    if b == [] {
      assert a + b == a;
    } else {
      var rest := b[..|b| - 1];
      OfConcat(a, rest, topic);
      assert (a + b)[..|a + b| - 1] == a + rest;
    }
  }

  lemma OfOne(output: seq<Event>, e: Event, topic: Topic)
    ensures OfTopic(output + [e], topic) == OfTopic(output, topic) + if About(e, topic) then [e] else []
  {
    assert (output + [e])[..|output|] == output;
  }

  lemma {:induction false} OfChain(id: Id, events: seq<Buffered>, n: nat, topic: Topic)
    requires n <= |events|
    ensures OfTopic(Chain(id, events, n), topic) == if topic == Block(id) then Chain(id, events, n) else []
  {
    if n > 0 {
      OfChain(id, events, n - 1, topic);
      OfOne(Chain(id, events, n - 1), Written(id, events, n - 1), topic);
    }
  }

  /** Events about a topic are in the output, and the other way round. */
  lemma {:induction false} OfMember(output: seq<Event>, e: Event, topic: Topic)
    ensures e in OfTopic(output, topic) <==> e in output && About(e, topic)
  {
    if output != [] {
      var last := |output| - 1;
      OfMember(output[..last], e, topic);
      assert output == output[..last] + [output[last]];
    }
  }

  /** And they are in the same order there. */
  lemma {:induction false} OfOrder(output: seq<Event>, topic: Topic, i: nat, j: nat) returns (p: nat, q: nat)
    requires i < j < |OfTopic(output, topic)|
    ensures p < q < |output| && output[p] == OfTopic(output, topic)[i] && output[q] == OfTopic(output, topic)[j]
  {
    var rest := output[..|output| - 1];
    if j < |OfTopic(rest, topic)| {
      p, q := OfOrder(rest, topic, i, j);
    } else {
      p := OfPlace(rest, topic, i);
      q := |rest|;
    }
  }

  lemma {:induction false} OfPlace(output: seq<Event>, topic: Topic, i: nat) returns (p: nat)
    requires i < |OfTopic(output, topic)|
    ensures p < |output| && output[p] == OfTopic(output, topic)[i]
  {
    var rest := output[..|output| - 1];
    if i < |OfTopic(rest, topic)| {
      p := OfPlace(rest, topic, i);
    } else {
      p := |rest|;
    }
  }

  // ----- What was and will be written about it

  /** What an allocation that is held back will be written as. */
  function Waiting(held: map<Id, Pending>, topic: Topic): seq<Event> {
    if topic.Block? && topic.id in held then Chain(topic.id, held[topic.id].events, |held[topic.id].events|) else []
  }

  function Line(s: Store, topic: Topic): seq<Event> {
    OfTopic(s.output, topic) + Waiting(s.held, topic)
  }

  /** What is held back stays so or is written, and nothing else is. */
  ghost predicate Stays(s: Store, t: Store, topic: Topic) {
    && Line(t, topic) == Line(s, topic)
    && (topic.Block? && topic.id in t.held ==>
          && topic.id in s.held && t.held[topic.id] == s.held[topic.id]
          && OfTopic(t.output, topic) == OfTopic(s.output, topic))
  }

  ghost predicate AllStay(s: Store, t: Store) {
    forall topic :: Stays(s, t, topic)
  }

  lemma StayRefl(s: Store)
    ensures AllStay(s, s)
  {}

  lemma StayTrans(s: Store, t: Store, u: Store)
    requires AllStay(s, t) && AllStay(t, u)
    ensures AllStay(s, u)
  {
    forall topic ensures Stays(s, u, topic) {
      assert Stays(s, t, topic) && Stays(t, u, topic);
    }
  }

  /** An allocation is written out. */
  lemma EmitStays(s: Store, id: Id, events: seq<Buffered>)
    requires id in s.held && s.held[id].events == events
    ensures AllStay(s, Store(s.held - {id}, s.output + Chain(id, events, |events|)))
  {
    var t := Store(s.held - {id}, s.output + Chain(id, events, |events|));
    forall topic ensures Stays(s, t, topic) {
      EmitStay(s, id, events, topic);
    }
  }

  lemma EmitStay(s: Store, id: Id, events: seq<Buffered>, topic: Topic)
    requires id in s.held && s.held[id].events == events
    ensures Stays(s, Store(s.held - {id}, s.output + Chain(id, events, |events|)), topic)
  {
    hide Chain, OfTopic;
    var chain := Chain(id, events, |events|);
    OfConcat(s.output, chain, topic);
    OfChain(id, events, |events|, topic);
    if topic != Block(id) {
      assert OfTopic(s.output, topic) + [] == OfTopic(s.output, topic);
    }
  }

  /** Something is written that is about no block, and that squeezing looks at. */
  lemma OtherStays(s: Store, e: Event)
    requires e.Backtrace? || e.Statistics?
    ensures AllStay(s, Store(s.held, s.output + [e]))
  {
    var t := Store(s.held, s.output + [e]);
    forall topic ensures Stays(s, t, topic) {
      OfOne(s.output, e, topic);
    }
  }

  // ----- One event

  /** Held back for so long that it is written out. */
  predicate Old(p: Pending, now: nat, threshold: Option<nat>) {
    threshold.Some? && p.events != [] && p.events[0].timestamp + threshold.value <= now
  }

  /** Freed so late that it is written out. */
  predicate Late(p: Pending, e: Event, threshold: Option<nat>)
    requires e.Free?
  {
    threshold.Some? && p.events != [] && p.events[0].timestamp + threshold.value < e.timestamp
  }

  /** An allocation is held back. */
  ghost predicate AllocStep(s: Store, t: Store, e: Event, names: map<nat, nat>)
    requires e.Alloc?
  {
    && e.id in t.held && e.body.backtrace in names
    && t.held[e.id].events == [Buffered(e.timestamp, Rename(e.body, names))]
    && OfTopic(t.output, Block(e.id)) == Line(s, Block(e.id))
  }

  /** A reallocation joins its allocation if that is held back, and is written if not. */
  ghost predicate ReallocStep(s: Store, t: Store, e: Event, threshold: Option<nat>, names: map<nat, nat>, now: nat)
    requires e.Realloc?
  {
    var id := e.id;
    && e.body.backtrace in names
    && if id in t.held then
        && id in s.held && OfTopic(t.output, Block(id)) == OfTopic(s.output, Block(id)) && s.held[id].events != []
        && t.held[id].events == s.held[id].events + [Buffered(e.timestamp, Rename(e.body, names))]
      else
        && OfTopic(t.output, Block(id)) ==
          Line(s, Block(id)) + [Realloc(id, e.timestamp, e.oldPointer, Rename(e.body, names))]
        && (id in s.held ==> Old(s.held[id], now, threshold))
  }

  /** A free is written as it is, or drops an allocation that was held back and lived shortly. */
  ghost predicate FreeStep(s: Store, t: Store, e: Event, threshold: Option<nat>, now: nat)
    requires e.Free?
  {
    e.id !in t.held && if Drops(s, t, e, threshold) then true else Passes(s, t, e, threshold, now)
  }

  ghost predicate Drops(s: Store, t: Store, e: Event, threshold: Option<nat>)
    requires e.Free?
  {
    && e.id in s.held && s.held[e.id].events != []
    && Short(s.held[e.id].events[0].timestamp, e.timestamp, threshold)
    && OfTopic(t.output, Block(e.id)) == OfTopic(s.output, Block(e.id))
  }

  ghost predicate Passes(s: Store, t: Store, e: Event, threshold: Option<nat>, now: nat)
    requires e.Free?
  {
    && OfTopic(t.output, Block(e.id)) == Line(s, Block(e.id)) + [e]
    && (e.id in s.held ==> Old(s.held[e.id], now, threshold) || Late(s.held[e.id], e, threshold))
  }

  /** Blocks an event is not about stay as they are; they may be written out if they were held back for long. */
  ghost predicate QuietStep(s: Store, t: Store, threshold: Option<nat>, now: nat, topic: Topic) {
    Stays(s, t, topic) &&
    (topic.Block? && topic.id in s.held && topic.id !in t.held ==> Old(s.held[topic.id], now, threshold))
  }

  ghost predicate LineStep(s: Store, t: Store, e: Event, threshold: Option<nat>, names: map<nat, nat>, now: nat,
      topic: Topic) {
    if !About(e, topic) || (e.Alloc? && e.id in s.held) then QuietStep(s, t, threshold, now, topic)
    else match e
      case Alloc(_, _, _) => AllocStep(s, t, e, names)
      case Realloc(_, _, _, _) => ReallocStep(s, t, e, threshold, names, now)
      case Free(_, _, _, _, _) => FreeStep(s, t, e, threshold, now)
      case _ => OfTopic(t.output, Rest) == OfTopic(s.output, Rest) + [e]
  }

  /** How an event changes what is held back and written; `now` is the time before it. */
  ghost predicate Effect(s: Store, t: Store, e: Event, threshold: Option<nat>, names: map<nat, nat>, now: nat) {
    forall topic :: LineStep(s, t, e, threshold, names, now, topic)
  }

  /** An allocation is dropped, or written with its free. */
  lemma SettleEffect(s: Store, output: seq<Event>, e: Event, p: Pending, threshold: Option<nat>,
      names: map<nat, nat>, now: nat)
    requires e.Free? && e.id in s.held && s.held[e.id] == p && p.events != []
    requires Short(p.events[0].timestamp, e.timestamp, threshold) ==> output == s.output
    requires !Short(p.events[0].timestamp, e.timestamp, threshold) ==>
      output == s.output + Chain(e.id, p.events, |p.events|) + [e]
    ensures Effect(s, Store(s.held - {e.id}, output), e, threshold, names, now)
  {
    hide LineStep;
    var t := Store(s.held - {e.id}, output);
    forall topic ensures LineStep(s, t, e, threshold, names, now, topic) {
      if topic != Block(e.id) {
        SettleElsewhere(s, t, e, threshold, names, now, topic);
      } else if Short(p.events[0].timestamp, e.timestamp, threshold) {
        SettleDrops(s, t, e, threshold, names, now);
      } else {
        SettlePasses(s, t, e, threshold, names, now);
      }
    }
  }

  lemma SettleElsewhere(s: Store, t: Store, e: Event, threshold: Option<nat>, names: map<nat, nat>, now: nat,
      topic: Topic)
    requires e.Free? && e.id in s.held && topic != Block(e.id) && t.held == s.held - {e.id}
    requires var events := s.held[e.id].events;
      t.output == s.output || t.output == s.output + Chain(e.id, events, |events|) + [e]
    ensures LineStep(s, t, e, threshold, names, now, topic)
  {
    hide Chain, OfTopic;
    var events := s.held[e.id].events;
    var chain := Chain(e.id, events, |events|);
    OfConcat(s.output, chain, topic);
    OfChain(e.id, events, |events|, topic);
    OfOne(s.output + chain, e, topic);
    assert OfTopic(s.output, topic) + [] + [] == OfTopic(s.output, topic);
  }

  lemma SettleDrops(s: Store, t: Store, e: Event, threshold: Option<nat>, names: map<nat, nat>, now: nat)
    requires e.Free? && e.id in s.held && t == Store(s.held - {e.id}, s.output) && s.held[e.id].events != []
    requires Short(s.held[e.id].events[0].timestamp, e.timestamp, threshold)
    ensures LineStep(s, t, e, threshold, names, now, Block(e.id))
  {
    hide Chain, OfTopic;
  }

  lemma SettlePasses(s: Store, t: Store, e: Event, threshold: Option<nat>, names: map<nat, nat>, now: nat)
    requires e.Free? && e.id in s.held && t.held == s.held - {e.id} && s.held[e.id].events != []
    requires !Short(s.held[e.id].events[0].timestamp, e.timestamp, threshold)
    requires var events := s.held[e.id].events; t.output == s.output + Chain(e.id, events, |events|) + [e]
    ensures LineStep(s, t, e, threshold, names, now, Block(e.id))
  {
    hide Chain, OfTopic;
    var events, topic := s.held[e.id].events, Block(e.id);
    var chain := Chain(e.id, events, |events|);
    OfConcat(s.output, chain, topic);
    OfChain(e.id, events, |events|, topic);
    OfOne(s.output + chain, e, topic);
  }

  lemma PassFreeEffect(s: Store, e: Event, threshold: Option<nat>, names: map<nat, nat>, now: nat)
    requires e.Free? && e.id !in s.held
    ensures Effect(s, Store(s.held, s.output + [e]), e, threshold, names, now)
  {
    var t := Store(s.held, s.output + [e]);
    forall topic ensures LineStep(s, t, e, threshold, names, now, topic) {
      OfOne(s.output, e, topic);
    }
  }

  lemma PassReallocEffect(s: Store, e: Event, threshold: Option<nat>, names: map<nat, nat>, now: nat)
    requires e.Realloc? && e.id !in s.held && e.body.backtrace in names
    ensures var x := Realloc(e.id, e.timestamp, e.oldPointer, Rename(e.body, names));
      Effect(s, Store(s.held, s.output + [x]), e, threshold, names, now)
  {
    var x := Realloc(e.id, e.timestamp, e.oldPointer, Rename(e.body, names));
    var t := Store(s.held, s.output + [x]);
    forall topic ensures LineStep(s, t, e, threshold, names, now, topic) {
      OfOne(s.output, x, topic);
    }
  }

  lemma OtherEffect(s: Store, e: Event, threshold: Option<nat>, names: map<nat, nat>, now: nat)
    requires e.Other?
    ensures Effect(s, Store(s.held, s.output + [e]), e, threshold, names, now)
  {
    var t := Store(s.held, s.output + [e]);
    forall topic ensures LineStep(s, t, e, threshold, names, now, topic) {
      OfOne(s.output, e, topic);
    }
  }

  /** An event that is about no block and not passed on. */
  lemma QuietEffect(s: Store, t: Store, e: Event, threshold: Option<nat>, names: map<nat, nat>, now: nat)
    requires AllStay(s, t) && t.held == s.held
    requires (forall topic :: !About(e, topic)) || (e.Alloc? && e.id in s.held)
    ensures Effect(s, t, e, threshold, names, now)
  {
    forall topic ensures LineStep(s, t, e, threshold, names, now, topic) {
      assert Stays(s, t, topic);
    }
  }

  lemma AddEffect(s: Store, p: Pending, e: Event, threshold: Option<nat>, names: map<nat, nat>, now: nat)
    requires e.Alloc? && e.id !in s.held && e.body.backtrace in names
    requires p.events == [Buffered(e.timestamp, Rename(e.body, names))]
    ensures Effect(s, Store(s.held[e.id := p], s.output), e, threshold, names, now)
  {}

  lemma ExtendEffect(s: Store, e: Event, threshold: Option<nat>, names: map<nat, nat>, now: nat)
    requires e.Realloc? && e.id in s.held && s.held[e.id].events != [] && e.body.backtrace in names
    ensures var p := s.held[e.id];
      var p' := p.(events := p.events + [Buffered(e.timestamp, Rename(e.body, names))]);
      Effect(s, Store(s.held[e.id := p'], s.output), e, threshold, names, now)
  {}

  /** Allocations are written out before the event. */
  lemma FlushEffect(s: Store, mid: Store, t: Store, e: Event, threshold: Option<nat>, names: map<nat, nat>, now: nat)
    requires AllStay(s, mid) && Effect(mid, t, e, threshold, names, now) && (e.Alloc? ==> e.id !in s.held)
    requires forall id :: id in s.held && id !in mid.held ==> Old(s.held[id], now, threshold)
    ensures Effect(s, t, e, threshold, names, now)
  {
    forall topic ensures LineStep(s, t, e, threshold, names, now, topic) {
      FlushStep(s, mid, t, e, threshold, names, now, topic);
    }
  }

  lemma FlushStep(s: Store, mid: Store, t: Store, e: Event, threshold: Option<nat>, names: map<nat, nat>, now: nat,
      topic: Topic)
    requires AllStay(s, mid) && LineStep(mid, t, e, threshold, names, now, topic) && (e.Alloc? ==> e.id !in s.held)
    requires forall id :: id in s.held && id !in mid.held ==> Old(s.held[id], now, threshold)
    ensures LineStep(s, t, e, threshold, names, now, topic)
  {
    hide OfTopic, Chain;
    assert Stays(s, mid, topic);
    assert topic.Rest? ==> Line(s, Rest) == OfTopic(s.output, Rest) && Line(mid, Rest) == OfTopic(mid.output, Rest);
  }
}
