/**
 Why squeezing a trace loses nothing: the relation between what the original trace loads to, what the
 squeezed output loads to, and what the squeezer still holds back; and what each of its steps does to it.
 */
module SqueezeSpec {
  import opened Trace

  /** An allocation held back, with its reallocations; `counter` remembers the order of arrival. */
  datatype Pending = Pending(counter: nat, events: seq<Buffered>)

  /** Culled allocations of one backtrace. */
  datatype Stat = Stat(count: nat, size: nat)

  /**
   What the squeezer holds: its output as loaded so far, the backtrace tables, the statistics and the pending
   allocations.
   */
  datatype Squeezed = Squeezed(
    out: Summary,
    cache: map<seq<nat>, nat>,
    renamed: map<nat, nat>,
    stats: map<nat, Stat>,
    pending: map<Id, Pending>)

  // ----- What held-back allocations will contribute to a counter of a group

  /** Where a counter is read: the meaning of the raw backtrace numbers, the group and the counter. */
  datatype Place = Place(meaning: map<nat, nat>, group: nat, metric: Metric)

  function Of(raw: nat, c: Counts, at: Place): int {
    if raw in at.meaning && at.meaning[raw] == at.group then Value(c, at.metric) else 0
  }

  function AllocatedBy(b: Buffered, at: Place): int { Of(b.body.backtrace, Allocated(UsableSize(b.body)), at) }

  function FreedBy(b: Buffered, at: Place): int { Of(b.body.backtrace, Freed(UsableSize(b.body)), at) }

  function GoneBy(b: Buffered, at: Place): int { Of(b.body.backtrace, Gone(1, UsableSize(b.body)), at) }

  /** The first `n` events of an allocation: each allocates, and each reallocation frees the one before. */
  function ChainAt(events: seq<Buffered>, n: nat, at: Place): int
    requires n <= |events|
  {
    if n == 0 then 0
    else ChainAt(events, n - 1, at) + (if n > 1 then FreedBy(events[n - 2], at) else 0) + AllocatedBy(events[n - 1], at)
  }

  /** The first `n` events as statistics of culled allocations. */
  function GoneAt(events: seq<Buffered>, n: nat, at: Place): int
    requires n <= |events|
  {
    if n == 0 then 0 else GoneAt(events, n - 1, at) + GoneBy(events[n - 1], at)
  }

  /** Freeing the last block of a chain makes it all gone. */
  lemma {:induction false} ChainFreed(events: seq<Buffered>, n: nat, at: Place)
    requires 0 < n <= |events|
    ensures ChainAt(events, n, at) + FreedBy(events[n - 1], at) == GoneAt(events, n, at)
  {
    assert AllocatedBy(events[n - 1], at) + FreedBy(events[n - 1], at) == GoneBy(events[n - 1], at);
    if n > 1 {
      ChainFreed(events, n - 1, at);
    }
  }

  lemma {:induction false} ChainPrefix(events: seq<Buffered>, more: seq<Buffered>, n: nat, at: Place)
    requires n <= |events|
    ensures ChainAt(events + more, n, at) == ChainAt(events, n, at)
  {
    if n > 0 {
      ChainPrefix(events, more, n - 1, at);
    }
  }

  ghost function ChainOf(at: Place): (Id, Pending) -> int {
    (id: Id, p: Pending) => ChainAt(p.events, |p.events|, at)
  }

  ghost function StatOf(at: Place): (nat, Stat) -> int {
    (raw: nat, s: Stat) => Of(raw, Gone(s.count, s.size), at)
  }

  // ----- The relation

  /** What a loaded trace knows about backtraces. */
  datatype Names = Names(numbers: map<seq<nat>, nat>, meaning: map<nat, nat>, size: nat)

  function NamesOf(s: Summary): Names { Names(s.numbers, s.meaning, |s.groups|) }

  ghost predicate ProperNames(names: Names) {
    && (forall f :: f in names.numbers ==> names.numbers[f] < names.size)
    && (forall raw :: raw in names.meaning ==> names.meaning[raw] < names.size)
  }

  /** Backtraces mean the same on both sides. */
  ghost predicate SameNames(into: Names, out: Names, cache: map<seq<nat>, nat>, renamed: map<nat, nat>,
      strip: seq<nat> -> seq<nat>) {
    && ProperNames(into) && into.numbers == out.numbers && into.size == out.size
    && RenamedTo(into.meaning, out.meaning, renamed) && Agrees(out.meaning, into.meaning)
    && CacheMeans(into.numbers, out.meaning, cache, strip)
  }

  /** Every number has a new one with the same meaning. */
  ghost predicate RenamedTo(into: map<nat, nat>, out: map<nat, nat>, renamed: map<nat, nat>) {
    && renamed.Keys == into.Keys
    && forall raw :: raw in into ==> renamed[raw] in out && out[renamed[raw]] == into[raw]
  }

  /** Every backtrace in the cache is in the output under its number. */
  ghost predicate CacheMeans(numbers: map<seq<nat>, nat>, out: map<nat, nat>, cache: map<seq<nat>, nat>,
      strip: seq<nat> -> seq<nat>) {
    forall a :: a in cache ==> cache[a] in out && strip(a) in numbers && numbers[strip(a)] == out[cache[a]]
  }

  function AsLive(b: Buffered, meaning: map<nat, nat>): LiveBlock
    requires b.body.backtrace in meaning
  {
    Recorded(b.timestamp, b.body, meaning[b.body.backtrace])
  }

  /** A buffered event can be written out or culled: its backtrace is in the output, and has statistics. */
  predicate Ready(b: Buffered, meaning: map<nat, nat>, stats: map<nat, Stat>) {
    b.body.backtrace in meaning && b.body.backtrace in stats
  }

  ghost predicate Holdable(id: Id, events: seq<Buffered>, meaning: map<nat, nat>, stats: map<nat, Stat>) {
    Tracked(id) && events != [] && forall i :: 0 <= i < |events| ==> Ready(events[i], meaning, stats)
  }

  function Latest(p: Pending): Buffered
    requires p.events != []
  {
    p.events[|p.events| - 1]
  }

  /** A pending allocation is live in the original, with the record of its latest event, and not in the output. */
  ghost predicate Held(id: Id, p: Pending, into: map<Id, LiveBlock>, out: map<Id, LiveBlock>, meaning: map<nat, nat>,
      stats: map<nat, Stat>) {
    && Holdable(id, p.events, meaning, stats) && id !in out && id in into
    && into[id] == AsLive(Latest(p), meaning)
  }

  /** A block is live in the original exactly when it is live in the output or held back, with the same record. */
  ghost predicate SameLive(into: map<Id, LiveBlock>, out: map<Id, LiveBlock>, pending: map<Id, Pending>,
      meaning: map<nat, nat>, stats: map<nat, Stat>) {
    && (forall id :: id in pending ==> Held(id, pending[id], into, out, meaning, stats))
    && (forall id :: id !in pending ==> (id in into <==> id in out))
    && (forall id :: id !in pending && id in into ==> into[id] == out[id])
  }

  ghost predicate BalancedAt(into: seq<Counts>, out: seq<Counts>, stats: map<nat, Stat>, pending: map<Id, Pending>,
      at: Place) {
    At(into, at.group, at.metric) == At(out, at.group, at.metric) + Sum(stats, StatOf(at)) + Sum(pending, ChainOf(at))
  }

  /** The original's counters are the output's, plus the statistics, plus what is held back. */
  ghost predicate SameCounts(into: seq<Counts>, out: seq<Counts>, stats: map<nat, Stat>, pending: map<Id, Pending>,
      meaning: map<nat, nat>) {
    forall at: Place :: at.meaning == meaning ==> BalancedAt(into, out, stats, pending, at)
  }

  /** Every live block's backtrace has a group. */
  ghost predicate Grouped(live: map<Id, LiveBlock>, size: nat) {
    forall id :: id in live ==> live[id].body.backtrace < size
  }

  /** Numbers already given keep their meaning. */
  ghost predicate Agrees(now: map<nat, nat>, meaning: map<nat, nat>) {
    forall raw :: raw in now ==> raw in meaning && meaning[raw] == now[raw]
  }

  /** All of it; `meaning` is what the raw backtrace numbers mean in the end. */
  ghost predicate Related(into: Summary, sq: Squeezed, meaning: map<nat, nat>, strip: seq<nat> -> seq<nat>) {
    && SameNames(NamesOf(into), NamesOf(sq.out), sq.cache, sq.renamed, strip)
    && SameLive(into.live, sq.out.live, sq.pending, sq.out.meaning, sq.stats)
    && SameCounts(into.groups, sq.out.groups, sq.stats, sq.pending, meaning)
    && Grouped(into.live, |into.groups|) && Agrees(into.meaning, meaning) && sq.stats.Keys <= sq.out.meaning.Keys
  }

  // ----- Counting, in one place

  lemma CountOf(groups: seq<Counts>, raw: nat, c: Counts, at: Place)
    requires raw in at.meaning && at.meaning[raw] < |groups|
    ensures At(Count(groups, at.meaning[raw], c), at.group, at.metric)
      == At(groups, at.group, at.metric) + Of(raw, c, at)
    ensures |Count(groups, at.meaning[raw], c)| == |groups|
  {
    CountAt(groups, at.meaning[raw], c, at.group, at.metric);
  }

  /** Counting the same thing on both sides keeps the balance. */
  lemma BothCount(into: seq<Counts>, out: seq<Counts>, stats: map<nat, Stat>, pending: map<Id, Pending>,
      meaning: map<nat, nat>, g: nat, c: Counts)
    requires SameCounts(into, out, stats, pending, meaning) && |into| == |out| && g < |into|
    ensures SameCounts(Count(into, g, c), Count(out, g, c), stats, pending, meaning)
  {
    var into', out' := Count(into, g, c), Count(out, g, c);
    forall at: Place | at.meaning == meaning ensures BalancedAt(into', out', stats, pending, at) {
      assert BalancedAt(into, out, stats, pending, at);
      CountAt(into, g, c, at.group, at.metric);
      CountAt(out, g, c, at.group, at.metric);
    }
  }

  /** An allocation counted in the original is balanced by holding it back. */
  lemma HoldBackCounts(into: seq<Counts>, out: seq<Counts>, stats: map<nat, Stat>, pending: map<Id, Pending>,
      meaning: map<nat, nat>,
                       id: Id, counter: nat, b: Buffered)
    requires SameCounts(into, out, stats, pending, meaning) && id !in pending
    requires b.body.backtrace in meaning && meaning[b.body.backtrace] < |into|
    ensures SameCounts(Count(into, meaning[b.body.backtrace], Allocated(UsableSize(b.body))), out, stats,
                       pending[id := Pending(counter, [b])], meaning)
  {
    var into', p := Count(into, meaning[b.body.backtrace], Allocated(UsableSize(b.body))), Pending(counter, [b]);
    var pending' := pending[id := p];
    forall at: Place | at.meaning == meaning ensures BalancedAt(into', out, stats, pending', at) {
      assert BalancedAt(into, out, stats, pending, at);
      CountOf(into, b.body.backtrace, Allocated(UsableSize(b.body)), at);
      SumInsert(pending, ChainOf(at), id, p);
      assert pending - {id} == pending;
      assert ChainAt([b], 0, at) == 0 && ChainAt([b], 1, at) == AllocatedBy(b, at);
    }
  }

  /** A reallocation counted in the original, as a free and an allocation, is balanced by adding it to the chain. */
  lemma ExtendCounts(into: seq<Counts>, out: seq<Counts>, stats: map<nat, Stat>, pending: map<Id, Pending>,
      meaning: map<nat, nat>, id: Id, b: Buffered)
    requires SameCounts(into, out, stats, pending, meaning) && id in pending && pending[id].events != []
    requires b.body.backtrace in meaning && meaning[b.body.backtrace] < |into|
    requires var last := Latest(pending[id]).body.backtrace; last in meaning && meaning[last] < |into|
    ensures var last := Latest(pending[id]).body;
      SameCounts(Count(Count(into, meaning[last.backtrace], Freed(UsableSize(last))),
                 meaning[b.body.backtrace], Allocated(UsableSize(b.body))),
        out, stats,
                 pending[id := pending[id].(events := pending[id].events + [b])], meaning)
  {
    var p, last := pending[id], Latest(pending[id]).body;
    var p' := p.(events := p.events + [b]);
    var mid := Count(into, meaning[last.backtrace], Freed(UsableSize(last)));
    var into' := Count(mid, meaning[b.body.backtrace], Allocated(UsableSize(b.body)));
    var pending' := pending[id := p'];
    forall at: Place | at.meaning == meaning ensures BalancedAt(into', out, stats, pending', at) {
      assert BalancedAt(into, out, stats, pending, at);
      CountOf(into, last.backtrace, Freed(UsableSize(last)), at);
      CountOf(mid, b.body.backtrace, Allocated(UsableSize(b.body)), at);
      SumInsert(pending, ChainOf(at), id, p');
      SumRemove(pending, ChainOf(at), id);
      ChainPrefix(p.events, [b], |p.events|, at);
    }
  }

  /** Statistics with `count` more allocations of `size` bytes in total. */
  function Added(stats: map<nat, Stat>, raw: nat, count: nat, size: nat): map<nat, Stat> {
    var was := if raw in stats then stats[raw] else Stat(0, 0);
    stats[raw := Stat(was.count + count, was.size + size)]
  }

  lemma AddedSum(stats: map<nat, Stat>, raw: nat, count: nat, size: nat, at: Place)
    ensures Sum(Added(stats, raw, count, size), StatOf(at)) == Sum(stats, StatOf(at)) + Of(raw, Gone(count, size), at)
  {
    var now := Added(stats, raw, count, size)[raw];
    SumInsert(stats, StatOf(at), raw, now);
    assert StatOf(at)(raw, now) == Of(raw, Gone(now.count, now.size), at);
    if raw in stats {
      assert StatOf(at)(raw, stats[raw]) == Of(raw, Gone(stats[raw].count, stats[raw].size), at);
      SumRemove(stats, StatOf(at), raw);
    } else {
      assert stats - {raw} == stats;
    }
  }

  /** Opening the statistics of a backtrace changes no count. */
  lemma OpenCounts(into: seq<Counts>, out: seq<Counts>, stats: map<nat, Stat>, pending: map<Id, Pending>,
      meaning: map<nat, nat>, raw: nat)
    requires SameCounts(into, out, stats, pending, meaning)
    ensures SameCounts(into, out, Added(stats, raw, 0, 0), pending, meaning)
  {
    var stats' := Added(stats, raw, 0, 0);
    forall at: Place | at.meaning == meaning ensures BalancedAt(into, out, stats', pending, at) {
      assert BalancedAt(into, out, stats, pending, at);
      AddedSum(stats, raw, 0, 0, at);
    }
  }

  /** Statistics read from the original are balanced by adding them. */
  lemma AddCounts(into: seq<Counts>, out: seq<Counts>, stats: map<nat, Stat>, pending: map<Id, Pending>,
      meaning: map<nat, nat>, raw: nat, count: nat, size: nat)
    requires SameCounts(into, out, stats, pending, meaning) && raw in meaning && meaning[raw] < |into|
    ensures SameCounts(Count(into, meaning[raw], Gone(count, size)), out,
      Added(stats, raw, count, size), pending, meaning)
  {
    var into', stats' := Count(into, meaning[raw], Gone(count, size)), Added(stats, raw, count, size);
    forall at: Place | at.meaning == meaning ensures BalancedAt(into', out, stats', pending, at) {
      assert BalancedAt(into, out, stats, pending, at);
      CountOf(into, raw, Gone(count, size), at);
      AddedSum(stats, raw, count, size, at);
    }
  }

  /** Statistics written out are balanced by taking them away. */
  lemma WriteCounts(into: seq<Counts>, out: seq<Counts>, stats: map<nat, Stat>, pending: map<Id, Pending>,
      meaning: map<nat, nat>, raw: nat)
    requires SameCounts(into, out, stats, pending, meaning) && raw in stats && raw in meaning && meaning[raw] < |out|
    ensures SameCounts(into, Count(out, meaning[raw], Gone(stats[raw].count, stats[raw].size)),
      stats - {raw}, pending, meaning)
  {
    var c := Gone(stats[raw].count, stats[raw].size);
    var out', stats' := Count(out, meaning[raw], c), stats - {raw};
    forall at: Place | at.meaning == meaning ensures BalancedAt(into, out', stats', pending, at) {
      assert BalancedAt(into, out, stats, pending, at);
      CountOf(out, raw, c, at);
      SumRemove(stats, StatOf(at), raw);
    }
  }

  /** The statistics after culling the first `n` events of an allocation. */
  function Culled(stats: map<nat, Stat>, events: seq<Buffered>, n: nat): map<nat, Stat>
    requires n <= |events|
  {
    if n == 0 then stats
    else Added(Culled(stats, events, n - 1), events[n - 1].body.backtrace, 1, UsableSize(events[n - 1].body))
  }

  lemma {:induction false} CulledSum(stats: map<nat, Stat>, events: seq<Buffered>, n: nat, at: Place)
    requires n <= |events|
    ensures Sum(Culled(stats, events, n), StatOf(at)) == Sum(stats, StatOf(at)) + GoneAt(events, n, at)
  {
    if n > 0 {
      CulledSum(stats, events, n - 1, at);
      AddedSum(Culled(stats, events, n - 1), events[n - 1].body.backtrace, 1, UsableSize(events[n - 1].body), at);
    }
  }

  lemma {:induction false} CulledKeys(stats: map<nat, Stat>, events: seq<Buffered>, n: nat)
    requires n <= |events| && forall i :: 0 <= i < n ==> events[i].body.backtrace in stats
    ensures Culled(stats, events, n).Keys == stats.Keys
  {
    if n > 0 {
      CulledKeys(stats, events, n - 1);
    }
  }

  /** A free counted in the original is balanced by culling the allocation. */
  lemma CullCounts(into: seq<Counts>, out: seq<Counts>, stats: map<nat, Stat>, pending: map<Id, Pending>,
      meaning: map<nat, nat>, id: Id)
    requires SameCounts(into, out, stats, pending, meaning) && id in pending && pending[id].events != []
    requires var last := Latest(pending[id]).body.backtrace; last in meaning && meaning[last] < |into|
    ensures var last := Latest(pending[id]).body; var events := pending[id].events;
      SameCounts(Count(into, meaning[last.backtrace], Freed(UsableSize(last))), out,
        Culled(stats, events, |events|), pending - {id}, meaning)
  {
    var events, last := pending[id].events, Latest(pending[id]).body;
    var into' := Count(into, meaning[last.backtrace], Freed(UsableSize(last)));
    var stats', pending' := Culled(stats, events, |events|), pending - {id};
    forall at: Place | at.meaning == meaning ensures BalancedAt(into', out, stats', pending', at) {
      assert BalancedAt(into, out, stats, pending, at);
      CountOf(into, last.backtrace, Freed(UsableSize(last)), at);
      CulledSum(stats, events, |events|, at);
      SumRemove(pending, ChainOf(at), id);
      ChainFreed(events, |events|, at);
    }
  }

  // ----- Steps that leave the output alone

  lemma HoldBackLive(into: map<Id, LiveBlock>, out: map<Id, LiveBlock>, pending: map<Id, Pending>,
      meaning: map<nat, nat>, stats: map<nat, Stat>,
                     id: Id, events: seq<Buffered>, counter: nat)
    requires SameLive(into, out, pending, meaning, stats) && Holdable(id, events, meaning, stats) && id !in out
    ensures var p := Pending(counter, events);
      SameLive(into[id := AsLive(Latest(p), meaning)], out, pending[id := p], meaning, stats)
  {}

  lemma CullLive(into: map<Id, LiveBlock>, out: map<Id, LiveBlock>, pending: map<Id, Pending>, meaning: map<nat, nat>,
      stats: map<nat, Stat>,
                 id: Id, stats': map<nat, Stat>)
    requires SameLive(into, out, pending, meaning, stats) && id in pending && stats.Keys == stats'.Keys
    ensures SameLive(into - {id}, out, pending - {id}, meaning, stats')
  {
    forall i | i in pending - {id} ensures Held(i, pending[i], into - {id}, out, meaning, stats') {
      assert Held(i, pending[i], into, out, meaning, stats);
    }
  }

  lemma OpenLive(into: map<Id, LiveBlock>, out: map<Id, LiveBlock>, pending: map<Id, Pending>, meaning: map<nat, nat>,
      stats: map<nat, Stat>, stats': map<nat, Stat>)
    requires SameLive(into, out, pending, meaning, stats) && stats.Keys <= stats'.Keys
    ensures SameLive(into, out, pending, meaning, stats')
  {
    forall i | i in pending ensures Held(i, pending[i], into, out, meaning, stats') {
      assert Held(i, pending[i], into, out, meaning, stats);
    }
  }

  /** The name a body's backtrace has in the output. */
  function Rename(body: Body, renamed: map<nat, nat>): Body
    requires body.backtrace in renamed
  {
    body.(backtrace := renamed[body.backtrace])
  }

  lemma RenameKeeps(timestamp: nat, body: Body, renamed: map<nat, nat>, g: nat)
    requires body.backtrace in renamed
    ensures UsableSize(Rename(body, renamed)) == UsableSize(body)
    ensures Recorded(timestamp, Rename(body, renamed), g) == Recorded(timestamp, body, g)
  {}

  lemma HoldOne(id: Id, b: Buffered, meaning: map<nat, nat>, stats: map<nat, Stat>)
    requires Tracked(id) && Ready(b, meaning, stats)
    ensures Holdable(id, [b], meaning, stats)
  {}

  /** An identifier that is not live in the original is nowhere else. */
  lemma FreshId(into: Summary, sq: Squeezed, meaning: map<nat, nat>, strip: seq<nat> -> seq<nat>, id: Id)
    requires Related(into, sq, meaning, strip) && id !in into.live
    ensures id !in sq.out.live && id !in sq.pending
  {}

  lemma NotNone(id: Id, events: seq<Buffered>, meaning: map<nat, nat>, stats: map<nat, Stat>)
    requires Holdable(id, events, meaning, stats)
    ensures events != []
  {}

  lemma HoldMore(id: Id, events: seq<Buffered>, b: Buffered, meaning: map<nat, nat>, stats: map<nat, Stat>)
    requires Holdable(id, events, meaning, stats) && Ready(b, meaning, stats)
    ensures Holdable(id, events + [b], meaning, stats)
  {}

  /** A raw number and its new name stand for the same group. */
  lemma RenamedMeans(into: Summary, sq: Squeezed, meaning: map<nat, nat>, strip: seq<nat> -> seq<nat>, raw: nat)
    requires Related(into, sq, meaning, strip) && raw in into.meaning
    ensures raw in sq.renamed && sq.renamed[raw] in sq.out.meaning && sq.renamed[raw] in meaning
    ensures into.meaning[raw] == meaning[sq.renamed[raw]] ==
      sq.out.meaning[sq.renamed[raw]] < |into.groups| == |sq.out.groups|
  {}

  /** The statistics of a backtrace are opened. */
  lemma Open(into: Summary, sq: Squeezed, meaning: map<nat, nat>, strip: seq<nat> -> seq<nat>, raw: nat)
    requires Related(into, sq, meaning, strip) && raw in sq.out.meaning
    ensures Related(into, sq.(stats := Added(sq.stats, raw, 0, 0)), meaning, strip)
  {
    hide SameCounts, SameLive, RenamedTo, CacheMeans;
    OpenCounts(into.groups, sq.out.groups, sq.stats, sq.pending, meaning, raw);
    OpenLive(into.live, sq.out.live, sq.pending, sq.out.meaning, sq.stats, Added(sq.stats, raw, 0, 0));
  }

  /** An allocation is held back. */
  lemma HoldBack(into: Summary, sq: Squeezed, meaning: map<nat, nat>, strip: seq<nat> -> seq<nat>, id: Id,
      timestamp: nat, body: Body, counter: nat)
    requires Related(into, sq, meaning, strip) && Tracked(id) && id !in into.live && body.backtrace in into.meaning
    requires sq.renamed[body.backtrace] in sq.stats
    ensures var b := Buffered(timestamp, Rename(body, sq.renamed));
      Related(Put(into, id, timestamp, body), sq.(pending := sq.pending[id := Pending(counter, [b])]), meaning, strip)
  {
    hide SameCounts, SameLive, SameNames, Holdable;
    RenamedMeans(into, sq, meaning, strip, body.backtrace);
    FreshId(into, sq, meaning, strip, id);
    var b, into' := Buffered(timestamp, Rename(body, sq.renamed)), Put(into, id, timestamp, body);
    HoldOne(id, b, sq.out.meaning, sq.stats);
    HoldBackLive(into.live, sq.out.live, sq.pending, sq.out.meaning, sq.stats, id, [b], counter);
    assert into'.live == into.live[id := AsLive(b, sq.out.meaning)];
    HoldBackCounts(into.groups, sq.out.groups, sq.stats, sq.pending, meaning, id, counter, b);
    assert into'.groups == Count(into.groups, meaning[b.body.backtrace], Allocated(UsableSize(b.body)));
    assert NamesOf(into') == NamesOf(into);
  }

  /** What is known of a pending allocation's current block. */
  lemma PendingBlock(into: Summary, sq: Squeezed, meaning: map<nat, nat>, strip: seq<nat> -> seq<nat>, id: Id)
    requires Related(into, sq, meaning, strip) && id in sq.pending
    ensures Holdable(id, sq.pending[id].events, sq.out.meaning, sq.stats) && sq.pending[id].events != []
    ensures id !in sq.out.live && id in into.live
    ensures var last := Latest(sq.pending[id]).body;
      && last.backtrace in meaning && meaning[last.backtrace] < |into.groups|
      && into.live[id].body.backtrace == meaning[last.backtrace] && UsableSize(into.live[id].body) == UsableSize(last)
  {
    hide SameCounts, RenamedTo, CacheMeans;
    assert Held(id, sq.pending[id], into.live, sq.out.live, sq.out.meaning, sq.stats);
  }

  /** A block of group `h` and size `size` replaced under its own key. */
  lemma Replaced(into: Summary, id: Id, timestamp: nat, body: Body, h: nat, size: nat, g: nat)
    requires id in into.live && body.backtrace in into.meaning && into.meaning[body.backtrace] == g
    requires into.live[id].body.backtrace == h && UsableSize(into.live[id].body) == size
    ensures Put(Drop(into, id), id, timestamp, body)
      == into.(groups := Count(Count(into.groups, h, Freed(size)), g, Allocated(UsableSize(body))),
               live := into.live[id := Recorded(timestamp, body, g)])
    ensures NamesOf(Put(Drop(into, id), id, timestamp, body)) == NamesOf(into)
  {
    assert (into.live - {id})[id := Recorded(timestamp, body, g)] == into.live[id := Recorded(timestamp, body, g)];
  }

  /** A pending allocation is reallocated. */
  lemma Extend(into: Summary, sq: Squeezed, meaning: map<nat, nat>, strip: seq<nat> -> seq<nat>, id: Id,
      timestamp: nat, body: Body)
    requires Related(into, sq, meaning, strip) && id in sq.pending && body.backtrace in into.meaning
    requires sq.renamed[body.backtrace] in sq.stats
    ensures var b, p := Buffered(timestamp, Rename(body, sq.renamed)), sq.pending[id];
      Related(Put(Drop(into, id), id, timestamp, body),
        sq.(pending := sq.pending[id := p.(events := p.events + [b])]), meaning, strip)
  {
    hide SameCounts, SameLive, SameNames, Holdable;
    RenamedMeans(into, sq, meaning, strip, body.backtrace);
    PendingBlock(into, sq, meaning, strip, id);
    var b, p := Buffered(timestamp, Rename(body, sq.renamed)), sq.pending[id];
    NotNone(id, p.events, sq.out.meaning, sq.stats);
    var last := Latest(p).body;
    RenameKeeps(timestamp, body, sq.renamed, meaning[b.body.backtrace]);
    HoldMore(id, p.events, b, sq.out.meaning, sq.stats);
    Replaced(into, id, timestamp, body, meaning[last.backtrace], UsableSize(last), meaning[b.body.backtrace]);
    HoldBackLive(into.live, sq.out.live, sq.pending, sq.out.meaning, sq.stats, id, p.events + [b], p.counter);
    ExtendCounts(into.groups, sq.out.groups, sq.stats, sq.pending, meaning, id, b);
  }

  lemma StatsOpen(into: Summary, sq: Squeezed, meaning: map<nat, nat>, strip: seq<nat> -> seq<nat>, id: Id)
    requires Related(into, sq, meaning, strip) && id in sq.pending
    ensures forall i :: 0 <= i < |sq.pending[id].events| ==> sq.pending[id].events[i].body.backtrace in sq.stats
  {
    PendingBlock(into, sq, meaning, strip, id);
    forall i | 0 <= i < |sq.pending[id].events| ensures sq.pending[id].events[i].body.backtrace in sq.stats {
      assert Ready(sq.pending[id].events[i], sq.out.meaning, sq.stats);
    }
  }

  /** A pending allocation is freed and culled. */
  lemma Cull(into: Summary, sq: Squeezed, meaning: map<nat, nat>, strip: seq<nat> -> seq<nat>, id: Id)
    requires Related(into, sq, meaning, strip) && id in sq.pending
    ensures var events := sq.pending[id].events;
      Related(Drop(into, id), sq.(pending := sq.pending - {id}, stats := Culled(sq.stats, events, |events|)),
        meaning, strip)
  {
    hide SameCounts, RenamedTo, CacheMeans, Holdable, Culled;
    var events := sq.pending[id].events;
    PendingBlock(into, sq, meaning, strip, id);
    StatsOpen(into, sq, meaning, strip, id);
    CulledKeys(sq.stats, events, |events|);
    CullLive(into.live, sq.out.live, sq.pending, sq.out.meaning, sq.stats, id, Culled(sq.stats, events, |events|));
    CullCounts(into.groups, sq.out.groups, sq.stats, sq.pending, meaning, id);
    assert NamesOf(Drop(into, id)) == NamesOf(into);
  }

  /** Statistics of the original are added up. */
  lemma Collect(into: Summary, sq: Squeezed, meaning: map<nat, nat>, strip: seq<nat> -> seq<nat>, raw: nat, count: nat,
      size: nat)
    requires Related(into, sq, meaning, strip) && raw in into.meaning
    ensures Related(into.(groups := Count(into.groups, into.meaning[raw], Gone(count, size))),
                    sq.(stats := Added(sq.stats, sq.renamed[raw], count, size)), meaning, strip)
  {
    hide SameCounts, SameLive, RenamedTo, CacheMeans;
    RenamedMeans(into, sq, meaning, strip, raw);
    AddCounts(into.groups, sq.out.groups, sq.stats, sq.pending, meaning, sq.renamed[raw], count, size);
    OpenLive(into.live, sq.out.live, sq.pending, sq.out.meaning, sq.stats,
      Added(sq.stats, sq.renamed[raw], count, size));
  }
}
