/** What the squeezer's writes do to the relation between the original trace and its output. */
module SqueezeSteps {
  import opened Trace
  import opened SqueezeSpec

  // ----- Events passed on

  lemma PassReallocLive(into: map<Id, LiveBlock>, out: map<Id, LiveBlock>, pending: map<Id, Pending>,
      meaning: map<nat, nat>, stats: map<nat, Stat>,
                        id: Id, block: LiveBlock)
    requires SameLive(into, out, pending, meaning, stats) && id !in pending && id in into
    ensures id in out && into[id] == out[id]
    ensures SameLive(into[id := block], out[id := block], pending, meaning, stats)
  {
    var into', out' := into[id := block], out[id := block];
    forall i | i in pending ensures Held(i, pending[i], into', out', meaning, stats) {
      assert Held(i, pending[i], into, out, meaning, stats);
    }
  }

  lemma PassFreeLive(into: map<Id, LiveBlock>, out: map<Id, LiveBlock>, pending: map<Id, Pending>,
      meaning: map<nat, nat>, stats: map<nat, Stat>, id: Id)
    requires SameLive(into, out, pending, meaning, stats) && id !in pending && id in into
    ensures id in out && into[id] == out[id]
    ensures SameLive(into - {id}, out - {id}, pending, meaning, stats)
  {
    forall i | i in pending ensures Held(i, pending[i], into - {id}, out - {id}, meaning, stats) {
      assert Held(i, pending[i], into, out, meaning, stats);
    }
  }

  lemma PassReallocCounts(into: seq<Counts>, out: seq<Counts>, stats: map<nat, Stat>, pending: map<Id, Pending>,
      meaning: map<nat, nat>,
                          h: nat, freed: nat, g: nat, size: nat)
    requires SameCounts(into, out, stats, pending, meaning) && |into| == |out| && h < |into| && g < |into|
    ensures SameCounts(Count(Count(into, h, Freed(freed)), g, Allocated(size)),
      Count(Count(out, h, Freed(freed)), g, Allocated(size)),
      stats, pending, meaning)
  {
    BothCount(into, out, stats, pending, meaning, h, Freed(freed));
    BothCount(Count(into, h, Freed(freed)), Count(out, h, Freed(freed)), stats, pending, meaning, g, Allocated(size));
  }

  /** A reallocation of a block already in the output is passed on. */
  lemma PassRealloc(into: Summary, sq: Squeezed, meaning: map<nat, nat>, strip: seq<nat> -> seq<nat>, id: Id,
      timestamp: nat, body: Body)
    requires Related(into, sq, meaning, strip) && id !in sq.pending && id in into.live && body.backtrace in into.meaning
    ensures sq.renamed[body.backtrace] in sq.out.meaning && id in sq.out.live
    ensures Related(Put(Drop(into, id), id, timestamp, body),
                    sq.(out := Put(Drop(sq.out, id), id, timestamp, Rename(body, sq.renamed))), meaning, strip)
  {
    hide SameCounts, SameLive, SameNames;
    RenamedMeans(into, sq, meaning, strip, body.backtrace);
    var was, g := into.live[id].body, into.meaning[body.backtrace];
    var h, freed := was.backtrace, UsableSize(was);
    RenamedMeans(into, sq, meaning, strip, body.backtrace);
    RenameKeeps(timestamp, body, sq.renamed, g);
    PassReallocLive(into.live, sq.out.live, sq.pending, sq.out.meaning, sq.stats, id, Recorded(timestamp, body, g));
    Replaced(into, id, timestamp, body, h, freed, g);
    Replaced(sq.out, id, timestamp, Rename(body, sq.renamed), h, freed, g);
    PassReallocCounts(into.groups, sq.out.groups, sq.stats, sq.pending, meaning, h, freed, g, UsableSize(body));
  }

  /** A free of a block already in the output is passed on. */
  lemma PassFree(into: Summary, sq: Squeezed, meaning: map<nat, nat>, strip: seq<nat> -> seq<nat>, id: Id)
    requires Related(into, sq, meaning, strip) && id !in sq.pending && id in into.live
    ensures Related(Drop(into, id), sq.(out := Drop(sq.out, id)), meaning, strip)
  {
    hide SameCounts;
    PassFreeLive(into.live, sq.out.live, sq.pending, sq.out.meaning, sq.stats, id);
    var was := into.live[id].body;
    BothCount(into.groups, sq.out.groups, sq.stats, sq.pending, meaning, was.backtrace, Freed(UsableSize(was)));
  }

  // ----- Pending allocations written out

  /** The output's counters once the first `n` events of an allocation were loaded. */
  ghost predicate ChainCounted(was: seq<Counts>, groups: seq<Counts>, events: seq<Buffered>, n: nat,
      meaning: map<nat, nat>)
    requires n <= |events|
  {
    && |groups| == |was|
    && forall at: Place :: at.meaning == meaning ==>
         At(groups, at.group, at.metric) == At(was, at.group, at.metric) + ChainAt(events, n, at)
  }

  /** The first `n` events of a pending allocation were loaded into `was`. */
  ghost predicate ChainLoaded(was: Summary, now: Summary, id: Id, events: seq<Buffered>, n: nat, meaning: map<nat, nat>)
    requires n <= |events| && forall i :: 0 <= i < |events| ==> events[i].body.backtrace in was.meaning
  {
    && now == was.(groups := now.groups,
           live := if n == 0 then was.live else was.live[id := AsLive(events[n - 1], was.meaning)])
    && ChainCounted(was.groups, now.groups, events, n, meaning)
  }

  lemma ChainAllocCounted(was: seq<Counts>, events: seq<Buffered>, meaning: map<nat, nat>)
    requires 0 < |events| && events[0].body.backtrace in meaning && meaning[events[0].body.backtrace] < |was|
    ensures ChainCounted(was, Count(was, meaning[events[0].body.backtrace], Allocated(UsableSize(events[0].body))),
      events, 1, meaning)
  {
    var b := events[0].body;
    var groups' := Count(was, meaning[b.backtrace], Allocated(UsableSize(b)));
    forall at: Place | at.meaning == meaning
      ensures At(groups', at.group, at.metric) == At(was, at.group, at.metric) + ChainAt(events, 1, at)
    {
      CountOf(was, b.backtrace, Allocated(UsableSize(b)), at);
      assert ChainAt(events, 0, at) == 0 && ChainAt(events, 1, at) == AllocatedBy(events[0], at);
    }
  }

  lemma ChainReallocCounted(was: seq<Counts>, groups: seq<Counts>, events: seq<Buffered>, n: nat,
      meaning: map<nat, nat>)
    requires 0 < n < |events| && ChainCounted(was, groups, events, n, meaning)
    requires events[n - 1].body.backtrace in meaning && meaning[events[n - 1].body.backtrace] < |was|
    requires events[n].body.backtrace in meaning && meaning[events[n].body.backtrace] < |was|
    ensures var a, b := events[n - 1].body, events[n].body;
      ChainCounted(was, Count(Count(groups, meaning[a.backtrace], Freed(UsableSize(a))),
              meaning[b.backtrace], Allocated(UsableSize(b))),
        events, n + 1, meaning)
  {
    var a, b := events[n - 1].body, events[n].body;
    var mid := Count(groups, meaning[a.backtrace], Freed(UsableSize(a)));
    var groups' := Count(mid, meaning[b.backtrace], Allocated(UsableSize(b)));
    forall at: Place | at.meaning == meaning
      ensures At(groups', at.group, at.metric) == At(was, at.group, at.metric) + ChainAt(events, n + 1, at)
    {
      assert At(groups, at.group, at.metric) == At(was, at.group, at.metric) + ChainAt(events, n, at);
      CountOf(groups, a.backtrace, Freed(UsableSize(a)), at);
      CountOf(mid, b.backtrace, Allocated(UsableSize(b)), at);
    }
  }

  /** One more event of a pending allocation is loaded. */
  lemma ChainStep(was: Summary, now: Summary, id: Id, events: seq<Buffered>, n: nat, meaning: map<nat, nat>,
      strip: seq<nat> -> seq<nat>)
    requires n < |events| && forall i :: 0 <= i < |events| ==> events[i].body.backtrace in was.meaning
    requires ChainLoaded(was, now, id, events, n, meaning)
    requires Tracked(id) && id !in was.live && Agrees(was.meaning, meaning) && ProperNames(NamesOf(was))
    ensures Loadable(now, Written(id, events, n))
    ensures ChainLoaded(was, Load(now, Written(id, events, n), strip), id, events, n + 1, meaning)
  {
    var b := events[n];
    var g := was.meaning[b.body.backtrace];
    if n == 0 {
      assert now.groups == was.groups by { NothingCounted(was.groups, now.groups, events, meaning); }
      ChainAllocCounted(was.groups, events, meaning);
    } else {
      var a := events[n - 1];
      var h := was.meaning[a.body.backtrace];
      Replaced(now, id, b.timestamp, b.body, h, UsableSize(a.body), g);
      ChainReallocCounted(was.groups, now.groups, events, n, meaning);
    }
  }

  lemma NothingCounted(was: seq<Counts>, groups: seq<Counts>, events: seq<Buffered>, meaning: map<nat, nat>)
    requires ChainCounted(was, groups, events, 0, meaning)
    ensures groups == was
  {
    forall g: nat, m: Metric ensures At(groups, g, m) == At(was, g, m) {
      var at := Place(meaning, g, m);
      assert At(groups, at.group, at.metric) == At(was, at.group, at.metric) + ChainAt(events, 0, at);
    }
    SameAt(groups, was);
  }

  lemma EmitLive(into: map<Id, LiveBlock>, out: map<Id, LiveBlock>, pending: map<Id, Pending>, meaning: map<nat, nat>,
      stats: map<nat, Stat>, id: Id)
    requires SameLive(into, out, pending, meaning, stats) && id in pending
    requires Holdable(id, pending[id].events, meaning, stats)
    ensures SameLive(into, out[id := AsLive(Latest(pending[id]), meaning)], pending - {id}, meaning, stats)
  {
    var out' := out[id := AsLive(Latest(pending[id]), meaning)];
    assert Held(id, pending[id], into, out, meaning, stats);
    forall i | i in pending - {id} ensures Held(i, pending[i], into, out', meaning, stats) {
      assert Held(i, pending[i], into, out, meaning, stats);
    }
  }

  lemma EmitCounts(into: seq<Counts>, out: seq<Counts>, out': seq<Counts>, stats: map<nat, Stat>,
      pending: map<Id, Pending>, meaning: map<nat, nat>, id: Id)
    requires SameCounts(into, out, stats, pending, meaning) && id in pending
    requires ChainCounted(out, out', pending[id].events, |pending[id].events|, meaning)
    ensures SameCounts(into, out', stats, pending - {id}, meaning)
  {
    var pending' := pending - {id};
    forall at: Place | at.meaning == meaning ensures BalancedAt(into, out', stats, pending', at) {
      assert BalancedAt(into, out, stats, pending, at);
      SumRemove(pending, ChainOf(at), id);
    }
  }

  /** A pending allocation may be written out at any time. */
  lemma EmitPending(into: Summary, sq: Squeezed, out': Summary, meaning: map<nat, nat>, strip: seq<nat> -> seq<nat>,
      id: Id)
    requires Related(into, sq, meaning, strip) && id in sq.pending
    requires forall i :: 0 <= i < |sq.pending[id].events| ==> sq.pending[id].events[i].body.backtrace in sq.out.meaning
    requires ChainLoaded(sq.out, out', id, sq.pending[id].events, |sq.pending[id].events|, meaning)
    ensures Related(into, sq.(out := out', pending := sq.pending - {id}), meaning, strip)
  {
    hide SameCounts;
    PendingBlock(into, sq, meaning, strip, id);
    EmitLive(into.live, sq.out.live, sq.pending, sq.out.meaning, sq.stats, id);
    EmitCounts(into.groups, sq.out.groups, out'.groups, sq.stats, sq.pending, meaning, id);
    assert NamesOf(out') == NamesOf(sq.out);
  }

  // ----- Statistics written out at the end

  lemma WriteStat(into: Summary, sq: Squeezed, meaning: map<nat, nat>, strip: seq<nat> -> seq<nat>, raw: nat)
    requires Related(into, sq, meaning, strip) && raw in sq.stats && sq.pending == map[]
    ensures raw in sq.out.meaning
    ensures var e := Statistics(raw, sq.stats[raw].count, sq.stats[raw].size);
      Related(into, sq.(out := Load(sq.out, e, strip), stats := sq.stats - {raw}), meaning, strip)
  {
    hide SameCounts, RenamedTo, CacheMeans;
    WriteCounts(into.groups, sq.out.groups, sq.stats, sq.pending, meaning, raw);
  }

  // ----- Backtraces

  lemma GrowCounts(into: seq<Counts>, out: seq<Counts>, stats: map<nat, Stat>, pending: map<Id, Pending>,
      meaning: map<nat, nat>)
    requires SameCounts(into, out, stats, pending, meaning)
    ensures SameCounts(into + [Zero()], out + [Zero()], stats, pending, meaning)
  {
    var into', out' := into + [Zero()], out + [Zero()];
    forall at: Place | at.meaning == meaning ensures BalancedAt(into', out', stats, pending, at) {
      assert BalancedAt(into, out, stats, pending, at);
      assert At(into', at.group, at.metric) == At(into, at.group, at.metric);
      assert At(out', at.group, at.metric) == At(out, at.group, at.metric);
    }
  }

  lemma DeclareLive(into: map<Id, LiveBlock>, out: map<Id, LiveBlock>, pending: map<Id, Pending>,
      meaning: map<nat, nat>, stats: map<nat, Stat>, number: nat, g: nat)
    requires SameLive(into, out, pending, meaning, stats) && number !in meaning
    ensures SameLive(into, out, pending, meaning[number := g], stats)
  {
    var meaning' := meaning[number := g];
    forall i | i in pending ensures Held(i, pending[i], into, out, meaning', stats) {
      assert Held(i, pending[i], into, out, meaning, stats);
      forall k | 0 <= k < |pending[i].events| ensures Ready(pending[i].events[k], meaning', stats) {
        assert Ready(pending[i].events[k], meaning, stats);
      }
    }
  }

  lemma DeclareKnownNames(into: Names, out: Names, cache: map<seq<nat>, nat>, renamed: map<nat, nat>,
      strip: seq<nat> -> seq<nat>, number: nat, addresses: seq<nat>)
    requires SameNames(into, out, cache, renamed, strip) && number !in into.meaning && addresses in cache
    ensures strip(addresses) in into.numbers
    ensures SameNames(into.(meaning := into.meaning[number := into.numbers[strip(addresses)]]),
      out, cache, renamed[number := cache[addresses]], strip)
  {}

  lemma DeclareRenamed(into: map<nat, nat>, out: map<nat, nat>, renamed: map<nat, nat>, number: nat, g: nat)
    requires RenamedTo(into, out, renamed) && Agrees(out, into) && number !in into
    ensures RenamedTo(into[number := g], out[number := g], renamed[number := number])
    ensures Agrees(out[number := g], into[number := g])
  {}

  lemma DeclareCached(numbers: map<seq<nat>, nat>, out: map<nat, nat>, cache: map<seq<nat>, nat>,
      strip: seq<nat> -> seq<nat>, number: nat, addresses: seq<nat>, g: nat)
    requires CacheMeans(numbers, out, cache, strip) && number !in out
    requires strip(addresses) in numbers ==> numbers[strip(addresses)] == g
    ensures CacheMeans(numbers[strip(addresses) := g], out[number := g], cache[addresses := number], strip)
  {}

  lemma DeclareNewNames(into: Names, out: Names, cache: map<seq<nat>, nat>, renamed: map<nat, nat>,
      strip: seq<nat> -> seq<nat>, number: nat, addresses: seq<nat>, g: nat, size: nat)
    requires SameNames(into, out, cache, renamed, strip) && number !in into.meaning && into.size <= size && g < size
    requires strip(addresses) in into.numbers ==> into.numbers[strip(addresses)] == g
    ensures number !in out.meaning
    ensures var frames := strip(addresses);
      SameNames(Names(into.numbers[frames := g], into.meaning[number := g], size),
                Names(out.numbers[frames := g], out.meaning[number := g], size),
                cache[addresses := number], renamed[number := number], strip)
  {
    hide RenamedTo, CacheMeans;
    DeclareRenamed(into.meaning, out.meaning, renamed, number, g);
    DeclareCached(into.numbers, out.meaning, cache, strip, number, addresses, g);
  }

  /** A backtrace seen before under another number: only the new name is remembered. */
  lemma DeclareKnown(into: Summary, sq: Squeezed, meaning: map<nat, nat>, strip: seq<nat> -> seq<nat>, number: nat,
      addresses: seq<nat>)
    requires Related(into, sq, meaning, strip) && number !in into.meaning && addresses in sq.cache
    requires Agrees(Declare(into, number, addresses, strip).meaning, meaning)
    ensures Related(Declare(into, number, addresses, strip),
      sq.(renamed := sq.renamed[number := sq.cache[addresses]]), meaning, strip)
  {
    hide SameCounts;
    DeclareKnownNames(NamesOf(into), NamesOf(sq.out), sq.cache, sq.renamed, strip, number, addresses);
  }

  /** What declaring a backtrace does, by its group `g`. */
  lemma Declared(s: Summary, number: nat, addresses: seq<nat>, strip: seq<nat> -> seq<nat>, g: nat)
    requires g == if strip(addresses) in s.numbers then s.numbers[strip(addresses)] else |s.groups|
    ensures Declare(s, number, addresses, strip)
      == s.(numbers := s.numbers[strip(addresses) := g], meaning := s.meaning[number := g],
            groups := if strip(addresses) in s.numbers then s.groups else s.groups + [Zero()])
  {
    if strip(addresses) in s.numbers {
      assert s.numbers[strip(addresses) := g] == s.numbers;
    }
  }

  /** A new backtrace goes to the output under its own number. */
  lemma DeclareNew(into: Summary, sq: Squeezed, meaning: map<nat, nat>, strip: seq<nat> -> seq<nat>, number: nat,
      addresses: seq<nat>)
    requires Related(into, sq, meaning, strip) && number !in into.meaning && addresses !in sq.cache
    requires Agrees(Declare(into, number, addresses, strip).meaning, meaning)
    ensures Related(Declare(into, number, addresses, strip),
                    sq.(out := Declare(sq.out, number, addresses, strip), cache := sq.cache[addresses := number],
                        renamed := sq.renamed[number := number]), meaning, strip)
  {
    hide SameCounts, SameLive, RenamedTo, CacheMeans;
    var frames := strip(addresses);
    var g := if frames in into.numbers then into.numbers[frames] else |into.groups|;
    var size := if frames in into.numbers then |into.groups| else |into.groups| + 1;
    DeclareNewNames(NamesOf(into), NamesOf(sq.out), sq.cache, sq.renamed, strip, number, addresses, g, size);
    DeclareLive(into.live, sq.out.live, sq.pending, sq.out.meaning, sq.stats, number, g);
    Declared(into, number, addresses, strip, g);
    Declared(sq.out, number, addresses, strip, g);
    GrowCounts(into.groups, sq.out.groups, sq.stats, sq.pending, meaning);
  }

  // ----- The end

  /** With nothing held back, the output loads to the same counters and the same live blocks. */
  lemma NothingHeld(into: Summary, sq: Squeezed, meaning: map<nat, nat>, strip: seq<nat> -> seq<nat>)
    requires Related(into, sq, meaning, strip) && sq.pending == map[] && sq.stats == map[]
    ensures into.numbers == sq.out.numbers && into.groups == sq.out.groups && into.live == sq.out.live
  {
    forall g: nat, m: Metric ensures At(into.groups, g, m) == At(sq.out.groups, g, m) {
      assert BalancedAt(into.groups, sq.out.groups, sq.stats, sq.pending, Place(meaning, g, m));
    }
    SameAt(into.groups, sq.out.groups);
  }
}
