/** The regions of memory maps: how the events of a trace become the changes that usage histories are made of. */
module Regions {
  import opened Basics
  import opened MapUsage

  /** A region; `removed` is when it was. */
  datatype Region = Region(pointer: nat, size: nat, removed: Option<nat>)

  datatype Map = Map(timestamp: nat, pointer: nat, size: nat, flags: nat, regions: seq<Region>)

  /** What the kernel reports about a region, in kilobytes. */
  datatype Report = Report(anonymous: nat, sharedClean: nat, sharedDirty: nat, privateClean: nat, privateDirty: nat,
    swap: nat)

  datatype Event =
    | MemoryMap(mapId: nat, timestamp: nat, address: nat, length: nat, flags: nat)
    | AddRegion(mapId: nat, timestamp: nat, address: nat, length: nat, flags: nat)
    | RemoveRegion(mapId: nat, timestamp: nat, address: nat, length: nat)
    | UpdateRegionUsage(mapId: nat, timestamp: nat, address: nat, length: nat, report: Report)

  /** The region a usage belongs to: the number of its map, and its own number in the map. */
  type Place = (nat, nat)

  function Space(n: int): Usage { Usage(n, 0, 0, 0, 0, 0, 0) }

  function Reported(size: nat, r: Report): Usage {
    Usage(size, r.anonymous * 1024, r.sharedClean * 1024, r.sharedDirty * 1024, r.privateClean * 1024,
          r.privateDirty * 1024, r.swap * 1024)
  }

  lemma OfSpace(n: int, k: Kind)
    ensures Of(Space(n), k) == if k.AddressSpace? then n else 0
  {}

  // ----- Changes add up to what is in use

  /** The sum of the first `n` changes. */
  function Total(changes: seq<Stamped>, n: nat, k: Kind): int
    requires n <= |changes|
  {
    if n == 0 then 0 else Total(changes, n - 1, k) + Of(changes[n - 1].amount, k)
  }

  /** At no point in the list do the changes sum to less than zero. */
  ghost predicate NeverNegative(changes: seq<Stamped>) {
    forall n, k: Kind :: 0 <= n <= |changes| ==> Total(changes, n, k) >= 0
  }

  lemma {:induction false} TotalPrefix(changes: seq<Stamped>, x: Stamped, n: nat, k: Kind)
    requires n <= |changes|
    ensures Total(changes + [x], n, k) == Total(changes, n, k)
  {
    if n > 0 {
      TotalPrefix(changes, x, n - 1, k);
    }
  }

  lemma TotalNext(changes: seq<Stamped>, x: Stamped, k: Kind)
    ensures Total(changes + [x], |changes| + 1, k) == Total(changes, |changes|, k) + Of(x.amount, k)
  {
    TotalPrefix(changes, x, |changes|, k);
  }

  lemma NeverNegativeNext(changes: seq<Stamped>, x: Stamped)
    requires NeverNegative(changes)
    requires forall k: Kind :: Total(changes, |changes|, k) + Of(x.amount, k) >= 0
    ensures NeverNegative(changes + [x])
  {
    hide Of;
    forall n, k: Kind | 0 <= n <= |changes| + 1 ensures Total(changes + [x], n, k) >= 0 {
      if n <= |changes| {
        TotalPrefix(changes, x, n, k);
      } else {
        TotalNext(changes, x, k);
      }
    }
  }

  /** The usage of the first `n` regions of a map, without those removed. */
  function InRegions(last: map<Place, Usage>, m: nat, n: nat, k: Kind): int {
    if n == 0 then 0
    else InRegions(last, m, n - 1, k) + if (m, n - 1) in last then Of(last[(m, n - 1)], k) else 0
  }

  lemma {:induction false} SameRegions(last: map<Place, Usage>, last': map<Place, Usage>, m: nat, n: nat, k: Kind)
    requires forall r: nat :: r < n ==> ((m, r) in last <==> (m, r) in last')
    requires forall r: nat :: r < n && (m, r) in last ==> last[(m, r)] == last'[(m, r)]
    ensures InRegions(last', m, n, k) == InRegions(last, m, n, k)
  {
    if n > 0 {
      SameRegions(last, last', m, n - 1, k);
    }
  }

  lemma {:induction false} PutUsage(last: map<Place, Usage>, m: nat, i: nat, u: Usage, n: nat, k: Kind)
    ensures InRegions(last[(m, i) := u], m, n, k) == InRegions(last, m, n, k)
      + (if i < n then Of(u, k) - (if (m, i) in last then Of(last[(m, i)], k) else 0) else 0)
  {
    hide Of;
    if n > 0 {
      PutUsage(last, m, i, u, n - 1, k);
    }
  }

  lemma {:induction false} DropUsage(last: map<Place, Usage>, m: nat, i: nat, n: nat, k: Kind)
    requires (m, i) in last
    ensures InRegions(last - {(m, i)}, m, n, k)
      == InRegions(last, m, n, k) - (if i < n then Of(last[(m, i)], k) else 0)
  {
    hide Of;
    if n > 0 {
      DropUsage(last, m, i, n - 1, k);
    }
  }

  /** What is in use by a map: its live regions, or its whole size as long as no region was reported. */
  function InUse(a: Map, m: nat, bare: bool, last: map<Place, Usage>, k: Kind): int {
    InRegions(last, m, |a.regions|, k) + if bare then Of(Space(a.size), k) else 0
  }

  /** Exactly the live regions have a usage, of their own size and nowhere below zero. */
  ghost predicate UsagesOk(a: Map, m: nat, last: map<Place, Usage>) {
    && (forall r :: 0 <= r < |a.regions| ==> ((m, r) in last <==> a.regions[r].removed.None?))
    && (forall r :: (m, r) in last ==> r < |a.regions| && UsageOk(last[(m, r)], a.regions[r].size))
  }

  ghost predicate UsageOk(u: Usage, size: nat) {
    u.addressSpace == size && forall k: Kind :: Of(u, k) >= 0
  }

  lemma {:induction false} RegionsNotNegative(a: Map, m: nat, last: map<Place, Usage>, n: nat, k: Kind)
    requires UsagesOk(a, m, last) && n <= |a.regions|
    ensures InRegions(last, m, n, k) >= 0
    ensures forall i :: 0 <= i < n && (m, i) in last ==> Of(last[(m, i)], k) <= InRegions(last, m, n, k)
  {
    if n > 0 {
      RegionsNotNegative(a, m, last, n - 1, k);
    }
  }

  ghost predicate SumsToUse(a: Map, m: nat, bare: bool, last: map<Place, Usage>, changes: seq<Stamped>) {
    forall k: Kind :: Total(changes, |changes|, k) == InUse(a, m, bare, last, k)
  }

  /**
   A map in order: its changes, of which there is at least one, sum to what is in use by it and at no point to
   less than zero; before its first region is reported there is only the change that made it.
   */
  ghost predicate MapOk(a: Map, m: nat, bare: bool, last: map<Place, Usage>, changes: seq<Stamped>) {
    && changes != [] && NeverNegative(changes) && SumsToUse(a, m, bare, last, changes) && UsagesOk(a, m, last)
    && (bare ==> a.regions == [] && changes == [Stamped(a.timestamp, Space(a.size))])
  }

  lemma NewMap(a: Map, m: nat, last: map<Place, Usage>)
    requires a.regions == [] && forall r: nat :: (m, r) !in last
    ensures MapOk(a, m, true, last, [Stamped(a.timestamp, Space(a.size))])
  {
    var changes := [Stamped(a.timestamp, Space(a.size))];
    forall n, k: Kind | 0 <= n <= 1 ensures Total(changes, n, k) >= 0 {
      OfSpace(a.size, k);
    }
    forall k: Kind ensures Total(changes, 1, k) == InUse(a, m, true, last, k) {
      assert Total(changes, 0, k) == 0;
    }
  }

  /** The change that made a map is taken back when its first region is reported. */
  lemma MapReverted(a: Map, m: nat, last: map<Place, Usage>, changes: seq<Stamped>, t: nat)
    requires MapOk(a, m, true, last, changes)
    ensures MapOk(a, m, false, last, changes + [Stamped(t, Space(0 - a.size))])
  {
    hide Total, InRegions, NeverNegative, UsagesOk;
    var x := Stamped(t, Space(0 - a.size));
    forall k: Kind
      ensures Total(changes, |changes|, k) + Of(x.amount, k) >= 0
      ensures Total(changes + [x], |changes| + 1, k) == InUse(a, m, false, last, k)
    {
      OfSpace(a.size, k);
      OfSpace(0 - a.size, k);
      RegionsNotNegative(a, m, last, |a.regions|, k);
      assert Total(changes, |changes|, k) == InUse(a, m, true, last, k);
      TotalNext(changes, x, k);
    }
    NeverNegativeNext(changes, x);
  }

  /** Both sums change by the same. */
  lemma Changed(a: Map, m: nat, last: map<Place, Usage>, changes: seq<Stamped>, a': Map, last': map<Place, Usage>,
      x: Stamped)
    requires MapOk(a, m, false, last, changes) && UsagesOk(a', m, last')
    requires forall k: Kind ::
      InRegions(last', m, |a'.regions|, k) == InRegions(last, m, |a.regions|, k) + Of(x.amount, k)
    ensures MapOk(a', m, false, last', changes + [x])
  {
    hide Total, InRegions, Of, NeverNegative, UsagesOk;
    forall k: Kind
      ensures Total(changes, |changes|, k) + Of(x.amount, k) >= 0
      ensures Total(changes + [x], |changes| + 1, k) == InUse(a', m, false, last', k)
    {
      assert Total(changes, |changes|, k) == InUse(a, m, false, last, k);
      RegionsNotNegative(a', m, last', |a'.regions|, k);
      TotalNext(changes, x, k);
    }
    NeverNegativeNext(changes, x);
  }

  lemma RegionAdded(a: Map, m: nat, last: map<Place, Usage>, changes: seq<Stamped>, t: nat, region: Region)
    requires MapOk(a, m, false, last, changes) && region.removed.None?
    ensures MapOk(a.(regions := a.regions + [region]), m, false, last[(m, |a.regions|) := Space(region.size)],
      changes + [Stamped(t, Space(region.size))])
  {
    hide Total, NeverNegative;
    var a', last' := a.(regions := a.regions + [region]), last[(m, |a.regions|) := Space(region.size)];
    assert (m, |a.regions|) !in last;
    forall k: Kind
      ensures InRegions(last', m, |a'.regions|, k)
        == InRegions(last, m, |a.regions|, k) + Of(Space(region.size), k)
    {
      PutUsage(last, m, |a.regions|, Space(region.size), |a.regions|, k);
    }
    AddedOk(a, m, last, region);
    Changed(a, m, last, changes, a', last', Stamped(t, Space(region.size)));
  }

  lemma AddedOk(a: Map, m: nat, last: map<Place, Usage>, region: Region)
    requires UsagesOk(a, m, last) && region.removed.None?
    ensures UsagesOk(a.(regions := a.regions + [region]), m, last[(m, |a.regions|) := Space(region.size)])
  {
    hide Of;
    var a', last' := a.(regions := a.regions + [region]), last[(m, |a.regions|) := Space(region.size)];
    forall k: Kind ensures Of(Space(region.size), k) >= 0 {
      OfSpace(region.size, k);
    }
    forall r | (m, r) in last' ensures r < |a'.regions| && UsageOk(last'[(m, r)], a'.regions[r].size) {
      if r != |a.regions| {
        assert UsageOk(last[(m, r)], a.regions[r].size);
      }
    }
  }

  lemma RegionUpdated(a: Map, m: nat, last: map<Place, Usage>, changes: seq<Stamped>, t: nat, i: nat, u: Usage)
    requires MapOk(a, m, false, last, changes) && (m, i) in last && i < |a.regions| && UsageOk(u, a.regions[i].size)
    ensures MapOk(a, m, false, last[(m, i) := u],
      changes + [Stamped(t, Subtract(u, last[(m, i)]).(addressSpace := 0))])
  {
    hide Total, NeverNegative, InRegions;
    var last', x := last[(m, i) := u], Stamped(t, Subtract(u, last[(m, i)]).(addressSpace := 0));
    assert UsageOk(last[(m, i)], a.regions[i].size);
    forall k: Kind ensures InRegions(last', m, |a.regions|, k) == InRegions(last, m, |a.regions|, k) + Of(x.amount, k) {
      PutUsage(last, m, i, u, |a.regions|, k);
    }
    Changed(a, m, last, changes, a, last', x);
  }

  lemma RegionRemoved(a: Map, m: nat, last: map<Place, Usage>, changes: seq<Stamped>, t: nat, i: nat)
    requires MapOk(a, m, false, last, changes) && (m, i) in last && i < |a.regions|
    ensures MapOk(a.(regions := a.regions[i := a.regions[i].(removed := Some(t))]), m, false, last - {(m, i)},
      changes + [Stamped(t, Subtract(Nothing(), last[(m, i)]).(addressSpace := 0 - a.regions[i].size))])
  {
    hide Total, NeverNegative, InRegions;
    var a', last' := a.(regions := a.regions[i := a.regions[i].(removed := Some(t))]), last - {(m, i)};
    var x := Stamped(t, Subtract(Nothing(), last[(m, i)]).(addressSpace := 0 - a.regions[i].size));
    assert UsageOk(last[(m, i)], a.regions[i].size);
    forall k: Kind
      ensures InRegions(last', m, |a'.regions|, k) == InRegions(last, m, |a.regions|, k) + Of(x.amount, k)
    {
      DropUsage(last, m, i, |a.regions|, k);
    }
    Changed(a, m, last, changes, a', last', x);
  }

  /** Nothing changes for the other maps. */
  lemma OtherMap(a: Map, m: nat, bare: bool, last: map<Place, Usage>, last': map<Place, Usage>, changes: seq<Stamped>)
    requires MapOk(a, m, bare, last, changes)
    requires forall r: nat :: (m, r) in last <==> (m, r) in last'
    requires forall r: nat :: (m, r) in last ==> last[(m, r)] == last'[(m, r)]
    ensures MapOk(a, m, bare, last', changes)
  {
    hide Total, Of, InRegions, NeverNegative, UsageOk;
    forall k: Kind ensures Total(changes, |changes|, k) == InUse(a, m, bare, last', k) {
      assert Total(changes, |changes|, k) == InUse(a, m, bare, last, k);
      SameRegions(last, last', m, |a.regions|, k);
    }
  }

  // ----- Times

  /** Changes in order of time, none after `now`. */
  ghost predicate InOrder(changes: seq<Stamped>, now: nat) {
    && (forall i, j :: 0 <= i < j < |changes| ==> changes[i].timestamp <= changes[j].timestamp)
    && (forall i :: 0 <= i < |changes| ==> changes[i].timestamp <= now)
  }

  /** If changes are in order of time, those up to a time are the first of them. */
  lemma {:induction false} SumIsTotal(changes: seq<Stamped>, n: nat, now: nat, t: nat, k: Kind) returns (m: nat)
    requires InOrder(changes, now) && n <= |changes|
    ensures m <= n && SumUpTo(changes, n, t, k) == Total(changes, m, k) && (now <= t ==> m == n)
    ensures m < n ==> t < changes[m].timestamp
  {
    m := 0;
    if n > 0 {
      m := SumIsTotal(changes, n - 1, now, t, k);
      if changes[n - 1].timestamp <= t {
        m := n;
      }
    }
  }

  /** Changes in order of time that never sum to less than zero make levels at or above zero. */
  lemma InOrderNotNegative(changes: seq<Stamped>, now: nat)
    requires InOrder(changes, now) && NeverNegative(changes)
    ensures SumsNotNegative(changes)
  {
    hide SumUpTo, Total, InOrder;
    forall t: nat, k: Kind ensures SumUpTo(changes, |changes|, t, k) >= 0 {
      var m := SumIsTotal(changes, |changes|, now, t, k);
      assert Total(changes, m, k) >= 0;
    }
  }

  // ----- The tables

  /** A region is looked for by its address, and by its size only when it is removed. */
  predicate Hit(region: Region, address: nat, length: Option<nat>) {
    region.pointer == address && (length.Some? ==> region.size == length.value)
  }

  /** The latest of the first `n` regions that is looked for. */
  function Latest(regions: seq<Region>, address: nat, length: Option<nat>, n: nat): (r: Option<nat>)
    requires n <= |regions|
    ensures r.None? ==> forall i :: 0 <= i < n ==> !Hit(regions[i], address, length)
    ensures r.Some? ==> r.value < n && Hit(regions[r.value], address, length)
    ensures r.Some? ==> forall i :: r.value < i < n ==> !Hit(regions[i], address, length)
  {
    if n == 0 then None
    else if Hit(regions[n - 1], address, length) then Some(n - 1)
    else Latest(regions, address, length, n - 1)
  }

  /** All the loader knows about maps; `bare` are the mapped ones without a region reported yet. */
  datatype Tables = Tables(
    maps: seq<Map>,
    index: map<nat, nat>,
    changes: seq<seq<Stamped>>,
    last: map<Place, Usage>,
    bare: set<nat>)

  const NO_MAPS := Tables([], map[], [], map[], {})

  ghost predicate TablesOk(s: Tables) {
    && Indexed(s) && (forall p :: p in s.last ==> p.0 < |s.maps|) && (forall m :: m in s.bare ==> m < |s.maps|)
    && (forall m :: 0 <= m < |s.maps| ==> MapOk(s.maps[m], m, m in s.bare, s.last, s.changes[m]))
  }

  predicate Indexed(s: Tables) {
    |s.changes| == |s.maps| && forall id :: id in s.index ==> s.index[id] < |s.maps|
  }

  // ----- What an event does to them

  function Mapped(s: Tables, e: Event): Tables
    requires e.MemoryMap?
  {
    var m := |s.maps|;
    Tables(s.maps + [Map(e.timestamp, e.address, e.length, e.flags, [])], s.index[e.mapId := m],
           s.changes + [[Stamped(e.timestamp, Space(e.length))]], s.last, s.bare + {m})
  }

  /** The first region reported of a map is all of the map as it was made. */
  predicate Confirms(s: Tables, e: Event)
    requires Indexed(s) && e.AddRegion?
  {
    e.mapId in s.index &&
    var m := s.index[e.mapId];
    m in s.bare && s.maps[m].pointer == e.address && s.maps[m].size == e.length && s.maps[m].flags == e.flags
  }

  /** A confirmation counts from when the map was made. */
  function AddedAt(s: Tables, e: Event): nat
    requires Indexed(s) && e.AddRegion?
  {
    if Confirms(s, e) then s.maps[s.index[e.mapId]].timestamp else e.timestamp
  }

  /** The changes of a map without the one that made it. */
  function Reverted(a: Map, bare: bool, changes: seq<Stamped>, t: nat): seq<Stamped> {
    if bare then changes + [Stamped(t, Space(0 - a.size))] else changes
  }

  function Added(s: Tables, e: Event): Tables
    requires Indexed(s) && e.AddRegion?
  {
    var t, region := AddedAt(s, e), Region(e.address, e.length, None);
    if e.mapId in s.index then
      var m := s.index[e.mapId];
      var a := s.maps[m];
      var changes := Reverted(a, m in s.bare, s.changes[m], t) + [Stamped(t, Space(e.length))];
      Tables(s.maps[m := a.(regions := a.regions + [region])], s.index, s.changes[m := changes],
             s.last[(m, |a.regions|) := Space(e.length)], s.bare - {m})
    else
      var m := |s.maps|;
      Tables(s.maps + [Map(t, e.address, e.length, e.flags, [region])], s.index[e.mapId := m],
             s.changes + [[Stamped(t, Space(e.length))]], s.last[(m, 0) := Space(e.length)], s.bare)
  }

  /** The region an event is about, if it is found; for a new usage its size has to be right as well. */
  function Target(s: Tables, e: Event): (p: Option<Place>)
    requires Indexed(s) && (e.RemoveRegion? || e.UpdateRegionUsage?)
    ensures p.Some? ==> p.value.0 < |s.maps| && p.value.1 < |s.maps[p.value.0].regions|
  {
    if e.mapId !in s.index then None
    else
      var m := s.index[e.mapId];
      var regions := s.maps[m].regions;
      match Latest(regions, e.address, if e.RemoveRegion? then Some(e.length) else None, |regions|)
      case None => None
      case Some(i) => if regions[i].size == e.length then Some((m, i)) else None
  }

  function Removed(s: Tables, e: Event): Tables
    requires Indexed(s) && e.RemoveRegion? && (Target(s, e).Some? ==> Target(s, e).value in s.last)
  {
    match Target(s, e)
    case None => s
    case Some((m, i)) =>
      var a := s.maps[m];
      var change := Subtract(Nothing(), s.last[(m, i)]).(addressSpace := 0 - a.regions[i].size);
      s.(maps := s.maps[m := a.(regions := a.regions[i := a.regions[i].(removed := Some(e.timestamp))])],
         changes := s.changes[m := s.changes[m] + [Stamped(e.timestamp, change)]], last := s.last - {(m, i)})
  }

  function Updated(s: Tables, e: Event): Tables
    requires Indexed(s) && e.UpdateRegionUsage? && (Target(s, e).Some? ==> Target(s, e).value in s.last)
  {
    match Target(s, e)
    case None => s
    case Some((m, i)) =>
      var u := Reported(s.maps[m].regions[i].size, e.report);
      var change := Subtract(u, s.last[(m, i)]).(addressSpace := 0);
      s.(changes := s.changes[m := s.changes[m] + [Stamped(e.timestamp, change)]], last := s.last[(m, i) := u])
  }

  /**
   The program stops at a confirmation before the map was made, and at the removal or a new usage of a region
   that was removed already.
   */
  predicate Stops(s: Tables, e: Event)
    requires Indexed(s)
  {
    match e
    case MemoryMap(_, _, _, _, _) => false
    case AddRegion(_, _, _, _, _) => Confirms(s, e) && e.timestamp < AddedAt(s, e)
    case _ => Target(s, e).Some? && Target(s, e).value !in s.last
  }

  function After(s: Tables, e: Event): Tables
    requires Indexed(s) && !Stops(s, e)
  {
    match e
    case MemoryMap(_, _, _, _, _) => Mapped(s, e)
    case AddRegion(_, _, _, _, _) => Added(s, e)
    case RemoveRegion(_, _, _, _) => Removed(s, e)
    case UpdateRegionUsage(_, _, _, _, _) => Updated(s, e)
  }

  lemma StopsAtRemoved(s: Tables, e: Event)
    requires TablesOk(s) && (e.RemoveRegion? || e.UpdateRegionUsage?)
    ensures Stops(s, e) <==>
      Target(s, e).Some? && s.maps[Target(s, e).value.0].regions[Target(s, e).value.1].removed.Some?
  {
    if Target(s, e).Some? {
      var (m, i) := Target(s, e).value;
      assert MapOk(s.maps[m], m, m in s.bare, s.last, s.changes[m]);
    }
  }

  ghost predicate SameMap(s: Tables, s': Tables, n: nat)
    requires Indexed(s) && Indexed(s')
  {
    && n < |s.maps| && n < |s'.maps| && s'.maps[n] == s.maps[n]
    && s'.changes[n] == s.changes[n] && (n in s'.bare <==> n in s.bare)
  }

  /** One map and its changes are new or different; the others are as they were. */
  lemma OneMapChanged(s: Tables, s': Tables, m: nat)
    requires TablesOk(s) && Indexed(s') && m < |s'.maps| && |s.maps| <= |s'.maps|
    requires forall n :: 0 <= n < |s'.maps| && n != m ==> SameMap(s, s', n)
    requires forall n: nat, r: nat :: n != m ==> ((n, r) in s'.last <==> (n, r) in s.last)
    requires forall n: nat, r: nat :: n != m && (n, r) in s.last ==> s'.last[(n, r)] == s.last[(n, r)]
    requires MapOk(s'.maps[m], m, m in s'.bare, s'.last, s'.changes[m])
    requires forall n :: n in s'.bare ==> n < |s'.maps|
    ensures TablesOk(s')
  {
    hide MapOk;
    forall n | 0 <= n < |s'.maps| ensures MapOk(s'.maps[n], n, n in s'.bare, s'.last, s'.changes[n]) {
      if n != m {
        assert SameMap(s, s', n);
        assert MapOk(s.maps[n], n, n in s.bare, s.last, s.changes[n]);
        OtherMap(s.maps[n], n, n in s.bare, s.last, s'.last, s.changes[n]);
      }
    }
    forall p | p in s'.last ensures p.0 < |s'.maps| {
      if p.0 != m {
        assert (p.0, p.1) in s.last;
      }
    }
  }

  lemma MappedOk(s: Tables, e: Event)
    requires TablesOk(s) && e.MemoryMap?
    ensures TablesOk(Mapped(s, e))
  {
    hide MapOk;
    var m, a := |s.maps|, Map(e.timestamp, e.address, e.length, e.flags, []);
    assert forall r: nat :: (m, r) in s.last ==> (m, r).0 < |s.maps|;
    NewMap(a, m, s.last);
    OneMapChanged(s, Mapped(s, e), m);
  }

  lemma FirstRegion(a: Map, m: nat, last: map<Place, Usage>)
    requires |a.regions| == 1 && a.regions[0].removed.None? && forall r: nat :: (m, r) !in last
    ensures MapOk(a, m, false, last[(m, 0) := Space(a.regions[0].size)],
      [Stamped(a.timestamp, Space(a.regions[0].size))])
  {
    var size := a.regions[0].size;
    var changes, last' := [Stamped(a.timestamp, Space(size))], last[(m, 0) := Space(size)];
    AddedOk(a.(regions := []), m, last, a.regions[0]);
    assert a == a.(regions := [] + [a.regions[0]]);
    forall k: Kind ensures Total(changes, 0, k) == 0 && Total(changes, 1, k) == Of(Space(size), k) >= 0 {
      OfSpace(size, k);
    }
    forall n, k: Kind | 0 <= n <= 1 ensures Total(changes, n, k) >= 0 {
      assert n == 0 || n == 1;
    }
    forall k: Kind ensures Total(changes, 1, k) == InUse(a, m, false, last', k) {
      assert InRegions(last', m, 0, k) == 0;
    }
  }

  lemma AddedKeepsOk(s: Tables, e: Event)
    requires TablesOk(s) && e.AddRegion?
    ensures TablesOk(Added(s, e))
  {
    hide MapOk;
    var t, region := AddedAt(s, e), Region(e.address, e.length, None);
    if e.mapId in s.index {
      var m := s.index[e.mapId];
      var changes := Reverted(s.maps[m], m in s.bare, s.changes[m], t);
      assert MapOk(s.maps[m], m, m in s.bare, s.last, s.changes[m]);
      if m in s.bare {
        MapReverted(s.maps[m], m, s.last, s.changes[m], t);
      }
      RegionAdded(s.maps[m], m, s.last, changes, t, region);
      OneMapChanged(s, Added(s, e), m);
    } else {
      var m := |s.maps|;
      assert forall r: nat :: (m, r) in s.last ==> (m, r).0 < |s.maps|;
      FirstRegion(Map(t, e.address, e.length, e.flags, [region]), m, s.last);
      OneMapChanged(s, Added(s, e), m);
    }
  }

  /** A map with a region has had one reported. */
  lemma NotBare(s: Tables, m: nat)
    requires TablesOk(s) && m < |s.maps| && s.maps[m].regions != []
    ensures m !in s.bare && MapOk(s.maps[m], m, false, s.last, s.changes[m])
  {
    assert MapOk(s.maps[m], m, m in s.bare, s.last, s.changes[m]);
  }

  lemma RemovedKeepsOk(s: Tables, e: Event)
    requires TablesOk(s) && e.RemoveRegion? && !Stops(s, e)
    ensures TablesOk(Removed(s, e))
  {
    hide MapOk;
    if Target(s, e).Some? {
      var (m, i) := Target(s, e).value;
      NotBare(s, m);
      RegionRemoved(s.maps[m], m, s.last, s.changes[m], e.timestamp, i);
      OneMapChanged(s, Removed(s, e), m);
    }
  }

  lemma UpdatedKeepsOk(s: Tables, e: Event)
    requires TablesOk(s) && e.UpdateRegionUsage? && !Stops(s, e)
    ensures TablesOk(Updated(s, e))
  {
    hide MapOk;
    if Target(s, e).Some? {
      var (m, i) := Target(s, e).value;
      NotBare(s, m);
      var u := Reported(s.maps[m].regions[i].size, e.report);
      RegionUpdated(s.maps[m], m, s.last, s.changes[m], e.timestamp, i, u);
      OneMapChanged(s, Updated(s, e), m);
    }
  }

  /** Every event that does not stop the program keeps all maps in order. */
  lemma AfterOk(s: Tables, e: Event)
    requires TablesOk(s) && !Stops(s, e)
    ensures TablesOk(After(s, e))
  {
    hide TablesOk, Mapped, Added, Removed, Updated;
    match e {
      case MemoryMap(_, _, _, _, _) => MappedOk(s, e);
      case AddRegion(_, _, _, _, _) => AddedKeepsOk(s, e);
      case RemoveRegion(_, _, _, _) => RemovedKeepsOk(s, e);
      case UpdateRegionUsage(_, _, _, _, _) => UpdatedKeepsOk(s, e);
    }
  }

  // ----- Times of the changes

  /** All changes are in order of time, none after `now`. */
  ghost predicate AllInOrder(s: Tables, now: nat) {
    forall m :: 0 <= m < |s.changes| ==> InOrder(s.changes[m], now)
  }

  lemma InOrderNext(changes: seq<Stamped>, x: Stamped, now: nat)
    requires InOrder(changes, now) && x.timestamp <= now
    requires forall i :: 0 <= i < |changes| ==> changes[i].timestamp <= x.timestamp
    ensures InOrder(changes + [x], now)
  {}

  lemma AddedInOrder(s: Tables, e: Event)
    requires TablesOk(s) && e.AddRegion? && !Stops(s, e) && AllInOrder(s, e.timestamp)
    ensures AllInOrder(Added(s, e), e.timestamp)
  {
    var t := AddedAt(s, e);
    if e.mapId in s.index {
      var m := s.index[e.mapId];
      var a, changes := s.maps[m], s.changes[m];
      assert InOrder(changes, e.timestamp) && MapOk(a, m, m in s.bare, s.last, changes);
      hide MapOk;
      assert forall i :: 0 <= i < |changes| ==> changes[i].timestamp <= t;
      if m in s.bare {
        InOrderNext(changes, Stamped(t, Space(0 - a.size)), e.timestamp);
      }
      InOrderNext(Reverted(a, m in s.bare, changes, t), Stamped(t, Space(e.length)), e.timestamp);
    }
  }

  /** If events are in order of time, so are the changes of every map. */
  lemma AfterInOrder(s: Tables, e: Event)
    requires TablesOk(s) && !Stops(s, e) && AllInOrder(s, e.timestamp)
    ensures AllInOrder(After(s, e), e.timestamp)
  {
    hide MapOk;
    match e {
      case MemoryMap(_, _, _, _, _) =>
      case AddRegion(_, _, _, _, _) => AddedInOrder(s, e);
      case _ =>
        if Target(s, e).Some? {
          var m := Target(s, e).value.0;
          assert InOrder(s.changes[m], e.timestamp);
        }
    }
  }

  lemma LaterNow(s: Tables, now: nat, later: nat)
    requires AllInOrder(s, now) && now <= later
    ensures AllInOrder(s, later)
  {
    forall m | 0 <= m < |s.changes| ensures InOrder(s.changes[m], later) {
      assert InOrder(s.changes[m], now);
    }
  }

  /** What the changes of a map up to a time sum to; nothing, if there is no such map yet. */
  function SumOf(s: Tables, m: nat, t: nat, k: Kind): int {
    if m < |s.changes| then SumUpTo(s.changes[m], |s.changes[m]|, t, k) else 0
  }

  /** A change made after a time does not matter for it. */
  lemma LaterChange(changes: seq<Stamped>, x: Stamped, t: nat, k: Kind)
    requires t < x.timestamp
    ensures SumUpTo(changes + [x], |changes| + 1, t, k) == SumUpTo(changes, |changes|, t, k)
  {
    SumOneMore(changes, x, t, k);
  }

  lemma LaterRegion(s: Tables, e: Event, m: nat, t: nat, k: Kind)
    requires Indexed(s) && e.AddRegion? && t < e.timestamp && m < |Added(s, e).changes|
    ensures SumOf(Added(s, e), m, t, k) == SumOf(s, m, t, k)
  {
    hide Of;
    var at := AddedAt(s, e);
    var x := Stamped(at, Space(e.length));
    if e.mapId !in s.index {
      if m == |s.maps| {
        assert Added(s, e).changes[m] == [] + [x];
        LaterChange([], x, t, k);
      }
    } else if m == s.index[e.mapId] {
      var a, changes := s.maps[m], s.changes[m];
      var reverted, y := Reverted(a, m in s.bare, changes, at), Stamped(at, Space(0 - a.size));
      SumOneMore(reverted, x, t, k);
      OfSpace(e.length, k);
      if m in s.bare {
        SumOneMore(changes, y, t, k);
        OfSpace(0 - a.size, k);
      }
    }
  }

  /** An event does not change what the changes up to any earlier time sum to, not even one that counts from then. */
  lemma LaterEvent(s: Tables, e: Event, m: nat, t: nat, k: Kind)
    requires Indexed(s) && !Stops(s, e) && t < e.timestamp && m < |After(s, e).changes|
    ensures SumOf(After(s, e), m, t, k) == SumOf(s, m, t, k)
  {
    hide Of;
    match e {
      case MemoryMap(_, _, _, _, _) =>
        if m == |s.maps| {
          var x := Stamped(e.timestamp, Space(e.length));
          assert After(s, e).changes[m] == [] + [x];
          LaterChange([], x, t, k);
        }
      case AddRegion(_, _, _, _, _) => LaterRegion(s, e, m, t, k);
      case _ =>
        if Target(s, e).Some? && Target(s, e).value.0 == m {
          var changes := After(s, e).changes[m];
          LaterChange(s.changes[m], changes[|changes| - 1], t, k);
        }
    }
  }

  // ----- Whole traces

  /** The tables after the first `n` events, unless the program stopped. */
  ghost function Run(events: seq<Event>, n: nat): (r: Option<Tables>)
    requires n <= |events|
    ensures r.Some? ==> TablesOk(r.value)
  {
    if n == 0 then Some(NO_MAPS)
    else match Run(events, n - 1)
      case None => None
      case Some(s) =>
        if Stops(s, events[n - 1]) then None
        else
          AfterOk(s, events[n - 1]);
          Some(After(s, events[n - 1]))
  }

  ghost predicate EventsInOrder(events: seq<Event>) {
    forall i, j :: 0 <= i < j < |events| ==> events[i].timestamp <= events[j].timestamp
  }

  /** No event among the first `n` is after `now`. */
  ghost predicate UpTo(events: seq<Event>, n: nat, now: nat)
    requires n <= |events|
  {
    forall i :: 0 <= i < n ==> events[i].timestamp <= now
  }

  lemma {:induction false} RunInOrder(events: seq<Event>, n: nat, now: nat)
    requires n <= |events| && EventsInOrder(events) && Run(events, n).Some? && UpTo(events, n, now)
    ensures AllInOrder(Run(events, n).value, now)
  {
    hide TablesOk, Stops, After, AllInOrder;
    if n == 0 {
      NothingInOrder(now);
    } else {
      RunInOrder(events, n - 1, events[n - 1].timestamp);
      AfterInOrder(Run(events, n - 1).value, events[n - 1]);
      LaterNow(Run(events, n).value, events[n - 1].timestamp, now);
    }
  }

  lemma NothingInOrder(now: nat)
    ensures AllInOrder(NO_MAPS, now)
  {}

  lemma MapsStay(s: Tables, e: Event)
    requires TablesOk(s) && !Stops(s, e)
    ensures |s.maps| <= |After(s, e).maps|
  {
    hide MapOk;
  }

  lemma {:induction false} MoreMaps(events: seq<Event>, n: nat, j: nat)
    requires n <= j <= |events| && Run(events, j).Some?
    ensures Run(events, n).Some? && |Run(events, n).value.maps| <= |Run(events, j).value.maps|
    decreases j
  {
    hide TablesOk, Stops, After;
    if n < j {
      MoreMaps(events, n, j - 1);
      MapsStay(Run(events, j - 1).value, events[j - 1]);
    }
  }

  /** Events after a time do not change what the changes up to it sum to. */
  lemma {:induction false} LaterEvents(events: seq<Event>, n: nat, j: nat, m: nat, t: nat, k: Kind)
    requires n <= j <= |events| && Run(events, j).Some? && m < |Run(events, j).value.maps|
    requires forall i :: n <= i < j ==> t < events[i].timestamp
    ensures Run(events, n).Some? && SumOf(Run(events, j).value, m, t, k) == SumOf(Run(events, n).value, m, t, k)
    decreases j
  {
    hide TablesOk, Stops, After, SumUpTo;
    MoreMaps(events, n, j);
    if n < j {
      var s := Run(events, j - 1).value;
      ChangesOfMaps(s);
      ChangesOfMaps(Run(events, j).value);
      LaterEvent(s, events[j - 1], m, t, k);
      if m < |s.maps| {
        LaterEvents(events, n, j - 1, m, t, k);
      } else {
        MoreMaps(events, n, j - 1);
        ChangesOfMaps(Run(events, n).value);
      }
    }
  }

  lemma ChangesOfMaps(s: Tables)
    requires TablesOk(s)
    ensures Indexed(s)
  {}

  /** What is in use by a map; nothing, if there is no such map yet. */
  ghost function UseOf(s: Tables, m: nat, k: Kind): int {
    if m < |s.maps| then InUse(s.maps[m], m, m in s.bare, s.last, k) else 0
  }

  lemma SumIsUse(s: Tables, m: nat, now: nat, k: Kind)
    requires TablesOk(s) && AllInOrder(s, now)
    ensures SumOf(s, m, now, k) == UseOf(s, m, k)
  {
    if m < |s.maps| {
      assert MapOk(s.maps[m], m, m in s.bare, s.last, s.changes[m]) && InOrder(s.changes[m], now);
      hide NeverNegative, UsagesOk, InOrder, Total, InUse, SumUpTo;
      assert Total(s.changes[m], |s.changes[m]|, k) == InUse(s.maps[m], m, m in s.bare, s.last, k);
      var n := SumIsTotal(s.changes[m], |s.changes[m]|, now, now, k);
    }
  }

  /**
   For events in order of time, the changes of a map up to any time sum to what was in use by it after the last
   event up to then; `n` is how many events there were.
   */
  lemma SumsAreUse(events: seq<Event>, n: nat, m: nat, t: nat, k: Kind)
    requires n <= |events| && EventsInOrder(events) && Run(events, |events|).Some?
    requires UpTo(events, n, t) && forall i :: n <= i < |events| ==> t < events[i].timestamp
    requires m < |Run(events, |events|).value.maps|
    ensures Run(events, n).Some? && SumOf(Run(events, |events|).value, m, t, k) == UseOf(Run(events, n).value, m, k)
  {
    hide TablesOk, AllInOrder, UseOf, SumOf, EventsInOrder;
    MoreMaps(events, n, |events|);
    LaterEvents(events, n, |events|, m, t, k);
    RunInOrder(events, n, t);
    SumIsUse(Run(events, n).value, m, t, k);
  }

  /** If events are in order of time no level goes below zero. */
  lemma RunNotNegative(events: seq<Event>, m: nat, now: nat)
    requires EventsInOrder(events) && Run(events, |events|).Some? && UpTo(events, |events|, now)
    requires m < |Run(events, |events|).value.maps|
    ensures SumsNotNegative(Run(events, |events|).value.changes[m])
  {
    var s := Run(events, |events|).value;
    RunInOrder(events, |events|, now);
    assert MapOk(s.maps[m], m, m in s.bare, s.last, s.changes[m]) && InOrder(s.changes[m], now);
    InOrderNotNegative(s.changes[m], now);
  }

  /** A region removed, by its time, before it was added takes a level below zero. */
  lemma RemovedBeforeAdded(address: nat, length: nat, t: nat)
    requires length > 0 && t > 0
    ensures var events := [AddRegion(0, t, address, length, 0), RemoveRegion(0, t - 1, address, length)];
      && Run(events, 2).Some? && |Run(events, 2).value.maps| == 1
      && !SumsNotNegative(Run(events, 2).value.changes[0])
  {
    var add, remove := AddRegion(0, t, address, length, 0), RemoveRegion(0, t - 1, address, length);
    var events := [add, remove];
    assert Run(events, 0) == Some(NO_MAPS);
    var s := After(NO_MAPS, add);
    assert Run(events, 1) == Some(s);
    assert Target(s, remove) == Some((0, 0));
    var s' := After(s, remove);
    assert Run(events, 2) == Some(s');
    var changes := s'.changes[0];
    assert changes == [Stamped(t, Space(length)), changes[1]] && changes[1].timestamp == t - 1;
    assert SumUpTo(changes, 0, t - 1, AddressSpace) == 0;
    assert SumUpTo(changes, 1, t - 1, AddressSpace) == 0;
    assert SumUpTo(changes, 2, t - 1, AddressSpace) == 0 - length;
  }

  // ----- The loader

  method FindRegion(regions: seq<Region>, address: nat, length: Option<nat>) returns (r: Option<nat>)
    ensures r == Latest(regions, address, length, |regions|)
  {
    for i := |regions| downto 0
      invariant Latest(regions, address, length, |regions|) == Latest(regions, address, length, i)
    {
      if Hit(regions[i], address, length) {
        return Some(i);
      }
    }
    return None;
  }

  class RegionLoader {
    var maps: seq<Map>
    var mapIndex: map<nat, nat>
    var changesOfMap: seq<seq<Stamped>>
    var lastUsage: map<Place, Usage>
    var freshlyMapped: set<nat>

    ghost function View(): Tables
      reads this
    {
      Tables(maps, mapIndex, changesOfMap, lastUsage, freshlyMapped)
    }

    ghost predicate Valid()
      reads this
    {
      TablesOk(View())
    }

    constructor ()
      ensures Valid() && View() == NO_MAPS
    {
      maps, mapIndex, changesOfMap, lastUsage, freshlyMapped := [], map[], [], map[], {};
    }

    method OnMemoryMap(e: Event)
      requires Valid() && e.MemoryMap?
      modifies this
      ensures Valid() && View() == Mapped(old(View()), e)
    {
      hide MapOk;
      MappedOk(View(), e);
      var id := |maps|;
      mapIndex := mapIndex[e.mapId := id];
      maps := maps + [Map(e.timestamp, e.address, e.length, e.flags, [])];
      freshlyMapped := freshlyMapped + {id};
      changesOfMap := changesOfMap + [[Stamped(e.timestamp, Space(e.length))]];
    }

    /** A new region, of a map that is known or of one that was never seen mapped. */
    method OnAddRegion(e: Event) returns (stopped: bool)
      requires Valid() && e.AddRegion?
      modifies this
      ensures stopped <==> Stops(old(View()), e)
      ensures !stopped ==> Valid() && View() == Added(old(View()), e)
    {
      hide TablesOk, Space;
      ChangesOfMaps(View());
      AddedKeepsOk(View(), e);
      var timestamp, id := e.timestamp, |maps|;
      if e.mapId in mapIndex {
        id := mapIndex[e.mapId];
        if id in freshlyMapped {
          freshlyMapped := freshlyMapped - {id};
          var a := maps[id];
          if a.pointer == e.address && a.size == e.length && a.flags == e.flags {
            if timestamp < a.timestamp {
              return true;
            }
            timestamp := a.timestamp;
          }
          changesOfMap := changesOfMap[id := changesOfMap[id] + [Stamped(timestamp, Space(0 - a.size))]];
        }
      } else {
        mapIndex := mapIndex[e.mapId := id];
        maps := maps + [Map(timestamp, e.address, e.length, e.flags, [])];
        changesOfMap := changesOfMap + [[]];
      }
      var region, change := Region(e.address, e.length, None), Stamped(timestamp, Space(e.length));
      lastUsage := lastUsage[(id, |maps[id].regions|) := Space(e.length)];
      maps := maps[id := maps[id].(regions := maps[id].regions + [region])];
      changesOfMap := changesOfMap[id := changesOfMap[id] + [change]];
      assert [] + [region] == [region] && [] + [change] == [change];
      assert View() == Added(old(View()), e);
      return false;
    }

    /** The end of a region; one that is not found is ignored. */
    method OnRemoveRegion(e: Event) returns (stopped: bool)
      requires Valid() && e.RemoveRegion?
      modifies this
      ensures stopped <==> Stops(old(View()), e)
      ensures !stopped ==> Valid() && View() == Removed(old(View()), e)
    {
      hide TablesOk, Subtract;
      ChangesOfMaps(View());
      if !Stops(View(), e) {
        RemovedKeepsOk(View(), e);
      }
      if e.mapId !in mapIndex {
        return false;
      }
      var id := mapIndex[e.mapId];
      var found := FindRegion(maps[id].regions, e.address, Some(e.length));
      if found.None? {
        return false;
      }
      var i := found.value;
      var region := maps[id].regions[i];
      maps := maps[id := maps[id].(regions := maps[id].regions[i := region.(removed := Some(e.timestamp))])];
      if (id, i) !in lastUsage {
        return true;
      }
      var change := Subtract(Nothing(), lastUsage[(id, i)]).(addressSpace := 0 - region.size);
      lastUsage := lastUsage - {(id, i)};
      changesOfMap := changesOfMap[id := changesOfMap[id] + [Stamped(e.timestamp, change)]];
      return false;
    }

    /** A new usage of a region; one that is not found, or has another size, is ignored. */
    method OnUpdateRegionUsage(e: Event) returns (stopped: bool)
      requires Valid() && e.UpdateRegionUsage?
      modifies this
      ensures stopped <==> Stops(old(View()), e)
      ensures !stopped ==> Valid() && View() == Updated(old(View()), e)
    {
      hide TablesOk, Subtract, Reported;
      ChangesOfMaps(View());
      if !Stops(View(), e) {
        UpdatedKeepsOk(View(), e);
      }
      if e.mapId !in mapIndex {
        return false;
      }
      var id := mapIndex[e.mapId];
      var found := FindRegion(maps[id].regions, e.address, None);
      if found.None? || maps[id].regions[found.value].size != e.length {
        return false;
      }
      var i := found.value;
      var usage := Reported(maps[id].regions[i].size, e.report);
      if (id, i) !in lastUsage {
        return true;
      }
      var change := Subtract(usage, lastUsage[(id, i)]).(addressSpace := 0);
      changesOfMap := changesOfMap[id := changesOfMap[id] + [Stamped(e.timestamp, change)]];
      lastUsage := lastUsage[(id, i) := usage];
      return false;
    }

    method Process(e: Event) returns (stopped: bool)
      requires Valid()
      modifies this
      ensures stopped <==> Stops(old(View()), e)
      ensures !stopped ==> Valid() && View() == After(old(View()), e)
    {
      hide MapOk, Mapped, Added, Removed, Updated;
      stopped := false;
      match e {
        case MemoryMap(_, _, _, _, _) => OnMemoryMap(e);
        case AddRegion(_, _, _, _, _) => stopped := OnAddRegion(e);
        case RemoveRegion(_, _, _, _) => stopped := OnRemoveRegion(e);
        case UpdateRegionUsage(_, _, _, _, _) => stopped := OnUpdateRegionUsage(e);
      }
    }
  }

  /** The history of a map from its changes: at any time its level is their sum. */
  ghost predicate HistoryOf(changes: seq<Stamped>, history: seq<Stamped>) {
    && StrictlyOrdered(history) && (NoneNegative(history) <==> SumsNotNegative(changes))
    && forall t: nat, k: Kind :: LevelAt(history, |history|, t, k) == SumUpTo(changes, |changes|, t, k)
  }

  ghost predicate HistoriesOf(s: Tables, histories: seq<seq<Stamped>>, n: nat) {
    |histories| == n <= |s.changes| && forall m :: 0 <= m < n ==> HistoryOf(s.changes[m], histories[m])
  }

  /** How many events there are up to a time. */
  ghost predicate LastUpTo(events: seq<Event>, n: nat, t: nat) {
    n <= |events| && UpTo(events, n, t) && forall i :: n <= i < |events| ==> t < events[i].timestamp
  }

  /** At a time after `n` events the level of a map is what was in use by it after them. */
  ghost predicate LevelIsUse(events: seq<Event>, m: nat, history: seq<Stamped>, n: nat, t: nat, k: Kind)
    requires n <= |events|
  {
    Run(events, n).Some? && LevelAt(history, |history|, t, k) == UseOf(Run(events, n).value, m, k)
  }

  /** At any time the level of every map is what was in use by it after the last event up to then. */
  ghost predicate LevelsAreUse(events: seq<Event>, histories: seq<seq<Stamped>>) {
    forall m: nat, n: nat, t: nat, k: Kind :: m < |histories| && LastUpTo(events, n, t) ==>
      LevelIsUse(events, m, histories[m], n, t, k)
  }

  lemma HistoriesAreUse(events: seq<Event>, histories: seq<seq<Stamped>>)
    requires Run(events, |events|).Some? && EventsInOrder(events)
    requires HistoriesOf(Run(events, |events|).value, histories, |Run(events, |events|).value.maps|)
    ensures LevelsAreUse(events, histories)
  {
    hide TablesOk, LevelAt, SumUpTo, UseOf, UpTo, EventsInOrder, Run, SumsNotNegative, NoneNegative, StrictlyOrdered;
    var s := Run(events, |events|).value;
    forall m: nat, n: nat, t: nat, k: Kind | m < |histories| && LastUpTo(events, n, t)
      ensures LevelIsUse(events, m, histories[m], n, t, k)
    {
      SumsAreUse(events, n, m, t, k);
      assert HistoryOf(s.changes[m], histories[m]);
    }
  }

  lemma {:induction false} LatestTime(events: seq<Event>, n: nat) returns (now: nat)
    requires n <= |events|
    ensures UpTo(events, n, now)
  {
    now := 0;
    if n > 0 {
      now := LatestTime(events, n - 1);
      now := Max(now, events[n - 1].timestamp);
    }
  }

  /**
   Loads the events of all maps and makes their histories. It stops exactly if an event does; for events in order
   of time no level is ever below zero, and at any time it is what was in use by the map after the last event.
   */
  method LoadMaps(events: seq<Event>) returns (r: Option<seq<seq<Stamped>>>)
    ensures r.None? <==> Run(events, |events|).None?
    ensures r.Some? ==>
      HistoriesOf(Run(events, |events|).value, r.value, |Run(events, |events|).value.maps|)
    ensures r.Some? && EventsInOrder(events) ==>
      LevelsAreUse(events, r.value) && forall m :: 0 <= m < |r.value| ==> NoneNegative(r.value[m])
  {
    hide TablesOk, Stops, After, NoneNegative, LevelsAreUse, EventsInOrder, HistoryOf;
    var loader := new RegionLoader();
    for n := 0 to |events|
      invariant loader.Valid() && Run(events, n) == Some(loader.View())
    {
      var stopped := loader.Process(events[n]);
      if stopped {
        StoppedBefore(events, n + 1, |events|);
        return None;
      }
    }
    ChangesOfMaps(loader.View());
    var histories := MakeHistories(loader);
    if EventsInOrder(events) {
      HistoriesAreUse(events, histories);
      ghost var now := LatestTime(events, |events|);
      forall m | 0 <= m < |histories| ensures NoneNegative(histories[m]) {
        RunNotNegative(events, m, now);
        HistoryNotNegative(loader.changesOfMap[m], histories[m]);
      }
    }
    r := Some(histories);
  }

  lemma HistoryNotNegative(changes: seq<Stamped>, history: seq<Stamped>)
    requires HistoryOf(changes, history) && SumsNotNegative(changes)
    ensures NoneNegative(history)
  {}

  lemma {:induction false} StoppedBefore(events: seq<Event>, n: nat, j: nat)
    requires n <= j <= |events| && Run(events, n).None?
    ensures Run(events, j).None?
    decreases j
  {
    hide TablesOk, Stops, After;
    if n < j {
      StoppedBefore(events, n, j - 1);
    }
  }

  method MakeHistories(loader: RegionLoader) returns (histories: seq<seq<Stamped>>)
    requires loader.Valid()
    ensures HistoriesOf(loader.View(), histories, |loader.maps|)
  {
    hide MapOk, HistoryOf;
    histories := [];
    for m := 0 to |loader.maps|
      invariant HistoriesOf(loader.View(), histories, m)
    {
      SomeChange(loader.View(), m);
      var history := MakeHistory(loader.changesOfMap[m]);
      histories := histories + [history];
    }
  }

  lemma SomeChange(s: Tables, m: nat)
    requires TablesOk(s) && m < |s.maps|
    ensures s.changes[m] != []
  {
    assert MapOk(s.maps[m], m, m in s.bare, s.last, s.changes[m]);
  }

  method MakeHistory(changes: seq<Stamped>) returns (history: seq<Stamped>)
    requires changes != []
    ensures HistoryOf(changes, history)
  {
    hide SumUpTo, LevelAt, StrictlyOrdered, NoneNegative, SumsNotNegative;
    var peak;
    ghost var merged;
    history, peak, merged := UsageHistory(changes);
  }
}
