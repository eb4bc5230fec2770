/** What each event about memory maps does to the memory in use by them, kind by kind. */
module RegionUse {
  import opened Basics
  import opened MapUsage
  import opened Regions

  /** The region that an event about an address finds: the latest one there. */
  ghost predicate Finds(s: Tables, e: Event, m: nat, i: nat) {
    && (e.RemoveRegion? || e.UpdateRegionUsage?) && e.mapId in s.index && m == s.index[e.mapId] < |s.maps|
    && i < |s.maps[m].regions| && s.maps[m].regions[i].pointer == e.address && s.maps[m].regions[i].size == e.length
    && forall j :: i < j < |s.maps[m].regions| ==>
      s.maps[m].regions[j].pointer != e.address || (e.RemoveRegion? && s.maps[m].regions[j].size != e.length)
  }

  lemma FoundTarget(s: Tables, e: Event, m: nat, i: nat)
    requires Indexed(s) && Finds(s, e, m, i)
    ensures Target(s, e) == Some((m, i))
  {
    var regions, length := s.maps[m].regions, if e.RemoveRegion? then Some(e.length) else None;
    assert Hit(regions[i], e.address, length);
  }

  /** What a report says of a region: kilobytes are in bytes, and the address space is the size of the region. */
  function InReport(size: nat, r: Report, k: Kind): int {
    match k
    case AddressSpace => size
    case Anonymous => 1024 * r.anonymous
    case SharedClean => 1024 * r.sharedClean
    case SharedDirty => 1024 * r.sharedDirty
    case PrivateClean => 1024 * r.privateClean
    case PrivateDirty => 1024 * r.privateDirty
    case Swap => 1024 * r.swap
  }

  /** A region without a report has only its address space. */
  function InSpace(size: nat, k: Kind): int { if k.AddressSpace? then size else 0 }

  /** Only one map's usage may have changed. */
  lemma OthersUnchanged(s: Tables, s': Tables, m: nat, n: nat, k: Kind)
    requires n < |s.maps| <= |s'.maps| && n != m && s'.maps[n] == s.maps[n] && (n in s'.bare <==> n in s.bare)
    requires forall p :: p in s.last && p.0 != m ==> p in s'.last && s'.last[p] == s.last[p]
    requires forall p :: p in s'.last && p.0 != m ==> p in s.last
    ensures UseOf(s', n, k) == UseOf(s, n, k)
  {
    SameRegions(s.last, s'.last, n, |s.maps[n].regions|, k);
  }

  /** A report replaces what was last known of the region it finds. */
  lemma ReportedUse(s: Tables, e: Event, m: nat, i: nat, n: nat, k: Kind)
    requires TablesOk(s) && e.UpdateRegionUsage? && Finds(s, e, m, i) && !Stops(s, e) && n < |s.maps|
    ensures (m, i) in s.last && (m, i) in After(s, e).last
    ensures Of(After(s, e).last[(m, i)], k) == InReport(e.length, e.report, k)
    ensures UseOf(After(s, e), n, k) ==
      UseOf(s, n, k) + if n == m then InReport(e.length, e.report, k) - Of(s.last[(m, i)], k) else 0
  {
    FoundTarget(s, e, m, i);
    NotBare(s, m);
    var u := After(s, e).last[(m, i)];
    hide TablesOk, Target, InRegions;
    PutUsage(s.last, m, i, u, |s.maps[m].regions|, k);
    if n != m {
      OthersUnchanged(s, After(s, e), m, n, k);
    }
  }

  /** The removal of a region takes away what was last known of it. */
  lemma RemovedUse(s: Tables, e: Event, m: nat, i: nat, n: nat, k: Kind)
    requires TablesOk(s) && e.RemoveRegion? && Finds(s, e, m, i) && !Stops(s, e) && n < |s.maps|
    ensures (m, i) in s.last && (m, i) !in After(s, e).last
    ensures After(s, e).maps[m].regions[i] == s.maps[m].regions[i].(removed := Some(e.timestamp))
    ensures UseOf(After(s, e), n, k) == UseOf(s, n, k) - if n == m then Of(s.last[(m, i)], k) else 0
  {
    FoundTarget(s, e, m, i);
    NotBare(s, m);
    hide TablesOk, Target, InRegions;
    DropUsage(s.last, m, i, |s.maps[m].regions|, k);
    if n != m {
      OthersUnchanged(s, After(s, e), m, n, k);
    }
  }

  /** An event that finds no region changes nothing. */
  lemma NotFound(s: Tables, e: Event)
    requires TablesOk(s) && (e.RemoveRegion? || e.UpdateRegionUsage?) && forall m, i :: !Finds(s, e, m, i)
    ensures !Stops(s, e) && After(s, e) == s
  {
    if Target(s, e).Some? {
      var (m, i) := Target(s, e).value;
      assert Finds(s, e, m, i);
    }
  }

  /** A new map is in use as a whole. */
  lemma MappedUse(s: Tables, e: Event, n: nat, k: Kind)
    requires TablesOk(s) && e.MemoryMap? && n <= |s.maps|
    ensures UseOf(After(s, e), n, k) == if n == |s.maps| then InSpace(e.length, k) else UseOf(s, n, k)
  {
    hide TablesOk;
    ChangesOfMaps(s);
    if n < |s.maps| {
      OthersUnchanged(s, After(s, e), |s.maps|, n, k);
    }
  }

  /** A new region adds its address space; the first one replaces the map as a whole. */
  lemma AddedUse(s: Tables, e: Event, n: nat, k: Kind)
    requires TablesOk(s) && e.AddRegion? && !Stops(s, e) && n <= |s.maps|
    ensures var m := if e.mapId in s.index then s.index[e.mapId] else |s.maps|;
      UseOf(After(s, e), n, k) ==
        if n == m then InSpace(e.length, k) + (if m in s.bare then 0 else UseOf(s, m, k)) else UseOf(s, n, k)
  {
    var m := if e.mapId in s.index then s.index[e.mapId] else |s.maps|;
    var i := if m < |s.maps| then |s.maps[m].regions| else 0;
    if m < |s.maps| {
      assert MapOk(s.maps[m], m, m in s.bare, s.last, s.changes[m]);
    }
    assert (m, i) !in s.last;
    hide TablesOk, MapOk, InRegions;
    PutUsage(s.last, m, i, Space(e.length), i, k);
    OneMore(s.last[(m, i) := Space(e.length)], m, i, k);
    if n != m && n < |s.maps| {
      OthersUnchanged(s, After(s, e), m, n, k);
    }
  }

  lemma OneMore(last: map<Place, Usage>, m: nat, n: nat, k: Kind)
    ensures InRegions(last, m, n + 1, k) == InRegions(last, m, n, k) + if (m, n) in last then Of(last[(m, n)], k) else 0
  {}
}
