/**
 The range map: a linked list of entries in address order, and an ordered index from the end of
 each range to its node.
 */
module RangeMaps {
  import opened Basics
  import opened Links
  import opened LinkedHashMaps
  import opened RangeSpec

  /** The index by range end and the live entries are the same set of ranges. */
  ghost predicate Agree<V>(byEnd: map<nat, Index>, entries: map<Index, RangeEntry<V>>) {
    && (forall end :: end in byEnd ==> byEnd[end] in entries && entries[byEnd[end]].key.end == end)
    && (forall x :: x in entries ==> entries[x].key.end in byEnd && byEnd[entries[x].key.end] == x)
  }

  lemma AgreeAdd<V>(byEnd: map<nat, Index>, entries: map<Index, RangeEntry<V>>, x: Index, e: RangeEntry<V>)
    requires Agree(byEnd, entries) && x !in entries && e.key.end !in byEnd
    ensures Agree(byEnd[e.key.end := x], entries[x := e])
  {}

  lemma AgreeDrop<V>(byEnd: map<nat, Index>, entries: map<Index, RangeEntry<V>>, x: Index)
    requires Agree(byEnd, entries) && x in entries
    ensures Agree(byEnd - {entries[x].key.end}, entries - {x})
  {}

  lemma AgreeMove<V>(byEnd: map<nat, Index>, entries: map<Index, RangeEntry<V>>, x: Index, e: RangeEntry<V>)
    requires Agree(byEnd, entries) && x in entries && (e.key.end !in byEnd || e.key.end == entries[x].key.end)
    ensures Agree((byEnd - {entries[x].key.end})[e.key.end := x], entries[x := e])
  {}

  /** The least key at or above `from`, as an ordered map finds it. */
  method FirstKeyFrom(m: map<nat, Index>, from: nat) returns (r: Option<nat>)
    ensures r.None? ==> forall k :: k in m ==> k < from
    ensures r.Some? ==> r.value in m && from <= r.value && forall k :: k in m && from <= k ==> r.value <= k
  {
    r := None;
    var keys := m.Keys;
    ghost var seen: set<nat> := {};
    while keys != {}
      invariant keys + seen == m.Keys
      invariant r.None? ==> forall k :: k in seen ==> k < from
      invariant r.Some? ==> r.value in m && from <= r.value && forall k :: k in seen && from <= k ==> r.value <= k
      decreases keys
    {
      var k :| k in keys;
      if from <= k && (r.None? || k < r.value) {
        r := Some(k);
      }
      keys, seen := keys - {k}, seen + {k};
    }
  }

  class RangeMap<V> {
    var byEnd: map<nat, Index>
    const data: LinkedHashMap<Range, V>

    /** The two views agree. */
    ghost predicate Consistent()
      reads this, data
    {
      data.Valid() && Agree(byEnd, data.EntryMap())
    }

    ghost predicate Valid()
      reads this, data
    {
      Consistent() && Sorted(Contents())
    }

    ghost function Contents(): (es: seq<RangeEntry<V>>)
      reads this, data
      requires Consistent()
      ensures |es| == |data.order|
    {
      data.Contents()
    }

    /** The node at a position. */
    lemma At(p: nat)
      requires Consistent() && p < |data.order|
      ensures data.order[p] in data.nodes && data.nodes[data.order[p]].payload == Contents()[p]
      ensures data.nodes[data.order[p]].next == AtPosition(data.order, p + 1)
    {
      data.At(p);
    }

    /** Every entry is in the index under its end, and what is in the index is an entry. */
    lemma IndexedEnds()
      requires Consistent()
      ensures forall i :: 0 <= i < |data.order| ==> Contents()[i].key.end in byEnd
      ensures forall end :: end in byEnd ==>
        exists i :: 0 <= i < |data.order| && data.order[i] == byEnd[end] && Contents()[i].key.end == end
    {
      forall i | 0 <= i < |data.order| ensures Contents()[i].key.end in byEnd {
        data.At(i);
      }
      forall end | end in byEnd
        ensures exists i :: 0 <= i < |data.order| && data.order[i] == byEnd[end] && Contents()[i].key.end == end
      {
        var i := data.Found(byEnd[end]);
        data.At(i);
      }
    }

    constructor ()
      ensures Valid() && fresh(data) && Contents() == [] && data.counter == 0
    {
      byEnd := map[];
      data := new LinkedHashMap();
    }

    lemma EndNotIndexed(end: nat, except: int)
      requires Consistent() && EndFree(Contents(), end, except)
      ensures end in byEnd ==> 0 <= except < |Contents()| && byEnd[end] == data.order[except]
    {
      if end in byEnd {
        var x := byEnd[end];
        assert x in data.EntryMap();
        assert x in data.order;
        var i := Position(data.order, x);
        assert Contents()[i] == data.EntryMap()[x];
      }
    }

    /** Adds an entry at the end of the list. */
    method AddBack(range: Range, value: V) returns (added: Index)
      requires Consistent() && data.counter + 1 < TWO_32
      requires EndFree(Contents(), range.end, -1)
      modifies this, data
      ensures Consistent() && data.counter == old(data.counter) + 1
      ensures data.order == Spliced(old(data.order), |old(data.order)|, added)
      ensures Contents() == Spliced(old(Contents()), |old(data.order)|, Entry(range, value))
    {
      EndNotIndexed(range.end, -1);
      ghost var entries := data.EntryMap();
      added := data.InsertBack(range, value);
      AgreeAdd(byEnd, entries, added, Entry(range, value));
      byEnd := byEnd[range.end := added];
    }

    /** Adds an entry at the front of the list. */
    method AddFront(range: Range, value: V) returns (added: Index)
      requires Consistent() && data.counter + 1 < TWO_32
      requires EndFree(Contents(), range.end, -1)
      modifies this, data
      ensures Consistent() && data.counter == old(data.counter) + 1
      ensures data.order == Spliced(old(data.order), 0, added)
      ensures Contents() == Spliced(old(Contents()), 0, Entry(range, value))
    {
      EndNotIndexed(range.end, -1);
      ghost var entries := data.EntryMap();
      added := data.InsertFront(range, value);
      AgreeAdd(byEnd, entries, added, Entry(range, value));
      byEnd := byEnd[range.end := added];
    }

    /** Adds an entry before position `p`. */
    method AddBefore(index: Index, range: Range, value: V, ghost p: nat) returns (added: Index)
      requires Consistent() && data.counter + 1 < TWO_32
      requires p < |data.order| && data.order[p] == index && EndFree(Contents(), range.end, -1)
      modifies this, data
      ensures Consistent() && data.counter == old(data.counter) + 1
      ensures data.order == Spliced(old(data.order), p, added)
      ensures Contents() == Spliced(old(Contents()), p, Entry(range, value))
    {
      EndNotIndexed(range.end, -1);
      ghost var entries := data.EntryMap();
      added := data.InsertBefore(index, range, value, p);
      AgreeAdd(byEnd, entries, added, Entry(range, value));
      byEnd := byEnd[range.end := added];
    }

    /** Adds an entry after position `p`. */
    method AddAfter(index: Index, range: Range, value: V, ghost p: nat) returns (added: Index)
      requires Consistent() && data.counter + 1 < TWO_32
      requires p < |data.order| && data.order[p] == index && EndFree(Contents(), range.end, -1)
      modifies this, data
      ensures Consistent() && data.counter == old(data.counter) + 1
      ensures data.order == Spliced(old(data.order), p + 1, added)
      ensures Contents() == Spliced(old(Contents()), p + 1, Entry(range, value))
    {
      EndNotIndexed(range.end, -1);
      ghost var entries := data.EntryMap();
      added := data.InsertAfter(index, range, value, p);
      AgreeAdd(byEnd, entries, added, Entry(range, value));
      byEnd := byEnd[range.end := added];
    }

    /** Removes the entry at position `p`; yields it and the index of the next one. */
    method DropAt(index: Index, ghost p: nat) returns (next: Option<Index>, entry: RangeEntry<V>)
      requires Consistent() && p < |data.order| && data.order[p] == index
      modifies this, data
      ensures Consistent() && data.counter == old(data.counter)
      ensures entry == old(Contents())[p] && next == AtPosition(data.order, p)
      ensures data.order == Cut(old(data.order), p) && Contents() == Cut(old(Contents()), p)
    {
      hide LinkedHashMap.Valid, LinkedHashMap.Contents, LinkedHashMap.EntryMap, Agree, Cut;
      data.At(p);
      CutLength(data.order, p);
      AgreeDrop(byEnd, data.EntryMap(), index);
      var end := data.nodes[index].payload.key.end;
      next, entry := data.RemoveAndGetNextIndex(index, p);
      byEnd := byEnd - {end};
    }

    /** Gives the entry at position `p` another range and value, and moves its key in the index. */
    method Reshape(index: Index, range: Range, value: V, ghost p: nat)
      requires Consistent() && p < |data.order| && data.order[p] == index && EndFree(Contents(), range.end, p)
      modifies this, data
      ensures Consistent() && data.counter == old(data.counter) && data.order == old(data.order)
      ensures Contents() == old(Contents())[p := Entry(range, value)]
    {
      hide LinkedHashMap.Valid, LinkedHashMap.Contents, LinkedHashMap.EntryMap;
      data.At(p);
      EndNotIndexed(range.end, p);
      AgreeMove(byEnd, data.EntryMap(), index, Entry(range, value));
      var end := data.nodes[index].payload.key.end;
      data.SetEntry(index, Entry(range, value), p);
      byEnd := (byEnd - {end})[range.end := index];
    }

    /** Finds the first entry that ends above `start`; `q` is its position. */
    method FindStartingIndex(start: nat) returns (r: Option<Index>, ghost q: nat)
      requires Valid()
      ensures q <= |data.order| && r == AtPosition(data.order, q)
      ensures forall i :: 0 <= i < q ==> Contents()[i].key.end <= start
      ensures q < |data.order| ==> start < Contents()[q].key.end
    {
      ghost var es := Contents();
      var key := FirstKeyFrom(byEnd, start + 1);
      match key {
        case None =>
          r, q := None, |data.order|;
          forall i | 0 <= i < q ensures es[i].key.end <= start {
            assert es[i] == data.EntryMap()[data.order[i]];
          }
        case Some(end) =>
          r := Some(byEnd[end]);
          assert byEnd[end] in data.EntryMap();
          assert byEnd[end] in data.order;
          q := Position(data.order, byEnd[end]);
          assert es[q] == data.EntryMap()[data.order[q]];
          forall i | 0 <= i < q ensures es[i].key.end <= start {
            assert es[i] == data.EntryMap()[data.order[i]];
            assert es[i].key.end <= es[q].key.start;
          }
      }
    }

    /** The new range lies inside the old one, which is chopped into two pieces. */
    method InsertInside(index: Index, range: Range, value: V, ghost es: seq<RangeEntry<V>>, ghost p: nat, ghost q: nat)
      requires Consistent() && Midway(Contents(), es, p, q, range.start, range.end)
      requires p < |data.order| && index == data.order[p]
      requires q < |es| && es[q].key.start < range.start && range.end < es[q].key.end
      requires data.counter + 2 < TWO_32
      modifies this, data
      ensures Consistent() && Contents() == Inserted(es, range, value)
      ensures data.counter == old(data.counter) + 2
    {
      InsertSplitting(Contents(), es, p, q, range, value);
      MidwayEnds(Contents(), es, p, q, range.start, range.end);
      var was := data.nodes[index].payload;
      assert was == Contents()[p];
      Reshape(index, Range(was.key.start, range.start), was.value, p);
      var added := AddAfter(index, range, value, p);
      var _ := AddAfter(added, Range(range.end, was.key.end), was.value, p + 1);
    }

    /** The new range covers the start of the old one, which is chopped at the start. */
    method InsertBeforeRest(index: Index, range: Range, value: V, ghost es: seq<RangeEntry<V>>, ghost p: nat,
        ghost q: nat)
      requires Consistent() && Midway(Contents(), es, p, q, range.start, range.end)
      requires p < |data.order| && index == data.order[p]
      requires q < |es| && range.start <= es[q].key.start < range.end < es[q].key.end
      requires data.counter + 1 < TWO_32
      modifies this, data
      ensures Consistent() && Contents() == Inserted(es, range, value)
      ensures data.counter == old(data.counter) + 1
    {
      InsertOverStart(Contents(), es, p, q, range, value);
      MidwayEnds(Contents(), es, p, q, range.start, range.end);
      var was := data.nodes[index].payload;
      assert was == Contents()[p];
      Reshape(index, Range(range.end, was.key.end), was.value, p);
      var _ := AddBefore(index, range, value, p);
    }

    /** The new range covers the end of the old one exactly, which is chopped at the end. */
    method InsertAfterRest(index: Index, range: Range, value: V, ghost es: seq<RangeEntry<V>>, ghost p: nat,
        ghost q: nat)
      requires Consistent() && Midway(Contents(), es, p, q, range.start, range.end)
      requires p < |data.order| && index == data.order[p]
      requires q < |es| && es[q].key.start < range.start && range.end == es[q].key.end
      requires data.counter + 1 < TWO_32
      modifies this, data
      ensures Consistent() && Contents() == Inserted(es, range, value)
      ensures data.counter == old(data.counter) + 1
    {
      InsertOverEnd(Contents(), es, p, q, range, value);
      MidwayEnds(Contents(), es, p, q, range.start, range.end);
      var was := data.nodes[index].payload;
      assert was == Contents()[p];
      Reshape(index, Range(was.key.start, range.start), was.value, p);
      var _ := AddAfter(index, range, value, p);
    }

    /** The old range is covered and ends before the new one: it goes, and the scan goes on. */
    method DropPassed(index: Index, range: Range, ghost es: seq<RangeEntry<V>>, ghost p: nat, ghost q: nat)
      returns (next: Option<Index>)
      requires Consistent() && Midway(Contents(), es, p, q, range.start, range.end)
      requires p < |data.order| && index == data.order[p]
      requires q < |es| && range.start <= es[q].key.start && es[q].key.end < range.end
      modifies this, data
      ensures Consistent() && Midway(Contents(), es, p, q + 1, range.start, range.end)
      ensures next == AtPosition(data.order, p) && data.counter == old(data.counter)
    {
      ghost var now := Cut(Contents(), p);
      DropCovered(Contents(), es, p, q, range.start, range.end);
      var entry;
      next, entry := DropAt(index, p);
      assert Contents() == now;
    }

    /** The new range starts inside the old one and goes beyond it: the old one is chopped at the end. */
    method ChopPassed(index: Index, range: Range, ghost es: seq<RangeEntry<V>>, ghost p: nat, ghost q: nat)
      returns (next: Option<Index>)
      requires Consistent() && Midway(Contents(), es, p, q, range.start, range.end)
      requires p < |data.order| && index == data.order[p]
      requires q < |es| && es[q].key.start < range.start && es[q].key.end < range.end
      modifies this, data
      ensures Consistent() && Midway(Contents(), es, p + 1, q + 1, range.start, range.end)
      ensures next == AtPosition(data.order, p + 1) && data.counter == old(data.counter)
    {
      MidwayEnds(Contents(), es, p, q, range.start, range.end);
      ChopEnd(Contents(), es, p, q, range.start, range.end);
      var was := data.nodes[index].payload;
      assert was == Contents()[p];
      ghost var now := Contents()[p := Entry(Range(was.key.start, range.start), was.value)];
      Reshape(index, Range(was.key.start, range.start), was.value, p);
      assert Contents() == now;
      next := data.nodes[index].next;
    }

    /** One turn of the insertion loop: it either finishes the insertion or passes old entry `q`. */
    method InsertStep(indexOpt: Option<Index>, range: Range, value: V, ghost es: seq<RangeEntry<V>>, ghost p: nat,
        ghost q: nat)
      returns (done: bool, next: Option<Index>, ghost p': nat, ghost q': nat)
      requires Consistent() && Midway(Contents(), es, p, q, range.start, range.end)
      requires indexOpt == AtPosition(data.order, p)
      requires data.counter + 2 < TWO_32
      modifies this, data
      ensures Consistent() && old(data.counter) <= data.counter
      ensures done ==> Contents() == Inserted(es, range, value) && data.counter <= old(data.counter) + 2
      ensures !done ==> q < q' && Midway(Contents(), es, p', q', range.start, range.end)
      ensures !done ==> next == AtPosition(data.order, p') && data.counter == old(data.counter)
    {
      hide RangeMap.Consistent, RangeMap.Contents, Midway, Clip, Sorted, Inserted;
      done, next, p', q' := true, None, p, q + 1;
      MidwayEnds(Contents(), es, p, q, range.start, range.end);
      if indexOpt.None? {
        InsertInGap(Contents(), es, p, q, range, value);
        var _ := AddBack(range, value);
        return;
      }
      var index := indexOpt.value;
      At(p);
      var was := data.nodes[index].payload;
      if range.end <= was.key.start {
        InsertInGap(Contents(), es, p, q, range, value);
        var _ := AddBefore(index, range, value, p);
      } else if range.start <= was.key.start && was.key.end <= range.end {
        if was.key.end == range.end {
          InsertReplacing(Contents(), es, p, q, range, value);
          Reshape(index, range, value, p);
        } else {
          done := false;
          next := DropPassed(index, range, es, p, q);
        }
      } else if was.key.start < range.start && range.end < was.key.end {
        InsertInside(index, range, value, es, p, q);
      } else if range.start <= was.key.start && was.key.start < range.end {
        InsertBeforeRest(index, range, value, es, p, q);
      } else if range.end == was.key.end {
        InsertAfterRest(index, range, value, es, p, q);
      } else {
        done, p' := false, p + 1;
        next := ChopPassed(index, range, es, p, q);
      }
    }

    /** The old range ends before the removed one: it goes or is chopped at the end; the removal goes on. */
    method TakePassed(index: Index, range: Range, ghost es: seq<RangeEntry<V>>, ghost p: nat, ghost q: nat)
      returns (piece: RangeEntry<V>, next: Option<Index>, ghost p': nat)
      requires Consistent() && Midway(Contents(), es, p, q, range.start, range.end)
      requires p < |data.order| && index == data.order[p]
      requires q < |es| && es[q].key.end < range.end
      modifies this, data
      ensures Consistent() && Midway(Contents(), es, p', q + 1, range.start, range.end)
      ensures next == AtPosition(data.order, p') && data.counter == old(data.counter)
      ensures Piece(es[q], range.start, range.end) == [piece]
    {
      hide RangeMap.Consistent, RangeMap.Contents, Midway, Clip, Sorted;
      MidwayEnds(Contents(), es, p, q, range.start, range.end);
      At(p);
      var was := data.nodes[index].payload;
      if range.start <= was.key.start {
        piece, p' := was, p;
        next := DropPassed(index, range, es, p, q);
      } else {
        piece, p' := Entry(Range(range.start, was.key.end), was.value), p + 1;
        next := ChopPassed(index, range, es, p, q);
      }
    }

    /** The old range reaches up to or beyond the end of the removed one: the removal ends here. */
    method TakeLast(index: Index, range: Range, ghost es: seq<RangeEntry<V>>, ghost p: nat, ghost q: nat)
      returns (piece: RangeEntry<V>)
      requires Consistent() && Midway(Contents(), es, p, q, range.start, range.end)
      requires p < |data.order| && index == data.order[p]
      requires q < |es| && es[q].key.start < range.end <= es[q].key.end
      requires data.counter + 1 < TWO_32
      modifies this, data
      ensures Consistent() && Contents() == Removed(es, range) && data.counter <= old(data.counter) + 1
      ensures Piece(es[q], range.start, range.end) == [piece]
    {
      hide RangeMap.Consistent, RangeMap.Contents, Midway, Clip, Sorted, Removed;
      MidwayEnds(Contents(), es, p, q, range.start, range.end);
      At(p);
      var was := data.nodes[index].payload;
      if range.start <= was.key.start && was.key.end == range.end {
        RemoveWhole(Contents(), es, p, q, range);
        var _, entry := DropAt(index, p);
        piece := entry;
      } else if was.key.start < range.start && range.end < was.key.end {
        RemoveInside(Contents(), es, p, q, range);
        Reshape(index, Range(was.key.start, range.start), was.value, p);
        var _ := AddAfter(index, Range(range.end, was.key.end), was.value, p);
        piece := Entry(range, was.value);
      } else if range.start <= was.key.start {
        RemoveOverStart(Contents(), es, p, q, range);
        Reshape(index, Range(range.end, was.key.end), was.value, p);
        piece := Entry(Range(was.key.start, range.end), was.value);
      } else {
        RemoveOverEnd(Contents(), es, p, q, range);
        Reshape(index, Range(was.key.start, range.start), was.value, p);
        piece := Entry(Range(range.start, was.key.end), was.value);
      }
    }

    /** The loop of an insertion; `first` is the position where it starts. */
    method InsertAtStartingIndex(start: Option<Index>, range: Range, value: V, ghost first: nat)
      requires Valid() && range.start < range.end < TOP
      requires first <= |data.order| && start == AtPosition(data.order, first)
      requires forall i :: 0 <= i < first ==> Contents()[i].key.end <= range.start
      requires first < |data.order| ==> range.start < Contents()[first].key.end
      requires data.counter + 2 < TWO_32
      modifies this, data
      ensures Valid() && Contents() == Inserted(old(Contents()), range, value)
      ensures data.counter <= old(data.counter) + 2
    {
      var indexOpt, done := start, false;
      ghost var es := Contents();
      ghost var p: nat, q: nat := first, first;
      ScanStart(es, q, range.start, range.end);
      while !done
        invariant Consistent() && old(data.counter) <= data.counter <= old(data.counter) + 2
        invariant done ==> Contents() == Inserted(es, range, value)
        invariant !done ==> Midway(Contents(), es, p, q, range.start, range.end)
        invariant !done ==> indexOpt == AtPosition(data.order, p) && data.counter == old(data.counter)
        decreases !done, |es| - q
      {
        done, indexOpt, p, q := InsertStep(indexOpt, range, value, es, p, q);
      }
      InsertedSorted(es, range, value);
    }

    /** Maps every address of the range to the value, whatever was there before. */
    method Insert(range: Range, value: V)
      requires Valid() && range.start <= range.end < TOP
      requires data.counter + 2 < TWO_32
      modifies this, data
      ensures Valid() && Contents() == Inserted(old(Contents()), range, value)
      ensures data.counter <= old(data.counter) + 2
    {
      if range.start == range.end {
        return;
      }
      ghost var es := Contents();
      if data.firstAndLast.None? {
        ScanStart(es, 0, range.start, range.end);
        InsertInGap(es, es, 0, 0, range, value);
        var _ := AddBack(range, value);
      } else {
        var (first, last) := data.firstAndLast.value;
        assert data.nodes[last].payload == es[|es| - 1] && data.nodes[first].payload == es[0];
        if range.start >= data.nodes[last].payload.key.end {
          InsertAtBack(es, range, value);
          var _ := AddBack(range, value);
        } else if range.end <= data.nodes[first].payload.key.start {
          InsertAtFront(es, range, value);
          var _ := AddFront(range, value);
        } else {
          var index, q := FindStartingIndex(range.start);
          assert Contents() == es;
          InsertAtStartingIndex(index, range, value, q);
        }
      }
      InsertedSorted(es, range, value);
    }

    /** Where a removal starts, or `None` when the range touches nothing. */
    method StartingIndexForRemoval(range: Range) returns (r: Option<Index>, ghost q: nat)
      requires Valid() && range.start <= range.end < TOP
      ensures r.None? ==> Contents() == Removed(Contents(), range) && Clip(Contents(), range.start, range.end) == []
      ensures r.Some? ==> Midway(Contents(), Contents(), q, q, range.start, range.end)
      ensures r.Some? ==> r == AtPosition(data.order, q) && Clip(Contents()[..q], range.start, range.end) == []
    {
      hide Midway, Clip;
      ghost var es := Contents();
      r, q := None, 0;
      if range.start == range.end {
        ClipEmpty(es, range.start, range.end);
        return;
      }
      if data.firstAndLast.None? {
        RemoveAtFront(es, range);
        return;
      }
      var (first, last) := data.firstAndLast.value;
      assert data.nodes[last].payload == es[|es| - 1] && data.nodes[first].payload == es[0];
      if range.start >= data.nodes[last].payload.key.end {
        RemoveAtBack(es, range);
      } else if range.end <= data.nodes[first].payload.key.start {
        RemoveAtFront(es, range);
      } else {
        r, q := FindStartingIndex(range.start);
        assert Contents() == es;
        ScanStart(es, q, range.start, range.end);
      }
    }

    /** The range and the value an address lies in, if any. */
    method Get(address: nat) returns (r: Option<RangeEntry<V>>)
      requires Valid()
      ensures r.Some? ==> r.value in Contents() && r.value.key.start <= address < r.value.key.end
      ensures PointAt(Contents(), address) == if r.Some? then Some(r.value.value) else None
    {
      hide RangeMap.Consistent, RangeMap.Contents, PointAt, Sorted;
      ghost var es := Contents();
      IndexedEnds();
      var end := FirstKeyFrom(byEnd, address);
      if end == Some(address) {
        end := FirstKeyFrom(byEnd, address + 1);
      }
      if end.None? {
        forall i | 0 <= i < |es| ensures es[i].key.end <= address {
          assert es[i].key.end in byEnd;
        }
        PointOutside(es, address);
        return None;
      }
      var index := byEnd[end.value];
      ghost var q :| 0 <= q < |data.order| && data.order[q] == index && es[q].key.end == end.value;
      At(q);
      var entry := data.nodes[index].payload;
      if entry.key.start <= address < entry.key.end {
        PointInside(es, q, address);
        return Some(entry);
      }
      PointBetween(es, q, address);
      return None;
    }

    method Clear()
      requires Valid()
      modifies this, data
      ensures Valid() && Contents() == [] && data.counter == old(data.counter)
    {
      byEnd := map[];
      data.Clear();
    }

    /** The entries with an address in the queried range, in ascending order. */
    method GetAllOverlapping(range: Range) returns (r: seq<RangeEntry<V>>)
      requires Valid()
      ensures r == Overlapping(Contents(), range.start, range.end)
    {
      hide LinkedHashMap.Valid, LinkedHashMap.Contents, Overlapping, Agree;
      if range.start >= range.end {
        OverlappingEmpty(Contents(), range.start, range.end);
        return [];
      }
      ghost var es := Contents();
      var indexOpt, first := FindStartingIndex(range.start);
      assert Contents() == es;
      if indexOpt.None? {
        OverlappingNone(es, range.start, range.end);
        return [];
      }
      At(first);
      var key := data.nodes[indexOpt.value].payload.key;
      var matches :=
        || key.start <= range.start < key.end
        || key.start < range.end <= key.end
        || (range.start < key.start && key.end <= range.end);
      if !matches {
        OverlappingSlice(es, first, first, range.start, range.end);
        return [];
      }
      ghost var last;
      r, last := data.CollectWhile(indexOpt, (key: Range) => key.start < range.end, first);
      assert Contents() == es;
      OverlappingSlice(es, first, last, range.start, range.end);
    }

    /** The map restricted to the queried range, in ascending order. */
    method GetInRange(range: Range) returns (r: seq<RangeEntry<V>>)
      requires Valid()
      ensures r == Clip(Contents(), range.start, range.end)
    {
      var overlapping := GetAllOverlapping(range);
      ClipOverlapping(Contents(), range.start, range.end);
      r := [];
      for i := 0 to |overlapping|
        invariant r == Clip(overlapping[..i], range.start, range.end)
      {
        var e := overlapping[i];
        OverlappingMember(Contents(), range.start, range.end, i);
        ClipStep(overlapping, i, range.start, range.end);
        r := r + [Entry(Range(Max(range.start, e.key.start), Min(range.end, e.key.end)), e.value)];
      }
      assert overlapping[..|overlapping|] == overlapping;
    }
  }

  /**
   A removal in progress. It yields the removed pieces one by one; `original` is the map before it,
   `yielded` what it has given out so far.
   */
  class RemoveIter<V> {
    const range: Range
    const rangeMap: RangeMap<V>
    var indexOpt: Option<Index>
    ghost const original: seq<RangeEntry<V>>
    ghost var p: nat
    ghost var q: nat
    ghost var yielded: seq<RangeEntry<V>>

    ghost predicate Valid()
      reads this, rangeMap, rangeMap.data
    {
      && rangeMap.Consistent() && Sorted(original) && range.start <= range.end < TOP
      && (indexOpt.Some? ==>
            && Midway(rangeMap.Contents(), original, p, q, range.start, range.end)
            && indexOpt == AtPosition(rangeMap.data.order, p)
            && yielded == Clip(original[..q], range.start, range.end))
      && (indexOpt.None? ==>
            && rangeMap.Contents() == Removed(original, range)
            && yielded == Clip(original, range.start, range.end))
    }

    /** Starts the removal; nothing has been removed yet. */
    constructor (rangeMap: RangeMap<V>, range: Range)
      requires rangeMap.Valid() && range.start <= range.end < TOP
      ensures Valid() && yielded == []
      ensures original == rangeMap.Contents() && this.rangeMap == rangeMap && this.range == range
    {
      hide RangeMap.Consistent, RangeMap.Contents, Midway, Clip, Sorted, Removed;
      this.range, this.rangeMap, original := range, rangeMap, rangeMap.Contents();
      var index, at := rangeMap.StartingIndexForRemoval(range);
      indexOpt, p, q, yielded := index, at, at, [];
    }

    /** The next removed piece, or `None` when the whole range is clear. */
    method Next() returns (r: Option<RangeEntry<V>>)
      requires Valid() && rangeMap.data.counter + 1 < TWO_32
      modifies this, rangeMap, rangeMap.data
      ensures Valid() && rangeMap.data.counter <= old(rangeMap.data.counter) + 1
      ensures r.None? ==> indexOpt.None? && yielded == old(yielded)
      ensures r.Some? ==> old(indexOpt).Some? && yielded == old(yielded) + [r.value]
      ensures r.Some? && indexOpt.Some? ==>
        old(q) < q <= |original| && rangeMap.data.counter == old(rangeMap.data.counter)
    {
      hide RangeMap.Consistent, RangeMap.Contents, Midway, Clip, Sorted, Removed;
      if indexOpt.None? {
        return None;
      }
      var index := indexOpt.value;
      MidwayEnds(rangeMap.Contents(), original, p, q, range.start, range.end);
      rangeMap.At(p);
      var was := rangeMap.data.nodes[index].payload;
      if range.end <= was.key.start {
        RemoveBefore(rangeMap.Contents(), original, p, q, range);
        indexOpt := None;
        return None;
      }
      var piece;
      if was.key.end < range.end {
        piece := TakeAndGoOn(index);
      } else {
        piece := TakeAndStop(index);
      }
      return Some(piece);
    }

    /** The old range ends before the removed one. */
    method TakeAndGoOn(index: Index) returns (piece: RangeEntry<V>)
      requires Valid() && indexOpt == Some(index) && q < |original| && original[q].key.end < range.end
      modifies this, rangeMap, rangeMap.data
      ensures Valid() && yielded == old(yielded) + [piece]
      ensures rangeMap.data.counter == old(rangeMap.data.counter)
      ensures indexOpt.Some? ==> old(q) < q <= |original|
    {
      hide RangeMap.Consistent, RangeMap.Contents, Midway, Clip, Sorted, Removed;
      MidwayEnds(rangeMap.Contents(), original, p, q, range.start, range.end);
      PassYields(original, q, range);
      var next;
      ghost var at;
      piece, next, at := rangeMap.TakePassed(index, range, original, p, q);
      Advance(next, at, piece);
    }

    /** The old range reaches up to or beyond the end of the removed one. */
    method TakeAndStop(index: Index) returns (piece: RangeEntry<V>)
      requires Valid() && indexOpt == Some(index) && q < |original|
      requires original[q].key.start < range.end <= original[q].key.end
      requires rangeMap.data.counter + 1 < TWO_32
      modifies this, rangeMap, rangeMap.data
      ensures Valid() && indexOpt.None? && yielded == old(yielded) + [piece]
      ensures rangeMap.data.counter <= old(rangeMap.data.counter) + 1
    {
      hide RangeMap.Consistent, RangeMap.Contents, Midway, Clip, Sorted, Removed;
      MidwayEnds(rangeMap.Contents(), original, p, q, range.start, range.end);
      StopYields(original, q, range);
      piece := rangeMap.TakeLast(index, range, original, p, q);
      indexOpt, yielded := None, yielded + [piece];
    }

    /** Dropping the iterator runs it to the end: the map is left as if it had been drained. */
    method Drop()
      requires Valid() && rangeMap.data.counter + 1 < TWO_32
      modifies this, rangeMap, rangeMap.data
      ensures rangeMap.Valid() && rangeMap.Contents() == Removed(original, range)
      ensures yielded == Clip(original, range.start, range.end) && old(yielded) <= yielded
      ensures rangeMap.data.counter <= old(rangeMap.data.counter) + 1
    {
      hide Midway, Clip, RangeMap.Consistent;
      var more := true;
      while more
        invariant Valid() && old(yielded) <= yielded
        invariant rangeMap.data.counter <= old(rangeMap.data.counter) + 1
        invariant indexOpt.Some? ==> rangeMap.data.counter == old(rangeMap.data.counter)
        invariant !more ==> indexOpt.None?
        decreases more, indexOpt.Some?, |original| - q
      {
        if indexOpt.None? {
          more := false;
        } else {
          var r := Next();
          more := r.Some?;
        }
      }
      RemovedSorted(original, range);
    }

    method Advance(next: Option<Index>, ghost at: nat, piece: RangeEntry<V>)
      requires rangeMap.Consistent() && Sorted(original) && range.start <= range.end < TOP
      requires Midway(rangeMap.Contents(), original, at, q + 1, range.start, range.end)
      requires next == AtPosition(rangeMap.data.order, at)
      requires yielded + [piece] == Clip(original[..q + 1], range.start, range.end)
      modifies this
      ensures Valid() && yielded == old(yielded) + [piece]
      ensures indexOpt.Some? ==> old(q) < q <= |original|
    {
      hide RangeMap.Consistent, RangeMap.Contents, Midway, Clip, Sorted, Removed;
      indexOpt, p, q, yielded := next, at, q + 1, yielded + [piece];
      MidwayEnds(rangeMap.Contents(), original, p, q, range.start, range.end);
      if next.None? {
        RemoveBefore(rangeMap.Contents(), original, p, q, range);
      }
    }
  }

  // ----- Whole runs

  predicate Proper(range: Range) { range.start <= range.end < TOP }

  predicate ProperCommand<V>(c: Command<V>) { c.Clear? || Proper(c.range) }

  /** One call on a map; a removal drops its iterator. */
  method Perform<V>(m: RangeMap<V>, c: Command<V>)
    requires m.Valid() && ProperCommand(c) && m.data.counter + 2 < TWO_32
    modifies m, m.data
    ensures m.Valid() && m.Contents() == Applied(old(m.Contents()), c)
    ensures m.data.counter <= old(m.data.counter) + 2
  {
    hide RangeMap.Consistent, RangeMap.Contents, Inserted, Removed;
    match c {
      case Insert(range, value) =>
        m.Insert(range, value);
      case Remove(range) =>
        var iter := new RemoveIter(m, range);
        iter.Drop();
      case Clear =>
        m.Clear();
    }
  }

  /** Any sequence of calls on a new map, short enough for its indices to stay distinct. */
  method PerformAll<V>(commands: seq<Command<V>>) returns (m: RangeMap<V>)
    requires 2 * |commands| + 2 < TWO_32
    requires forall i :: 0 <= i < |commands| ==> ProperCommand(commands[i])
    ensures fresh(m) && fresh(m.data) && m.Valid() && m.Contents() == Run(commands)
  {
    hide RangeMap.Consistent, RangeMap.Contents;
    m := new RangeMap();
    for n := 0 to |commands|
      invariant fresh(m) && fresh(m.data) && m.Valid() && m.data.counter <= 2 * n
      invariant m.Contents() == Run(commands[..n])
    {
      Perform(m, commands[n]);
      assert commands[..n + 1][..n] == commands[..n];
    }
    assert commands[..|commands|] == commands;
  }

  /** After any sequence of calls, looking up an address finds what the last call that touched it wrote there. */
  method GetAfter<V>(commands: seq<Command<V>>, address: nat) returns (r: Option<V>)
    requires 2 * |commands| + 2 < TWO_32 && address < TOP
    requires forall i :: 0 <= i < |commands| ==> ProperCommand(commands[i])
    ensures r == LastWrite(commands, address)
  {
    hide RangeMap.Consistent, RangeMap.Contents, Run, LastWrite;
    var m := PerformAll(commands);
    LastWriterWins(commands, address);
    var entry := m.Get(address);
    r := if entry.Some? then Some(entry.value.value) else None;
  }
}
