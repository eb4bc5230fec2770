/**
 What a range map means: sorted, disjoint, nonempty ranges, cut by an interval into pieces, and
 read as a partial function from addresses to values.
 */
module RangeSpec {
  import opened Basics
  import opened Links
  import opened LinkedHashMaps

  /** One past the largest 64-bit address. */
  const TOP: nat := 0x1_0000_0000_0000_0000

  /** A half-open range of addresses. */
  datatype Range = Range(start: nat, end: nat)

  type RangeEntry<V> = Entry<Range, V>

  /** Entries are nonempty 64-bit ranges, in ascending order and disjoint. */
  ghost predicate Sorted<V>(es: seq<RangeEntry<V>>) {
    && (forall i :: 0 <= i < |es| ==> es[i].key.start < es[i].key.end < TOP)
    && (forall i, j :: 0 <= i < j < |es| ==> es[i].key.end <= es[j].key.start)
  }

  /** The part of an entry inside `[lo, hi)`, if any is left. */
  function Piece<V>(e: RangeEntry<V>, lo: nat, hi: nat): seq<RangeEntry<V>> {
    var start, end := Max(lo, e.key.start), Min(hi, e.key.end);
    if start < end then [Entry(Range(start, end), e.value)] else []
  }

  /** The parts of all entries inside `[lo, hi)`. */
  function Clip<V>(es: seq<RangeEntry<V>>, lo: nat, hi: nat): seq<RangeEntry<V>> {
    if es == [] then [] else Piece(es[0], lo, hi) + Clip(es[1..], lo, hi)
  }

  lemma {:induction false} ClipConcat<V>(a: seq<RangeEntry<V>>, b: seq<RangeEntry<V>>, lo: nat, hi: nat)
    ensures Clip(a + b, lo, hi) == Clip(a, lo, hi) + Clip(b, lo, hi)
  {
    hide Piece;
    if a == [] {
      assert a + b == b;
    } else {
      ClipConcat(a[1..], b, lo, hi);
      assert (a + b)[0] == a[0] && (a + b)[1..] == a[1..] + b;
      ConcatAssoc(Piece(a[0], lo, hi), Clip(a[1..], lo, hi), Clip(b, lo, hi));
    }
  }

  lemma PieceInside<V>(e: RangeEntry<V>, lo: nat, hi: nat)
    requires lo <= e.key.start < e.key.end <= hi
    ensures Piece(e, lo, hi) == [e]
  {}

  lemma {:induction false} ClipInside<V>(es: seq<RangeEntry<V>>, lo: nat, hi: nat)
    requires forall i :: 0 <= i < |es| ==> lo <= es[i].key.start < es[i].key.end <= hi
    ensures Clip(es, lo, hi) == es
  {
    hide Piece;
    if es != [] {
      var tail := es[1..];
      ClipInside(tail, lo, hi);
      PieceInside(es[0], lo, hi);
      assert es == [es[0]] + tail;
    }
  }

  lemma {:induction false} ClipOutside<V>(es: seq<RangeEntry<V>>, lo: nat, hi: nat)
    requires forall i :: 0 <= i < |es| ==> es[i].key.end <= lo || hi <= es[i].key.start
    ensures Clip(es, lo, hi) == []
  {
    if es != [] {
      ClipOutside(es[1..], lo, hi);
    }
  }

  lemma {:induction false} ClipEmpty<V>(es: seq<RangeEntry<V>>, lo: nat, hi: nat)
    requires hi <= lo
    ensures Clip(es, lo, hi) == []
  {
    if es != [] {
      ClipEmpty(es[1..], lo, hi);
    }
  }

  /** The value at an address, read off the entries. */
  function PointAt<V>(es: seq<RangeEntry<V>>, a: nat): Option<V> {
    if es == [] then None
    else if es[0].key.start <= a < es[0].key.end then Some(es[0].value)
    else PointAt(es[1..], a)
  }

  function OrElse<T>(x: Option<T>, y: Option<T>): Option<T> { if x.Some? then x else y }

  lemma {:induction false} PointConcat<V>(x: seq<RangeEntry<V>>, y: seq<RangeEntry<V>>, a: nat)
    ensures PointAt(x + y, a) == OrElse(PointAt(x, a), PointAt(y, a))
  {
    if x == [] {
      assert x + y == y;
    } else {
      PointConcat(x[1..], y, a);
      assert (x + y)[0] == x[0] && (x + y)[1..] == x[1..] + y;
    }
  }

  /** Clipping restricts the partial function to the interval. */
  lemma {:induction false} PointClip<V>(es: seq<RangeEntry<V>>, lo: nat, hi: nat, a: nat)
    ensures PointAt(Clip(es, lo, hi), a) == if lo <= a < hi then PointAt(es, a) else None
  {
    if es != [] {
      PointClip(es[1..], lo, hi, a);
      PointConcat(Piece(es[0], lo, hi), Clip(es[1..], lo, hi), a);
    }
  }

  /** An entry of a sorted map is what the map says at each of its addresses. */
  lemma {:induction false} PointInside<V>(es: seq<RangeEntry<V>>, i: nat, a: nat)
    requires Sorted(es) && i < |es| && es[i].key.start <= a < es[i].key.end
    ensures PointAt(es, a) == Some(es[i].value)
  {
    if i > 0 {
      PointInside(es[1..], i - 1, a);
    }
  }

  lemma {:induction false} PointOutside<V>(es: seq<RangeEntry<V>>, a: nat)
    requires forall i :: 0 <= i < |es| ==> !(es[i].key.start <= a < es[i].key.end)
    ensures PointAt(es, a) == None
  {
    if es != [] {
      PointOutside(es[1..], a);
    }
  }

  /** An address below the first range that ends above it is in none. */
  lemma PointBetween<V>(es: seq<RangeEntry<V>>, q: nat, a: nat)
    requires Sorted(es) && q < |es| && a < es[q].key.start
    requires forall i :: 0 <= i < |es| && a < es[i].key.end ==> es[q].key.end <= es[i].key.end
    ensures PointAt(es, a) == None
  {
    hide PointAt;
    forall i | 0 <= i < |es| ensures !(es[i].key.start <= a < es[i].key.end) {
      assert es[i].key.start < es[i].key.end && es[q].key.start < es[q].key.end;
    }
    PointOutside(es, a);
  }

  /** What an insertion leaves: the rest below, the new range, the rest above. */
  function Inserted<V>(es: seq<RangeEntry<V>>, range: Range, value: V): seq<RangeEntry<V>> {
    if range.start >= range.end then es
    else Clip(es, 0, range.start) + [Entry(range, value)] + Clip(es, range.end, TOP)
  }

  /** What a removal leaves. */
  function Removed<V>(es: seq<RangeEntry<V>>, range: Range): seq<RangeEntry<V>> {
    if range.start >= range.end then es
    else Clip(es, 0, range.start) + Clip(es, range.end, TOP)
  }

  ghost predicate Within<V>(es: seq<RangeEntry<V>>, lo: nat, hi: nat) {
    forall i :: 0 <= i < |es| ==> lo <= es[i].key.start && es[i].key.end <= hi
  }

  lemma SortedAfter<V>(e: RangeEntry<V>, tail: seq<RangeEntry<V>>, lo: nat, hi: nat)
    requires e.key.start < e.key.end < TOP && Sorted(tail) && Within(tail, lo, hi) && Within(tail, e.key.end, hi)
    ensures var es := Piece(e, lo, hi) + tail;
      Sorted(es) && Within(es, lo, hi) && Within(es, e.key.start, hi)
  {}

  lemma SortedTail<V>(es: seq<RangeEntry<V>>)
    requires Sorted(es) && es != []
    ensures Sorted(es[1..]) && es[0].key.start < es[0].key.end < TOP
    ensures |es| > 1 ==> es[0].key.end <= es[1].key.start
  {}

  lemma WithinMore<V>(es: seq<RangeEntry<V>>, lo: nat, lo': nat, hi: nat)
    requires Within(es, lo, hi) && lo' <= lo
    ensures Within(es, lo', hi)
  {}

  lemma {:induction false} ClipSorted<V>(es: seq<RangeEntry<V>>, lo: nat, hi: nat)
    requires Sorted(es)
    ensures Sorted(Clip(es, lo, hi)) && Within(Clip(es, lo, hi), lo, hi)
    ensures es != [] ==> Within(Clip(es, lo, hi), es[0].key.start, hi)
  {
    if es != [] {
      hide Sorted, Within, Piece;
      var tail := Clip(es[1..], lo, hi);
      SortedTail(es);
      ClipSorted(es[1..], lo, hi);
      if |es| > 1 {
        WithinMore(tail, es[1].key.start, es[0].key.end, hi);
      } else {
        assert tail == [];
        NothingWithin<V>(es[0].key.end, hi);
      }
      SortedAfter(es[0], tail, lo, hi);
    }
  }

  lemma NothingWithin<V>(lo: nat, hi: nat)
    ensures Within<V>([], lo, hi)
  {}

  lemma SliceIsConcat<T>(s: seq<T>, q: nat)
    requires q <= |s|
    ensures s == s[..q] + s[q..]
  {}

  lemma SliceIsThree<T>(s: seq<T>, p: nat, q: nat)
    requires p <= q <= |s|
    ensures s == s[..p] + (s[p..q] + s[q..])
  {}

  lemma SliceStep<T>(s: seq<T>, q: nat)
    requires q < |s|
    ensures s[..q + 1] == s[..q] + [s[q]] && s[q..] == [s[q]] + s[q + 1..] && s[q..][1..] == s[q + 1..]
  {}

  /** Entries from `q` on that start at or above `hi` have no part below it. */
  lemma ClipPrefix<V>(es: seq<RangeEntry<V>>, q: nat, lo: nat, hi: nat)
    requires q <= |es| && forall i :: q <= i < |es| ==> hi <= es[i].key.start
    ensures Clip(es, lo, hi) == Clip(es[..q], lo, hi)
  {
    SliceIsConcat(es, q);
    ClipConcat(es[..q], es[q..], lo, hi);
    ClipOutside(es[q..], lo, hi);
  }

  /** Entries before `q` that end at or below `lo` have no part above it. */
  lemma ClipSuffix<V>(es: seq<RangeEntry<V>>, q: nat, lo: nat, hi: nat)
    requires q <= |es| && forall i :: 0 <= i < q ==> es[i].key.end <= lo
    ensures Clip(es, lo, hi) == Clip(es[q..], lo, hi)
  {
    SliceIsConcat(es, q);
    ClipConcat(es[..q], es[q..], lo, hi);
    ClipOutside(es[..q], lo, hi);
  }

  /** The part of entry `q` comes after the parts of the entries before it. */
  lemma ClipStep<V>(es: seq<RangeEntry<V>>, q: nat, lo: nat, hi: nat)
    requires q < |es|
    ensures Clip(es[..q + 1], lo, hi) == Clip(es[..q], lo, hi) + Piece(es[q], lo, hi)
  {
    SliceStep(es, q);
    ClipConcat(es[..q], [es[q]], lo, hi);
    assert Clip([es[q]], lo, hi) == Piece(es[q], lo, hi);
  }

  /** The scan for an interval that ends at `hi` has passed the first `q` entries, none of which reaches above `hi`. */
  ghost predicate Scanned<V>(es: seq<RangeEntry<V>>, q: nat, hi: nat) {
    Sorted(es) && q <= |es| && forall i :: 0 <= i < q ==> es[i].key.end <= hi
  }

  lemma EndsAbove<V>(es: seq<RangeEntry<V>>, q: nat, lo: nat)
    requires Sorted(es) && q < |es| && lo < es[q].key.end
    ensures q + 1 < |es| ==> lo < es[q + 1].key.end
  {
    assert q + 1 < |es| ==> es[q].key.end <= es[q + 1].key.start < es[q + 1].key.end;
  }

  /** The scan starts at the first entry that ends above `lo`. */
  lemma ScanStart<V>(es: seq<RangeEntry<V>>, q: nat, lo: nat, hi: nat)
    requires Sorted(es) && q <= |es| && lo < hi < TOP
    requires forall i :: 0 <= i < q ==> es[i].key.end <= lo
    requires q < |es| ==> lo < es[q].key.end
    ensures Midway(es, es, q, q, lo, hi) && Clip(es[..q], lo, hi) == []
  {
    ClipOutside(es[..q], lo, hi);
    ClipInside(es[..q], 0, lo);
    SliceIsConcat(es, q);
  }

  /** The scan ends before an entry that starts at or above `hi`, or at the end of the map. */
  lemma ScanStopsBefore<V>(es: seq<RangeEntry<V>>, q: nat, lo: nat, hi: nat)
    requires Scanned(es, q, hi) && lo <= hi
    requires q < |es| ==> hi <= es[q].key.start
    ensures Clip(es, 0, lo) == Clip(es[..q], 0, lo)
    ensures Clip(es, lo, hi) == Clip(es[..q], lo, hi)
    ensures Clip(es, hi, TOP) == es[q..]
  {
    ClipPrefix(es, q, 0, lo);
    ClipPrefix(es, q, lo, hi);
    ClipSuffix(es, q, hi, TOP);
    ClipInside(es[q..], hi, TOP);
  }

  /** The scan ends at an entry that reaches up to or beyond `hi`. */
  lemma ScanStopsAt<V>(es: seq<RangeEntry<V>>, q: nat, lo: nat, hi: nat)
    requires Scanned(es, q, hi) && lo <= hi
    requires q < |es| && hi <= es[q].key.end
    ensures Clip(es, 0, lo) == Clip(es[..q], 0, lo) + Piece(es[q], 0, lo)
    ensures Clip(es, lo, hi) == Clip(es[..q], lo, hi) + Piece(es[q], lo, hi)
    ensures Clip(es, hi, TOP) == Piece(es[q], hi, TOP) + es[q + 1..]
  {
    ClipPrefix(es, q + 1, 0, lo);
    ClipStep(es, q, 0, lo);
    ClipPrefix(es, q + 1, lo, hi);
    ClipStep(es, q, lo, hi);
    ClipSuffix(es, q, hi, TOP);
    ClipInside(es[q + 1..], hi, TOP);
    SliceStep(es, q);
  }

  lemma {:induction false} ClipEnds<V>(es: seq<RangeEntry<V>>, lo: nat, hi: nat, bound: nat)
    requires forall i :: 0 <= i < |es| ==> es[i].key.end <= bound
    ensures forall i :: 0 <= i < |Clip(es, lo, hi)| ==> Clip(es, lo, hi)[i].key.end <= bound
  {
    if es != [] {
      ClipEnds(es[1..], lo, hi, bound);
    }
  }

  /** No entry but the one at `except` ends at `end`. */
  ghost predicate EndFree<V>(es: seq<RangeEntry<V>>, end: nat, except: int) {
    forall i :: 0 <= i < |es| && i != except ==> es[i].key.end != end
  }

  lemma EndFreeUpdated<V>(es: seq<RangeEntry<V>>, end: nat, p: nat, e: RangeEntry<V>)
    requires p < |es| && EndFree(es, end, p) && e.key.end != end
    ensures EndFree(es[p := e], end, -1)
  {}

  lemma EndFreeSpliced<V>(es: seq<RangeEntry<V>>, end: nat, p: nat, e: RangeEntry<V>)
    requires p <= |es| && EndFree(es, end, -1) && e.key.end != end
    ensures EndFree(Spliced(es, p, e), end, -1)
  {}

  /**
   The scan over the old entries `es` for `[lo, hi)` stands at old entry `q`, now at position `p` of `now`:
   what lies before `p` is the old map below `lo`, and the rest is still old.
   */
  ghost predicate Midway<V>(now: seq<RangeEntry<V>>, es: seq<RangeEntry<V>>, p: nat, q: nat, lo: nat, hi: nat) {
    && Scanned(es, q, hi) && lo < hi < TOP
    && now == Clip(es[..q], 0, lo) + es[q..] && p == |Clip(es[..q], 0, lo)|
    && (q < |es| ==> lo < es[q].key.end)
  }

  lemma ConcatParts<T>(s: seq<T>, a: seq<T>, b: seq<T>)
    requires s == a + b
    ensures s[..|a|] == a && s[|a|..] == b && (b != [] ==> s[|a|] == b[0] && s[|a| + 1..] == b[1..])
  {}

  lemma UpdateConcat<T>(a: seq<T>, b: seq<T>, x: T)
    requires b != []
    ensures (a + b)[|a| := x] == (a + [x]) + b[1..] && Cut(a + b, |a|) == a + b[1..]
  {}

  /** The two parts of the entries while a scan is under way. */
  lemma MidwayParts<V>(now: seq<RangeEntry<V>>, es: seq<RangeEntry<V>>, p: nat, q: nat, lo: nat, hi: nat)
    requires Midway(now, es, p, q, lo, hi)
    ensures p <= |now| && |now| - p == |es| - q && now[..p] == Clip(es[..q], 0, lo) && now[p..] == es[q..]
    ensures q < |es| ==> p < |now| && now[p] == es[q] && now[p + 1..] == es[q + 1..]
  {
    ConcatParts(now, Clip(es[..q], 0, lo), es[q..]);
    if q < |es| {
      SliceStep(es, q);
    }
  }

  lemma ConcatEnds<V>(s: seq<RangeEntry<V>>, a: seq<RangeEntry<V>>, b: seq<RangeEntry<V>>, lo: nat)
    requires s == a + b && Sorted(b)
    requires forall i :: 0 <= i < |a| ==> a[i].key.end <= lo
    ensures forall i :: 0 <= i < |a| ==> s[i].key.end <= lo
    ensures forall i :: |a| < i < |s| ==> b[0].key.end < s[i].key.end
  {
    forall i | |a| < i < |s| ensures b[0].key.end < s[i].key.end {
      assert s[i] == b[i - |a|];
    }
  }

  /** Where the ends of the entries lie while a scan is under way. */
  lemma MidwayEnds<V>(now: seq<RangeEntry<V>>, es: seq<RangeEntry<V>>, p: nat, q: nat, lo: nat, hi: nat)
    requires Midway(now, es, p, q, lo, hi)
    ensures p <= |now| && |now| - p == |es| - q && (p < |now| ==> now[p] == es[q])
    ensures Scanned(es, q, hi) && lo < hi < TOP
    ensures q < |es| ==> es[q].key.start < es[q].key.end < TOP && lo < es[q].key.end
    ensures forall i :: 0 <= i < p ==> now[i].key.end <= lo
    ensures q < |es| ==> forall i :: 0 <= i < p ==> now[i].key.end <= es[q].key.start
    ensures q < |es| ==> forall i :: p < i < |now| ==> es[q].key.end < now[i].key.end
  {
    hide Clip;
    MidwayParts(now, es, p, q, lo, hi);
    ClipSorted(es[..q], 0, lo);
    ConcatEnds(now, Clip(es[..q], 0, lo), es[q..], lo);
    if q < |es| {
      ClipEnds(es[..q], 0, lo, es[q].key.start);
      ConcatEnds(now, Clip(es[..q], 0, lo), es[q..], es[q].key.start);
    }
  }

  /** Which ends are free at a scan's position. */
  lemma MidwayFree<V>(now: seq<RangeEntry<V>>, es: seq<RangeEntry<V>>, p: nat, q: nat, lo: nat, hi: nat)
    requires Midway(now, es, p, q, lo, hi) && q < |es|
    ensures es[q].key.start < lo ==> EndFree(now, lo, p)
    ensures hi <= es[q].key.end ==> EndFree(now, hi, p)
    ensures EndFree(now, es[q].key.end, p)
  {
    MidwayEnds(now, es, p, q, lo, hi);
  }

  /** Entry `p` replaced by three runs of entries. */
  function Around<T>(s: seq<T>, p: nat, a: seq<T>, b: seq<T>, c: seq<T>): seq<T>
    requires p < |s|
  {
    s[..p] + a + b + c + s[p + 1..]
  }

  /** `Around` in terms of the list operations that bring it about. */
  lemma AroundCases<T>(s: seq<T>, p: nat, x: T, y: T, z: T)
    requires p < |s|
    ensures Around(s, p, [], [], []) == Cut(s, p)
    ensures Around(s, p, [x], [], []) == Around(s, p, [], [x], []) == Around(s, p, [], [], [x]) == s[p := x]
    ensures Around(s, p, [x], [], [z]) == Spliced(s[p := x], p + 1, z)
    ensures Around(s, p, [x], [y], []) == Spliced(s[p := x], p + 1, y)
    ensures Around(s, p, [], [y], [z]) == Spliced(s[p := z], p, y)
    ensures Around(s, p, [x], [y], [z]) == Spliced(Spliced(s[p := x], p + 1, y), p + 2, z)
  {}

  lemma ConcatRegroups<T>(a: seq<T>, b: seq<T>, c: seq<T>, d: seq<T>, e: seq<T>)
    ensures (a + b) + c + (d + e) == a + b + c + d + e
  {}

  /** What an insertion leaves when it ends before entry `q`. */
  lemma InsertInGap<V>(now: seq<RangeEntry<V>>, es: seq<RangeEntry<V>>, p: nat, q: nat, range: Range, value: V)
    requires Midway(now, es, p, q, range.start, range.end)
    requires q < |es| ==> range.end <= es[q].key.start
    ensures p <= |now| && EndFree(now, range.end, -1)
    ensures Spliced(now, p, Entry(range, value)) == Inserted(es, range, value)
  {
    MidwayEnds(now, es, p, q, range.start, range.end);
    MidwayParts(now, es, p, q, range.start, range.end);
    ScanStopsBefore(es, q, range.start, range.end);
  }

  /** What an insertion leaves when entry `q` reaches up to or beyond its end. */
  lemma InsertAround<V>(now: seq<RangeEntry<V>>, es: seq<RangeEntry<V>>, p: nat, q: nat, range: Range, value: V)
    requires Midway(now, es, p, q, range.start, range.end) && q < |es| && range.end <= es[q].key.end
    ensures p < |now| && now[p] == es[q]
    ensures Inserted(es, range, value)
         == Around(now, p, Piece(es[q], 0, range.start), [Entry(range, value)], Piece(es[q], range.end, TOP))
  {
    MidwayParts(now, es, p, q, range.start, range.end);
    ScanStopsAt(es, q, range.start, range.end);
    ConcatRegroups(now[..p], Piece(es[q], 0, range.start), [Entry(range, value)], Piece(es[q], range.end, TOP),
      now[p + 1..]);
  }

  /** The old range is covered and both end together: its node is reused. */
  lemma InsertReplacing<V>(now: seq<RangeEntry<V>>, es: seq<RangeEntry<V>>, p: nat, q: nat, range: Range, value: V)
    requires Midway(now, es, p, q, range.start, range.end)
    requires q < |es| && range.start <= es[q].key.start && es[q].key.end == range.end
    ensures p < |now| && EndFree(now, range.end, p) && now[p := Entry(range, value)] == Inserted(es, range, value)
  {
    MidwayFree(now, es, p, q, range.start, range.end);
    InsertAround(now, es, p, q, range, value);
    AroundCases(now, p, Entry(range, value), Entry(range, value), Entry(range, value));
  }

  /** The new range lies inside the old one, which is chopped into two pieces. */
  lemma InsertSplitting<V>(now: seq<RangeEntry<V>>, es: seq<RangeEntry<V>>, p: nat, q: nat, range: Range, value: V)
    requires Midway(now, es, p, q, range.start, range.end)
    requires q < |es| && es[q].key.start < range.start && range.end < es[q].key.end
    ensures p < |now| && EndFree(now, range.start, p)
    ensures var chopped := now[p := Entry(Range(es[q].key.start, range.start), es[q].value)];
      var added := Spliced(chopped, p + 1, Entry(range, value));
      && EndFree(chopped, range.end, -1) && EndFree(added, es[q].key.end, -1)
      && Spliced(added, p + 2, Entry(Range(range.end, es[q].key.end), es[q].value)) == Inserted(es, range, value)
  {
    MidwayFree(now, es, p, q, range.start, range.end);
    InsertAround(now, es, p, q, range, value);
    var low, high := Entry(Range(es[q].key.start, range.start), es[q].value),
      Entry(Range(range.end, es[q].key.end), es[q].value);
    AroundCases(now, p, low, Entry(range, value), high);
    EndFreeUpdated(now, range.end, p, low);
    EndFreeUpdated(now, es[q].key.end, p, low);
    EndFreeSpliced(now[p := low], es[q].key.end, p + 1, Entry(range, value));
  }

  /** The new range covers the start of the old one, which is chopped at the start. */
  lemma InsertOverStart<V>(now: seq<RangeEntry<V>>, es: seq<RangeEntry<V>>, p: nat, q: nat, range: Range, value: V)
    requires Midway(now, es, p, q, range.start, range.end)
    requires q < |es| && range.start <= es[q].key.start < range.end < es[q].key.end
    ensures p < |now| && EndFree(now, es[q].key.end, p)
    ensures var chopped := now[p := Entry(Range(range.end, es[q].key.end), es[q].value)];
      EndFree(chopped, range.end, -1) && Spliced(chopped, p, Entry(range, value)) == Inserted(es, range, value)
  {
    MidwayFree(now, es, p, q, range.start, range.end);
    InsertAround(now, es, p, q, range, value);
    var high := Entry(Range(range.end, es[q].key.end), es[q].value);
    AroundCases(now, p, high, Entry(range, value), high);
    EndFreeUpdated(now, range.end, p, high);
  }

  /** The new range covers the end of the old one exactly, which is chopped at the end. */
  lemma InsertOverEnd<V>(now: seq<RangeEntry<V>>, es: seq<RangeEntry<V>>, p: nat, q: nat, range: Range, value: V)
    requires Midway(now, es, p, q, range.start, range.end)
    requires q < |es| && es[q].key.start < range.start && range.end == es[q].key.end
    ensures p < |now| && EndFree(now, range.start, p)
    ensures var chopped := now[p := Entry(Range(es[q].key.start, range.start), es[q].value)];
      EndFree(chopped, range.end, -1) && Spliced(chopped, p + 1, Entry(range, value)) == Inserted(es, range, value)
  {
    MidwayFree(now, es, p, q, range.start, range.end);
    InsertAround(now, es, p, q, range, value);
    var low := Entry(Range(es[q].key.start, range.start), es[q].value);
    AroundCases(now, p, low, Entry(range, value), low);
    EndFreeUpdated(now, range.end, p, low);
  }

  /** The old range is covered and ends before the new one: it goes, and the scan goes on. */
  lemma DropCovered<V>(now: seq<RangeEntry<V>>, es: seq<RangeEntry<V>>, p: nat, q: nat, lo: nat, hi: nat)
    requires Midway(now, es, p, q, lo, hi)
    requires q < |es| && lo <= es[q].key.start && es[q].key.end < hi
    ensures p < |now| && Midway(Cut(now, p), es, p, q + 1, lo, hi)
  {
    hide Clip, Sorted;
    MidwayParts(now, es, p, q, lo, hi);
    ClipStep(es, q, 0, lo);
    SliceStep(es, q);
    UpdateConcat(Clip(es[..q], 0, lo), es[q..], es[q]);
    EndsAbove(es, q, lo);
  }

  /** The new range starts inside the old one and goes beyond it: the old one is chopped at the end. */
  lemma ChopEnd<V>(now: seq<RangeEntry<V>>, es: seq<RangeEntry<V>>, p: nat, q: nat, lo: nat, hi: nat)
    requires Midway(now, es, p, q, lo, hi)
    requires q < |es| && es[q].key.start < lo && es[q].key.end < hi
    ensures p < |now| && EndFree(now, lo, p)
    ensures Midway(now[p := Entry(Range(es[q].key.start, lo), es[q].value)], es, p + 1, q + 1, lo, hi)
  {
    MidwayFree(now, es, p, q, lo, hi);
    MidwayParts(now, es, p, q, lo, hi);
    ClipStep(es, q, 0, lo);
    SliceStep(es, q);
    UpdateConcat(Clip(es[..q], 0, lo), es[q..], Entry(Range(es[q].key.start, lo), es[q].value));
  }

  /** What a removal leaves and yields when it ends before entry `q`. */
  lemma RemoveBefore<V>(now: seq<RangeEntry<V>>, es: seq<RangeEntry<V>>, p: nat, q: nat, range: Range)
    requires Midway(now, es, p, q, range.start, range.end)
    requires q < |es| ==> range.end <= es[q].key.start
    ensures now == Removed(es, range) && Clip(es[..q], range.start, range.end) == Clip(es, range.start, range.end)
  {
    ScanStopsBefore(es, q, range.start, range.end);
  }

  /** What a removal leaves and yields when entry `q` reaches up to or beyond its end. */
  lemma RemoveAround<V>(now: seq<RangeEntry<V>>, es: seq<RangeEntry<V>>, p: nat, q: nat, range: Range)
    requires Midway(now, es, p, q, range.start, range.end) && q < |es| && range.end <= es[q].key.end
    ensures p < |now| && now[p] == es[q]
    ensures Removed(es, range) == Around(now, p, Piece(es[q], 0, range.start), [], Piece(es[q], range.end, TOP))
    ensures Clip(es, range.start, range.end)
         == Clip(es[..q], range.start, range.end) + Piece(es[q], range.start, range.end)
  {
    hide Midway, Clip, Piece, Sorted;
    MidwayEnds(now, es, p, q, range.start, range.end);
    MidwayParts(now, es, p, q, range.start, range.end);
    ScanStopsAt(es, q, range.start, range.end);
    ConcatRegroups(now[..p], Piece(es[q], 0, range.start), [], Piece(es[q], range.end, TOP), now[p + 1..]);
  }

  /** The old range is covered and both end together: it goes. */
  lemma RemoveWhole<V>(now: seq<RangeEntry<V>>, es: seq<RangeEntry<V>>, p: nat, q: nat, range: Range)
    requires Midway(now, es, p, q, range.start, range.end)
    requires q < |es| && range.start <= es[q].key.start && es[q].key.end == range.end
    ensures p < |now| && Removed(es, range) == Cut(now, p)
  {
    hide Midway, Clip, Removed, Around, Cut, Spliced, EndFree;
    MidwayEnds(now, es, p, q, range.start, range.end);
    MidwayFree(now, es, p, q, range.start, range.end);
    RemoveAround(now, es, p, q, range);
    AroundCases(now, p, es[q], es[q], es[q]);
  }

  /** The removed range lies inside the old one, of which two pieces stay. */
  lemma RemoveInside<V>(now: seq<RangeEntry<V>>, es: seq<RangeEntry<V>>, p: nat, q: nat, range: Range)
    requires Midway(now, es, p, q, range.start, range.end)
    requires q < |es| && es[q].key.start < range.start && range.end < es[q].key.end
    ensures p < |now| && EndFree(now, range.start, p)
    ensures var low := now[p := Entry(Range(es[q].key.start, range.start), es[q].value)];
      && EndFree(low, es[q].key.end, -1)
      && Removed(es, range) == Spliced(low, p + 1, Entry(Range(range.end, es[q].key.end), es[q].value))
  {
    hide Midway, Clip, Removed, Around, Cut, Spliced, EndFree;
    MidwayEnds(now, es, p, q, range.start, range.end);
    MidwayFree(now, es, p, q, range.start, range.end);
    RemoveAround(now, es, p, q, range);
    var low, high := Entry(Range(es[q].key.start, range.start), es[q].value),
      Entry(Range(range.end, es[q].key.end), es[q].value);
    AroundCases(now, p, low, low, high);
    EndFreeUpdated(now, es[q].key.end, p, low);
  }

  /** The removed range covers the start of the old one. */
  lemma RemoveOverStart<V>(now: seq<RangeEntry<V>>, es: seq<RangeEntry<V>>, p: nat, q: nat, range: Range)
    requires Midway(now, es, p, q, range.start, range.end)
    requires q < |es| && range.start <= es[q].key.start < range.end < es[q].key.end
    ensures p < |now| && EndFree(now, es[q].key.end, p)
    ensures Removed(es, range) == now[p := Entry(Range(range.end, es[q].key.end), es[q].value)]
  {
    hide Midway, Clip, Removed, Around, Cut, Spliced, EndFree;
    MidwayEnds(now, es, p, q, range.start, range.end);
    MidwayFree(now, es, p, q, range.start, range.end);
    RemoveAround(now, es, p, q, range);
    var high := Entry(Range(range.end, es[q].key.end), es[q].value);
    AroundCases(now, p, high, high, high);
  }

  /** The removed range covers the end of the old one exactly. */
  lemma RemoveOverEnd<V>(now: seq<RangeEntry<V>>, es: seq<RangeEntry<V>>, p: nat, q: nat, range: Range)
    requires Midway(now, es, p, q, range.start, range.end)
    requires q < |es| && es[q].key.start < range.start && range.end == es[q].key.end
    ensures p < |now| && EndFree(now, range.start, p)
    ensures Removed(es, range) == now[p := Entry(Range(es[q].key.start, range.start), es[q].value)]
  {
    hide Midway, Clip, Removed, Around, Cut, Spliced, EndFree;
    MidwayEnds(now, es, p, q, range.start, range.end);
    MidwayFree(now, es, p, q, range.start, range.end);
    RemoveAround(now, es, p, q, range);
    var low := Entry(Range(es[q].key.start, range.start), es[q].value);
    AroundCases(now, p, low, low, low);
  }

  /** The new range lies above, or below, everything. */
  lemma InsertAtBack<V>(es: seq<RangeEntry<V>>, range: Range, value: V)
    requires Sorted(es) && es != [] && es[|es| - 1].key.end <= range.start < range.end < TOP
    ensures EndFree(es, range.end, -1) && Spliced(es, |es|, Entry(range, value)) == Inserted(es, range, value)
  {
    ScanStart(es, |es|, range.start, range.end);
    InsertInGap(es, es, |es|, |es|, range, value);
  }

  lemma InsertAtFront<V>(es: seq<RangeEntry<V>>, range: Range, value: V)
    requires Sorted(es) && range.start < range.end < TOP && (es != [] ==> range.end <= es[0].key.start)
    ensures EndFree(es, range.end, -1) && Spliced(es, 0, Entry(range, value)) == Inserted(es, range, value)
  {
    ScanStart(es, 0, range.start, range.end);
    InsertInGap(es, es, 0, 0, range, value);
  }

  /** The removed range lies above, or below, everything. */
  lemma RemoveAtBack<V>(es: seq<RangeEntry<V>>, range: Range)
    requires Sorted(es) && es != [] && es[|es| - 1].key.end <= range.start < range.end < TOP
    ensures es == Removed(es, range) && Clip(es, range.start, range.end) == []
  {
    ScanStart(es, |es|, range.start, range.end);
    RemoveBefore(es, es, |es|, |es|, range);
  }

  lemma RemoveAtFront<V>(es: seq<RangeEntry<V>>, range: Range)
    requires Sorted(es) && range.start < range.end < TOP && (es != [] ==> range.end <= es[0].key.start)
    ensures es == Removed(es, range) && Clip(es, range.start, range.end) == []
  {
    ScanStart(es, 0, range.start, range.end);
    RemoveBefore(es, es, 0, 0, range);
  }

  /** Passing an entry yields the part of it inside the range. */
  lemma PassYields<V>(es: seq<RangeEntry<V>>, q: nat, range: Range)
    requires q < |es|
    ensures Clip(es[..q + 1], range.start, range.end)
         == Clip(es[..q], range.start, range.end) + Piece(es[q], range.start, range.end)
  {
    ClipStep(es, q, range.start, range.end);
  }

  lemma StopYields<V>(es: seq<RangeEntry<V>>, q: nat, range: Range)
    requires Scanned(es, q, range.end) && range.start <= range.end && q < |es| && range.end <= es[q].key.end
    ensures Clip(es, range.start, range.end)
         == Clip(es[..q], range.start, range.end) + Piece(es[q], range.start, range.end)
  {
    ScanStopsAt(es, q, range.start, range.end);
  }

  /** Entries with an address inside `[lo, hi)`, unclipped. */
  function Overlapping<V>(es: seq<RangeEntry<V>>, lo: nat, hi: nat): seq<RangeEntry<V>> {
    if es == [] then []
    else (if Piece(es[0], lo, hi) == [] then [] else [es[0]]) + Overlapping(es[1..], lo, hi)
  }

  /** An entry overlaps exactly if it has an address in the interval. */
  lemma {:induction false} OverlapsIff<V>(es: seq<RangeEntry<V>>, lo: nat, hi: nat, e: RangeEntry<V>)
    requires forall i :: 0 <= i < |es| ==> es[i].key.start < es[i].key.end
    ensures e in Overlapping(es, lo, hi) <==> e in es && exists a: nat :: Shared(e, lo, hi, a)
  {
    if es != [] {
      OverlapsIff(es[1..], lo, hi, e);
      var first := es[0];
      if Piece(first, lo, hi) != [] {
        assert Shared(first, lo, hi, Max(lo, first.key.start));
      }
      assert es == [first] + es[1..];
    }
  }

  predicate Shared<V>(e: RangeEntry<V>, lo: nat, hi: nat, a: nat) {
    e.key.start <= a < e.key.end && lo <= a < hi
  }

  lemma {:induction false} OverlappingConcat<V>(a: seq<RangeEntry<V>>, b: seq<RangeEntry<V>>, lo: nat, hi: nat)
    ensures Overlapping(a + b, lo, hi) == Overlapping(a, lo, hi) + Overlapping(b, lo, hi)
  {
    hide Piece;
    if a == [] {
      assert a + b == b;
    } else {
      OverlappingConcat(a[1..], b, lo, hi);
      assert (a + b)[0] == a[0] && (a + b)[1..] == a[1..] + b;
      var first := if Piece(a[0], lo, hi) == [] then [] else [a[0]];
      ConcatAssoc(first, Overlapping(a[1..], lo, hi), Overlapping(b, lo, hi));
    }
  }

  lemma {:induction false} OverlappingNone<V>(es: seq<RangeEntry<V>>, lo: nat, hi: nat)
    requires forall i :: 0 <= i < |es| ==> es[i].key.end <= lo || hi <= es[i].key.start
    ensures Overlapping(es, lo, hi) == []
  {
    if es != [] {
      OverlappingNone(es[1..], lo, hi);
    }
  }

  lemma {:induction false} OverlappingEmpty<V>(es: seq<RangeEntry<V>>, lo: nat, hi: nat)
    requires hi <= lo
    ensures Overlapping(es, lo, hi) == []
  {
    if es != [] {
      OverlappingEmpty(es[1..], lo, hi);
    }
  }

  lemma {:induction false} OverlappingAll<V>(es: seq<RangeEntry<V>>, lo: nat, hi: nat)
    requires forall i :: 0 <= i < |es| ==> Piece(es[i], lo, hi) != []
    ensures Overlapping(es, lo, hi) == es
  {
    if es != [] {
      var tail := es[1..];
      OverlappingAll(tail, lo, hi);
      assert es == [es[0]] + tail;
    }
  }

  lemma OverlappingParts<V>(before: seq<RangeEntry<V>>, inside: seq<RangeEntry<V>>, after: seq<RangeEntry<V>>, lo: nat,
      hi: nat)
    requires forall i :: 0 <= i < |before| ==> before[i].key.end <= lo
    requires forall i :: 0 <= i < |inside| ==> Piece(inside[i], lo, hi) != []
    requires forall i :: 0 <= i < |after| ==> hi <= after[i].key.start
    ensures Overlapping(before + (inside + after), lo, hi) == inside
  {
    OverlappingConcat(before, inside + after, lo, hi);
    OverlappingConcat(inside, after, lo, hi);
    OverlappingNone(before, lo, hi);
    OverlappingAll(inside, lo, hi);
    OverlappingNone(after, lo, hi);
  }

  lemma PieceFrom<V>(es: seq<RangeEntry<V>>, first: nat, i: nat, lo: nat, hi: nat)
    requires Sorted(es) && first <= i < |es| && lo < hi && lo < es[first].key.end && es[i].key.start < hi
    ensures Piece(es[i], lo, hi) != []
  {
    assert es[first].key.end <= es[i].key.end by {
      assert first < i ==> es[first].key.end <= es[i].key.start;
    }
  }

  lemma StartsFrom<V>(es: seq<RangeEntry<V>>, q: nat, i: nat, hi: nat)
    requires Sorted(es) && q <= i < |es| && hi <= es[q].key.start
    ensures hi <= es[i].key.start
  {
    assert q < i ==> es[q].key.end <= es[i].key.start;
  }

  /** From the first entry that ends above `lo` up to the first that starts at `hi` or above, all overlap. */
  lemma OverlappingSlice<V>(es: seq<RangeEntry<V>>, first: nat, q: nat, lo: nat, hi: nat)
    requires Sorted(es) && first <= q <= |es| && lo < hi
    requires forall i :: 0 <= i < first ==> es[i].key.end <= lo
    requires first < |es| ==> lo < es[first].key.end
    requires forall i :: first <= i < q ==> es[i].key.start < hi
    requires q < |es| ==> hi <= es[q].key.start
    ensures Overlapping(es, lo, hi) == es[first..q]
  {
    hide Overlapping, Sorted, Piece;
    var before, inside, after := es[..first], es[first..q], es[q..];
    forall i | 0 <= i < |inside| ensures Piece(inside[i], lo, hi) != [] {
      PieceFrom(es, first, first + i, lo, hi);
    }
    forall i | 0 <= i < |after| ensures hi <= after[i].key.start {
      StartsFrom(es, q, q + i, hi);
    }
    SliceIsThree(es, first, q);
    OverlappingParts(before, inside, after, lo, hi);
  }

  lemma {:induction false} OverlappingMember<V>(es: seq<RangeEntry<V>>, lo: nat, hi: nat, i: nat)
    requires i < |Overlapping(es, lo, hi)|
    ensures Piece(Overlapping(es, lo, hi)[i], lo, hi) != []
  {
    var head := if Piece(es[0], lo, hi) == [] then [] else [es[0]];
    if i >= |head| {
      OverlappingMember(es[1..], lo, hi, i - |head|);
    }
  }

  /** Clipping the overlapping entries is clipping the map. */
  lemma {:induction false} ClipOverlapping<V>(es: seq<RangeEntry<V>>, lo: nat, hi: nat)
    ensures Clip(Overlapping(es, lo, hi), lo, hi) == Clip(es, lo, hi)
  {
    if es != [] {
      ClipOverlapping(es[1..], lo, hi);
      var head := if Piece(es[0], lo, hi) == [] then [] else [es[0]];
      ClipConcat(head, Overlapping(es[1..], lo, hi), lo, hi);
      assert Clip(head, lo, hi) == Piece(es[0], lo, hi);
    }
  }

  lemma InsertedSorted<V>(es: seq<RangeEntry<V>>, range: Range, value: V)
    requires Sorted(es) && range.end < TOP
    ensures Sorted(Inserted(es, range, value))
  {
    hide Clip;
    ClipSorted(es, 0, range.start);
    ClipSorted(es, range.end, TOP);
  }

  lemma RemovedSorted<V>(es: seq<RangeEntry<V>>, range: Range)
    requires Sorted(es)
    ensures Sorted(Removed(es, range))
  {
    hide Clip;
    ClipSorted(es, 0, range.start);
    ClipSorted(es, range.end, TOP);
  }

  /** An insertion overwrites exactly the addresses of its range. */
  lemma InsertedPoint<V>(es: seq<RangeEntry<V>>, range: Range, value: V, a: nat)
    requires a < TOP
    ensures PointAt(Inserted(es, range, value), a)
      == if range.start <= a < range.end then Some(value) else PointAt(es, a)
  {
    var below, above := Clip(es, 0, range.start), Clip(es, range.end, TOP);
    PointConcat(below + [Entry(range, value)], above, a);
    PointConcat(below, [Entry(range, value)], a);
    PointClip(es, 0, range.start, a);
    PointClip(es, range.end, TOP, a);
  }

  /** A removal empties exactly the addresses of its range. */
  lemma RemovedPoint<V>(es: seq<RangeEntry<V>>, range: Range, a: nat)
    requires a < TOP
    ensures PointAt(Removed(es, range), a) == if range.start <= a < range.end then None else PointAt(es, a)
  {
    PointConcat(Clip(es, 0, range.start), Clip(es, range.end, TOP), a);
    PointClip(es, 0, range.start, a);
    PointClip(es, range.end, TOP, a);
  }

  /** One call on a range map. */
  datatype Command<V> = Insert(range: Range, value: V) | Remove(range: Range) | Clear

  function Applied<V>(es: seq<RangeEntry<V>>, c: Command<V>): seq<RangeEntry<V>> {
    match c
    case Insert(range, value) => Inserted(es, range, value)
    case Remove(range) => Removed(es, range)
    case Clear => []
  }

  /** The entries after a sequence of calls on an empty map. */
  function Run<V>(commands: seq<Command<V>>): seq<RangeEntry<V>> {
    if commands == [] then [] else Applied(Run(commands[..|commands| - 1]), commands[|commands| - 1])
  }

  /** The reference: the last command that touches the address decides. */
  function LastWrite<V>(commands: seq<Command<V>>, a: nat): Option<V> {
    if commands == [] then None
    else match commands[|commands| - 1]
      case Insert(range, value) =>
        if range.start <= a < range.end then Some(value) else LastWrite(commands[..|commands| - 1], a)
      case Remove(range) =>
        if range.start <= a < range.end then None else LastWrite(commands[..|commands| - 1], a)
      case Clear => None
  }

  /** Over every run the map is sorted and agrees at every address with last-writer-wins. */
  lemma {:induction false} LastWriterWins<V>(commands: seq<Command<V>>, a: nat)
    requires a < TOP
    requires forall i :: 0 <= i < |commands| && commands[i].Insert? ==> commands[i].range.end < TOP
    ensures Sorted(Run(commands)) && PointAt(Run(commands), a) == LastWrite(commands, a)
  {
    if commands != [] {
      var rest, c := commands[..|commands| - 1], commands[|commands| - 1];
      LastWriterWins(rest, a);
      match c {
        case Insert(range, value) =>
          InsertedSorted(Run(rest), range, value);
          InsertedPoint(Run(rest), range, value, a);
        case Remove(range) =>
          RemovedSorted(Run(rest), range);
          RemovedPoint(Run(rest), range, a);
        case Clear =>
      }
    }
  }

  /** Removed pieces and remaining entries together are the old map, and share no address. */
  lemma RemovalConserves<V>(es: seq<RangeEntry<V>>, range: Range, a: nat)
    requires a < TOP
    ensures var taken, left := PointAt(Clip(es, range.start, range.end), a), PointAt(Removed(es, range), a);
      OrElse(taken, left) == PointAt(es, a) && (taken == None || left == None)
  {
    RemovedPoint(es, range, a);
    PointClip(es, range.start, range.end, a);
  }
}
