/** Points on a common axis: sparse series filled in as step functions, and stacked on each other. */
module Datapoints {
  import opened Basics
  import opened Sorting
  import Timeline

  datatype Datum = Datum(key: nat, value: int)

  /** Ways in which filling in a series stops the program. */
  datatype Panic = AxisTooShort | AxisStartsLate | AxisEndsEarly | AxisExhausted | Unreachable

  predicate Ascending(xs: seq<nat>) {
    forall i, j :: 0 <= i < j < |xs| ==> xs[i] < xs[j]
  }

  predicate AscendingKeys(points: seq<Datum>) {
    forall i, j :: 0 <= i < j < |points| ==> points[i].key < points[j].key
  }

  /** The axis increases, and the keys of the series are on it. */
  predicate OnAxis(xs: seq<nat>, points: seq<Datum>) {
    Ascending(xs) && forall j :: 0 <= j < |points| ==> points[j].key in xs
  }

  /** The keys of the series are on the axis and increase themselves. */
  predicate Fits(xs: seq<nat>, points: seq<Datum>) {
    OnAxis(xs, points) && AscendingKeys(points)
  }

  /** How far the keys increase, among the first `n` points. */
  function Rising(points: seq<Datum>, n: nat): (r: nat)
    requires n <= |points|
    ensures r <= n && (n > 0 ==> r > 0)
  {
    if n <= 1 then n
    else if Rising(points, n - 1) == n - 1 && points[n - 2].key < points[n - 1].key then n
    else Rising(points, n - 1)
  }

  /** The points up to the first whose key does not increase. */
  function RisingPart(points: seq<Datum>): (r: seq<Datum>)
    ensures r <= points && (points != [] ==> r != [])
  {
    points[..Rising(points, |points|)]
  }

  /** There is room for the points, and their keys increase to the end or to the last place on the axis. */
  predicate Expandable(xs: seq<nat>, points: seq<Datum>) {
    var rising := RisingPart(points);
    points == [] ||
    (0 < |points| <= |xs| && (rising == points || rising[|rising| - 1].key == xs[|xs| - 1]))
  }

  lemma {:induction false} RisingAscends(points: seq<Datum>, n: nat)
    requires n <= |points|
    ensures AscendingKeys(points[..Rising(points, n)])
    ensures Rising(points, n) < n ==> points[Rising(points, n)].key <= points[Rising(points, n) - 1].key
  {
    if n > 1 {
      RisingAscends(points, n - 1);
      if Rising(points, n) == n {
        assert points[..n][..n - 1] == points[..n - 1];
        forall i, j | 0 <= i < j < n ensures points[i].key < points[j].key {
          assert points[..n - 1][n - 2] == points[n - 2] && points[..n - 1][i] == points[i];
          assert i < n - 2 ==> points[..n - 1][i].key < points[..n - 1][n - 2].key;
          assert j < n - 1 ==> points[..n - 1][i].key < points[..n - 1][j].key;
        }
      }
    }
  }

  /** A series that fits can be expanded. */
  lemma FitsExpandable(xs: seq<nat>, points: seq<Datum>)
    requires Fits(xs, points)
    ensures RisingPart(points) == points && Expandable(xs, points)
  {
    RisingAscends(points, |points|);
    if points != [] {
      AxisSuffices(xs, points);
    }
  }

  /** The step function of the first `n` points: at every place the value of the latest point, or zero. */
  function StepAt(points: seq<Datum>, n: nat, x: nat): int
    requires n <= |points|
  {
    if n == 0 then 0 else if points[n - 1].key <= x then points[n - 1].value else StepAt(points, n - 1, x)
  }

  ghost predicate IsStep(xs: seq<nat>, points: seq<Datum>, expanded: seq<Datum>) {
    |expanded| == |xs| && forall i :: 0 <= i < |xs| ==> expanded[i] == Datum(xs[i], StepAt(points, |points|, xs[i]))
  }

  /** Points after `x` do not matter at `x`. */
  lemma {:induction false} StepSettled(points: seq<Datum>, n: nat, m: nat, x: nat)
    requires n <= m <= |points| && AscendingKeys(points) && (n < |points| ==> x < points[n].key)
    ensures StepAt(points, m, x) == StepAt(points, n, x)
  {
    if n < m {
      StepSettled(points, n, m - 1, x);
      assert points[n].key <= points[m - 1].key;
    }
  }

  /** The keys on an axis are at least as far along it as they are in their series. */
  lemma {:induction false} KeyPlace(xs: seq<nat>, points: seq<Datum>, j: nat) returns (i: nat)
    requires Fits(xs, points) && j < |points|
    ensures j <= i < |xs| && xs[i] == points[j].key
  {
    assert points[j].key in xs;
    i :| 0 <= i < |xs| && xs[i] == points[j].key;
    if j > 0 {
      var k := KeyPlace(xs, points, j - 1);
      assert points[j - 1].key < points[j].key;
    }
  }

  lemma AxisSuffices(xs: seq<nat>, points: seq<Datum>)
    requires Fits(xs, points) && points != []
    ensures |points| <= |xs| && xs[0] <= points[0].key && points[|points| - 1].key <= xs[|xs| - 1]
  {
    var i := KeyPlace(xs, points, 0);
    var k := KeyPlace(xs, points, |points| - 1);
  }

  /** A key after what was read of the axis is still ahead. */
  lemma StillAhead(xs: seq<nat>, points: seq<Datum>, d: nat, s: nat)
    requires Fits(xs, points) && s < |points| && d <= |xs| && (d > 0 ==> xs[d - 1] < points[s].key)
    ensures d < |xs| && xs[d] <= points[s].key
  {
    var i := KeyPlace(xs, points, s);
  }

  /** The first `d` places are filled in. */
  ghost predicate Filled(xs: seq<nat>, points: seq<Datum>, expanded: seq<Datum>, d: nat)
    requires d <= |xs|
  {
    |expanded| == d && forall i :: 0 <= i < d ==> expanded[i] == Datum(xs[i], StepAt(points, |points|, xs[i]))
  }

  /** The axis was read up to `d` and the points up to `s`. */
  ghost predicate Reading(xs: seq<nat>, points: seq<Datum>, d: nat, s: nat, last: int) {
    && d <= |xs| && s <= |points| && last == (if s == 0 then 0 else points[s - 1].value)
    && (s > 0 ==> d > 0 && points[s - 1].key <= xs[d - 1])
    && (s < |points| ==> d < |xs| && xs[d] <= points[s].key)
  }

  /** The next point is the first whose key does not increase, and the one before it was just filled in. */
  ghost predicate Stuck(xs: seq<nat>, points: seq<Datum>, d: nat, s: nat) {
    0 < s < |points| && 0 < d < |xs| && xs[d - 1] == points[s - 1].key && points[s].key <= points[s - 1].key
  }

  /** Between the points before `s` and point `s`: the places up to `d` are filled in, and `d` is still to come. */
  ghost predicate Between(xs: seq<nat>, points: seq<Datum>, expanded: seq<Datum>, d: nat, s: nat, last: int) {
    && Fits(xs, points) && s < |points| && d < |xs| && xs[d] <= points[s].key && Filled(xs, points, expanded, d)
    && last == (if s == 0 then 0 else points[s - 1].value)
    && (s > 0 ==> d > 0 && points[s - 1].key <= xs[d - 1])
  }

  lemma FillBefore(xs: seq<nat>, points: seq<Datum>, expanded: seq<Datum>, d: nat, s: nat, last: int)
    requires Between(xs, points, expanded, d, s, last) && xs[d] < points[s].key
    ensures Between(xs, points, expanded + [Datum(xs[d], last)], d + 1, s, last)
  {
    hide AscendingKeys;
    StepSettled(points, s, |points|, xs[d]);
    StillAhead(xs, points, d + 1, s);
    if s > 0 {
      assert xs[d - 1] < xs[d];
    }
  }

  lemma FillPoint(xs: seq<nat>, points: seq<Datum>, expanded: seq<Datum>, d: nat, s: nat, last: int)
    requires Between(xs, points, expanded, d, s, last) && xs[d] == points[s].key
    ensures Filled(xs, points, expanded + [Datum(xs[d], points[s].value)], d + 1)
    ensures Reading(xs, points, d + 1, s + 1, points[s].value)
  {
    StepSettled(points, s + 1, |points|, xs[d]);
    if s + 1 < |points| {
      StillAhead(xs, points, d + 1, s + 1);
    }
  }

  /** Fills in up to and including the place of the next point, which is one of the rising part. */
  method ExpandToPoint(xs: seq<nat>, points: seq<Datum>, ghost rising: seq<Datum>, expanded: seq<Datum>,
      start: nat, s: nat, last: int)
    returns (r: Result<(seq<Datum>, nat), Panic>)
    requires start < |xs| && s < |points| && |expanded| == start
    ensures r.Ok? ==> start < r.value.1 <= |xs| && |r.value.0| == r.value.1
    ensures
      && s < |rising| && points[s] == rising[s] && Between(xs, rising, expanded, start, s, last)
      ==>
      && r.Ok? && Filled(xs, rising, r.value.0, r.value.1)
      && Reading(xs, rising, r.value.1, s + 1, points[s].value) && xs[r.value.1 - 1] == points[s].key
    ensures Ascending(xs) && Stuck(xs, points, start, s) ==> r == Err(Unreachable)
  {
    hide Between, Filled, Reading;
    ghost var fits := s < |rising| && points[s] == rising[s] && Between(xs, rising, expanded, start, s, last);
    var sparse, d, longer := points[s], start, expanded;
    if fits {
      BetweenFacts(xs, rising, expanded, start, s, last);
    }
    if xs[d] > sparse.key {
      return Err(Unreachable);
    }
    while xs[d] < sparse.key
      invariant start <= d < |xs| && |longer| == d
      invariant fits ==> Between(xs, rising, longer, d, s, last) && xs[d] <= sparse.key
      decreases |xs| - d
    {
      if fits {
        FillBefore(xs, rising, longer, d, s, last);
        BetweenFacts(xs, rising, longer + [Datum(xs[d], last)], d + 1, s, last);
      }
      longer := longer + [Datum(xs[d], last)];
      if d + 1 == |xs| {
        return Err(AxisExhausted);
      }
      d := d + 1;
    }
    if fits {
      FillPoint(xs, rising, longer, d, s, last);
    }
    r := Ok((longer + [Datum(xs[d], sparse.value)], d + 1));
  }

  lemma BetweenFacts(xs: seq<nat>, points: seq<Datum>, expanded: seq<Datum>, d: nat, s: nat, last: int)
    requires Between(xs, points, expanded, d, s, last)
    ensures d < |xs| && s < |points| && xs[d] <= points[s].key
  {}

  /** Fills in the rest of the axis after the last point. */
  method ExpandRest(xs: seq<nat>, points: seq<Datum>, expanded: seq<Datum>, start: nat) returns (r: seq<Datum>)
    requires points != [] && start <= |xs| && |expanded| == start
    ensures |r| == |xs|
    ensures
      && Fits(xs, points) && Filled(xs, points, expanded, start)
      && Reading(xs, points, start, |points|, points[|points| - 1].value)
      ==> IsStep(xs, points, r)
  {
    r := expanded;
    ghost var fits := Fits(xs, points) && Filled(xs, points, expanded, start) &&
      Reading(xs, points, start, |points|, points[|points| - 1].value);
    for d := start to |xs|
      invariant |r| == d && (fits ==> Filled(xs, points, r, d) && 0 < d && points[|points| - 1].key <= xs[d - 1])
    {
      if fits {
        assert xs[d - 1] < xs[d];
        StepAfterAll(points, xs[d]);
      }
      r := r + [Datum(xs[d], points[|points| - 1].value)];
    }
  }

  /** Where the points were read up to `s` and the axis up to `d`, with everything in order so far. */
  ghost predicate Expanding(xs: seq<nat>, points: seq<Datum>, expanded: seq<Datum>, d: nat, s: nat, last: int) {
    var rising := RisingPart(points);
    && Reading(xs, rising, d, s, last) && Filled(xs, rising, expanded, d)
    && (s > 0 ==> xs[d - 1] == rising[s - 1].key)
  }

  /** Fills in a series place by place until the points or the axis are used up. */
  method ExpandPoints(xs: seq<nat>, points: seq<Datum>) returns (r: Result<(seq<Datum>, nat), Panic>)
    requires 0 < |points| <= |xs|
    ensures r.Ok? ==> |r.value.0| <= |xs| && r.value.1 <= |points| && (r.value.1 == |points| || |r.value.0| == |xs|)
    ensures OnAxis(xs, points) ==> if Expandable(xs, points)
      then r.Ok? && r.value.1 == |RisingPart(points)| &&
        Expanding(xs, points, r.value.0, |r.value.0|, r.value.1, points[r.value.1 - 1].value)
      else r == Err(Unreachable)
  {
    hide Rising, Ascending, AscendingKeys;
    ghost var onAxis, rising := OnAxis(xs, points), RisingPart(points);
    RisingAscends(points, |points|);
    if onAxis {
      RisingFits(xs, points);
    }
    var expanded: seq<Datum> := [];
    var last, d, s := 0, 0, 0;
    while d < |xs| && s < |points|
      invariant d <= |xs| && s <= |points| && |expanded| == d && (s > 0 ==> last == points[s - 1].value)
      invariant onAxis ==> s <= |rising| && Expanding(xs, points, expanded, d, s, last)
      decreases |xs| - d
    {
      var next := ExpandToPoint(xs, points, rising, expanded, d, s, last);
      if onAxis && s == |rising| {
        NotLast(xs, d);
        assert Stuck(xs, points, d, s);
      }
      if next.Err? {
        return Err(next.error);
      }
      expanded, d := next.value.0, next.value.1;
      last := points[s].value;
      s := s + 1;
    }
    r := Ok((expanded, s));
  }

  lemma NotLast(xs: seq<nat>, d: nat)
    requires Ascending(xs) && 0 < d < |xs|
    ensures xs[d - 1] < xs[|xs| - 1]
  {}

  lemma RisingFits(xs: seq<nat>, points: seq<Datum>)
    requires OnAxis(xs, points) && points != []
    ensures Fits(xs, RisingPart(points)) && xs != [] && xs[0] <= points[0].key
  {
    var rising := RisingPart(points);
    RisingAscends(points, |points|);
    forall j | 0 <= j < |rising| ensures rising[j].key in xs {
      assert rising[j] == points[j];
    }
    AxisSuffices(xs, rising);
  }

  lemma LastOnAxis(xs: seq<nat>, x: nat)
    requires Ascending(xs) && x in xs
    ensures xs[0] <= x <= xs[|xs| - 1]
  {}

  /**
   Fills in a series: every place on the axis gets the value of the latest point. On an axis that holds the
   keys this works exactly if the series is expandable, and then uses the points as far as they rise; if it
   does not work, either the axis is too short or a key comes back.
   */
  method ExpandDatapoints(xs: seq<nat>, points: seq<Datum>) returns (r: Result<seq<Datum>, Panic>)
    ensures OnAxis(xs, points) ==> if Expandable(xs, points)
      then r.Ok? && IsStep(xs, RisingPart(points), r.value)
      else r == Err(if |xs| < |points| then AxisTooShort else Unreachable)
    ensures Fits(xs, points) ==> r.Ok? && IsStep(xs, points, r.value)
    ensures xs == [] ==> r == Ok([])
    ensures r.Ok? ==> |r.value| == |xs|
  {
    hide Rising, Ascending, AscendingKeys, StepAt;
    if Fits(xs, points) {
      FitsExpandable(xs, points);
    }
    assert OnAxis(xs, points) && points != [] ==> points[0].key in xs;
    if xs == [] {
      return Ok([]);
    }
    if points == [] {
      var zeros := FillZeros(xs);
      return Ok(zeros);
    }
    if |xs| < |points| {
      return Err(AxisTooShort);
    }
    if OnAxis(xs, points) {
      LastOnAxis(xs, points[0].key);
      LastOnAxis(xs, points[|points| - 1].key);
    }
    if xs[0] > points[0].key {
      return Err(AxisStartsLate);
    }
    if xs[|xs| - 1] < points[|points| - 1].key {
      return Err(AxisEndsEarly);
    }
    var filled := ExpandPoints(xs, points);
    if filled.Err? {
      return Err(filled.error);
    }
    var expanded, s := filled.value.0, filled.value.1;
    if OnAxis(xs, points) {
      RisingFits(xs, points);
      assert s == |points| ==> RisingPart(points) == points;
    }
    if s == |points| {
      expanded := ExpandRest(xs, points, expanded, |expanded|);
    }
    r := Ok(expanded);
  }

  lemma StepAfterAll(points: seq<Datum>, x: nat)
    requires points != []
    ensures points[|points| - 1].key <= x ==> StepAt(points, |points|, x) == points[|points| - 1].value
  {}

  method FillZeros(xs: seq<nat>) returns (r: seq<Datum>)
    ensures IsStep(xs, [], r)
  {
    r := seq(|xs|, i requires 0 <= i < |xs| => Datum(xs[i], 0));
  }

  // ----- Stacking

  /** The sum at place `i` of the first `n` series, leaving out the empty ones. */
  function StackAt(series: seq<seq<Datum>>, n: nat, i: nat): int
    requires n <= |series| && forall k :: 0 <= k < |series| && series[k] != [] ==> i < |series[k]|
  {
    if n == 0 then 0 else StackAt(series, n - 1, i) + (if series[n - 1] == [] then 0 else series[n - 1][i].value)
  }

  ghost predicate Wide(series: seq<seq<Datum>>, width: nat) {
    forall k :: 0 <= k < |series| && series[k] != [] ==> |series[k]| == width
  }

  /** Places before `i` of every series, and place `i` of the first `n`, hold the stacked sum. */
  ghost predicate StackedUpTo(before: seq<seq<Datum>>, series: seq<seq<Datum>>, width: nat, i: nat, n: nat) {
    && |series| == |before| && Wide(before, width) && Wide(series, width)
    && (forall k :: 0 <= k < |series| ==> |series[k]| == |before[k]|)
    && (forall k, x :: 0 <= k < |series| && 0 <= x < |series[k]| ==>
          series[k][x] == StackedPoint(before, k, x, width, i, n))
  }

  ghost function StackedPoint(before: seq<seq<Datum>>, k: nat, x: nat, width: nat, i: nat, n: nat): Datum
    requires Wide(before, width) && k < |before| && x < |before[k]|
  {
    if x < i || (x == i && k < n) then before[k][x].(value := StackAt(before, k + 1, x)) else before[k][x]
  }

  /** Adds up the series at one place. */
  method StackPlace(before: seq<seq<Datum>>, series: seq<seq<Datum>>, width: nat, i: nat) returns (r: seq<seq<Datum>>)
    requires i < width && StackedUpTo(before, series, width, i, 0)
    ensures StackedUpTo(before, r, width, i, |before|)
  {
    r := series;
    var value := 0;
    var n := 0;
    while n < |r|
      invariant n <= |r| && StackedUpTo(before, r, width, i, n) && value == StackAt(before, n, i)
    {
      if r[n] != [] {
        value := value + r[n][i].value;
        r := r[n := r[n][i := r[n][i].(value := value)]];
      }
      n := n + 1;
    }
  }

  /** Every series sits on top of those before it. */
  method Stack(series: seq<seq<Datum>>, width: nat) returns (r: seq<seq<Datum>>)
    requires Wide(series, width)
    ensures StackedUpTo(series, r, width, width, 0)
  {
    r := series;
    var i := 0;
    while i < width
      invariant i <= width && StackedUpTo(series, r, width, i, 0)
    {
      r := StackPlace(series, r, width, i);
      i := i + 1;
    }
  }

  /** The lowest series that is not empty stays where it is. */
  lemma StackedFirst(series: seq<seq<Datum>>, stacked: seq<seq<Datum>>, width: nat, k: nat, x: nat)
    requires StackedUpTo(series, stacked, width, width, 0) && k < |series| && x < |series[k]|
    requires forall j :: 0 <= j < k ==> series[j] == []
    ensures stacked[k][x] == series[k][x]
  {
    StackSkips(series, 0, k, x);
  }

  /** Every other one is above the one before it by its own value. */
  lemma StackedNext(series: seq<seq<Datum>>, stacked: seq<seq<Datum>>, width: nat, j: nat, k: nat, x: nat)
    requires StackedUpTo(series, stacked, width, width, 0) && j < k < |series| && x < |series[k]|
    requires series[j] != [] && forall i :: j < i < k ==> series[i] == []
    ensures |stacked[j]| == |stacked[k]| == width && stacked[k][x].key == series[k][x].key
    ensures stacked[k][x].value - stacked[j][x].value == series[k][x].value
  {
    StackSkips(series, j + 1, k, x);
  }

  lemma {:induction false} StackSkips(series: seq<seq<Datum>>, n: nat, m: nat, x: nat)
    requires n <= m <= |series| && forall k :: 0 <= k < |series| && series[k] != [] ==> x < |series[k]|
    requires forall k :: n <= k < m ==> series[k] == []
    ensures StackAt(series, m, x) == StackAt(series, n, x)
    decreases m
  {
    if n < m {
      StackSkips(series, n, m - 1, x);
    }
  }

  // ----- Several series on one axis

  function Itself(): nat -> nat { (x: nat) => x }

  lemma {:induction false} OnceEach(xs: seq<nat>, x: nat)
    requires Distinct(xs)
    ensures multiset(xs)[x] <= 1
  {
    if xs != [] {
      var rest, last := xs[..|xs| - 1], xs[|xs| - 1];
      assert xs == rest + [last];
      OnceEach(rest, x);
      if x == last {
        assert x !in rest;
        assert x !in multiset(rest);
      }
    }
  }

  /** Sorting different numbers makes them strictly increasing. */
  lemma SortedAxis(xs: seq<nat>)
    requires Distinct(xs)
    ensures var axis := Sort(xs, |xs|, Itself()); Ascending(axis) && forall x :: x in axis <==> x in xs
  {
    var axis := Sort(xs, |xs|, Itself());
    Sorts(xs, |xs|, Itself());
    assert xs[..|xs|] == xs;
    assert forall x :: x in axis <==> x in multiset(axis);
    forall i, j | 0 <= i < j < |axis| ensures axis[i] < axis[j] {
      assert Itself()(axis[i]) <= Itself()(axis[j]);
      OnceEach(xs, axis[i]);
      TwiceIfEqual(axis, i, j);
    }
  }

  lemma TwiceIfEqual(s: seq<nat>, i: nat, j: nat)
    requires i < j < |s|
    ensures s[i] == s[j] ==> multiset(s)[s[i]] >= 2
  {
    assert s == s[..i] + [s[i]] + s[i + 1..j] + [s[j]] + s[j + 1..];
  }

  /** The first `n` series filled in, as far as their keys rise; empty ones stay empty. */
  ghost predicate ExpandedSeries(axis: seq<nat>, series: seq<seq<Datum>>, expanded: seq<seq<Datum>>, n: nat) {
    && |expanded| == |series|
    && (forall k :: 0 <= k < |series| ==>
          if k < n && series[k] != [] then IsStep(axis, RisingPart(series[k]), expanded[k])
          else expanded[k] == series[k])
  }

  ghost predicate AllOnAxis(axis: seq<nat>, series: seq<seq<Datum>>) {
    forall k :: 0 <= k < |series| ==> OnAxis(axis, series[k])
  }

  /** The first `n` series can all be expanded. */
  ghost predicate AllExpandable(axis: seq<nat>, series: seq<seq<Datum>>, n: nat)
    requires n <= |series|
  {
    forall k :: 0 <= k < n ==> Expandable(axis, series[k])
  }

  method ExpandAll(axis: seq<nat>, series: seq<seq<Datum>>) returns (r: Result<seq<seq<Datum>>, Panic>)
    ensures AllOnAxis(axis, series) ==>
      && (r.Ok? <==> AllExpandable(axis, series, |series|))
      && (r.Ok? ==> ExpandedSeries(axis, series, r.value, |series|))
    ensures r.Ok? ==> Wide(r.value, |axis|)
  {
    hide Fits, OnAxis, IsStep, Expandable, RisingPart;
    var expanded := series;
    var n := 0;
    while n < |series|
      invariant n <= |series| == |expanded|
      invariant forall k :: 0 <= k < n && expanded[k] != [] ==> |expanded[k]| == |axis|
      invariant forall k :: n <= k < |series| ==> expanded[k] == series[k]
      invariant AllOnAxis(axis, series) ==>
        AllExpandable(axis, series, n) && ExpandedSeries(axis, series, expanded, n)
    {
      if expanded[n] != [] {
        var filled := ExpandDatapoints(axis, expanded[n]);
        if filled.Err? {
          return Err(filled.error);
        }
        expanded := expanded[n := filled.value];
      } else {
        EmptyExpandable(axis);
      }
      n := n + 1;
    }
    r := Ok(expanded);
  }

  lemma EmptyExpandable(axis: seq<nat>)
    ensures Expandable(axis, [])
  {}

  /** All series on one sorted axis, filled in and stacked; this works exactly if all can be expanded. */
  method FinalizeDatapoints(xs: seq<nat>, series: seq<seq<Datum>>)
    returns (r: Result<(seq<nat>, seq<seq<Datum>>), Panic>, ghost expanded: seq<seq<Datum>>)
    requires Distinct(xs)
    ensures r.Ok? ==> Ascending(r.value.0) && (forall x :: x in r.value.0 <==> x in xs)
    ensures r.Ok? ==> StackedUpTo(expanded, r.value.1, |r.value.0|, |r.value.0|, 0)
    ensures var axis := Sort(xs, |xs|, Itself());
      AllOnAxis(axis, series) ==>
      && (r.Ok? <==> AllExpandable(axis, series, |series|))
      && (r.Ok? ==> r.value.0 == axis && ExpandedSeries(axis, series, expanded, |series|))
  {
    hide Sort, Ascending, StackedUpTo, AllExpandable, AllOnAxis, ExpandedSeries;
    expanded := [];
    var axis := Sort(xs, |xs|, Itself());
    SortedAxis(xs);
    var filled := ExpandAll(axis, series);
    if filled.Err? {
      return Err(filled.error), [];
    }
    expanded := filled.value;
    var stacked := Stack(filled.value, |axis|);
    r := Ok((axis, stacked));
  }

  /** One curve of a timeline as a series. */
  function Curve(points: seq<Timeline.Point>, pick: Timeline.Point -> int): (c: seq<Datum>)
    ensures |c| == |points|
  {
    seq(|points|, i requires 0 <= i < |points| => Datum(points[i].timestamp, pick(points[i])))
  }

  /** The times of a timeline are on an increasing axis. */
  predicate HoldsTimes(axis: seq<nat>, points: seq<Timeline.Point>) {
    Ascending(axis) && forall i :: 0 <= i < |points| ==> points[i].timestamp in axis
  }

  /** A timeline fits any axis with its times exactly if not everything is in bucket zero. */
  lemma TimelineFits(ops: seq<Timeline.Op>, g: nat, pick: Timeline.Point -> int, axis: seq<nat>)
    requires g > 0 && HoldsTimes(axis, Timeline.Timeline(ops, g))
    ensures OnAxis(axis, Curve(Timeline.Timeline(ops, g), pick))
    ensures Fits(axis, Curve(Timeline.Timeline(ops, g), pick)) <==> Timeline.LastBucket(ops, g) != 0
  {
    var t := Timeline.Timeline(ops, g);
    var c := Curve(t, pick);
    Timeline.TimelineIncreases(ops, g);
    assert forall i :: 0 <= i < |c| ==> c[i].key == t[i].timestamp;
    if AscendingKeys(c) {
      forall i, j | 0 <= i < j < |t| ensures t[i].timestamp < t[j].timestamp {
        assert c[i].key < c[j].key;
      }
    }
  }

  /** With everything in bucket zero the times are 0, 0 and 1. */
  lemma BucketZero(ops: seq<Timeline.Op>, g: nat)
    requires g > 0 && Timeline.LastBucket(ops, g) == 0
    ensures var t := Timeline.Timeline(ops, g);
      |t| == 3 && t[0].timestamp == 0 && t[1].timestamp == 0 && t[2].timestamp == 1
  {
    if ops != [] {
      Timeline.BucketsOrdered(ops, g, |ops| - 1, |ops| - 1);
    }
    Timeline.PointsShape(ops, g, 0, 1);
  }

  /** Expanding a timeline stops the program exactly if everything is in bucket zero. */
  lemma TimelineExpands(ops: seq<Timeline.Op>, g: nat, pick: Timeline.Point -> int, axis: seq<nat>)
    requires g > 0 && HoldsTimes(axis, Timeline.Timeline(ops, g))
    ensures Expandable(axis, Curve(Timeline.Timeline(ops, g), pick)) <==> Timeline.LastBucket(ops, g) != 0
  {
    var c := Curve(Timeline.Timeline(ops, g), pick);
    TimelineFits(ops, g, pick, axis);
    if Timeline.LastBucket(ops, g) != 0 {
      FitsExpandable(axis, c);
    } else {
      BucketZero(ops, g);
      assert Rising(c, 1) == 1 && Rising(c, 2) == 1 && Rising(c, 3) == 1;
      LastOnAxis(axis, c[2].key);
    }
  }

  /** Puts one curve of a timeline on an axis that holds its times. */
  method ExpandTimeline(ops: seq<Timeline.Op>, min: nat, max: nat, pointCount: nat, pick: Timeline.Point -> int,
      axis: seq<nat>)
    returns (r: Result<seq<Datum>, Panic>)
    requires min <= max && pointCount > 0
    requires HoldsTimes(axis, Timeline.Timeline(ops, Timeline.Granularity(min, max, pointCount)))
    ensures var g := Timeline.Granularity(min, max, pointCount);
      && (r.Ok? <==> Timeline.LastBucket(ops, g) != 0)
      && (r.Ok? ==> IsStep(axis, Curve(Timeline.Timeline(ops, g), pick), r.value))
      && (r.Err? ==> r.error == if |axis| == 2 then AxisTooShort else Unreachable)
  {
    var points := Timeline.BuildTimeline(min, max, pointCount, ops);
    r := ExpandDatapoints(axis, Curve(points, pick));
    ghost var g := Timeline.Granularity(min, max, pointCount);
    TimelineFits(ops, g, pick, axis);
    TimelineExpands(ops, g, pick, axis);
    if r.Err? {
      BucketZero(ops, g);
      TwoTimes(axis, points);
    }
  }

  lemma TwoTimes(axis: seq<nat>, points: seq<Timeline.Point>)
    requires HoldsTimes(axis, points) && |points| == 3 && points[0].timestamp == 0 && points[2].timestamp == 1
    ensures |axis| >= 2
  {
    var i :| 0 <= i < |axis| && axis[i] == points[0].timestamp;
    var j :| 0 <= j < |axis| && axis[j] == points[2].timestamp;
  }

  /** One change at the very beginning makes a timeline that cannot be put on its own axis. */
  lemma FirstMomentStops(pick: Timeline.Point -> int)
    ensures var t := Timeline.Timeline([Timeline.Op(0, 5)], 1);
      HoldsTimes([0, 1], t) && !Expandable([0, 1], Curve(t, pick))
  {
    var ops := [Timeline.Op(0, 5)];
    assert Timeline.Reached(ops, 1, 1) == 0;
    assert Timeline.Lead(ops, 1, 0) == 0 && Timeline.Lead(ops, 1, 1) == 0;
    BucketZero(ops, 1);
    var axis: seq<nat> := [0, 1];
    assert axis[0] == 0 && axis[1] == 1;
    TimelineExpands(ops, 1, pick, axis);
  }
}
