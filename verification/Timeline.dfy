/** Bucketed timelines: a sequence of changes over time summed up in points of equal width. */
module Timeline {
  import opened Basics

  /** A change at a time; changes with several components go component by component. */
  datatype Op = Op(timestamp: nat, delta: int)

  datatype Point = Point(timestamp: nat, value: int, positive: int, negative: int)

  predicate Ordered(ops: seq<Op>) {
    forall i, j :: 0 <= i < j < |ops| ==> ops[i].timestamp <= ops[j].timestamp
  }

  // ----- What a timeline means

  function Total(ops: seq<Op>, n: nat): int
    requires n <= |ops|
  {
    if n == 0 then 0 else Total(ops, n - 1) + ops[n - 1].delta
  }

  /** The latest bucket that the first `n` changes lie in. */
  function Reached(ops: seq<Op>, g: nat, n: nat): nat
    requires n <= |ops| && g > 0
  {
    if n == 0 then 0 else Max(Reached(ops, g, n - 1), ops[n - 1].timestamp / g)
  }

  /** A change in an earlier bucket than one before it. */
  predicate Late(ops: seq<Op>, g: nat, i: nat)
    requires i < |ops| && g > 0
  {
    ops[i].timestamp / g < Reached(ops, g, i)
  }

  /** The first bucket reached that is not bucket zero, or zero. */
  function Lead(ops: seq<Op>, g: nat, n: nat): nat
    requires n <= |ops| && g > 0
  {
    if n == 0 then 0 else if Lead(ops, g, n - 1) != 0 then Lead(ops, g, n - 1) else Reached(ops, g, n)
  }

  /**
   The bucket a change is counted in: the latest one reached. Those of bucket zero are counted with the
   first ones after it.
   */
  function Bucket(ops: seq<Op>, g: nat, i: nat): nat
    requires i < |ops| && g > 0
  {
    if Reached(ops, g, i + 1) == 0 then Lead(ops, g, |ops|) else Reached(ops, g, i + 1)
  }

  function LastBucket(ops: seq<Op>, g: nat): nat
    requires g > 0
  {
    if ops == [] then 0 else Bucket(ops, g, |ops| - 1)
  }

  /** Growth in a bucket, among the first `n` changes. */
  function PositiveIn(ops: seq<Op>, g: nat, n: nat, b: nat): int
    requires n <= |ops| && g > 0
  {
    if n == 0 then 0
    else PositiveIn(ops, g, n - 1, b) + (if Bucket(ops, g, n - 1) == b then Max(0, ops[n - 1].delta) else 0)
  }

  function NegativeIn(ops: seq<Op>, g: nat, n: nat, b: nat): int
    requires n <= |ops| && g > 0
  {
    if n == 0 then 0
    else NegativeIn(ops, g, n - 1, b) + (if Bucket(ops, g, n - 1) == b then -Min(0, ops[n - 1].delta) else 0)
  }

  /** The highest total reached by changes of a bucket since the last late one, at least zero. */
  function PeakIn(ops: seq<Op>, g: nat, n: nat, b: nat): (p: int)
    requires n <= |ops| && g > 0
    ensures p >= 0
  {
    if n == 0 then 0
    else if Bucket(ops, g, n - 1) != b then PeakIn(ops, g, n - 1, b)
    else if Late(ops, g, n - 1) then Max(0, Total(ops, n))
    else Max(PeakIn(ops, g, n - 1, b), Total(ops, n))
  }

  /** The peak of the latest bucket up to `b` in which anything changed. */
  function ValueIn(ops: seq<Op>, g: nat, n: nat, b: nat): int
    requires n <= |ops| && g > 0
  {
    if n == 0 then 0
    else if Bucket(ops, g, n - 1) <= b then PeakIn(ops, g, n, Bucket(ops, g, n - 1))
    else ValueIn(ops, g, n - 1, b)
  }

  function PointOf(ops: seq<Op>, g: nat, b: nat): Point
    requires g > 0
  {
    Point(b * g, ValueIn(ops, g, |ops|, b), PositiveIn(ops, g, |ops|, b), NegativeIn(ops, g, |ops|, b))
  }

  /** The points of the buckets from `lo` to before `hi`. */
  function Points(ops: seq<Op>, g: nat, lo: nat, hi: nat): seq<Point>
    requires g > 0
    decreases hi
  {
    if hi <= lo then [] else Points(ops, g, lo, hi - 1) + [PointOf(ops, g, hi - 1)]
  }

  /** A timeline: a zero just before if all is in one bucket, a point per bucket, and the final total just after. */
  function Timeline(ops: seq<Op>, g: nat): seq<Point>
    requires g > 0
  {
    var first, last := Lead(ops, g, |ops|), LastBucket(ops, g);
    (if first == last then [Point(Max(0, last * g - 1), 0, 0, 0)] else [])
    + Points(ops, g, first, last + 1)
    + [Point(last * g + 1, Max(0, Total(ops, |ops|)), 0, 0)]
  }

  // ----- Buckets come in order

  lemma {:induction false} ReachedGrows(ops: seq<Op>, g: nat, n: nat, m: nat)
    requires n <= m <= |ops| && g > 0
    ensures Reached(ops, g, n) <= Reached(ops, g, m)
  {
    if n < m {
      ReachedGrows(ops, g, n, m - 1);
    }
  }

  /** No bucket but bucket zero comes before the leading one. */
  lemma {:induction false} LeadIsFirst(ops: seq<Op>, g: nat, n: nat, i: nat)
    requires n <= |ops| && g > 0 && i < n
    ensures Reached(ops, g, i + 1) != 0 ==> Lead(ops, g, n) != 0
    ensures Lead(ops, g, n) == 0 || Reached(ops, g, i + 1) == 0 || Lead(ops, g, n) <= Reached(ops, g, i + 1)
  {
    if i < n - 1 {
      LeadIsFirst(ops, g, n - 1, i);
    } else if Lead(ops, g, n - 1) != 0 {
      var k := LeadFound(ops, g, n - 1);
      ReachedGrows(ops, g, k + 1, n);
    }
  }

  lemma {:induction false} LeadFound(ops: seq<Op>, g: nat, n: nat) returns (k: nat)
    requires n <= |ops| && g > 0 && Lead(ops, g, n) != 0
    ensures k < n && Reached(ops, g, k + 1) == Lead(ops, g, n)
  {
    if Lead(ops, g, n - 1) != 0 {
      k := LeadFound(ops, g, n - 1);
    } else {
      k := n - 1;
    }
  }

  lemma DivAtLeast(b: nat, g: nat, q: nat)
    requires g > 0 && q * g <= b
    ensures q <= b / g
  {
    var r := b / g;
    assert b == r * g + b % g;
    assert (r + 1) * g == r * g + g;
    assert q < r + 1 by {
      MulCancels(q, r + 1, g);
    }
  }

  lemma MulCancels(a: int, b: int, g: int)
    requires a * g < b * g && g > 0
    ensures a < b
  {}

  lemma DivMonotone(a: nat, b: nat, g: nat)
    requires a <= b && g > 0
    ensures a / g <= b / g
  {
    assert (a / g) * g <= a;
    DivAtLeast(b, g, a / g);
  }

  lemma BucketsOrdered(ops: seq<Op>, g: nat, i: nat, j: nat)
    requires g > 0 && i <= j < |ops|
    ensures Lead(ops, g, |ops|) <= Bucket(ops, g, i) <= Bucket(ops, g, j) <= LastBucket(ops, g)
  {
    LeadIsFirst(ops, g, |ops|, i);
    LeadIsFirst(ops, g, |ops|, j);
    LeadIsFirst(ops, g, |ops|, |ops| - 1);
    ReachedGrows(ops, g, i + 1, j + 1);
    ReachedGrows(ops, g, j + 1, |ops|);
  }

  // ----- Change is conserved

  function Net(points: seq<Point>, n: nat): int
    requires n <= |points|
  {
    if n == 0 then 0 else Net(points, n - 1) + points[n - 1].positive - points[n - 1].negative
  }

  lemma {:induction false} NetPrefix(a: seq<Point>, b: seq<Point>, n: nat)
    requires n <= |a|
    ensures Net(a + b, n) == Net(a, n)
  {
    if n > 0 {
      NetPrefix(a, b, n - 1);
    }
  }

  lemma {:induction false} NetConcat(a: seq<Point>, b: seq<Point>, n: nat)
    requires n <= |b|
    ensures Net(a + b, |a| + n) == Net(a, |a|) + Net(b, n)
  {
    if n == 0 {
      NetPrefix(a, b, |a|);
    } else {
      NetConcat(a, b, n - 1);
    }
  }

  /** The change of the first `n` operations that is counted in buckets from `lo` to before `hi`. */
  function NetBetween(ops: seq<Op>, g: nat, n: nat, lo: nat, hi: nat): int
    requires n <= |ops| && g > 0
    decreases hi
  {
    if hi <= lo then 0
    else NetBetween(ops, g, n, lo, hi - 1) + PositiveIn(ops, g, n, hi - 1) - NegativeIn(ops, g, n, hi - 1)
  }

  lemma {:induction false} NetStep(ops: seq<Op>, g: nat, n: nat, lo: nat, hi: nat)
    requires 0 < n <= |ops| && g > 0
    ensures NetBetween(ops, g, n, lo, hi)
      == NetBetween(ops, g, n - 1, lo, hi) + (if lo <= Bucket(ops, g, n - 1) < hi then ops[n - 1].delta else 0)
    decreases hi
  {
    if hi > lo {
      NetStep(ops, g, n, lo, hi - 1);
    }
  }

  lemma {:induction false} NetOfNone(ops: seq<Op>, g: nat, lo: nat, hi: nat)
    requires g > 0
    ensures NetBetween(ops, g, 0, lo, hi) == 0
    decreases hi
  {
    if hi > lo {
      NetOfNone(ops, g, lo, hi - 1);
    }
  }

  lemma {:induction false} NetIsTotal(ops: seq<Op>, g: nat, n: nat)
    requires n <= |ops| && g > 0
    ensures NetBetween(ops, g, n, Lead(ops, g, |ops|), LastBucket(ops, g) + 1) == Total(ops, n)
  {
    if n == 0 {
      NetOfNone(ops, g, Lead(ops, g, |ops|), LastBucket(ops, g) + 1);
    } else {
      NetIsTotal(ops, g, n - 1);
      NetStep(ops, g, n, Lead(ops, g, |ops|), LastBucket(ops, g) + 1);
      BucketsOrdered(ops, g, n - 1, n - 1);
    }
  }

  lemma {:induction false} NetOfPoints(ops: seq<Op>, g: nat, lo: nat, hi: nat)
    requires g > 0
    ensures Net(Points(ops, g, lo, hi), |Points(ops, g, lo, hi)|) == NetBetween(ops, g, |ops|, lo, hi)
    decreases hi
  {
    if hi > lo {
      NetOfPoints(ops, g, lo, hi - 1);
      NetConcat(Points(ops, g, lo, hi - 1), [PointOf(ops, g, hi - 1)], 1);
      var one := [PointOf(ops, g, hi - 1)];
      assert Net(one, 0) == 0 && Net(one, 1) == Net(one, 0) + one[0].positive - one[0].negative;
    }
  }

  /** Growth minus shrinkage over all points is the final total, and the last point shows it. */
  lemma TimelineConserves(ops: seq<Op>, g: nat)
    requires g > 0
    ensures Net(Timeline(ops, g), |Timeline(ops, g)|) == Total(ops, |ops|)
    ensures Timeline(ops, g)[|Timeline(ops, g)| - 1].value == Max(0, Total(ops, |ops|))
  {
    var first, last := Lead(ops, g, |ops|), LastBucket(ops, g);
    var a := if first == last then [Point(Max(0, last * g - 1), 0, 0, 0)] else [];
    var b := Points(ops, g, first, last + 1);
    var c := [Point(last * g + 1, Max(0, Total(ops, |ops|)), 0, 0)];
    NetConcat(a + b, c, 1);
    NetConcat(a, b, |b|);
    NetOfPoints(ops, g, first, last + 1);
    NetIsTotal(ops, g, |ops|);
    NetOfOne(c[0]);
    if first == last {
      NetOfOne(a[0]);
    } else {
      assert Net(a, 0) == 0;
    }
  }

  lemma NetOfOne(p: Point)
    ensures Net([p], 1) == p.positive - p.negative
  {
    assert Net([p], 0) == 0;
  }

  // ----- Times increase

  predicate Increasing(points: seq<Point>) {
    forall i, j :: 0 <= i < j < |points| ==> points[i].timestamp < points[j].timestamp
  }

  lemma {:induction false} PointsShape(ops: seq<Op>, g: nat, lo: nat, hi: nat)
    requires g > 0
    ensures |Points(ops, g, lo, hi)| == if lo < hi then hi - lo else 0
    ensures forall k :: 0 <= k < |Points(ops, g, lo, hi)| ==> Points(ops, g, lo, hi)[k] == PointOf(ops, g, lo + k)
    decreases hi
  {
    if hi > lo {
      PointsShape(ops, g, lo, hi - 1);
    }
  }

  lemma MulMonotone(a: nat, b: nat, g: nat)
    requires a < b && g > 0
    ensures a * g + g <= b * g
  {
    assert (a + 1) * g == a * g + g;
    assert (a + 1) * g <= b * g by {
      var d := b - (a + 1);
      assert b * g == (a + 1) * g + d * g;
    }
  }

  lemma PointsIncrease(ops: seq<Op>, g: nat, lo: nat, hi: nat)
    requires g > 0 && lo < hi
    ensures Increasing(Points(ops, g, lo, hi))
    ensures forall k :: 0 <= k < |Points(ops, g, lo, hi)| ==>
      lo * g <= Points(ops, g, lo, hi)[k].timestamp <= (hi - 1) * g
  {
    PointsShape(ops, g, lo, hi);
    var points := Points(ops, g, lo, hi);
    forall i, j | 0 <= i < j < |points| ensures points[i].timestamp < points[j].timestamp {
      MulMonotone(lo + i, lo + j, g);
    }
    forall k | 0 <= k < |points| ensures lo * g <= points[k].timestamp <= (hi - 1) * g {
      if k > 0 {
        MulMonotone(lo, lo + k, g);
      }
      if lo + k < hi - 1 {
        MulMonotone(lo + k, hi - 1, g);
      }
    }
  }

  /** The points' times are strictly increasing exactly if not everything is in bucket zero. */
  lemma TimelineIncreases(ops: seq<Op>, g: nat)
    requires g > 0
    ensures Increasing(Timeline(ops, g)) <==> LastBucket(ops, g) != 0
  {
    var first, last := Lead(ops, g, |ops|), LastBucket(ops, g);
    if ops != [] {
      BucketsOrdered(ops, g, |ops| - 1, |ops| - 1);
    }
    PointsShape(ops, g, first, last + 1);
    PointsIncrease(ops, g, first, last + 1);
    var b, z := Points(ops, g, first, last + 1), Point(last * g + 1, Max(0, Total(ops, |ops|)), 0, 0);
    IncreasingBefore(b, z);
    if first == last {
      var a := Point(Max(0, last * g - 1), 0, 0, 0);
      assert Timeline(ops, g) == [a] + (b + [z]);
      assert b[0] == PointOf(ops, g, first) && (b + [z])[0] == b[0];
      if last != 0 {
        MulMonotone(0, last, g);
      }
      IncreasingAfter(a, b + [z]);
    } else {
      assert Timeline(ops, g) == b + [z];
    }
  }

  lemma IncreasingBefore(points: seq<Point>, p: Point)
    requires Increasing(points) && forall k :: 0 <= k < |points| ==> points[k].timestamp < p.timestamp
    ensures Increasing(points + [p])
  {}

  lemma IncreasingAfter(p: Point, points: seq<Point>)
    requires Increasing(points) && points != []
    ensures Increasing([p] + points) <==> p.timestamp < points[0].timestamp
  {
    var all := [p] + points;
    assert all[0] == p && all[1] == points[0];
    if p.timestamp < points[0].timestamp {
      forall i, j | 0 <= i < j < |all| ensures all[i].timestamp < all[j].timestamp {
        assert all[j] == points[j - 1];
        if i > 0 {
          assert all[i] == points[i - 1];
        } else if j > 1 {
          assert points[0].timestamp < points[j - 1].timestamp;
        }
      }
    }
  }

  // ----- Peaks

  /** The peak of a bucket is at least every total reached in it, unless a late change came after. */
  lemma {:induction false} PeakCovers(ops: seq<Op>, g: nat, n: nat, b: nat, k: nat)
    requires k < n <= |ops| && g > 0 && Bucket(ops, g, k) == b
    requires forall i :: k < i < n && Bucket(ops, g, i) == b ==> !Late(ops, g, i)
    ensures Total(ops, k + 1) <= PeakIn(ops, g, n, b)
  {
    if k < n - 1 {
      PeakCovers(ops, g, n - 1, b, k);
    }
  }

  /** The peak of a bucket is zero or a total that was reached in it. */
  lemma {:induction false} PeakReached(ops: seq<Op>, g: nat, n: nat, b: nat) returns (k: nat)
    requires n <= |ops| && g > 0
    ensures PeakIn(ops, g, n, b) == 0 || (k < n && Bucket(ops, g, k) == b && Total(ops, k + 1) == PeakIn(ops, g, n, b))
  {
    k := 0;
    if n > 0 {
      k := PeakReached(ops, g, n - 1, b);
      if Bucket(ops, g, n - 1) == b && PeakIn(ops, g, n, b) == Total(ops, n) {
        k := n - 1;
      }
    }
  }

  lemma {:induction false} OrderedReached(ops: seq<Op>, g: nat, n: nat)
    requires 0 < n <= |ops| && g > 0 && Ordered(ops)
    ensures Reached(ops, g, n) == ops[n - 1].timestamp / g
  {
    if n > 1 {
      OrderedReached(ops, g, n - 1);
      DivMonotone(ops[n - 2].timestamp, ops[n - 1].timestamp, g);
    }
  }

  /** Changes in order of time are never late, so that peaks are the highest totals. */
  lemma OrderedPeaks(ops: seq<Op>, g: nat, i: nat)
    requires i < |ops| && g > 0 && Ordered(ops)
    ensures !Late(ops, g, i) && Total(ops, i + 1) <= PeakIn(ops, g, |ops|, Bucket(ops, g, i))
  {
    forall j | i <= j < |ops| ensures !Late(ops, g, j) {
      if j > 0 {
        OrderedReached(ops, g, j);
        DivMonotone(ops[j - 1].timestamp, ops[j].timestamp, g);
      }
    }
    PeakCovers(ops, g, |ops|, Bucket(ops, g, i), i);
  }

  /** A late change makes its bucket forget the totals before it. */
  lemma LateForgets()
    ensures var ops := [Op(2, 10), Op(2, -10), Op(1, 1)];
      && Late(ops, 1, 2) && Bucket(ops, 1, 0) == 2
      && Total(ops, 1) == 10 && PeakIn(ops, 1, 3, 2) == 1
  {
    var ops := [Op(2, 10), Op(2, -10), Op(1, 1)];
    assert Reached(ops, 1, 1) == 2 && Reached(ops, 1, 2) == 2 && Reached(ops, 1, 3) == 2;
    assert Total(ops, 1) == 10 && Total(ops, 2) == 0 && Total(ops, 3) == 1;
  }

  // ----- What the points say, read off the changes

  /** The bucket that the time of a change lies in. */
  function Own(ops: seq<Op>, g: nat, i: nat): nat
    requires i < |ops| && g > 0
  {
    ops[i].timestamp / g
  }

  lemma ReachedNext(ops: seq<Op>, g: nat, n: nat)
    requires n < |ops| && g > 0
    ensures Reached(ops, g, n + 1) == Max(Reached(ops, g, n), Own(ops, g, n))
  {}

  lemma ReachedNone(ops: seq<Op>, g: nat)
    requires g > 0
    ensures Reached(ops, g, 0) == 0
  {}

  /** The latest bucket is that of a change, and none is later. */
  lemma {:induction false} ReachedMeans(ops: seq<Op>, g: nat, n: nat)
    requires n <= |ops| && g > 0
    ensures forall j :: 0 <= j < n ==> Own(ops, g, j) <= Reached(ops, g, n)
    ensures Reached(ops, g, n) == 0 || exists j :: 0 <= j < n && Own(ops, g, j) == Reached(ops, g, n)
  {
    hide Own, Reached;
    if n == 0 {
      ReachedNone(ops, g);
    } else {
      ReachedMeans(ops, g, n - 1);
      ReachedNext(ops, g, n - 1);
      if Reached(ops, g, n) == Own(ops, g, n - 1) {
        assert Own(ops, g, n - 1) == Reached(ops, g, n);
      }
    }
  }

  /** A change is late exactly if one before it is in a later bucket. */
  lemma LateMeans(ops: seq<Op>, g: nat, i: nat)
    requires i < |ops| && g > 0
    ensures Late(ops, g, i) <==> exists j :: 0 <= j < i && Own(ops, g, j) > Own(ops, g, i)
  {
    hide Reached;
    ReachedMeans(ops, g, i);
  }

  /** The first change outside bucket zero. */
  ghost predicate FirstOutside(ops: seq<Op>, g: nat, j: nat)
    requires g > 0
  {
    j < |ops| && Own(ops, g, j) != 0 && forall i :: 0 <= i < j ==> Own(ops, g, i) == 0
  }

  lemma LeadMeans(ops: seq<Op>, g: nat, j: nat)
    requires g > 0 && FirstOutside(ops, g, j)
    ensures Lead(ops, g, |ops|) == Own(ops, g, j)
  {
    hide Own;
    ReachedMeans(ops, g, j);
    ReachedNext(ops, g, j);
    LeadStillZero(ops, g, j);
    LeadStays(ops, g, j + 1, |ops|);
  }

  /** From the first change outside bucket zero on, the bucket of a change is the latest one up to then. */
  lemma BucketMeans(ops: seq<Op>, g: nat, i: nat, j: nat)
    requires i < |ops| && g > 0 && FirstOutside(ops, g, j) && j <= i
    ensures exists k :: 0 <= k <= i && Own(ops, g, k) == Bucket(ops, g, i)
    ensures forall k :: 0 <= k <= i ==> Own(ops, g, k) <= Bucket(ops, g, i)
  {
    hide Own, Reached, Lead;
    ReachedMeans(ops, g, i + 1);
    assert Own(ops, g, j) <= Reached(ops, g, i + 1);
  }

  /** The changes before that are counted with it. */
  lemma EarlyBucketMeans(ops: seq<Op>, g: nat, i: nat, j: nat)
    requires i < |ops| && g > 0 && FirstOutside(ops, g, j) && i < j
    ensures Bucket(ops, g, i) == Own(ops, g, j)
  {
    hide Own, Reached, Lead;
    LeadMeans(ops, g, j);
    ReachedMeans(ops, g, i + 1);
  }

  /** If all are in bucket zero they are counted there. */
  lemma ZeroBucketMeans(ops: seq<Op>, g: nat, i: nat)
    requires i < |ops| && g > 0 && forall k :: 0 <= k < |ops| ==> Own(ops, g, k) == 0
    ensures Bucket(ops, g, i) == 0
  {
    hide Own, Reached, Lead;
    ReachedMeans(ops, g, i + 1);
    ReachedMeans(ops, g, |ops|);
    LeadStillZero(ops, g, |ops|);
  }

  function SumOf(xs: seq<int>): int {
    if xs == [] then 0 else SumOf(xs[..|xs| - 1]) + xs[|xs| - 1]
  }

  /** The changes of a bucket that are growth, or that are shrinkage, among the first `n`. */
  function Gains(ops: seq<Op>, g: nat, n: nat, b: nat): seq<int>
    requires n <= |ops| && g > 0
  {
    if n == 0 then []
    else if Bucket(ops, g, n - 1) == b && ops[n - 1].delta > 0 then Gains(ops, g, n - 1, b) + [ops[n - 1].delta]
    else Gains(ops, g, n - 1, b)
  }

  function Losses(ops: seq<Op>, g: nat, n: nat, b: nat): seq<int>
    requires n <= |ops| && g > 0
  {
    if n == 0 then []
    else if Bucket(ops, g, n - 1) == b && ops[n - 1].delta < 0 then Losses(ops, g, n - 1, b) + [ops[n - 1].delta]
    else Losses(ops, g, n - 1, b)
  }

  lemma SumNext(xs: seq<int>, x: int)
    ensures SumOf(xs + [x]) == SumOf(xs) + x
  {
    assert (xs + [x])[..|xs|] == xs;
  }

  lemma {:induction false} ChangesSum(ops: seq<Op>, g: nat, n: nat, b: nat)
    requires n <= |ops| && g > 0
    ensures PositiveIn(ops, g, n, b) == SumOf(Gains(ops, g, n, b))
    ensures NegativeIn(ops, g, n, b) == -SumOf(Losses(ops, g, n, b))
  {
    hide Bucket, SumOf;
    if n > 0 {
      ChangesSum(ops, g, n - 1, b);
      var delta := ops[n - 1].delta;
      SumNext(Gains(ops, g, n - 1, b), delta);
      SumNext(Losses(ops, g, n - 1, b), delta);
    } else {
      NothingSums();
    }
  }

  lemma NothingSums()
    ensures SumOf([]) == 0
  {}

  /** A change of the bucket after which no late one came. */
  ghost predicate Stands(ops: seq<Op>, g: nat, b: nat, k: nat)
    requires g > 0
  {
    k < |ops| && Bucket(ops, g, k) == b && forall i :: k < i < |ops| && Bucket(ops, g, i) == b ==> !Late(ops, g, i)
  }

  ghost predicate Changes(ops: seq<Op>, g: nat, b: nat)
    requires g > 0
  {
    exists k :: 0 <= k < |ops| && Bucket(ops, g, k) == b
  }

  /** The highest total that stands, or zero. */
  ghost predicate IsPeak(ops: seq<Op>, g: nat, b: nat, value: int)
    requires g > 0
  {
    && value >= 0 && (forall k: nat :: Stands(ops, g, b, k) ==> Total(ops, k + 1) <= value)
    && (value == 0 || exists k: nat :: Stands(ops, g, b, k) && Total(ops, k + 1) == value)
  }

  /**
   Point `i` is that of bucket `first + i - lead`: its growth, its shrinkage and its peak, or the value of the
   point before if nothing changed in it.
   */
  ghost predicate PointMeans(ops: seq<Op>, g: nat, first: nat, lead: nat, points: seq<Point>, i: nat)
    requires g > 0 && lead <= i < |points|
  {
    var b, p := first + i - lead, points[i];
    && p.timestamp == b * g
    && p.positive == SumOf(Gains(ops, g, |ops|, b)) && p.negative == -SumOf(Losses(ops, g, |ops|, b))
    && if Changes(ops, g, b) then IsPeak(ops, g, b, p.value)
       else i > 0 && p.value == points[i - 1].value && p.positive == 0 && p.negative == 0
  }

  function FirstBucket(ops: seq<Op>, g: nat): nat
    requires g > 0
  {
    if ops == [] then 0 else Bucket(ops, g, 0)
  }

  /** How many points come before that of the first bucket. */
  function LeadCount(ops: seq<Op>, g: nat): nat
    requires g > 0
  {
    if FirstBucket(ops, g) == LastBucket(ops, g) then 1 else 0
  }

  /**
   One point for every bucket from the first to the last one with a change, and then the final total. If there
   is only one bucket a point at zero comes before it.
   */
  ghost predicate IsTimeline(ops: seq<Op>, g: nat, points: seq<Point>)
    requires g > 0
  {
    var first, last, lead := FirstBucket(ops, g), LastBucket(ops, g), LeadCount(ops, g);
    && first <= last && |points| == lead + (last + 1 - first) + 1
    && (lead == 1 ==> points[0] == Point(Max(0, last * g - 1), 0, 0, 0))
    && (forall i :: lead <= i < |points| - 1 ==> PointMeans(ops, g, first, lead, points, i))
    && points[|points| - 1] == Point(last * g + 1, Max(0, Total(ops, |ops|)), 0, 0)
  }

  lemma {:induction false} PeakStands(ops: seq<Op>, g: nat, n: nat, b: nat) returns (k: nat)
    requires n <= |ops| && g > 0
    ensures PeakIn(ops, g, n, b) == 0 ||
      (k < n && Bucket(ops, g, k) == b && Total(ops, k + 1) == PeakIn(ops, g, n, b) &&
       forall i :: k < i < n && Bucket(ops, g, i) == b ==> !Late(ops, g, i))
  {
    hide Bucket, Late;
    k := 0;
    if n > 0 {
      if Bucket(ops, g, n - 1) == b && PeakIn(ops, g, n, b) == Total(ops, n) {
        k := n - 1;
      } else {
        k := PeakStands(ops, g, n - 1, b);
      }
    }
  }

  lemma PeakMeans(ops: seq<Op>, g: nat, b: nat)
    requires g > 0
    ensures IsPeak(ops, g, b, PeakIn(ops, g, |ops|, b))
  {
    hide Bucket, Late, PeakIn;
    forall k: nat | Stands(ops, g, b, k) ensures Total(ops, k + 1) <= PeakIn(ops, g, |ops|, b) {
      PeakCovers(ops, g, |ops|, b, k);
    }
    var k := PeakStands(ops, g, |ops|, b);
    assert PeakIn(ops, g, |ops|, b) == 0 || Stands(ops, g, b, k);
    PeakNotNegative(ops, g, |ops|, b);
  }

  lemma PeakNotNegative(ops: seq<Op>, g: nat, n: nat, b: nat)
    requires n <= |ops| && g > 0
    ensures PeakIn(ops, g, n, b) >= 0
  {}

  lemma {:induction false} SamePeak(ops: seq<Op>, g: nat, n: nat, m: nat, b: nat)
    requires n <= m <= |ops| && g > 0 && forall i :: n <= i < m ==> Bucket(ops, g, i) != b
    ensures PeakIn(ops, g, m, b) == PeakIn(ops, g, n, b)
  {
    hide Bucket, Late;
    if n < m {
      SamePeak(ops, g, n, m - 1, b);
    }
  }

  /** With a change in it, the value of a bucket is its peak. */
  lemma {:induction false} ValueIsPeak(ops: seq<Op>, g: nat, n: nat, b: nat, k: nat)
    requires k < n <= |ops| && g > 0 && Bucket(ops, g, k) == b
    requires forall i :: n <= i < |ops| ==> Bucket(ops, g, i) != b
    ensures ValueIn(ops, g, n, b) == PeakIn(ops, g, |ops|, b)
  {
    hide Bucket, PeakIn;
    BucketsOrdered(ops, g, k, n - 1);
    if Bucket(ops, g, n - 1) == b {
      SamePeak(ops, g, n, |ops|, b);
    } else {
      ValueIsPeak(ops, g, n - 1, b, k);
    }
  }

  /** Without one, it is that of the bucket before. */
  lemma {:induction false} ValueStays(ops: seq<Op>, g: nat, n: nat, b: nat)
    requires n <= |ops| && g > 0 && 0 < b && forall i :: 0 <= i < n ==> Bucket(ops, g, i) != b
    ensures ValueIn(ops, g, n, b) == ValueIn(ops, g, n, b - 1)
  {
    hide Bucket, PeakIn;
    if n > 0 {
      ValueStays(ops, g, n - 1, b);
    }
  }

  lemma {:induction false} NothingIn(ops: seq<Op>, g: nat, n: nat, b: nat)
    requires n <= |ops| && g > 0 && forall i :: 0 <= i < n ==> Bucket(ops, g, i) != b
    ensures PositiveIn(ops, g, n, b) == 0 && NegativeIn(ops, g, n, b) == 0
  {
    hide Bucket;
    if n > 0 {
      NothingIn(ops, g, n - 1, b);
    }
  }

  /** The first bucket is that of the first change. */
  lemma FirstIsLead(ops: seq<Op>, g: nat)
    requires g > 0
    ensures FirstBucket(ops, g) == Lead(ops, g, |ops|) <= LastBucket(ops, g)
  {
    if ops != [] {
      BucketsOrdered(ops, g, 0, |ops| - 1);
      LeadAtFirst(ops, g, 0);
    }
  }

  lemma JoinedParts<T>(a: seq<T>, b: seq<T>, c: T)
    ensures var s := a + b + [c];
      && |s| == |a| + |b| + 1 && (a != [] ==> s[0] == a[0]) && s[|s| - 1] == c
      && (forall i :: |a| <= i < |a| + |b| ==> s[i] == b[i - |a|])
  {}

  lemma TimelineShape(ops: seq<Op>, g: nat)
    requires g > 0
    ensures var points, first, last := Timeline(ops, g), FirstBucket(ops, g), LastBucket(ops, g);
      var lead := LeadCount(ops, g);
      && first <= last && |points| == lead + (last + 1 - first) + 1
      && (lead == 1 ==> points[0] == Point(Max(0, last * g - 1), 0, 0, 0))
      && (forall i :: lead <= i < |points| - 1 ==> points[i] == PointOf(ops, g, first + i - lead))
      && points[|points| - 1] == Point(last * g + 1, Max(0, Total(ops, |ops|)), 0, 0)
  {
    hide Points, PointOf, LastBucket, FirstBucket, Lead, Total;
    FirstIsLead(ops, g);
    var first, last := FirstBucket(ops, g), LastBucket(ops, g);
    PointsShape(ops, g, first, last + 1);
    var start := if first == last then [Point(Max(0, last * g - 1), 0, 0, 0)] else [];
    JoinedParts(start, Points(ops, g, first, last + 1), Point(last * g + 1, Max(0, Total(ops, |ops|)), 0, 0));
  }

  lemma BucketMeansPoint(ops: seq<Op>, g: nat, i: nat)
    requires g > 0 && LeadCount(ops, g) <= i < |Timeline(ops, g)| - 1
    ensures PointMeans(ops, g, FirstBucket(ops, g), LeadCount(ops, g), Timeline(ops, g), i)
  {
    hide Timeline, ValueIn, PositiveIn, NegativeIn, IsPeak, Gains, Losses, SumOf, Bucket, LastBucket;
    TimelineShape(ops, g);
    var b := FirstBucket(ops, g) + i - LeadCount(ops, g);
    ChangesSum(ops, g, |ops|, b);
    if Changes(ops, g, b) {
      var k :| 0 <= k < |ops| && Bucket(ops, g, k) == b;
      ValueIsPeak(ops, g, |ops|, b, k);
      PeakMeans(ops, g, b);
    } else {
      NothingIn(ops, g, |ops|, b);
      if ops == [] {
        NoValue(ops, g, b);
      } else {
        assert Bucket(ops, g, 0) == FirstBucket(ops, g) < b;
        ValueStays(ops, g, |ops|, b);
      }
    }
  }

  lemma NoValue(ops: seq<Op>, g: nat, b: nat)
    requires g > 0 && ops == []
    ensures ValueIn(ops, g, |ops|, b) == 0 && LastBucket(ops, g) == 0
  {}

  /** The points of a timeline say what they should. */
  lemma TimelineMeans(ops: seq<Op>, g: nat)
    requires g > 0
    ensures IsTimeline(ops, g, Timeline(ops, g))
  {
    hide Timeline, PointMeans, LastBucket, FirstBucket, LeadCount, Total;
    TimelineShape(ops, g);
    forall i | LeadCount(ops, g) <= i < |Timeline(ops, g)| - 1
      ensures PointMeans(ops, g, FirstBucket(ops, g), LeadCount(ops, g), Timeline(ops, g), i)
    {
      BucketMeansPoint(ops, g, i);
    }
  }

  // ----- How many points there are

  function Granularity(min: nat, max: nat, pointCount: nat): nat
    requires min <= max && pointCount > 0
  {
    Max((max - min) / pointCount, 1)
  }

  /** The width of a bucket is at least half of what would give the wanted number of points. */
  lemma GranularityBound(d: nat, pointCount: nat, g: nat)
    requires pointCount > 0 && g == Max(d / pointCount, 1)
    ensures d / g <= 2 * pointCount - 1
  {
    BelowNext(d, pointCount);
    if d / pointCount == 0 {
      assert d < pointCount;
    } else {
      NextTwice(g, pointCount);
      DivBelow(d, g, 2 * pointCount);
    }
  }

  lemma BelowNext(d: nat, p: nat)
    requires p > 0
    ensures d < (d / p + 1) * p
  {
    var q := d / p;
    assert d == q * p + d % p;
    NextMul(q, p);
  }

  lemma NextMul(q: int, p: int)
    ensures (q + 1) * p == q * p + p
  {}

  lemma NextTwice(q: nat, p: nat)
    requires q > 0
    ensures (q + 1) * p <= (2 * p) * q
  {
    NextMul(q, p);
    assert p <= q * p by { MulAtLeast(q, p); }
    assert (2 * p) * q == q * p + q * p;
  }

  lemma MulAtLeast(q: nat, p: nat)
    requires q > 0
    ensures p <= q * p
  {
    NextMul(q - 1, p);
    assert 0 <= (q - 1) * p;
  }

  lemma DivBelow(b: nat, g: nat, q: nat)
    requires g > 0 && b < q * g
    ensures b / g < q
  {
    assert (b / g) * g <= b;
    MulCancels(b / g, q, g);
  }

  lemma MulSum(x: int, y: int, g: int)
    ensures (x + y) * g == x * g + y * g
  {}

  lemma BucketSpan(a: nat, b: nat, g: nat)
    requires a <= b && g > 0
    ensures b / g <= a / g + (b - a) / g + 1
  {
    var x, y := a / g, (b - a) / g;
    BelowNext(a, g);
    BelowNext(b - a, g);
    MulSum(x + 1, y + 1, g);
    DivBelow(b, g, x + y + 2);
  }

  lemma {:induction false} ReachedWithin(ops: seq<Op>, g: nat, n: nat, min: nat, max: nat)
    requires 0 < n <= |ops| && g > 0 && forall i :: 0 <= i < |ops| ==> min <= ops[i].timestamp <= max
    ensures min / g <= Reached(ops, g, n) <= max / g
  {
    DivMonotone(min, ops[n - 1].timestamp, g);
    DivMonotone(ops[n - 1].timestamp, max, g);
    if n > 1 {
      ReachedWithin(ops, g, n - 1, min, max);
    }
  }

  /** There are at most twice as many points as wanted, and two. */
  lemma TimelineBounded(ops: seq<Op>, min: nat, max: nat, pointCount: nat)
    requires min <= max && pointCount > 0
    requires forall i :: 0 <= i < |ops| ==> min <= ops[i].timestamp <= max
    ensures |Timeline(ops, Granularity(min, max, pointCount))| <= 2 * pointCount + 2
  {
    hide Lead, LastBucket, Points;
    var g := Granularity(min, max, pointCount);
    var first, last := Lead(ops, g, |ops|), LastBucket(ops, g);
    PointsShape(ops, g, first, last + 1);
    BucketsWithin(ops, g, min, max);
    if first != 0 {
      GranularityBound(max - min, pointCount, g);
    }
  }

  /** The first and the last bucket are no further apart than the changes. */
  lemma BucketsWithin(ops: seq<Op>, g: nat, min: nat, max: nat)
    requires g > 0 && min <= max && forall i :: 0 <= i < |ops| ==> min <= ops[i].timestamp <= max
    ensures var first, last := Lead(ops, g, |ops|), LastBucket(ops, g);
      if first == 0 then last == 0 else first <= last <= first + (max - min) / g + 1
  {
    hide Reached;
    if ops != [] {
      BucketsOrdered(ops, g, |ops| - 1, |ops| - 1);
      LeadIsFirst(ops, g, |ops|, |ops| - 1);
      if Lead(ops, g, |ops|) != 0 {
        var k := LeadFound(ops, g, |ops|);
        ReachedWithin(ops, g, k + 1, min, max);
        ReachedWithin(ops, g, |ops|, min, max);
        BucketSpan(min, max, g);
      }
    }
  }

  // ----- Building it

  /** Only the changes up to `n` matter for buckets before that of the next one. */
  lemma {:induction false} Settled(ops: seq<Op>, g: nat, n: nat, m: nat, b: nat)
    requires n <= m <= |ops| && g > 0 && (n < |ops| ==> b < Bucket(ops, g, n))
    ensures PositiveIn(ops, g, m, b) == PositiveIn(ops, g, n, b) && NegativeIn(ops, g, m, b) == NegativeIn(ops, g, n, b)
    ensures ValueIn(ops, g, m, b) == ValueIn(ops, g, n, b)
  {
    if n < m {
      Settled(ops, g, n, m - 1, b);
      BucketsOrdered(ops, g, n, m - 1);
    }
  }

  /** Nothing was counted yet in buckets after the latest. */
  lemma {:induction false} NothingYet(ops: seq<Op>, g: nat, n: nat, b: nat)
    requires 0 < n <= |ops| && g > 0 && Bucket(ops, g, n - 1) < b
    ensures PositiveIn(ops, g, n, b) == 0 && NegativeIn(ops, g, n, b) == 0 && PeakIn(ops, g, n, b) == 0
  {
    if n > 1 {
      BucketsOrdered(ops, g, n - 2, n - 1);
      NothingYet(ops, g, n - 1, b);
    }
  }

  lemma {:induction false} LeadStays(ops: seq<Op>, g: nat, k: nat, m: nat)
    requires k <= m <= |ops| && g > 0 && Lead(ops, g, k) != 0
    ensures Lead(ops, g, m) == Lead(ops, g, k)
  {
    if k < m {
      LeadStays(ops, g, k, m - 1);
    }
  }

  lemma {:induction false} LeadStillZero(ops: seq<Op>, g: nat, n: nat)
    requires n <= |ops| && g > 0 && Reached(ops, g, n) == 0
    ensures Lead(ops, g, n) == 0
  {
    if n > 0 {
      LeadStillZero(ops, g, n - 1);
    }
  }

  /** After changes in bucket zero only, the next one is counted in the leading bucket. */
  lemma LeadAtFirst(ops: seq<Op>, g: nat, n: nat)
    requires n < |ops| && g > 0 && Reached(ops, g, n) == 0
    ensures Bucket(ops, g, n) == Lead(ops, g, |ops|)
  {
    LeadStillZero(ops, g, n);
    if Reached(ops, g, n + 1) != 0 {
      LeadStays(ops, g, n + 1, |ops|);
    }
  }

  /** What has been gathered of the latest bucket after `n` changes. */
  ghost predicate Gathered(ops: seq<Op>, g: nat, n: nat, b: nat, peak: int, positive: int, negative: int)
    requires n <= |ops| && g > 0
  {
    peak == PeakIn(ops, g, n, b) && positive == PositiveIn(ops, g, n, b) && negative == NegativeIn(ops, g, n, b)
  }

  /** Emits the points of the buckets from `time` to before `next`. */
  method EmitPoints(output: seq<Point>, ops: seq<Op>, g: nat, n: nat, time: nat, next: nat, peak: int, positive: int,
      negative: int)
    returns (longer: seq<Point>)
    requires 0 < n < |ops| && g > 0 && time == Bucket(ops, g, n - 1) && next == Bucket(ops, g, n) && time < next
    requires Gathered(ops, g, n, time, peak, positive, negative) && positive >= 0 && negative >= 0
    requires Lead(ops, g, |ops|) <= time && output == Points(ops, g, Lead(ops, g, |ops|), time)
    ensures longer == Points(ops, g, Lead(ops, g, |ops|), next)
  {
    longer := output;
    var t, p, q := time, positive, negative;
    while t < next
      invariant time <= t <= next && longer == Points(ops, g, Lead(ops, g, |ops|), t)
      invariant t < next ==> p == PositiveIn(ops, g, n, t) && q == NegativeIn(ops, g, n, t) && p >= 0 && q >= 0
    {
      Settled(ops, g, n, |ops|, t);
      assert ValueIn(ops, g, n, t) == peak;
      longer := longer + [Point(t * g, Max(peak, 0), Max(p, 0), Max(q, 0))];
      t, p, q := t + 1, 0, 0;
      NothingYet(ops, g, n, t);
    }
  }

  /** What is carried from one change to the next. */
  datatype Progress = Progress(output: seq<Point>, time: nat, current: int, peak: int, positive: int, negative: int)

  function BucketAfter(ops: seq<Op>, g: nat, n: nat): nat
    requires n <= |ops| && g > 0
  {
    if n == 0 then Lead(ops, g, |ops|) else Bucket(ops, g, n - 1)
  }

  ghost predicate InProgress(ops: seq<Op>, g: nat, n: nat, s: Progress)
    requires n <= |ops| && g > 0
  {
    var b := BucketAfter(ops, g, n);
    && s.current == Total(ops, n) && s.positive >= 0 && s.negative >= 0
    && s.time == Reached(ops, g, n) && (if s.time == 0 then b == Lead(ops, g, |ops|) else n > 0 && s.time == b)
    && Gathered(ops, g, n, b, s.peak, s.positive, s.negative)
    && Lead(ops, g, |ops|) <= b && s.output == Points(ops, g, Lead(ops, g, |ops|), b)
  }

  /** Moves on to the bucket of the next change; a late one only resets the peak. */
  method NextBucket(ops: seq<Op>, g: nat, n: nat, s: Progress) returns (r: Progress)
    requires n < |ops| && g > 0 && InProgress(ops, g, n, s)
    ensures r.current == s.current && r.positive >= 0 && r.negative >= 0 && r.time == Reached(ops, g, n + 1)
    ensures var b := Bucket(ops, g, n);
      && Gathered(ops, g, n, b, if Late(ops, g, n) then PeakIn(ops, g, n, b) else r.peak, r.positive, r.negative)
      && (Late(ops, g, n) ==> r.peak == 0)
      && Lead(ops, g, |ops|) <= b && r.output == Points(ops, g, Lead(ops, g, |ops|), b)
  {
    hide Points, PositiveIn, NegativeIn, PeakIn, Lead;
    var nextTime := ops[n].timestamp / g;
    if s.time == 0 {
      LeadAtFirst(ops, g, n);
      r := s.(time := nextTime);
    } else {
      BucketsOrdered(ops, g, n - 1, n);
      if s.time < nextTime {
        var output := EmitPoints(s.output, ops, g, n, s.time, nextTime, s.peak, s.positive, s.negative);
        NothingYet(ops, g, n, nextTime);
        r := Progress(output, nextTime, s.current, 0, 0, 0);
      } else if s.time != nextTime {
        r := s.(peak := 0);
      } else {
        r := s;
      }
    }
  }

  /** Counts one change. */
  method Step(ops: seq<Op>, g: nat, n: nat, s: Progress) returns (r: Progress)
    requires n < |ops| && g > 0 && InProgress(ops, g, n, s)
    ensures InProgress(ops, g, n + 1, r)
  {
    hide Points, Lead;
    var delta := ops[n].delta;
    var next := s.current + delta;
    r := NextBucket(ops, g, n, s);
    r := Progress(r.output, r.time, next, Max(r.peak, next), r.positive + Max(0, delta), r.negative - Min(0, delta));
  }

  /** The last points. */
  method Close(ops: seq<Op>, g: nat, s: Progress) returns (output: seq<Point>)
    requires g > 0 && InProgress(ops, g, |ops|, s)
    ensures output == Timeline(ops, g)
  {
    hide Lead;
    if s.time == 0 {
      LeadStillZero(ops, g, |ops|);
    }
    PointsShape(ops, g, Lead(ops, g, |ops|), s.time);
    output := s.output;
    if output == [] {
      output := [Point(if s.time * g >= 1 then s.time * g - 1 else 0, 0, 0, 0)];
    }
    output := output + [Point(s.time * g, Max(s.peak, 0), Max(s.positive, 0), Max(s.negative, 0))];
    output := output + [Point(s.time * g + 1, Max(s.current, 0), 0, 0)];
  }

  /** Builds a timeline of about `pointCount` points. */
  method BuildTimeline(min: nat, max: nat, pointCount: nat, ops: seq<Op>) returns (output: seq<Point>)
    requires min <= max && pointCount > 0
    ensures output == Timeline(ops, Granularity(min, max, pointCount))
    ensures IsTimeline(ops, Granularity(min, max, pointCount), output)
  {
    var g := if (max - min) / pointCount >= 1 then (max - min) / pointCount else 1;
    var s := Progress([], 0, 0, 0, 0, 0);
    var n := 0;
    while n < |ops|
      invariant n <= |ops| && InProgress(ops, g, n, s)
    {
      s := Step(ops, g, n, s);
      n := n + 1;
    }
    output := Close(ops, g, s);
    TimelineMeans(ops, g);
  }
}
