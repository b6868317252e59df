/**
 * The five-minute buckets an interval occupies, and back
 * (src/core/slots/intervals.ts, bucket conversion).
 */
module Buckets {
  import opened Common
  import opened Intervals

  predicate Has(x: Interval, t: int) {
    x.start <= t < x.end
  }

  /** The bucket starting at `b` shares an instant with `x`. */
  ghost predicate Meets(b: int, x: Interval) {
    exists t :: Has(Interval(b, b + BUCKET), t) && Has(x, t)
  }

  ghost predicate Aligned(x: Interval) {
    OnGrid(x.start) && OnGrid(x.end)
  }

  /** Consecutive buckets from `first` up to, not including, `last`. */
  function BucketRun(first: int, last: int): (r: seq<int>)
    decreases last - first
  {
    if first < last then [first] + BucketRun(first + BUCKET, last) else []
  }

  lemma {:induction false} BucketRunMembers(first: int, last: int, b: int)
    requires OnGrid(first) && OnGrid(last)
    ensures b in BucketRun(first, last) <==> OnGrid(b) && first <= b < last
    decreases last - first
  {
    if first < last {
      BucketRunMembers(first + BUCKET, last, b);
    }
  }

  lemma {:induction false} BucketRunSorted(first: int, last: int)
    requires OnGrid(first) && OnGrid(last)
    ensures StrictlySorted(BucketRun(first, last))
    decreases last - first
  {
    if first < last {
      BucketRunSorted(first + BUCKET, last);
      var rest := BucketRun(first + BUCKET, last);
      forall i | 0 <= i < |rest| ensures first < rest[i] {
        BucketRunMembers(first + BUCKET, last, rest[i]);
      }
    }
  }

  lemma {:induction false} BucketRunSnoc(first: int, last: int)
    requires OnGrid(first) && OnGrid(last) && first <= last
    ensures BucketRun(first, last + BUCKET) == BucketRun(first, last) + [last]
    decreases last - first
  {
    if first < last {
      BucketRunSnoc(first + BUCKET, last);
    } else {
      assert BucketRun(last + BUCKET, last + BUCKET) == [];
    }
  }

  function BucketsOf(x: Interval): seq<int> {
    if x.end <= x.start then [] else BucketRun(FloorBucket(x.start), CeilBucket(x.end))
  }

  /** `intervalToBuckets` */
  method IntervalToBuckets(x: Interval) returns (out: seq<int>)
    ensures out == BucketsOf(x)
  {
    if x.end <= x.start {
      return [];
    }
    var first := FloorBucket(x.start);
    var last := CeilBucket(x.end);
    out := [];
    var t := first;
    while t < last
      invariant OnGrid(t) && first <= t <= last
      invariant out == BucketRun(first, t)
    {
      BucketRunSnoc(first, t);
      out := out + [t];
      t := t + BUCKET;
    }
  }

  lemma BucketIn(x: Interval, b: int)
    ensures b in BucketsOf(x) <==> OnGrid(b) && x.start < x.end && b < x.end && x.start < b + BUCKET
  {
    if x.start < x.end {
      BucketRunMembers(FloorBucket(x.start), CeilBucket(x.end), b);
    }
  }

  /** A grid bucket is claimed exactly when it meets the interval; none is claimed twice. */
  lemma ClaimedIffMet(x: Interval, b: int)
    ensures b in BucketsOf(x) <==> OnGrid(b) && Meets(b, x)
    ensures StrictlySorted(BucketsOf(x))
  {
    BucketIn(x, b);
    if b in BucketsOf(x) {
      assert Has(x, Max(b, x.start)) && Has(Interval(b, b + BUCKET), Max(b, x.start));
    }
    if x.start < x.end {
      BucketRunSorted(FloorBucket(x.start), CeilBucket(x.end));
    }
  }

  lemma GridGap(a: int, b: int)
    requires OnGrid(a) && OnGrid(b) && a < b
    ensures a + BUCKET <= b
  {
  }

  lemma OverlapSharesBucket(x: Interval, y: Interval)
    requires Overlaps(x, y) && x.start < x.end && y.start < y.end
    ensures exists b :: b in BucketsOf(x) && b in BucketsOf(y)
  {
    hide BucketsOf, FloorBucket, OnGrid;
    var b := FloorBucket(Max(x.start, y.start));
    BucketIn(x, b);
    BucketIn(y, b);
  }

  /** Non-empty overlapping intervals share a bucket; aligned ones share one only if they overlap. */
  lemma SharedBucketIffOverlap(x: Interval, y: Interval)
    requires x.start < x.end && y.start < y.end
    ensures Overlaps(x, y) ==> exists b :: b in BucketsOf(x) && b in BucketsOf(y)
    ensures Aligned(x) && Aligned(y) && (exists b :: b in BucketsOf(x) && b in BucketsOf(y)) ==> Overlaps(x, y)
  {
    hide BucketsOf, OnGrid;
    if Overlaps(x, y) {
      OverlapSharesBucket(x, y);
    }
    if Aligned(x) && Aligned(y) && exists b :: b in BucketsOf(x) && b in BucketsOf(y) {
      var b :| b in BucketsOf(x) && b in BucketsOf(y);
      BucketIn(x, b);
      BucketIn(y, b);
      GridGap(b, x.end);
      GridGap(b, y.end);
      if y.end <= x.start {
        GridGap(b, x.start);
      }
      if x.end <= y.start {
        GridGap(b, y.start);
      }
    }
  }

  ghost predicate InBuckets(buckets: seq<int>, t: int) {
    exists b :: b in buckets && b <= t < b + BUCKET
  }

  /** The instants covered by a collection of buckets. */
  ghost function BucketPoints(buckets: seq<int>): iset<int> {
    iset t | InBuckets(buckets, t)
  }

  /** What the sweep in `bucketsToIntervals` keeps about the first `n` sorted buckets. */
  ghost predicate Grouped(s: seq<Interval>, sorted: seq<int>, n: nat)
    requires n <= |sorted|
  {
    && 0 < |s| && 0 < n
    && SortedInts(sorted) && (forall b :: b in sorted ==> OnGrid(b))
    && Normal(s)
    && s[|s| - 1].end == sorted[n - 1] + BUCKET
    && s[|s| - 1].start <= sorted[n - 1]
    && Points(s) == BucketPoints(sorted[..n])
  }

  lemma BucketPointsOfSnoc(s: seq<int>, b: int)
    ensures BucketPoints(s + [b]) == BucketPoints(s) + Points([Interval(b, b + BUCKET)])
  {
    PointsOfOne(Interval(b, b + BUCKET));
    forall t ensures InBuckets(s + [b], t) <==> InBuckets(s, t) || b <= t < b + BUCKET {
      if b <= t < b + BUCKET { assert b in s + [b]; }
      if InBuckets(s, t) {
        var x :| x in s && x <= t < x + BUCKET;
        assert x in s + [b];
      }
    }
  }

  lemma GroupFirst(sorted: seq<int>)
    requires 0 < |sorted| && SortedInts(sorted) && forall b :: b in sorted ==> OnGrid(b)
    ensures Grouped([] + [Interval(sorted[0], sorted[0] + BUCKET)], sorted, 1)
  {
    assert sorted[..1] == [] + [sorted[0]];
    BucketPointsOfSnoc([], sorted[0]);
  }

  lemma GroupNext(out: seq<Interval>, start: int, prev: int, sorted: seq<int>, n: nat)
    requires n < |sorted| && Grouped(out + [Interval(start, prev + BUCKET)], sorted, n)
    ensures
      var b := sorted[n];
      if b == prev || b == prev + BUCKET
      then Grouped(out + [Interval(start, b + BUCKET)], sorted, n + 1)
      else Grouped(out + [Interval(start, prev + BUCKET)] + [Interval(b, b + BUCKET)], sorted, n + 1)
  {
    var b := sorted[n];
    var cur, next := Interval(start, prev + BUCKET), Interval(b, b + BUCKET);
    assert sorted[..n + 1] == sorted[..n] + [b];
    BucketPointsOfSnoc(sorted[..n], b);
    assert (out + [cur])[|out|] == cur && cur.start < cur.end;
    assert prev in sorted && b in sorted && prev <= b;
    if b == prev || b == prev + BUCKET {
      assert start <= prev;
      SweepMerge(out, cur, next, Interval(start, b + BUCKET));
    } else {
      assert prev + BUCKET < b;
      SweepPush(out + [cur], next);
    }
  }

  lemma SameBucketPoints(a: seq<int>, b: seq<int>)
    requires forall x :: x in a <==> x in b
    ensures BucketPoints(a) == BucketPoints(b)
  {
    forall t ensures InBuckets(a, t) <==> InBuckets(b, t) {
    }
  }

  lemma GroupLast(s: seq<Interval>, sorted: seq<int>, buckets: seq<int>)
    requires Grouped(s, sorted, |sorted|)
    requires forall x :: x in sorted <==> x in buckets
    ensures Normal(s) && Points(s) == BucketPoints(buckets)
  {
    assert sorted[..|sorted|] == sorted;
    SameBucketPoints(sorted, buckets);
  }

  lemma SortedBuckets(buckets: seq<int>)
    requires buckets != [] && forall b :: b in buckets ==> OnGrid(b)
    ensures forall x :: x in SortInts(buckets) <==> x in buckets
    ensures SortInts(buckets) != []
    ensures var sorted := SortInts(buckets); Grouped([] + [Interval(sorted[0], sorted[0] + BUCKET)], sorted, 1)
  {
    SameElements(buckets, SortInts(buckets));
    GroupFirst(SortInts(buckets));
  }

  lemma NoBuckets()
    ensures Normal([]) && Points([]) == BucketPoints([])
  {
  }

  /** `bucketsToIntervals`: order and repetition of the input do not matter. */
  method BucketsToIntervals(buckets: seq<int>) returns (out: seq<Interval>)
    requires forall b :: b in buckets ==> OnGrid(b)
    ensures Normal(out) && Points(out) == BucketPoints(buckets)
  {
    hide SortInts, Grouped, BucketPoints, OnGrid, Normal;
    if |buckets| == 0 {
      NoBuckets();
      return [];
    }
    var sorted := SortInts(buckets);
    SortedBuckets(buckets);
    out := [];
    var start := sorted[0];
    var prev := start;
    for i := 1 to |sorted|
      invariant Grouped(out + [Interval(start, prev + BUCKET)], sorted, i)
    {
      var b := sorted[i];
      GroupNext(out, start, prev, sorted, i);
      if b == prev {
      } else if b == prev + BUCKET {
        prev := b;
      } else {
        out := out + [Interval(start, prev + BUCKET)];
        start := b;
        prev := b;
      }
    }
    out := out + [Interval(start, prev + BUCKET)];
    GroupLast(out, sorted, buckets);
  }

  /**
   * Going to buckets, shuffling and repeating them, and coming back gives the
   * five-minute hull of the interval: itself when it is grid-aligned.
   */
  lemma BucketsRoundTrip(x: Interval, buckets: seq<int>, back: seq<Interval>)
    requires x.start < x.end
    requires forall b :: b in buckets <==> b in BucketsOf(x)
    requires Normal(back) && Points(back) == BucketPoints(buckets)
    ensures back == [Interval(FloorBucket(x.start), CeilBucket(x.end))]
    ensures Aligned(x) ==> back == [x]
  {
    hide BucketsOf, OnGrid, FloorBucket, CeilBucket, Points, Normal;
    var hull := Interval(FloorBucket(x.start), CeilBucket(x.end));
    PointsOfOne(hull);
    forall t ensures t in BucketPoints(buckets) <==> hull.start <= t < hull.end {
      HullIsCovered(x, t);
      assert t in BucketPoints(buckets) <==> InBuckets(buckets, t);
      assert InBuckets(buckets, t) <==> InBuckets(BucketsOf(x), t);
    }
    OneIsNormal(hull);
    NormalFormUnique(back, [hull]);
    AlignedHull(x);
  }

  lemma HullIsCovered(x: Interval, t: int)
    requires x.start < x.end
    ensures InBuckets(BucketsOf(x), t) <==> FloorBucket(x.start) <= t < CeilBucket(x.end)
  {
    hide BucketsOf, OnGrid;
    BucketIn(x, FloorBucket(t));
    if InBuckets(BucketsOf(x), t) {
      var b :| b in BucketsOf(x) && b <= t < b + BUCKET;
      BucketIn(x, b);
      BucketBounds(x, b);
    } else {
      assert FloorBucket(t) !in BucketsOf(x);
      FloorBounds(x, t);
    }
  }

  lemma BucketBounds(x: Interval, b: int)
    requires OnGrid(b) && b < x.end && x.start < b + BUCKET
    ensures FloorBucket(x.start) <= b && b + BUCKET <= CeilBucket(x.end)
  {
  }

  lemma FloorBounds(x: Interval, t: int)
    ensures FloorBucket(x.start) <= t < CeilBucket(x.end) ==>
              FloorBucket(t) < x.end && x.start < FloorBucket(t) + BUCKET
  {
  }

  lemma OneIsNormal(x: Interval)
    requires x.start < x.end
    ensures Normal([x])
  {
  }

  lemma AlignedHull(x: Interval)
    ensures Aligned(x) ==> FloorBucket(x.start) == x.start && CeilBucket(x.end) == x.end
  {
  }
}
