/**
 * Interval algebra (src/core/slots/intervals.ts). An interval is half-open,
 * `[start, end)`; a list of intervals denotes the set of instants it covers.
 */
module Intervals {
  import opened Common

  datatype Interval = Interval(start: int, end: int)

  ghost predicate Covered(s: seq<Interval>, t: int) {
    exists i :: 0 <= i < |s| && s[i].start <= t < s[i].end
  }

  /** The set of instants a list of intervals denotes. */
  ghost function Points(s: seq<Interval>): iset<int> {
    iset t | Covered(s, t)
  }

  ghost predicate Proper(s: seq<Interval>) {
    forall i :: 0 <= i < |s| ==> s[i].start < s[i].end
  }

  /** Ordered, with a gap between neighbours; members may still be empty. */
  ghost predicate Separated(s: seq<Interval>) {
    forall i, j :: 0 <= i < j < |s| ==> s[i].start <= s[j].start && s[i].end < s[j].start
  }

  /** Normal form: non-empty intervals, sorted, with uncovered time between neighbours. */
  ghost predicate Normal(s: seq<Interval>) {
    Proper(s) && Separated(s)
  }

  predicate Overlaps(a: Interval, b: Interval) {
    a.start < b.end && b.start < a.end
  }

  method OverlapsAny(x: Interval, others: seq<Interval>) returns (r: bool)
    ensures r <==> HitsAny(x, others)
  {
    r := false;
    for i := 0 to |others|
      invariant r <==> HitsAny(x, others[..i])
    {
      assert others[..i + 1] == others[..i] + [others[i]];
      if Overlaps(x, others[i]) {
        assert others[..i + 1][i] == others[i];
        r := true;
      }
    }
    assert others[..|others|] == others;
  }

  ghost predicate HitsAny(x: Interval, others: seq<Interval>) {
    exists i :: 0 <= i < |others| && Overlaps(x, others[i])
  }

  // ---- Sorting by (start, end) ---------------------------------------------

  predicate Before(a: Interval, b: Interval) {
    a.start < b.start || (a.start == b.start && a.end <= b.end)
  }

  ghost predicate Ordered(s: seq<Interval>) {
    forall i, j :: 0 <= i < j < |s| ==> s[i].start <= s[j].start
  }

  function Insert(x: Interval, s: seq<Interval>): (r: seq<Interval>)
    ensures multiset(r) == multiset{x} + multiset(s)
  {
    if s == [] || Before(x, s[0]) then [x] + s
    else
      assert s == [s[0]] + s[1..];
      [s[0]] + Insert(x, s[1..])
  }

  lemma InsertKeepsOrder(x: Interval, s: seq<Interval>)
    requires Ordered(s)
    ensures Ordered(Insert(x, s))
  {
    if s != [] && !Before(x, s[0]) {
      InsertKeepsOrder(x, s[1..]);
      var rest := Insert(x, s[1..]);
      forall i | 0 <= i < |rest| ensures s[0].start <= rest[i].start {
        assert rest[i] in multiset(rest);
        assert rest[i] == x || rest[i] in s[1..];
      }
    }
  }

  function SortIntervals(s: seq<Interval>): (r: seq<Interval>)
    ensures Ordered(r) && multiset(r) == multiset(s)
  {
    if s == [] then []
    else
      assert s == [s[0]] + s[1..];
      InsertKeepsOrder(s[0], SortIntervals(s[1..]));
      Insert(s[0], SortIntervals(s[1..]))
  }

  // ---- Facts about point sets ----------------------------------------------

  lemma PointsOfAppend(a: seq<Interval>, b: seq<Interval>)
    ensures Points(a + b) == Points(a) + Points(b)
  {
    forall t ensures Covered(a + b, t) <==> Covered(a, t) || Covered(b, t) {
      if Covered(a, t) {
        var i :| 0 <= i < |a| && a[i].start <= t < a[i].end;
        assert (a + b)[i] == a[i];
      }
      if Covered(b, t) {
        var i :| 0 <= i < |b| && b[i].start <= t < b[i].end;
        assert (a + b)[|a| + i] == b[i];
      }
    }
  }

  lemma PointsOfOne(x: Interval)
    ensures forall t :: t in Points([x]) <==> x.start <= t < x.end
  {
    forall t ensures t in Points([x]) <==> x.start <= t < x.end {
      if x.start <= t < x.end { assert [x][0].start <= t < [x][0].end; }
    }
  }

  lemma PointsOfPermutation(a: seq<Interval>, b: seq<Interval>)
    requires multiset(a) == multiset(b)
    ensures Points(a) == Points(b)
    ensures Proper(a) ==> Proper(b)
  {
    SameElements(a, b);
    forall t ensures Covered(a, t) <==> Covered(b, t) {
      if Covered(a, t) {
        var i :| 0 <= i < |a| && a[i].start <= t < a[i].end;
        assert a[i] in b;
      }
      if Covered(b, t) {
        var i :| 0 <= i < |b| && b[i].start <= t < b[i].end;
        assert b[i] in a;
      }
    }
    if Proper(a) {
      forall i | 0 <= i < |b| ensures b[i].start < b[i].end { assert b[i] in a; }
    }
  }

  // ---- Merge ----------------------------------------------------------------

  /** Extending the pending interval of the sweep by one it reaches. */
  lemma SweepMerge(out: seq<Interval>, cur: Interval, next: Interval, merged: Interval)
    requires Separated(out + [cur]) && cur.start <= next.start <= cur.end
    requires merged == Interval(cur.start, Max(cur.end, next.end))
    ensures Separated(out + [merged])
    ensures Points(out + [merged]) == Points(out + [cur]) + Points([next])
    ensures Proper(out + [cur]) ==> Proper(out + [merged])
  {
    PointsOfAppend(out, [merged]);
    PointsOfAppend(out, [cur]);
    PointsOfOne(merged);
    PointsOfOne(cur);
    PointsOfOne(next);
    assert forall j :: 0 <= j < |out| ==> (out + [merged])[j] == (out + [cur])[j];
    assert (out + [cur])[|out|] == cur;
  }

  /** Starting a new pending interval after a gap. */
  lemma SweepPush(s: seq<Interval>, next: Interval)
    requires s != [] && Separated(s)
    requires s[|s| - 1].start <= next.start && s[|s| - 1].end < next.start
    ensures Separated(s + [next])
    ensures Points(s + [next]) == Points(s) + Points([next])
    ensures Proper(s) && next.start < next.end ==> Proper(s + [next])
  {
    PointsOfAppend(s, [next]);
    forall i | 0 <= i < |s| ensures s[i].start <= next.start && s[i].end < next.start {
      assert i < |s| - 1 ==> s[i].start <= s[|s| - 1].start && s[i].end < s[|s| - 1].start;
    }
  }

  /** What the sweep keeps: `s` is the merged form of the first `n` sorted intervals. */
  ghost predicate Swept(s: seq<Interval>, sorted: seq<Interval>, n: nat)
    requires n <= |sorted|
  {
    && 0 < |s| && 0 < n
    && Points(s) == Points(sorted[..n])
    && Separated(s)
    && s[|s| - 1].start <= sorted[n - 1].start
    && (Proper(sorted) ==> Proper(s))
  }

  lemma SweepNext(out: seq<Interval>, cur: Interval, sorted: seq<Interval>, n: nat)
    requires n < |sorted| && Ordered(sorted) && Swept(out + [cur], sorted, n)
    ensures
      var next := sorted[n];
      if next.start <= cur.end
      then Swept(out + [Interval(cur.start, Max(cur.end, next.end))], sorted, n + 1)
      else Swept(out + [cur] + [next], sorted, n + 1)
  {
    var next := sorted[n];
    assert sorted[..n + 1] == sorted[..n] + [next];
    PointsOfAppend(sorted[..n], [next]);
    assert sorted[n - 1].start <= next.start;
    if next.start <= cur.end {
      SweepMerge(out, cur, next, Interval(cur.start, Max(cur.end, next.end)));
    } else {
      SweepPush(out + [cur], next);
    }
  }

  /** `mergeIntervals`: the union, in normal form when no input is empty. */
  method MergeIntervals(intervals: seq<Interval>) returns (out: seq<Interval>)
    ensures Points(out) == Points(intervals)
    ensures Separated(out)
    ensures Proper(intervals) ==> Normal(out)
  {
    if |intervals| <= 1 {
      return intervals;
    }
    var sorted := SortIntervals(intervals);
    PointsOfPermutation(intervals, sorted);
    out := [];
    var cur := sorted[0];
    assert sorted[..1] == [cur] == out + [cur];
    for i := 1 to |sorted|
      invariant Swept(out + [cur], sorted, i)
    {
      var next := sorted[i];
      SweepNext(out, cur, sorted, i);
      if next.start <= cur.end {
        if next.end > cur.end {
          cur := Interval(cur.start, next.end);
        }
      } else {
        out := out + [cur];
        cur := next;
      }
    }
    assert sorted[..|sorted|] == sorted;
    out := out + [cur];
  }

  // ---- Subtract ---------------------------------------------------------------

  /** `subtractIntervals`: the set difference, in normal form when no input is empty. */
  method SubtractIntervals(base: seq<Interval>, subtract: seq<Interval>) returns (out: seq<Interval>)
    requires Proper(base) && Proper(subtract)
    ensures Points(out) == Points(base) - Points(subtract)
    ensures Normal(out)
  {
    if |subtract| == 0 {
      out := MergeIntervals(base);
      return;
    }
    var merged := MergeIntervals(base);
    var busy := MergeIntervals(subtract);
    out := [];
    for f := 0 to |merged|
      invariant Normal(out)
      invariant forall k :: 0 <= k < |out| && f < |merged| ==> out[k].end < merged[f].start
      invariant Points(out) == Points(merged[..f]) - Points(busy)
    {
      var pieces := FreePieces(merged[f], busy);
      assert merged[..f + 1] == merged[..f] + [merged[f]];
      PointsOfAppend(merged[..f], [merged[f]]);
      PointsOfAppend(out, pieces);
      out := out + pieces;
    }
    assert merged[..|merged|] == merged;
  }

  /** `s` is the uncovered part of `[from, to)`, in normal form and ending before `to`. */
  ghost predicate FreePart(s: seq<Interval>, busy: seq<Interval>, from: int, to: int) {
    && Normal(s)
    && (forall k :: 0 <= k < |s| ==> from <= s[k].start && s[k].end < to)
    && (forall t :: Covered(s, t) <==> from <= t < to && !Covered(busy, t))
  }

  lemma ExtendFreePart(s: seq<Interval>, busy: seq<Interval>, from: int, cursor: int, to: int)
    requires FreePart(s, busy, from, cursor) && from <= cursor < to
    requires forall t :: cursor <= t < to ==> !Covered(busy, t)
    ensures var r := s + [Interval(cursor, to)];
            && Normal(r)
            && (forall k :: 0 <= k < |r| ==> from <= r[k].start && r[k].end <= to)
            && (forall t :: Covered(r, t) <==> from <= t < to && !Covered(busy, t))
  {
    var piece := Interval(cursor, to);
    PointsOfAppend(s, [piece]);
    PointsOfOne(piece);
    forall t ensures Covered(s + [piece], t) <==> from <= t < to && !Covered(busy, t) {
      assert t in Points(s + [piece]) <==> t in Points(s) || t in Points([piece]);
    }
  }

  lemma UncoveredBetween(busy: seq<Interval>, n: nat, lo: int, hi: int)
    requires n <= |busy| && Separated(busy)
    requires forall k :: 0 <= k < n ==> busy[k].end <= lo
    requires n < |busy| ==> hi <= busy[n].start
    ensures forall t :: lo <= t < hi ==> !Covered(busy, t)
  {
  }

  /** The inner loop of `subtractIntervals`: one free interval against sorted busy time. */
  method FreePieces(free: Interval, busy: seq<Interval>) returns (out: seq<Interval>)
    requires free.start < free.end && Normal(busy)
    ensures Points(out) == Points([free]) - Points(busy)
    ensures Normal(out)
    ensures forall k :: 0 <= k < |out| ==> free.start <= out[k].start && out[k].end <= free.end
  {
    PointsOfOne(free);
    out := [];
    var cursor := free.start;
    var n := 0;
    while n < |busy|
      invariant 0 <= n <= |busy|
      invariant free.start <= cursor < free.end
      invariant FreePart(out, busy, free.start, cursor)
      invariant forall k :: 0 <= k < n ==> busy[k].end <= cursor
    {
      var b := busy[n];
      if b.end <= cursor {
        n := n + 1;
        continue;
      }
      if b.start >= free.end {
        UncoveredBetween(busy, n, cursor, free.end);
        break;
      }
      if b.start > cursor {
        UncoveredBetween(busy, n, cursor, b.start);
        ExtendFreePart(out, busy, free.start, cursor, b.start);
        out := out + [Interval(cursor, Min(b.start, free.end))];
      }
      assert forall t :: Max(cursor, b.start) <= t < b.end ==> Covered(busy, t);
      if Max(cursor, b.end) >= free.end {
        return;
      }
      cursor := Max(cursor, b.end);
      n := n + 1;
    }
    UncoveredBetween(busy, n, cursor, free.end);
    ExtendFreePart(out, busy, free.start, cursor, free.end);
    out := out + [Interval(cursor, free.end)];
  }

  // ---- Intersect --------------------------------------------------------------

  /** The instants both lists cover from positions `i` and `j` on. */
  ghost predicate Remaining(a: seq<Interval>, b: seq<Interval>, i: nat, j: nat, t: int)
    requires i <= |a| && j <= |b|
  {
    Covered(a[i..], t) && Covered(b[j..], t)
  }

  lemma CoveredFrom(s: seq<Interval>, i: nat, t: int)
    requires i < |s|
    ensures Covered(s[i..], t) <==> s[i].start <= t < s[i].end || Covered(s[i + 1..], t)
  {
    assert s[i..] == [s[i]] + s[i + 1..];
    PointsOfAppend([s[i]], s[i + 1..]);
    PointsOfOne(s[i]);
    assert t in Points(s[i..]) <==> Covered(s[i..], t);
    assert t in Points(s[i + 1..]) <==> Covered(s[i + 1..], t);
  }

  lemma CoveredLater(s: seq<Interval>, i: nat, t: int)
    requires i < |s| && Separated(s) && Covered(s[i + 1..], t)
    ensures s[i].end < t
  {
    var k :| 0 <= k < |s[i + 1..]| && s[i + 1..][k].start <= t < s[i + 1..][k].end;
    assert s[i + 1..][k] == s[i + 1 + k];
  }

  /** What the two lists share from here on: the overlap of their heads, then the rest. */
  lemma RemainingNext(a: seq<Interval>, b: seq<Interval>, i: nat, j: nat, t: int)
    requires i < |a| && j < |b| && Separated(a) && Separated(b)
    ensures Remaining(a, b, i, j, t) <==>
              Max(a[i].start, b[j].start) <= t < Min(a[i].end, b[j].end)
              || (if a[i].end < b[j].end then Remaining(a, b, i + 1, j, t) else Remaining(a, b, i, j + 1, t))
  {
    hide Covered, Separated;
    CoveredFrom(a, i, t);
    CoveredFrom(b, j, t);
    if Covered(a[i + 1..], t) { CoveredLater(a, i, t); }
    if Covered(b[j + 1..], t) { CoveredLater(b, j, t); }
  }

  lemma EverythingRemains(a: seq<Interval>, b: seq<Interval>)
    ensures forall t :: Remaining(a, b, 0, 0, t) <==> Covered(a, t) && Covered(b, t)
  {
    assert a[0..] == a && b[0..] == b;
  }

  lemma NothingRemains(a: seq<Interval>, b: seq<Interval>, i: nat, j: nat)
    requires i <= |a| && j <= |b| && (i == |a| || j == |b|)
    ensures forall t :: !Remaining(a, b, i, j, t)
  {
  }

  /** `intersectIntervals`: the set intersection, always in normal form. */
  method IntersectIntervals(a: seq<Interval>, b: seq<Interval>) returns (out: seq<Interval>)
    ensures Points(out) == Points(a) * Points(b)
    ensures Normal(out)
  {
    hide Remaining;
    var A := MergeIntervals(a);
    var B := MergeIntervals(b);
    out := [];
    var i, j := 0, 0;
    EverythingRemains(A, B);
    while i < |A| && j < |B|
      invariant 0 <= i <= |A| && 0 <= j <= |B|
      invariant Normal(out)
      invariant forall k :: 0 <= k < |out| && i < |A| && j < |B| ==> out[k].end < Max(A[i].start, B[j].start)
      invariant forall t :: Covered(A, t) && Covered(B, t) <==> Covered(out, t) || Remaining(A, B, i, j, t)
      decreases |A| - i + |B| - j
    {
      var x, y := A[i], B[j];
      var start := Max(x.start, y.start);
      var end := Min(x.end, y.end);
      forall t
        ensures Remaining(A, B, i, j, t) <==>
                start <= t < end
                || (if x.end < y.end then Remaining(A, B, i + 1, j, t) else Remaining(A, B, i, j + 1, t))
      {
        RemainingNext(A, B, i, j, t);
      }
      if start < end {
        PointsOfAppend(out, [Interval(start, end)]);
        PointsOfOne(Interval(start, end));
        assert forall t :: Covered(out + [Interval(start, end)], t) <==> t in Points(out + [Interval(start, end)]);
        assert forall t :: Covered(out, t) <==> t in Points(out);
        out := out + [Interval(start, end)];
      }
      if x.end < y.end {
        i := i + 1;
      } else {
        j := j + 1;
      }
    }
    NothingRemains(A, B, i, j);
    forall t ensures t in Points(out) <==> t in Points(a) && t in Points(b) {
      assert t in Points(A) <==> Covered(A, t);
      assert t in Points(B) <==> Covered(B, t);
    }
  }

  ghost predicate CoveredByAll(sets: seq<seq<Interval>>, t: int) {
    forall i :: 0 <= i < |sets| ==> Covered(sets[i], t)
  }

  /** The instants every set covers; no sets means no instants. */
  ghost function CommonPoints(sets: seq<seq<Interval>>): iset<int> {
    if sets == [] then iset{} else iset t | CoveredByAll(sets, t)
  }

  /** `intersectAll`: the common time of every set, empty for no sets at all. */
  method IntersectAll(sets: seq<seq<Interval>>) returns (acc: seq<Interval>)
    ensures Points(acc) == CommonPoints(sets)
    ensures sets != [] && Proper(sets[0]) ==> Normal(acc)
    ensures |sets| != 1 ==> Normal(acc)
  {
    if |sets| == 0 {
      return [];
    }
    acc := MergeIntervals(sets[0]);
    var i := 1;
    assert forall t :: t in Points(sets[0]) <==> Covered(sets[0], t);
    while i < |sets| && |acc| > 0
      invariant 1 <= i <= |sets|
      invariant forall t :: t in Points(acc) <==> CoveredByAll(sets[..i], t)
      invariant Proper(sets[0]) || i > 1 ==> Normal(acc)
    {
      var next := IntersectIntervals(acc, sets[i]);
      assert sets[..i + 1] == sets[..i] + [sets[i]];
      forall t ensures CoveredByAll(sets[..i + 1], t) <==> CoveredByAll(sets[..i], t) && Covered(sets[i], t) {
        assert sets[..i + 1][i] == sets[i];
        assert forall k :: 0 <= k < i ==> sets[..i + 1][k] == sets[..i][k];
      }
      acc := next;
      i := i + 1;
    }
    if i == |sets| {
      assert sets[..i] == sets;
    } else {
      forall t ensures !CoveredByAll(sets, t) {
        assert !CoveredByAll(sets[..i], t);
        assert forall k :: 0 <= k < i ==> sets[..i][k] == sets[k];
      }
    }
  }

  // ---- Normal forms are unique ----------------------------------------------------

  /** `w` is a maximal run of instants in `p`. */
  ghost predicate Maximal(p: iset<int>, w: Interval) {
    && w.start < w.end
    && (forall t :: w.start <= t < w.end ==> t in p)
    && w.start - 1 !in p
    && w.end !in p
  }

  /** The members of a normal form are exactly the maximal runs of what it denotes. */
  lemma MembersAreMaximal(s: seq<Interval>, w: Interval)
    requires Normal(s)
    ensures w in s <==> Maximal(Points(s), w)
  {
    if w in s {
      var i :| 0 <= i < |s| && s[i] == w;
      MemberIsMaximal(s, i);
    }
    if Maximal(Points(s), w) {
      assert w.start in Points(s);
      var i :| 0 <= i < |s| && s[i].start <= w.start < s[i].end;
      MemberIsMaximal(s, i);
      SameRun(Points(s), w, s[i]);
    }
  }

  lemma MemberIsMaximal(s: seq<Interval>, i: nat)
    requires Normal(s) && i < |s|
    ensures Maximal(Points(s), s[i])
  {
    assert forall t :: s[i].start <= t < s[i].end ==> Covered(s, t);
  }

  /** Maximal runs that share an instant are the same run. */
  lemma SameRun(p: iset<int>, w: Interval, x: Interval)
    requires Maximal(p, w) && Maximal(p, x) && x.start <= w.start < x.end
    ensures w == x
  {
    assert x.start < w.start ==> w.start - 1 in p;
    assert w.end < x.end ==> w.end in p;
    assert x.end < w.end ==> x.end in p;
  }

  /** A point set has one normal form, so input order and repetition cannot matter. */
  lemma {:induction false} NormalFormUnique(a: seq<Interval>, b: seq<Interval>)
    requires Normal(a) && Normal(b) && Points(a) == Points(b)
    ensures a == b
  {
    forall w ensures w in a <==> w in b {
      MembersAreMaximal(a, w);
      MembersAreMaximal(b, w);
    }
    OrderedListsEqual(a, b);
  }

  lemma EmptyOrFirst<T>(s: seq<T>)
    ensures s == [] || exists x :: x in s
  {
    if s != [] { assert s[0] in s; }
  }

  lemma {:induction false} OrderedListsEqual(a: seq<Interval>, b: seq<Interval>)
    requires Normal(a) && Normal(b)
    requires forall w :: w in a <==> w in b
    ensures a == b
  {
    if a == [] || b == [] {
      EmptyOrFirst(a);
      EmptyOrFirst(b);
    } else {
      assert a[0] in b && b[0] in a;
      assert a[0] == b[0];
      forall w ensures w in a[1..] <==> w in b[1..] {
        assert forall k :: 1 <= k < |a| ==> a[0] != a[k] == a[1..][k - 1];
        assert forall k :: 1 <= k < |b| ==> b[0] != b[k] == b[1..][k - 1];
        assert w in a ==> w == a[0] || w in a[1..];
        assert w in b ==> w == b[0] || w in b[1..];
      }
      OrderedListsEqual(a[1..], b[1..]);
      assert a == [a[0]] + a[1..] && b == [b[0]] + b[1..];
    }
  }

  /** A run of instants of `p` lies inside one window of any normal form of `p`. */
  lemma RunInsideOneWindow(s: seq<Interval>, run: Interval)
    requires Normal(s) && run.start < run.end
    requires forall t :: run.start <= t < run.end ==> t in Points(s)
    ensures exists i :: 0 <= i < |s| && s[i].start <= run.start && run.end <= s[i].end
  {
    assert run.start in Points(s);
    var i :| 0 <= i < |s| && s[i].start <= run.start < s[i].end;
    MemberIsMaximal(s, i);
  }
}
