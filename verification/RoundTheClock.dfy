/**
 * Schedules that never close: their windows merge into one, so the dates a query loads
 * decide where the grid is anchored and where the last footprint has to end
 * (freeIntervalsForHost and candidatesInWindow in src/core/slots/engine.ts).
 */
module RoundTheClock {
  import opened Common
  import opened Intervals
  import opened Zone
  import opened LocalDays
  import opened SlotEngine
  import opened ListingAgreement
  import opened SlotGrid

  /** One offset, and every instant covered by its own local day. */
  ghost predicate NeverCloses(av: Availability, c: int) {
    ValidAvailability(av) && ConstantOffset(av.zone, c) && forall t :: OpenAt(av, c, t)
  }

  ghost predicate OpenAt(av: Availability, c: int, t: int) {
    FreeOn(av, (t + c) / DAY, t)
  }

  /** From local midnight a day before the query to the one two days after its end. */
  function LoadedTime(range: Interval, c: int): Interval {
    Interval(((range.start + c) / DAY - 1) * DAY - c, ((range.end + c) / DAY + 2) * DAY - c)
  }

  ghost predicate Covers(av: Availability, range: Interval, start: int) {
    range.start <= start < range.end && DatesFor(av, range).Some?
  }

  /** All that the loaded dates leave is one window. */
  lemma FreeIsLoadedTime(av: Availability, c: int, range: Interval)
    requires NeverCloses(av, c) && DatesFor(av, range).Some? && range.start <= range.end
    ensures forall t :: t in FreeFor(av, range) <==> LoadedTime(range, c).start <= t < LoadedTime(range, c).end
  {
    hide LocalDate, NeverCloses, DateRun, FreeOnAny;
    OneOffset(av, c);
    LoadedDates(av.zone, c, range);
    var first, last := (range.start + c) / DAY - 1, (range.end + c) / DAY + 1;
    forall t ensures FreeOnAny(av, DateRun(first, last), t) <==> first * DAY <= t + c < (last + 1) * DAY {
      OpenOnDates(av, c, first, last, t);
    }
  }

  lemma OneOffset(av: Availability, c: int)
    requires NeverCloses(av, c)
    ensures ConstantOffset(av.zone, c)
  {
  }

  lemma OpenOnDates(av: Availability, c: int, first: int, last: int, t: int)
    requires NeverCloses(av, c) && first <= last
    ensures FreeOnAny(av, DateRun(first, last), t) <==> first * DAY <= t + c < (last + 1) * DAY
  {
    hide FreeOn, ValidAvailability, DateRun;
    var dates, d := DateRun(first, last), (t + c) / DAY;
    DateRunMembers(first, last, d);
    assert OpenAt(av, c, t);
    if FreeOnAny(av, dates, t) {
      var i :| 0 <= i < |dates| && FreeOn(av, dates[i], t);
      CoveringDateIsLocalDate(av, c, dates[i], t);
    }
    if d in dates {
      var i :| 0 <= i < |dates| && dates[i] == d;
      assert FreeOn(av, dates[i], t);
    }
  }

  lemma LoadedDates(z: int -> int, c: int, range: Interval)
    requires ConstantOffset(z, c) && LocalDates(z, range.start - DAY, range.end + DAY).Some?
    ensures LocalDates(z, range.start - DAY, range.end + DAY).value
            == DateRun((range.start + c) / DAY - 1, (range.end + c) / DAY + 1)
  {
    hide LocalDate, DateRun;
    LocalDateByOffset(z, range.start - DAY);
    LocalDateByOffset(z, range.end + DAY);
    OneDayAside(range.start + c);
    OneDayAside(range.end + c);
  }

  lemma OneDayAside(x: int)
    ensures (x - DAY) / DAY == x / DAY - 1 && (x + DAY) / DAY == x / DAY + 1
  {
  }

  lemma OneWindow(p: iset<int>, x: Interval, w: Interval)
    requires x.start < x.end && forall t :: t in p <==> x.start <= t < x.end
    ensures Maximal(p, w) <==> w == x
  {
    if Maximal(p, w) {
      assert w.start in p && w.end - 1 in p;
    }
  }

  /** So a start is gridded exactly when it is a candidate of that one window. */
  lemma GriddedInLoadedTime(av: Availability, c: int, et: EventType, range: Interval, start: int)
    requires NeverCloses(av, c) && Covers(av, range, start)
    ensures LoadedTime(range, c).start + DAY <= range.start
    ensures Gridded(FreeFor(av, range), et, start) <==> Candidate(LoadedTime(range, c), et, start)
  {
    hide FreeFor, Candidate, DatesFor, NeverCloses;
    FreeIsLoadedTime(av, c, range);
    forall w ensures Maximal(FreeFor(av, range), w) <==> w == LoadedTime(range, c) {
      OneWindow(FreeFor(av, range), LoadedTime(range, c), w);
    }
  }

  // ---- The grid ------------------------------------------------------------------------

  /** How far the first bucket of a local day lies behind its midnight. */
  function Drift(c: int): int {
    CeilBucket(-c) + c
  }

  lemma AnchorOfDay(c: int, d: int)
    requires c % SECOND == 0
    ensures 0 <= Drift(c) <= BUCKET - SECOND
    ensures CeilBucket(d * DAY - c) == d * DAY - c + Drift(c)
  {
    hide CeilBucket, OnGrid;
    DriftBounds(c);
    CeilShift(-c, d * 288);
    assert d * DAY == d * 288 * BUCKET;
  }

  lemma DriftBounds(c: int)
    requires c % SECOND == 0
    ensures 0 <= Drift(c) <= BUCKET - SECOND
  {
    var b, s := (-c + BUCKET - 1) / BUCKET, c / SECOND;
    assert CeilBucket(-c) == b * BUCKET && c == s * SECOND;
    assert Drift(c) == (300 * b + s) * SECOND;
  }

  lemma CeilShift(x: int, m: int)
    ensures CeilBucket(x + m * BUCKET) == CeilBucket(x) + m * BUCKET
  {
    assert (x + m * BUCKET + BUCKET - 1) / BUCKET == (x + BUCKET - 1) / BUCKET + m;
  }

  ghost predicate OnGridFrom(anchor: int, step: int, start: int) {
    exists k: nat :: start == GridPoint(anchor, step, k)
  }

  lemma {:induction false} GridShift(anchor: int, step: int, n: nat, k: nat)
    ensures GridPoint(anchor, step, n + k) == GridPoint(GridPoint(anchor, step, n), step, k)
  {
    if k > 0 {
      GridShift(anchor, step, n, k - 1);
    }
  }

  lemma {:induction false} GridPointIsProduct(anchor: int, step: int, k: nat)
    ensures GridPoint(anchor, step, k) == anchor + k * step
  {
    if k > 0 {
      GridPointIsProduct(anchor, step, k - 1);
    }
  }

  lemma StepsOfADay(anchor: int, step: int) returns (n: nat)
    requires 0 < step && DAY % step == 0
    ensures GridPoint(anchor, step, n) == anchor + DAY
  {
    n := DAY / step;
    GridPointIsProduct(anchor, step, n);
  }

  lemma NextDaySameGrid(anchor: int, step: int, start: int)
    requires 0 < step && DAY % step == 0 && anchor + DAY <= start
    ensures OnGridFrom(anchor, step, start) <==> OnGridFrom(anchor + DAY, step, start)
  {
    hide GridPoint;
    var n := StepsOfADay(anchor, step);
    if OnGridFrom(anchor, step, start) {
      var k: nat :| start == GridPoint(anchor, step, k);
      if k < n {
        GridIsIncreasing(anchor, step, k, n);
      }
      GridShift(anchor, step, n, k - n);
      assert start == GridPoint(anchor + DAY, step, k - n);
    }
    if OnGridFrom(anchor + DAY, step, start) {
      var k: nat :| start == GridPoint(anchor + DAY, step, k);
      GridShift(anchor, step, n, k);
      assert start == GridPoint(anchor, step, n + k);
    }
  }

  /** When the step divides a day, every midnight anchors the same grid. */
  lemma {:induction false} LaterDaySameGrid(anchor: int, step: int, days: nat, start: int)
    requires 0 < step && DAY % step == 0 && anchor + days * DAY <= start
    ensures OnGridFrom(anchor, step, start) <==> OnGridFrom(anchor + days * DAY, step, start)
  {
    hide OnGridFrom;
    if days > 0 {
      LaterDaySameGrid(anchor, step, days - 1, start);
      NextDaySameGrid(anchor + (days - 1) * DAY, step, start);
    }
  }

  lemma AnchorIsOnGrid(anchor: int, step: int)
    ensures OnGridFrom(anchor, step, anchor)
  {
    assert anchor == GridPoint(anchor, step, 0);
  }

  lemma GridGapIsStep(anchor: int, step: int, x: int, y: int)
    requires 0 < step && OnGridFrom(anchor, step, x) && OnGridFrom(anchor, step, y) && x < y
    ensures x + step <= y
  {
    hide GridPoint;
    var j: nat :| x == GridPoint(anchor, step, j);
    var k: nat :| y == GridPoint(anchor, step, k);
    if k < j {
      GridIsIncreasing(anchor, step, k, j);
    }
    GridIsIncreasing(anchor, step, j, k);
  }

  // ---- When queries agree ----------------------------------------------------------------

  /** Checked from the event type and the offset alone. */
  predicate AnchorFree(c: int, et: EventType)
    requires 0 < et.Step()
  {
    DAY % et.Step() == 0 && et.Duration() + et.After() + Drift(c) <= DAY + et.Step()
  }

  /** Any two loadable queries agree about any start they both cover. */
  ghost predicate Agrees(av: Availability, et: EventType) {
    forall a, b, start :: Covers(av, a, start) && Covers(av, b, start) ==>
      (Gridded(FreeFor(av, a), et, start) <==> Gridded(FreeFor(av, b), et, start))
  }

  ghost predicate OnDayGrid(c: int, et: EventType, d: int, start: int)
    requires 0 < et.Step()
  {
    OnGridFrom(d * DAY - c + Drift(c), et.Step(), start)
  }

  lemma CandidateOfLoadedTime(c: int, et: EventType, range: Interval, start: int)
    requires c % SECOND == 0 && ValidEventType(et) && range.start <= start
    ensures Candidate(LoadedTime(range, c), et, start) <==>
              && OnDayGrid(c, et, (range.start + c) / DAY - 1, start)
              && start + et.Duration() + et.After() <= LoadedTime(range, c).end
  {
    hide GridPoint;
    AnchorOfDay(c, (range.start + c) / DAY - 1);
  }

  /** On a grid every midnight shares, the last footprint ends inside the loaded time. */
  lemma LastOneFits(c: int, et: EventType, range: Interval, start: int)
    requires c % SECOND == 0 && ValidEventType(et) && range.start <= start < range.end
    requires AnchorFree(c, et) && OnDayGrid(c, et, (range.start + c) / DAY - 1, start)
    ensures start + et.Duration() + et.After() <= LoadedTime(range, c).end
  {
    hide OnGridFrom, Drift;
    var d, q := (range.start + c) / DAY - 1, (range.end + c) / DAY;
    var anchor := d * DAY - c + Drift(c);
    var next := anchor + (q + 1 - d) * DAY;
    AnchorOfDay(c, d);
    AnchorIsOnGrid(next, et.Step());
    LaterDaySameGrid(anchor, et.Step(), q + 1 - d, next);
    GridGapIsStep(anchor, et.Step(), start, next);
  }

  lemma SameForBoth(av: Availability, c: int, et: EventType, a: Interval, b: Interval, start: int)
    requires ValidEventType(et) && NeverCloses(av, c) && AnchorFree(c, et)
    requires Covers(av, a, start) && Covers(av, b, start) && a.start <= b.start
    ensures Gridded(FreeFor(av, a), et, start) <==> Gridded(FreeFor(av, b), et, start)
  {
    hide FreeFor, DatesFor, Gridded, Candidate, OnDayGrid, Drift, NeverCloses, LoadedTime;
    OneOffset(av, c);
    GriddedInLoadedTime(av, c, et, a, start);
    GriddedInLoadedTime(av, c, et, b, start);
    CandidateOfLoadedTime(c, et, a, start);
    CandidateOfLoadedTime(c, et, b, start);
    var d, e := (a.start + c) / DAY - 1, (b.start + c) / DAY - 1;
    DayGridsMeet(c, et, d, e, start);
    if OnDayGrid(c, et, d, start) {
      LastOneFits(c, et, a, start);
      LastOneFits(c, et, b, start);
    }
  }

  lemma DayGridsMeet(c: int, et: EventType, d: int, e: int, start: int)
    requires c % SECOND == 0 && ValidEventType(et) && DAY % et.Step() == 0 && d <= e && (e + 1) * DAY - c <= start
    ensures OnDayGrid(c, et, d, start) <==> OnDayGrid(c, et, e, start)
  {
    hide OnGridFrom, Drift;
    AnchorOfDay(c, d);
    LaterDaySameGrid(d * DAY - c + Drift(c), et.Step(), e - d, start);
  }

  // ---- When they do not --------------------------------------------------------------------

  lemma {:induction false} StepDividesDay(anchor: int, step: int, j: nat, k: nat)
    requires 0 < step && GridPoint(anchor, step, j) == GridPoint(anchor + DAY, step, k)
    ensures DAY % step == 0
  {
    if k == 0 {
      GridPointIsProduct(anchor, step, j);
      MultipleHasNoRemainder(j, step);
    } else {
      GridIsIncreasing(anchor + DAY, step, 0, k);
      StepDividesDay(anchor, step, j - 1, k - 1);
    }
  }

  lemma MultipleHasNoRemainder(n: int, m: int)
    requires 0 < m
    ensures (n * m) % m == 0
  {
    var q, r := (n * m) / m, (n * m) % m;
    assert n * m == q * m + r;
    assert r == (n - q) * m;
    SmallMultiple(n - q, m);
  }

  lemma SmallMultiple(k: int, m: int)
    requires 0 < m
    ensures 0 <= k * m < m ==> k == 0
  {
    if k >= 1 {
      AtLeastOnce(k, m);
    }
    if k <= -1 {
      AtLeastOnce(-k, m);
    }
  }

  lemma AtLeastOnce(k: int, m: int)
    requires 1 <= k && 0 < m
    ensures m <= k * m
  {
  }

  /** Queries of a few days around the first local days load. */
  lemma ShortQueryLoads(av: Availability, c: int, range: Interval)
    requires ConstantOffset(av.zone, c) && range.start <= range.end <= range.start + 10 * DAY
    ensures DatesFor(av, range).Some?
  {
    hide DateRun;
    LocalDateByOffset(av.zone, range.start - DAY);
    LocalDateByOffset(av.zone, range.end + DAY);
  }

  lemma FirstStepAfter(anchor: int, x: int, step: int) returns (k: nat)
    requires 0 < step && anchor <= x
    ensures x <= GridPoint(anchor, step, k) < x + step
  {
    k := 0;
    while GridPoint(anchor, step, k) < x
      invariant GridPoint(anchor, step, k) < x + step
      decreases x - GridPoint(anchor, step, k)
    {
      k := k + 1;
    }
  }

  /** A step that does not divide a day: the two queries are anchored at different midnights. */
  lemma DifferentAnchors(av: Availability, c: int, et: EventType) returns (a: Interval, b: Interval, start: int)
    requires ValidEventType(et) && NeverCloses(av, c) && DAY % et.Step() != 0
    ensures Covers(av, a, start) && Covers(av, b, start)
    ensures Gridded(FreeFor(av, a), et, start) && !Gridded(FreeFor(av, b), et, start)
  {
    hide FreeFor, DatesFor, Gridded, Candidate, Drift, ValidAvailability, FreeOn, GridPoint;
    a, b := Interval(DAY - c, 4 * DAY - c), Interval(2 * DAY - c, 4 * DAY - c);
    ShortQueryLoads(av, c, a);
    ShortQueryLoads(av, c, b);
    AnchorOfDay(c, 0);
    var k := FirstStepAfter(Drift(c) - c, 2 * DAY - c, et.Step());
    start := GridPoint(Drift(c) - c, et.Step(), k);
    GriddedInLoadedTime(av, c, et, a, start);
    GriddedInLoadedTime(av, c, et, b, start);
    CandidateOfLoadedTime(c, et, a, start);
    CandidateOfLoadedTime(c, et, b, start);
    assert OnGridFrom(0 * DAY - c + Drift(c), et.Step(), start);
    if OnDayGrid(c, et, 1, start) {
      var j: nat :| start == GridPoint(DAY - c + Drift(c), et.Step(), j);
      StepDividesDay(Drift(c) - c, et.Step(), k, j);
    }
  }

  /** A footprint too long for what is loaded: the last start before the end is cut off. */
  lemma CutOffAtTheEnd(av: Availability, c: int, et: EventType) returns (a: Interval, b: Interval, start: int)
    requires ValidEventType(et) && NeverCloses(av, c) && DAY % et.Step() == 0
    requires et.Duration() + et.After() + Drift(c) > DAY + et.Step()
    ensures Covers(av, a, start) && Covers(av, b, start)
    ensures Gridded(FreeFor(av, a), et, start) && !Gridded(FreeFor(av, b), et, start)
  {
    hide FreeFor, DatesFor, Gridded, Candidate, Drift, ValidAvailability, FreeOn, OnGridFrom;
    a, b := Interval(DAY - c, 4 * DAY - c), Interval(DAY - c, 2 * DAY - 1 - c);
    start := 2 * DAY + Drift(c) - et.Step() - c;
    AnchorOfDay(c, 0);
    ShortQueryLoads(av, c, a);
    ShortQueryLoads(av, c, b);
    LastStepOfDay(Drift(c) - c, et.Step());
    GriddedInLoadedTime(av, c, et, a, start);
    GriddedInLoadedTime(av, c, et, b, start);
    CandidateOfLoadedTime(c, et, a, start);
    CandidateOfLoadedTime(c, et, b, start);
  }

  lemma LastStepOfDay(anchor: int, step: int)
    requires 0 < step && DAY % step == 0
    ensures OnGridFrom(anchor, step, anchor + 2 * DAY - step)
  {
    AnchorIsOnGrid(anchor + 2 * DAY, step);
    LaterDaySameGrid(anchor, step, 2, anchor + 2 * DAY);
    var k: nat :| anchor + 2 * DAY == GridPoint(anchor, step, k);
    assert anchor + 2 * DAY - step == GridPoint(anchor, step, k - 1);
  }

  /**
   * For every schedule that never closes, all loadable queries agree about all starts
   * they share if and only if the step divides a day and the meeting with its trailing
   * buffer is at most a step longer than a day, counted from the first bucket.
   */
  lemma RoundTheClockAgreesIff(av: Availability, c: int, et: EventType)
    requires ValidEventType(et) && NeverCloses(av, c)
    ensures Agrees(av, et) <==> AnchorFree(c, et)
  {
    hide NeverCloses, Covers, Gridded, FreeFor, Drift;
    if AnchorFree(c, et) {
      forall a, b, start | Covers(av, a, start) && Covers(av, b, start)
        ensures Gridded(FreeFor(av, a), et, start) <==> Gridded(FreeFor(av, b), et, start)
      {
        if a.start <= b.start {
          SameForBoth(av, c, et, a, b, start);
        } else {
          SameForBoth(av, c, et, b, a, start);
        }
      }
    } else if DAY % et.Step() != 0 {
      var a, b, start := DifferentAnchors(av, c, et);
    } else {
      var a, b, start := CutOffAtTheEnd(av, c, et);
    }
  }

  /** The other filters do not look at the query range, so whole offers agree as well. */
  lemma OffersAgree(q: SlotQuery, h: HostInput, c: int, other: Interval, start: int)
    requires ValidEventType(q.eventType) && NeverCloses(h.availability, c) && AnchorFree(c, q.eventType)
    requires Covers(h.availability, q.range, start) && Covers(h.availability, other, start)
    ensures Offers(q, h, start) <==> Offers(q.(range := other), h, start)
  {
    hide NeverCloses, Gridded, FreeFor, Drift, DatesFor;
    RoundTheClockAgreesIff(h.availability, c, q.eventType);
  }

  // ---- There are such schedules ---------------------------------------------------------------

  function AlwaysOpen(c: int): Availability {
    Availability(
      (t: int) => c,
      [[DayWindow(0, 1440)], [DayWindow(0, 1440)], [DayWindow(0, 1440)], [DayWindow(0, 1440)],
       [DayWindow(0, 1440)], [DayWindow(0, 1440)], [DayWindow(0, 1440)]],
      [])
  }

  lemma AlwaysOpenNeverCloses(c: int)
    requires MIN_OFFSET <= c <= MAX_OFFSET && c % SECOND == 0
    ensures NeverCloses(AlwaysOpen(c), c)
  {
    hide LocalTimeToInstant;
    var av := AlwaysOpen(c);
    forall t ensures OpenAt(av, c, t) {
      var d := (t + c) / DAY;
      assert DayWindows(av, d) == [DayWindow(0, 1440)];
      ConstantResolution(av.zone, c, d, 0);
      ConstantResolution(av.zone, c, d, 1440);
      assert WindowCovers(av.zone, d, DayWindows(av, d)[0], t);
    }
  }
}
