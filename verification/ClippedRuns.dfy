/**
 * What a query makes of any schedule under one offset: each covered run, clipped to the
 * local days the query loads (freeIntervalsForHost and candidatesInWindow in
 * src/core/slots/engine.ts). Schedules that never close and schedules with a break in
 * every local day are the two ends of this.
 */
module ClippedRuns {
  import opened Common
  import opened Intervals
  import opened Zone
  import opened LocalDays
  import opened SlotEngine
  import opened ListingAgreement
  import opened SlotGrid
  import opened RoundTheClock

  ghost predicate Steady(av: Availability, c: int) {
    ValidAvailability(av) && ConstantOffset(av.zone, c)
  }

  /** The local days from `p` to `q`. */
  function Days(c: int, p: int, q: int): Interval {
    Interval(p * DAY - c, (q + 1) * DAY - c)
  }

  lemma InDays(c: int, p: int, q: int, t: int)
    ensures Days(c, p, q).start <= t < Days(c, p, q).end <==> p <= (t + c) / DAY <= q
  {
    var d := (t + c) / DAY;
    assert d * DAY <= t + c < (d + 1) * DAY;
  }

  /** A query sees exactly the part of the schedule that lies in the days it loads. */
  lemma FreeIsClipped(av: Availability, c: int, range: Interval, t: int)
    requires Steady(av, c) && DatesFor(av, range).Some? && range.start <= range.end
    ensures t in FreeFor(av, range) <==>
              FreeEver(av, t) && LoadedTime(range, c).start <= t < LoadedTime(range, c).end
  {
    hide LocalDate, DateRun, FreeOn, ValidAvailability;
    var first, last, d := (range.start + c) / DAY - 1, (range.end + c) / DAY + 1, (t + c) / DAY;
    LoadedDates(av.zone, c, range);
    InDays(c, first, last, t);
    DaysInOrder(range.start + c, range.end + c);
    DateRunMembers(first, last, d);
    var dates := DateRun(first, last);
    if FreeOnAny(av, dates, t) {
      var i :| 0 <= i < |dates| && FreeOn(av, dates[i], t);
      CoveringDateIsLocalDate(av, c, dates[i], t);
    }
    if FreeEver(av, t) {
      var e :| FreeOn(av, e, t);
      CoveringDateIsLocalDate(av, c, e, t);
      if d in dates {
        var i :| 0 <= i < |dates| && dates[i] == d;
        assert FreeOn(av, dates[i], t);
      }
    }
  }

  lemma DaysInOrder(x: int, y: int)
    requires x <= y
    ensures x / DAY <= y / DAY
  {
  }

  function Clip(w: Interval, x: Interval): Interval {
    Interval(Max(w.start, x.start), Min(w.end, x.end))
  }

  /** The covered run around `start`, as far as the days within `far` of it go. */
  ghost predicate RunAround(av: Availability, w: Interval, start: int, far: Interval) {
    && w.start <= start < w.end
    && (forall t :: w.start <= t < w.end ==> FreeEver(av, t))
    && (FreeEver(av, w.start - 1) ==> w.start <= far.start)
    && (FreeEver(av, w.end) ==> far.end <= w.end)
  }

  /** No query loads more than this around a start it covers. */
  function Reach(c: int, start: int): Interval {
    Days(c, (start + c) / DAY - MAX_LOCAL_DATES, (start + c) / DAY + MAX_LOCAL_DATES)
  }

  /** Every covered start has such a run. */
  lemma RunExists(av: Availability, start: int, far: Interval) returns (w: Interval)
    requires FreeEver(av, start)
    ensures RunAround(av, w, start, far)
  {
    hide FreeEver;
    var lo, hi := start, start + 1;
    while FreeEver(av, lo - 1) && far.start < lo
      invariant lo <= start && forall t :: lo <= t <= start ==> FreeEver(av, t)
      decreases lo - far.start
    {
      lo := lo - 1;
    }
    while FreeEver(av, hi) && hi < far.end
      invariant start < hi && forall t :: start <= t < hi ==> FreeEver(av, t)
      decreases far.end - hi
    {
      hi := hi + 1;
    }
    w := Interval(lo, hi);
  }

  /** A run clipped to a stretch of time is a run of what is left in that stretch. */
  lemma ClippedIsMaximal(av: Availability, r: iset<int>, w: Interval, x: Interval, start: int)
    requires RunAround(av, w, start, x) && x.start <= start < x.end
    requires forall t :: t in r <==> FreeEver(av, t) && x.start <= t < x.end
    ensures Maximal(r, Clip(w, x))
    ensures forall y :: Maximal(r, y) && y.start <= start < y.end ==> y == Clip(w, x)
  {
    hide FreeEver;
    forall y | Maximal(r, y) && y.start <= start < y.end ensures y == Clip(w, x) {
      RunsThatMeet(r, y, Clip(w, x), start);
    }
  }

  lemma RunsThatMeet(p: iset<int>, w: Interval, x: Interval, t: int)
    requires Maximal(p, w) && Maximal(p, x) && w.start <= t < w.end && x.start <= t < x.end
    ensures w == x
  {
    if x.start <= w.start {
      SameRun(p, w, x);
    } else {
      SameRun(p, x, w);
    }
  }

  /** Days a query that covers `start` can load, from `p` to `q`. */
  predicate Loadable(c: int, start: int, p: int, q: int) {
    p <= (start + c) / DAY - 1 && (start + c) / DAY + 1 <= q && q - p <= MAX_LOCAL_DATES
  }

  lemma LoadedDays(av: Availability, c: int, range: Interval, start: int)
    requires ConstantOffset(av.zone, c) && Covers(av, range, start)
    ensures var p, q := (range.start + c) / DAY - 1, (range.end + c) / DAY + 1;
      Loadable(c, start, p, q) && LoadedTime(range, c) == Days(c, p, q)
  {
    hide DateRun;
    LocalDateByOffset(av.zone, range.start - DAY);
    LocalDateByOffset(av.zone, range.end + DAY);
    OneDayAside(range.start + c);
    OneDayAside(range.end + c);
    DaysInOrder(range.start + c, start + c);
    DaysInOrder(start + c, range.end + c);
  }

  lemma SteadyOffset(av: Availability, c: int)
    requires Steady(av, c)
    ensures ConstantOffset(av.zone, c)
  {
  }

  /**
   * A start is offered a place on the grid exactly as a candidate of its covered run,
   * clipped to what the query loads.
   */
  lemma GriddedIsClipped(av: Availability, c: int, et: EventType, range: Interval, w: Interval, start: int)
    requires Steady(av, c) && ValidEventType(et) && Covers(av, range, start)
    requires RunAround(av, w, start, Reach(c, start))
    ensures Gridded(FreeFor(av, range), et, start) <==> Candidate(Clip(w, LoadedTime(range, c)), et, start)
  {
    hide FreeFor, DatesFor, FreeEver, Steady, Maximal, Candidate;
    var x, free := LoadedTime(range, c), FreeFor(av, range);
    forall t ensures t in free <==> FreeEver(av, t) && x.start <= t < x.end {
      FreeIsClipped(av, c, range, t);
    }
    LoadsAround(range, c, start);
    SteadyOffset(av, c);
    LoadedDays(av, c, range, start);
    ClippedIsMaximal(av, free, w, x, start);
    if Gridded(free, et, start) {
      var y :| Maximal(free, y) && Candidate(y, et, start);
      CandidateInside(y, et, start);
    }
  }

  lemma CandidateInside(w: Interval, et: EventType, start: int)
    requires ValidEventType(et) && Candidate(w, et, start)
    ensures w.start <= start < w.end
  {
    hide GridPoint, CeilBucket;
  }

  /** The days loaded reach from the day before the start to the day after it. */
  lemma LoadsAround(range: Interval, c: int, start: int)
    requires range.start <= start < range.end
    ensures LoadedTime(range, c).start <= ((start + c) / DAY - 1) * DAY - c
    ensures ((start + c) / DAY + 2) * DAY - c <= LoadedTime(range, c).end
    ensures LoadedTime(range, c).start <= start < LoadedTime(range, c).end
  {
    DaysInOrder(range.start + c, start + c);
    DaysInOrder(start + c, range.end + c);
    InDays(c, (start + c) / DAY, (start + c) / DAY, start);
  }

  /** Outside the schedule nothing is offered. */
  lemma NothingOutside(av: Availability, et: EventType, range: Interval, start: int)
    requires ValidEventType(et) && !FreeEver(av, start)
    ensures !Gridded(FreeFor(av, range), et, start)
  {
    hide FreeFor, FreeEver;
    if Gridded(FreeFor(av, range), et, start) {
      var y :| Maximal(FreeFor(av, range), y) && Candidate(y, et, start);
      CandidateInside(y, et, start);
      FreeForIsFreeEver(av, range, start);
    }
  }

  /** Runs inside what both queries load are gridded alike, however long they are. */
  lemma WholeRunsAgree(
    av: Availability, c: int, et: EventType, a: Interval, b: Interval, w: Interval, start: int)
    requires Steady(av, c) && ValidEventType(et) && Covers(av, a, start) && Covers(av, b, start)
    requires RunAround(av, w, start, Reach(c, start))
    requires LoadedTime(a, c).start <= w.start && w.end <= LoadedTime(a, c).end
    requires LoadedTime(b, c).start <= w.start && w.end <= LoadedTime(b, c).end
    ensures Gridded(FreeFor(av, a), et, start) <==> Gridded(FreeFor(av, b), et, start)
  {
    hide FreeFor, DatesFor, Steady, RunAround, Candidate;
    GriddedIsClipped(av, c, et, a, w, start);
    GriddedIsClipped(av, c, et, b, w, start);
  }

  // ---- All queries at once -----------------------------------------------------------------

  /** All loadable queries that share this start agree about it. */
  ghost predicate AgreeAt(av: Availability, et: EventType, start: int) {
    forall a, b :: Covers(av, a, start) && Covers(av, b, start) ==>
      (Gridded(FreeFor(av, a), et, start) <==> Gridded(FreeFor(av, b), et, start))
  }

  /** The run clipped to those days. */
  ghost predicate CandidateIn(c: int, et: EventType, w: Interval, start: int, p: int, q: int) {
    Candidate(Clip(w, Days(c, p, q)), et, start)
  }

  /** Whichever days are loaded, the clipped run has `start` on its grid as for the nearest days. */
  ghost predicate ClipsAlike(c: int, et: EventType, w: Interval, start: int) {
    forall p, q :: Loadable(c, start, p, q) ==>
      (CandidateIn(c, et, w, start, p, q)
       <==> CandidateIn(c, et, w, start, (start + c) / DAY - 1, (start + c) / DAY + 1))
  }

  /** Some query covers `start` and loads just these days. */
  lemma QueryFor(av: Availability, c: int, start: int, p: int, q: int) returns (range: Interval)
    requires ConstantOffset(av.zone, c) && Loadable(c, start, p, q) && start % SECOND == 0
    ensures Covers(av, range, start) && LoadedTime(range, c) == Days(c, p, q)
  {
    hide LocalDate, DateRun;
    range := Interval((p + 1) * DAY - c, q * DAY - c - 1);
    NotTheLastInstant(start + c, (start + c) / DAY);
    DayOfEdges(p, q);
    DayStart(c, p + 1, start);
    DayEnd(c, q - 1, start);
    LocalDateByOffset(av.zone, range.start - DAY);
    LocalDateByOffset(av.zone, range.end + DAY);
  }

  lemma DayOfEdges(p: int, q: int)
    ensures (p + 1) * DAY / DAY == p + 1 && (q * DAY - 1) / DAY == q - 1
    ensures ((p + 1) * DAY - DAY) / DAY == p && (q * DAY - 1 + DAY) / DAY == q
  {
  }

  lemma NotTheLastInstant(x: int, d: int)
    requires x % SECOND == 0 && x < (d + 1) * DAY
    ensures x < (d + 1) * DAY - 1
  {
  }

  /**
   * For any valid schedule under one offset and any covered start: all loadable queries
   * agree about it if and only if clipping its run to loaded days never changes whether
   * the start is on the run's grid and fits.
   */
  lemma AgreeAtIff(av: Availability, c: int, et: EventType, w: Interval, start: int)
    requires Steady(av, c) && ValidEventType(et) && RunAround(av, w, start, Reach(c, start))
    ensures AgreeAt(av, et, start) <==> ClipsAlike(c, et, w, start)
  {
    hide FreeFor, Covers, Gridded, RunAround, Candidate, LoadedTime, Days, Loadable;
    if ClipsAlike(c, et, w, start) {
      forall a, b | Covers(av, a, start) && Covers(av, b, start)
        ensures Gridded(FreeFor(av, a), et, start) <==> Gridded(FreeFor(av, b), et, start)
      {
        var p, q := GriddedAsClipped(av, c, et, a, w, start);
        var p', q' := GriddedAsClipped(av, c, et, b, w, start);
      }
    }
    if AgreeAt(av, et, start) {
      forall p, q | Loadable(c, start, p, q)
        ensures CandidateIn(c, et, w, start, p, q)
                <==> CandidateIn(c, et, w, start, (start + c) / DAY - 1, (start + c) / DAY + 1)
      {
        ClipsAsQueried(av, c, et, w, start, p, q);
      }
    }
  }

  lemma GriddedAsClipped(av: Availability, c: int, et: EventType, range: Interval, w: Interval, start: int)
    returns (p: int, q: int)
    requires Steady(av, c) && ValidEventType(et) && Covers(av, range, start)
    requires RunAround(av, w, start, Reach(c, start))
    ensures Loadable(c, start, p, q)
    ensures Gridded(FreeFor(av, range), et, start) <==> CandidateIn(c, et, w, start, p, q)
  {
    hide FreeFor, DatesFor, Gridded, RunAround, Candidate, LoadedTime, Days, Loadable;
    p, q := (range.start + c) / DAY - 1, (range.end + c) / DAY + 1;
    LoadedDays(av, c, range, start);
    GriddedIsClipped(av, c, et, range, w, start);
  }

  lemma ClipsAsQueried(av: Availability, c: int, et: EventType, w: Interval, start: int, p: int, q: int)
    requires Steady(av, c) && ValidEventType(et) && RunAround(av, w, start, Reach(c, start))
    requires AgreeAt(av, et, start) && Loadable(c, start, p, q)
    ensures CandidateIn(c, et, w, start, p, q)
            <==> CandidateIn(c, et, w, start, (start + c) / DAY - 1, (start + c) / DAY + 1)
  {
    hide FreeFor, DatesFor, Gridded, RunAround, Candidate, LoadedTime, Days;
    var d := (start + c) / DAY;
    if CandidateIn(c, et, w, start, p, q) || CandidateIn(c, et, w, start, d - 1, d + 1) {
      CandidateOnSecond(c, et, w, start, p, q);
      CandidateOnSecond(c, et, w, start, d - 1, d + 1);
      var a := QueryFor(av, c, start, p, q);
      var b := QueryFor(av, c, start, d - 1, d + 1);
      GriddedIsClipped(av, c, et, a, w, start);
      GriddedIsClipped(av, c, et, b, w, start);
    }
  }

  lemma CandidateOnSecond(c: int, et: EventType, w: Interval, start: int, p: int, q: int)
    requires ValidEventType(et)
    ensures CandidateIn(c, et, w, start, p, q) ==> start % SECOND == 0
  {
    hide Candidate;
    if CandidateIn(c, et, w, start, p, q) {
      CandidateOnGrid(Clip(w, Days(c, p, q)), et, start);
    }
  }

  /**
   * So whatever the rest of the schedule does, a run that stays within the local days
   * next to the start's own is gridded alike for every query.
   */
  lemma NearbyRunsAgree(av: Availability, c: int, et: EventType, w: Interval, start: int)
    requires Steady(av, c) && ValidEventType(et) && RunAround(av, w, start, Reach(c, start))
    requires (start + c) / DAY - 1 <= (w.start + c) / DAY && (w.end - 1 + c) / DAY <= (start + c) / DAY + 1
    ensures AgreeAt(av, et, start)
  {
    hide FreeFor, Covers, Gridded, RunAround, Candidate, Steady;
    AgreeAtIff(av, c, et, w, start);
    var d := (start + c) / DAY;
    forall p, q | Loadable(c, start, p, q) ensures Clip(w, Days(c, p, q)) == w {
      ClipKeeps(c, w, d - 1, d + 1, p, q);
    }
    ClipKeeps(c, w, d - 1, d + 1, d - 1, d + 1);
  }

  lemma ClipKeeps(c: int, w: Interval, first: int, last: int, p: int, q: int)
    requires p <= first <= (w.start + c) / DAY && (w.end - 1 + c) / DAY <= last <= q
    ensures Clip(w, Days(c, p, q)) == w
  {
    DayStart(c, p, w.start);
    DayEnd(c, q, w.end - 1);
  }

  lemma DayStart(c: int, d: int, t: int)
    requires d <= (t + c) / DAY
    ensures d * DAY - c <= t
  {
  }

  lemma DayEnd(c: int, d: int, t: int)
    requires (t + c) / DAY <= d
    ensures t < (d + 1) * DAY - c
  {
  }
}
