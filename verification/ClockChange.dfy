/**
 * The slot grid across a change of clocks (freeIntervalsForHost in
 * src/core/slots/engine.ts): the dates loaded are those a day, counted in hours, around
 * the query, so on a day of 25 hours the day before may be missing.
 */
module ClockChange {
  import opened Common
  import opened Intervals
  import opened Zone
  import opened LocalDays
  import opened SlotEngine
  import opened ListingAgreement
  import opened SlotGrid
  import opened RoundTheClock

  /** In a regular zone the windows of a date lie in the range of that date. */
  lemma WindowsLieInDay(av: Availability, d: int, t: int)
    requires ValidAvailability(av) && Regular(av.zone) && FreeOn(av, d, t)
    ensures InDay(av.zone, d, t)
  {
    hide LocalTimeToInstant, Regular, IsZone;
    var k :| 0 <= k < |DayWindows(av, d)| && WindowCovers(av.zone, d, DayWindows(av, d)[k], t);
    DayWindowsAreValid(av, d);
    var w := DayWindows(av, d)[k];
    LocalTimeIsMonotone(av.zone, d, 0, d, w.startMinute);
    LocalTimeIsMonotone(av.zone, d, w.endMinute, d + 1, 0);
  }

  /** This query loads the dates from `first` to `last`. */
  ghost predicate Loads(av: Availability, range: Interval, first: int, last: int) {
    && DatesFor(av, range).Some?
    && LocalDate(av.zone, range.start - DAY) <= first && last <= LocalDate(av.zone, range.end + DAY)
  }

  lemma DayIsMonotone(z: int -> int, d: int, e: int, t: int, u: int)
    requires Regular(z) && InDay(z, d, t) && InDay(z, e, u) && t <= u
    ensures d <= e
  {
    hide LocalTimeToInstant, Regular;
    if e < d {
      LocalTimeIsMonotone(z, e + 1, 0, d, 0);
    }
  }

  /** Between days it loads a query sees the whole schedule. */
  lemma SeesLoadedDays(av: Availability, range: Interval, first: int, last: int, u: int, v: int, t: int)
    requires ValidAvailability(av) && Regular(av.zone) && Loads(av, range, first, last)
    requires InDay(av.zone, first, u) && InDay(av.zone, last, v) && u <= t <= v
    ensures t in FreeFor(av, range) <==> FreeEver(av, t)
  {
    hide LocalDate, FreeOn, DatesFor, Regular, InDay, ValidAvailability;
    if FreeEver(av, t) {
      var d :| FreeOn(av, d, t);
      WindowsLieInDay(av, d, t);
      DayIsMonotone(av.zone, first, d, u, t);
      DayIsMonotone(av.zone, d, last, t, v);
      DateIsLoaded(av, range, d);
      var dates := DatesFor(av, range).value;
      var i :| 0 <= i < |dates| && dates[i] == d;
      assert FreeOnAny(av, dates, t);
    }
    if t in FreeFor(av, range) {
      FreeForIsFreeEver(av, range, t);
    }
  }

  /**
   * In any regular zone two queries agree about a start between two instants outside the
   * schedule if both load every date from the first instant's day to the second's.
   */
  lemma LoadedBreaksAgree(
    av: Availability, et: EventType, a: Interval, b: Interval, start: int, u: int, v: int, first: int, last: int)
    requires ValidEventType(et) && ValidAvailability(av) && Regular(av.zone)
    requires u < start < v && !FreeEver(av, u) && !FreeEver(av, v)
    requires InDay(av.zone, first, u) && InDay(av.zone, last, v)
    requires Loads(av, a, first, last) && Loads(av, b, first, last)
    ensures Gridded(FreeFor(av, a), et, start) <==> Gridded(FreeFor(av, b), et, start)
  {
    hide FreeFor, FreeEver, Regular, InDay, Loads, ValidAvailability, Gridded;
    forall t | u <= t <= v
      ensures t in FreeFor(av, a) <==> FreeEver(av, t)
      ensures t in FreeFor(av, b) <==> FreeEver(av, t)
    {
      SeesLoadedDays(av, a, first, last, u, v, t);
      SeesLoadedDays(av, b, first, last, u, v, t);
    }
    GriddedIsLocal(FreeFor(av, a), FreeFor(av, b), et, start, u, v);
    GriddedIsLocal(FreeFor(av, b), FreeFor(av, a), et, start, u, v);
  }

  /**
   * The schedule breaks shortly before and after `start`: no earlier than on the local
   * date of 24 hours before, no later than on that of 24 hours after.
   */
  ghost predicate BreaksNear(av: Availability, start: int) {
    && (exists u :: u < start && !FreeEver(av, u) && LocalDate(av.zone, start - DAY) <= LocalDate(av.zone, u))
    && (exists v :: start < v && !FreeEver(av, v) && LocalDate(av.zone, v) <= LocalDate(av.zone, start + DAY))
  }

  lemma LocalDateIsMonotone(z: int -> int, t: int, u: int)
    requires Regular(z) && NoMidnightRepeats(z) && t <= u
    ensures LocalDate(z, t) <= LocalDate(z, u)
  {
    LocalDateByOffset(z, t);
    LocalDateByOffset(z, u);
    assert AtOrPast(z, LocalDate(z, t), t);
    assert AtOrPast(z, LocalDate(z, t), u);
  }

  lemma LocalDateIsDay(z: int -> int, t: int)
    requires Regular(z) && NoMidnightRepeats(z)
    ensures InDay(z, LocalDate(z, t), t)
  {
    hide LocalDate, InDay, Regular, NoMidnightRepeats;
    DayRangeIsLocalDateIff(z);
  }

  /**
   * Where no midnight repeats: with such breaks all loadable queries agree about the
   * start, whatever the clocks do in between.
   */
  lemma NearBreaksAgree(av: Availability, et: EventType, a: Interval, b: Interval, start: int)
    requires ValidEventType(et) && ValidAvailability(av) && Regular(av.zone) && NoMidnightRepeats(av.zone)
    requires BreaksNear(av, start) && Covers(av, a, start) && Covers(av, b, start)
    ensures Gridded(FreeFor(av, a), et, start) <==> Gridded(FreeFor(av, b), et, start)
  {
    hide FreeFor, FreeEver, Regular, NoMidnightRepeats, InDay, ValidAvailability, Gridded, LocalDate, DatesFor;
    var z := av.zone;
    var u :| u < start && !FreeEver(av, u) && LocalDate(z, start - DAY) <= LocalDate(z, u);
    var v :| start < v && !FreeEver(av, v) && LocalDate(z, v) <= LocalDate(z, start + DAY);
    LocalDateIsDay(z, u);
    LocalDateIsDay(z, v);
    LocalDateIsMonotone(z, a.start - DAY, start - DAY);
    LocalDateIsMonotone(z, start + DAY, a.end + DAY);
    LocalDateIsMonotone(z, b.start - DAY, start - DAY);
    LocalDateIsMonotone(z, start + DAY, b.end + DAY);
    LoadedBreaksAgree(av, et, a, b, start, u, v, LocalDate(z, u), LocalDate(z, v));
  }

  /** Then whole offers agree, since no other filter looks beyond the start. */
  lemma OffersAgreeNearBreaks(q: SlotQuery, h: HostInput, other: Interval, start: int)
    requires ValidEventType(q.eventType) && ValidAvailability(h.availability)
    requires Regular(h.availability.zone) && NoMidnightRepeats(h.availability.zone)
    requires BreaksNear(h.availability, start)
    requires Covers(h.availability, q.range, start) && Covers(h.availability, other, start)
    ensures Offers(q, h, start) <==> Offers(q.(range := other), h, start)
  {
    hide FreeFor, BreaksNear, Gridded, DatesFor, Regular, NoMidnightRepeats, ValidAvailability;
    NearBreaksAgree(h.availability, q.eventType, q.range, other, start);
  }

  // ---- A day of 25 hours -----------------------------------------------------------------------

  /** 2:00 local time on the Sunday with day number 3, which becomes 1:00. */
  const FALL_BACK := 3 * DAY + HOUR

  function FallsBack(t: int): int {
    if t < FALL_BACK then HOUR else 0
  }

  /** Saturdays from 22:00 to midnight, Sundays from midnight to 23:45. */
  function Weekend(): Availability {
    Availability(FallsBack, [[DayWindow(0, 1425)], [], [], [], [], [], [DayWindow(1320, 1440)]], [])
  }

  function FiveEveryFifty(): EventType {
    EventType(1, None, Personal, 5, Some(50), 0, 0, 0, 30, None, true)
  }

  lemma FallsBackIsRegular()
    ensures Regular(FallsBack) && NoMidnightRepeats(FallsBack)
  {
    forall x | x % MINUTE == 0 ensures OneTransition(FallsBack, x) {
      assert FALL_BACK % MINUTE == 0 && StepsAt(FallsBack, x - DAY, x + DAY, FALL_BACK);
    }
  }

  lemma FirstReachIsUnique(z: int -> int, x: int, r: int)
    requires Regular(z) && x % MINUTE == 0 && FirstReach(z, x, r)
    ensures WallClockToInstant(z, x) == r
  {
    hide WallClockToInstant, Regular;
    RuleIsFirstReach(z, x);
  }

  lemma FallsBackInstant(d: int, minutes: int)
    ensures var x := d * DAY + minutes * MINUTE;
      LocalTimeToInstant(FallsBack, d, minutes) == if x < FALL_BACK + HOUR then x - HOUR else x
  {
    hide WallClockToInstant, LocalTimeToInstant, Regular;
    FallsBackIsRegular();
    LocalTimeTarget(FallsBack, d, minutes);
    OnWholeSecond(d, minutes);
    var x := d * DAY + minutes * MINUTE;
    FirstReachIsUnique(FallsBack, x, if x < FALL_BACK + HOUR then x - HOUR else x);
  }

  lemma WeekendDays(d: int, t: int)
    requires 1 <= d <= 5
    ensures FreeOn(Weekend(), d, t) <==>
              || (d == 2 && 3 * DAY - 180 * MINUTE <= t < 3 * DAY - 60 * MINUTE)
              || (d == 3 && 3 * DAY - 60 * MINUTE <= t < 3 * DAY + 1425 * MINUTE)
  {
    hide LocalTimeToInstant, DayWindows;
    FallsBackInstant(2, 1320);
    FallsBackInstant(2, 1440);
    FallsBackInstant(3, 0);
    FallsBackInstant(3, 1425);
    WeekendWindows(d);
    var windows := DayWindows(Weekend(), d);
    assert windows != [] ==> (FreeOn(Weekend(), d, t) <==> WindowCovers(FallsBack, d, windows[0], t));
  }

  lemma WeekendWindows(d: int)
    ensures DayWindows(Weekend(), d) == if DayOfWeek(d) == 0 then [DayWindow(0, 1425)]
                                        else if DayOfWeek(d) == 6 then [DayWindow(1320, 1440)] else []
  {
  }

  /** An instant is covered by its own date's window or not at all. */
  lemma WeekendCovers(d: int, t: int)
    requires InDay(FallsBack, d, t)
    ensures FreeEver(Weekend(), t) <==>
              || (DayOfWeek(d) == 0 && WindowCovers(FallsBack, d, DayWindow(0, 1425), t))
              || (DayOfWeek(d) == 6 && WindowCovers(FallsBack, d, DayWindow(1320, 1440), t))
  {
    hide LocalTimeToInstant, DayWindows, InDay, WindowCovers, Regular;
    var av, windows := Weekend(), DayWindows(Weekend(), d);
    WeekendWindows(d);
    assert windows != [] ==> (FreeOn(av, d, t) <==> WindowCovers(FallsBack, d, windows[0], t));
    if FreeEver(av, t) {
      var e :| FreeOn(av, e, t);
      FallsBackIsRegular();
      WeekendIsValid();
      WindowsLieInDay(av, e, t);
      var date := DayRangesTile(FallsBack, t);
    }
  }

  lemma WeekendIsValid()
    ensures ValidAvailability(Weekend()) && ValidEventType(FiveEveryFifty())
  {
  }

  /** What a query that loads the dates from `first`, 1 or 3, to 5 is left with. */
  lemma WeekendFree(range: Interval, first: int)
    requires LocalDates(FallsBack, range.start - DAY, range.end + DAY) == Some(DateRun(first, 5))
    requires first == 1 || first == 3
    ensures forall t :: t in FreeFor(Weekend(), range) <==>
              3 * DAY - (if first == 1 then 180 else 60) * MINUTE <= t < 3 * DAY + 1425 * MINUTE
  {
    hide LocalDates, FreeOn, DateRun;
    var av, dates := Weekend(), DateRun(first, 5);
    forall t ensures FreeOnAny(av, dates, t) <==>
                       3 * DAY - (if first == 1 then 180 else 60) * MINUTE <= t < 3 * DAY + 1425 * MINUTE
    {
      WeekendDays(2, t);
      WeekendDays(3, t);
      DateRunMembers(first, 5, 2);
      DateRunMembers(first, 5, 3);
      if FreeOnAny(av, dates, t) {
        var i :| 0 <= i < |dates| && FreeOn(av, dates[i], t);
        DateRunMembers(first, 5, dates[i]);
        WeekendDays(dates[i], t);
      }
      if FreeOn(av, 2, t) && first == 1 {
        var i :| 0 <= i < |dates| && dates[i] == 2;
        assert FreeOn(av, dates[i], t);
      }
      if FreeOn(av, 3, t) {
        var i :| 0 <= i < |dates| && dates[i] == 3;
        assert FreeOn(av, dates[i], t);
      }
    }
  }

  lemma WeekendLoads(range: Interval, first: int)
    requires range.end == 4 * DAY
    requires (range.start == 2 * DAY && first == 1) || (range.start == 3 * DAY + 1410 * MINUTE && first == 3)
    ensures LocalDates(FallsBack, range.start - DAY, range.end + DAY) == Some(DateRun(first, 5))
  {
    hide LocalDate, DateRun;
    LocalDateByOffset(FallsBack, range.start - DAY);
    LocalDateByOffset(FallsBack, range.end + DAY);
  }

  /** Every local day has an instant outside the schedule. */
  ghost predicate EveryDateBreaks(av: Availability) {
    forall d :: DateBreaks(av, d)
  }

  ghost predicate DateBreaks(av: Availability, d: int) {
    exists t :: InDay(av.zone, d, t) && !FreeEver(av, t)
  }

  lemma WeekendBreaks(d: int)
    ensures DateBreaks(Weekend(), d)
  {
    hide LocalTimeToInstant, FreeEver;
    FallsBackInstant(d, 0);
    FallsBackInstant(d, 1320);
    FallsBackInstant(d, 1425);
    FallsBackInstant(d + 1, 0);
    var t := LocalTimeToInstant(FallsBack, d, if DayOfWeek(d) == 0 then 1425 else 0);
    assert InDay(FallsBack, d, t);
    WeekendCovers(d, t);
    assert Weekend().zone == FallsBack;
  }

  const ON_SATURDAY := Interval(2 * DAY, 4 * DAY)
  const LATE_ON_SUNDAY := Interval(3 * DAY + 1410 * MINUTE, 4 * DAY)
  const DISPUTED := 3 * DAY + 1420 * MINUTE

  lemma FiftiesFrom(w: Interval)
    requires w.start == 3 * DAY - 180 * MINUTE || w.start == 3 * DAY - 60 * MINUTE
    requires w.end == 3 * DAY + 1425 * MINUTE
    ensures Candidate(w, FiveEveryFifty(), DISPUTED) <==> w.start == 3 * DAY - 180 * MINUTE
  {
    hide GridPoint;
    assert CeilBucket(w.start) == w.start;
    GridPointIsProduct(w.start, 50 * MINUTE, 32);
    assert FiveEveryFifty().Step() == 50 * MINUTE;
    if w.start == 3 * DAY - 180 * MINUTE {
      assert DISPUTED == GridPoint(CeilBucket(w.start), FiveEveryFifty().Step(), 32);
    } else if Candidate(w, FiveEveryFifty(), DISPUTED) {
      var k: nat :| DISPUTED == GridPoint(w.start, 50 * MINUTE, k);
      GridPointIsProduct(w.start, 50 * MINUTE, k);
    }
  }

  lemma WeekendOffers(range: Interval, first: int)
    requires (range == ON_SATURDAY && first == 1) || (range == LATE_ON_SUNDAY && first == 3)
    ensures Covers(Weekend(), range, DISPUTED)
    ensures Gridded(FreeFor(Weekend(), range), FiveEveryFifty(), DISPUTED) <==> first == 1
  {
    hide FreeFor, Candidate, LocalDates, Weekend, DateRun;
    WeekendLoads(range, first);
    WeekendFree(range, first);
    WeekendZone();
    var free := FreeFor(Weekend(), range);
    var x := Interval(3 * DAY - (if first == 1 then 180 else 60) * MINUTE, 3 * DAY + 1425 * MINUTE);
    forall w ensures Maximal(free, w) <==> w == x {
      OneWindow(free, x, w);
    }
    FiftiesFrom(x);
  }

  lemma WeekendZone()
    ensures Weekend().zone == FallsBack
  {
  }

  /** All of Sunday before the start is covered, so the last break is on Saturday. */
  lemma NoBreakNear()
    ensures !BreaksNear(Weekend(), DISPUTED)
  {
    hide FreeOn, LocalDate;
    LocalDateByOffset(FallsBack, DISPUTED - DAY);
    forall u | u < DISPUTED && LocalDate(FallsBack, DISPUTED - DAY) <= LocalDate(FallsBack, u)
      ensures FreeEver(Weekend(), u)
    {
      LocalDateByOffset(FallsBack, u);
      WeekendDays(3, u);
    }
  }

  /**
   * A regular zone in which no midnight repeats, and a valid schedule with a break in
   * every local day: a query from Saturday and one from Sunday 23:30 disagree about a
   * start both of them cover. The second counts 24 hours back on a day of 25, stays on
   * Sunday, and anchors the grid at Sunday's midnight.
   */
  lemma LongDayMovesGrid()
    ensures var av, et := Weekend(), FiveEveryFifty();
      && ValidEventType(et) && ValidAvailability(av)
      && Regular(av.zone) && NoMidnightRepeats(av.zone) && EveryDateBreaks(av) && !BreaksNear(av, DISPUTED)
      && Covers(av, ON_SATURDAY, DISPUTED) && Covers(av, LATE_ON_SUNDAY, DISPUTED)
      && Gridded(FreeFor(av, ON_SATURDAY), et, DISPUTED) && !Gridded(FreeFor(av, LATE_ON_SUNDAY), et, DISPUTED)
  {
    hide FreeFor, Gridded, Regular, NoMidnightRepeats, BreaksNear, Covers, ValidAvailability, ValidEventType,
         DateBreaks;
    WeekendIsValid();
    FallsBackIsRegular();
    NoBreakNear();
    WeekendOffers(ON_SATURDAY, 1);
    WeekendOffers(LATE_ON_SUNDAY, 3);
    forall d ensures DateBreaks(Weekend(), d) {
      WeekendBreaks(d);
    }
  }
}
