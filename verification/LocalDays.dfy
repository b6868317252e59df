/**
 * Local dates and times of day (localDatesBetween and localTimeToInstant in
 * src/core/time/zone.ts, dayRange in src/engine.ts).
 */
module LocalDays {
  import opened Common
  import opened Intervals
  import opened Zone

  const DAY_MINUTES := 1440
  const MAX_LOCAL_DATES := 800

  /** `localDateString`, as a day number. */
  function LocalDate(z: int -> int, t: int): int {
    Reading(z, t) / DAY
  }

  lemma LocalDateByOffset(z: int -> int, t: int)
    ensures LocalDate(z, t) == (t + z(t)) / DAY
  {
    SecondsInDays(t + z(t));
  }

  lemma SecondsInDays(x: int)
    ensures x / SECOND * SECOND / DAY == x / DAY
  {
    var d := x / DAY;
    var r := x - d * DAY;
    assert 0 <= r < DAY;
    assert x / SECOND == d * 86_400 + r / SECOND;
  }

  /** `localTimeToInstant`: minutes past 1440 roll into the following day. */
  function LocalTimeToInstant(z: int -> int, date: int, minutes: int): int {
    var dayOffset := minutes / DAY_MINUTES;
    var within := minutes - dayOffset * DAY_MINUTES;
    WallClockToInstant(z, (date + dayOffset) * DAY + within / 60 * HOUR + within % 60 * MINUTE)
  }

  lemma LocalTimeTarget(z: int -> int, date: int, minutes: int)
    ensures LocalTimeToInstant(z, date, minutes) == WallClockToInstant(z, date * DAY + minutes * MINUTE)
  {
    hide WallClockToInstant;
    var dayOffset := minutes / DAY_MINUTES;
    var within := minutes - dayOffset * DAY_MINUTES;
    assert within / 60 * HOUR + within % 60 * MINUTE == within * MINUTE;
  }

  lemma LocalTimeBounds(z: int -> int, date: int, minutes: int)
    requires IsZone(z)
    ensures date * DAY + minutes * MINUTE - MAX_OFFSET
            <= LocalTimeToInstant(z, date, minutes)
            <= date * DAY + minutes * MINUTE - MIN_OFFSET
  {
    hide WallClockToInstant;
    LocalTimeTarget(z, date, minutes);
    OnWholeSecond(date, minutes);
    ResolutionBounds(z, date * DAY + minutes * MINUTE);
  }

  lemma OnWholeSecond(date: int, minutes: int)
    ensures (date * DAY + minutes * MINUTE) % SECOND == 0
    ensures (date * DAY + minutes * MINUTE) % MINUTE == 0
  {
    assert date * DAY + minutes * MINUTE == (date * 86_400 + minutes * 60) * SECOND;
    assert date * DAY + minutes * MINUTE == (date * DAY_MINUTES + minutes) * MINUTE;
  }

  /** The first date, and every later one up to `last`. */
  function DateRun(first: int, last: int): seq<int>
    decreases last - first
  {
    [first] + if first < last then DateRun(first + 1, last) else []
  }

  lemma {:induction false} DateRunMembers(first: int, last: int, d: int)
    ensures d in DateRun(first, last) <==> first <= d <= Max(first, last)
    decreases last - first
  {
    if first < last {
      DateRunMembers(first + 1, last, d);
    }
  }

  /** `localDatesBetween`; `None` is the thrown "range too large". */
  function LocalDates(z: int -> int, from: int, to: int): Option<seq<int>> {
    var first, last := LocalDate(z, from), LocalDate(z, to);
    if last - first > MAX_LOCAL_DATES then None else Some(DateRun(first, last))
  }

  lemma NextDate(out: seq<int>, cursor: int, last: int)
    ensures cursor < last ==> out + DateRun(cursor, last) == out + [cursor] + DateRun(cursor + 1, last)
    ensures cursor >= last ==> out + DateRun(cursor, last) == out + [cursor]
  {
    var rest := if cursor < last then DateRun(cursor + 1, last) else [];
    DateRunStarts(cursor, last, rest);
    hide DateRun;
    assert out + ([cursor] + rest) == out + [cursor] + rest;
    assert cursor >= last ==> [cursor] + rest == [cursor];
  }

  lemma DateRunStarts(cursor: int, last: int, rest: seq<int>)
    requires rest == if cursor < last then DateRun(cursor + 1, last) else []
    ensures DateRun(cursor, last) == [cursor] + rest
  {
  }

  method LocalDatesBetween(z: int -> int, from: int, to: int) returns (r: Option<seq<int>>)
    ensures r == LocalDates(z, from, to)
    ensures r.None? <==> LocalDate(z, to) - LocalDate(z, from) > 800
  {
    hide LocalDate, DateRun;
    var first := LocalDate(z, from);
    var last := LocalDate(z, to);
    var out: seq<int> := [];
    var cursor := first;
    var guard := 0;
    while true
      invariant cursor == first + guard && 0 <= guard <= MAX_LOCAL_DATES
      invariant guard > 0 ==> cursor <= last
      invariant out + DateRun(cursor, last) == DateRun(first, last)
      decreases MAX_LOCAL_DATES - guard
    {
      NextDate(out, cursor, last);
      out := out + [cursor];
      if cursor >= last {
        return Some(out);
      }
      guard := guard + 1;
      if guard > MAX_LOCAL_DATES {
        return None;
      }
      cursor := cursor + 1;
    }
  }

  /** A window ending at 24:00 ends at the next day's midnight. */
  lemma EndOfDayIsNextMidnight(z: int -> int, date: int)
    ensures LocalTimeToInstant(z, date, DAY_MINUTES) == LocalTimeToInstant(z, date + 1, 0)
  {
    LocalTimeTarget(z, date, DAY_MINUTES);
    LocalTimeTarget(z, date + 1, 0);
  }

  /** Later times of day never resolve to earlier instants, so windows never invert. */
  lemma LocalTimeIsMonotone(z: int -> int, d: int, m: int, e: int, n: int)
    requires Regular(z) && d * DAY_MINUTES + m <= e * DAY_MINUTES + n
    ensures LocalTimeToInstant(z, d, m) <= LocalTimeToInstant(z, e, n)
  {
    hide WallClockToInstant;
    OnWholeSecond(d, m);
    OnWholeSecond(e, n);
    LocalTimeTarget(z, d, m);
    LocalTimeTarget(z, e, n);
    ResolutionIsMonotone(z, d * DAY + m * MINUTE, e * DAY + n * MINUTE);
  }

  // ---- dayRange ------------------------------------------------------------------

  function DayRange(z: int -> int, date: int): Interval {
    Interval(LocalTimeToInstant(z, date, 0), LocalTimeToInstant(z, date + 1, 0))
  }

  predicate InDay(z: int -> int, date: int, t: int) {
    DayRange(z, date).start <= t < DayRange(z, date).end
  }

  lemma InDayByReach(z: int -> int, date: int, t: int)
    requires Regular(z)
    ensures InDay(z, date, t) <==> Reached(z, date * DAY, t) && !Reached(z, (date + 1) * DAY, t)
  {
    hide WallClockToInstant;
    OnWholeSecond(date, 0);
    OnWholeSecond(date + 1, 0);
    LocalTimeTarget(z, date, 0);
    LocalTimeTarget(z, date + 1, 0);
    ReachedIffAtOrAfter(z, date * DAY, t);
    ReachedIffAtOrAfter(z, (date + 1) * DAY, t);
  }

  /** Day ranges never invert and meet end to start; each instant is in exactly one. */
  lemma DayRangesTile(z: int -> int, t: int) returns (date: int)
    requires Regular(z)
    ensures forall d :: DayRange(z, d).start <= DayRange(z, d).end == DayRange(z, d + 1).start
    ensures forall d :: InDay(z, d, t) <==> d == date
  {
    forall d ensures DayRange(z, d).start <= DayRange(z, d).end {
      LocalTimeIsMonotone(z, d, 0, d + 1, 0);
    }
    date := (t + z(t)) / DAY;
    assert Reached(z, date * DAY, t);
    while Reached(z, (date + 1) * DAY, t)
      invariant Reached(z, date * DAY, t)
      decreases t + MAX_OFFSET - date * DAY
    {
      date := date + 1;
      ReachIsBounded(z, date * DAY, t);
    }
    forall d ensures InDay(z, d, t) <==> d == date {
      InDayByReach(z, d, t);
      if d < date {
        ReachIsDownward(z, (d + 1) * DAY, date * DAY, t);
      }
      if date < d && Reached(z, d * DAY, t) {
        ReachIsDownward(z, (date + 1) * DAY, d * DAY, t);
      }
    }
  }

  lemma ReachIsDownward(z: int -> int, x: int, y: int, t: int)
    requires x <= y && Reached(z, y, t)
    ensures Reached(z, x, t)
  {
    var s :| s <= t && y <= s + z(s);
  }

  lemma ReachIsBounded(z: int -> int, x: int, t: int)
    requires IsZone(z) && Reached(z, x, t)
    ensures x <= t + MAX_OFFSET
  {
    var s :| s <= t && x <= s + z(s);
  }

  /** Once a clock has shown midnight of some date it never again shows an earlier time. */
  ghost predicate NoMidnightRepeats(z: int -> int) {
    forall d, s, t :: s <= t && AtOrPast(z, d, s) ==> AtOrPast(z, d, t)
  }

  predicate AtOrPast(z: int -> int, date: int, t: int) {
    date * DAY <= t + z(t)
  }

  ghost predicate DayRangeIsLocalDate(z: int -> int) {
    forall d, t :: InDay(z, d, t) <==> LocalDate(z, t) == d
  }

  /**
   * Counting by `dayRange` and counting by local date agree exactly when no
   * repeated stretch of local time strictly contains a midnight.
   */
  lemma DayRangeIsLocalDateIff(z: int -> int)
    requires Regular(z)
    ensures DayRangeIsLocalDate(z) <==> NoMidnightRepeats(z)
  {
    if NoMidnightRepeats(z) {
      forall d, t ensures InDay(z, d, t) <==> LocalDate(z, t) == d {
        InDayByReach(z, d, t);
        LocalDateByOffset(z, t);
        ReachedMeansPast(z, d, t);
        ReachedMeansPast(z, d + 1, t);
      }
    }
    if DayRangeIsLocalDate(z) {
      forall d, s, t | s <= t && AtOrPast(z, d, s) ensures AtOrPast(z, d, t) {
        var e := LocalDate(z, t);
        LocalDateByOffset(z, t);
        assert InDay(z, e, t);
        InDayByReach(z, e, t);
        assert Reached(z, d * DAY, t);
        if e < d {
          ReachIsDownward(z, (e + 1) * DAY, d * DAY, t);
        }
      }
    }
  }

  lemma ReachedMeansPast(z: int -> int, d: int, t: int)
    requires NoMidnightRepeats(z)
    ensures Reached(z, d * DAY, t) <==> AtOrPast(z, d, t)
  {
    if Reached(z, d * DAY, t) {
      var s :| s <= t && d * DAY <= s + z(s);
      assert AtOrPast(z, d, s);
    }
    if AtOrPast(z, d, t) {
      assert t <= t && d * DAY <= t + z(t);
    }
  }

  // ---- A zone that turns its clocks back across a midnight ---------------------------------

  /** The last instant, exclusive, of the earlier offset: 00:30 local time, which becomes 23:30. */
  const TURN_BACK := DAY - 30 * MINUTE

  function TurnsBack(t: int): int {
    if t < TURN_BACK then HOUR else 0
  }

  lemma TurnsBackIsRegular()
    ensures Regular(TurnsBack)
  {
    forall x | x % MINUTE == 0 ensures OneTransition(TurnsBack, x) {
      assert TURN_BACK % MINUTE == 0 && StepsAt(TurnsBack, x - DAY, x + DAY, TURN_BACK);
    }
  }

  /**
   * There are such zones: at the turn the local date is day 0 again, while the instant
   * still lies in the range of day 1.
   */
  lemma TurnedBackDaysDiffer()
    ensures Regular(TurnsBack) && !NoMidnightRepeats(TurnsBack)
    ensures InDay(TurnsBack, 1, TURN_BACK) && LocalDate(TurnsBack, TURN_BACK) == 0
  {
    hide WallClockToInstant, LocalTimeToInstant;
    TurnsBackIsRegular();
    assert AtOrPast(TurnsBack, 1, TURN_BACK - 1) && !AtOrPast(TurnsBack, 1, TURN_BACK);
    InDayByReach(TurnsBack, 1, TURN_BACK);
    var s := TURN_BACK - 1;
    assert s <= TURN_BACK && 1 * DAY <= s + TurnsBack(s);
    LocalDateByOffset(TurnsBack, TURN_BACK);
  }
}
