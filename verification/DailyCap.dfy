/**
 * Counting bookings for the per-day cap: at listing time by local date
 * (perDayCounts in src/engine.ts), at commit time by `dayRange`
 * (countForHostOnDate in src/adapters/d1/repositories.ts).
 */
module DailyCap {
  import opened Common
  import opened Intervals
  import opened Zone
  import opened LocalDays
  import opened Domain

  predicate Attends(b: Booking, host: int) {
    b.status == Confirmed && (b.hostUserId == host || host in b.hostUserIds)
  }

  /** `listForHost`: confirmed bookings of the host that overlap the range. */
  function ListForHost(rows: seq<Booking>, host: int, range: Interval): seq<Booking> {
    if rows == [] then []
    else
      var n := |rows| - 1;
      var b := rows[n];
      ListForHost(rows[..n], host, range)
      + if Attends(b, host) && b.startUtc < range.end && b.endUtc > range.start then [b] else []
  }

  /** `countForHostOnDate`: confirmed bookings of the host that start in the range. */
  function CountForHost(rows: seq<Booking>, host: int, range: Interval): nat {
    if rows == [] then 0
    else
      var n := |rows| - 1;
      var b := rows[n];
      CountForHost(rows[..n], host, range)
      + if Attends(b, host) && range.start <= b.startUtc < range.end then 1 else 0
  }

  /** How many of the listed bookings start on local date `date`. */
  function StartsOn(listed: seq<Booking>, z: int -> int, date: int): nat {
    if listed == [] then 0
    else
      var n := |listed| - 1;
      StartsOn(listed[..n], z, date) + if LocalDate(z, listed[n].startUtc) == date then 1 else 0
  }

  function Counted(counts: map<int, int>, date: int): int {
    if date in counts then counts[date] else 0
  }

  /** `perDayCounts` */
  method PerDayCounts(listed: seq<Booking>, z: int -> int) returns (counts: map<int, int>)
    ensures forall date :: Counted(counts, date) == StartsOn(listed, z, date)
  {
    hide LocalDate;
    counts := map[];
    for i := 0 to |listed|
      invariant forall date :: Counted(counts, date) == StartsOn(listed[..i], z, date)
    {
      var date := LocalDate(z, listed[i].startUtc);
      assert listed[..i + 1][..i] == listed[..i];
      counts := counts[date := Counted(counts, date) + 1];
    }
    assert listed[..|listed|] == listed;
  }

  ghost predicate ProperBookings(rows: seq<Booking>) {
    forall i :: 0 <= i < |rows| ==> rows[i].startUtc < rows[i].endUtc
  }

  lemma {:induction false} StartsOnAppend(a: seq<Booking>, b: Booking, z: int -> int, date: int)
    ensures StartsOn(a + [b], z, date) == StartsOn(a, z, date) + if LocalDate(z, b.startUtc) == date then 1 else 0
  {
    hide LocalDate;
    assert (a + [b])[..|a|] == a;
  }

  /**
   * A listing never counts more bookings on a day than the commit does, and counts
   * exactly as many once its range covers the whole day, provided no repeated
   * local stretch contains a midnight.
   */
  lemma {:induction false} CapCountsAgree(rows: seq<Booking>, host: int, z: int -> int, date: int, range: Interval)
    requires Regular(z) && NoMidnightRepeats(z) && ProperBookings(rows)
    ensures StartsOn(ListForHost(rows, host, range), z, date) <= CountForHost(rows, host, DayRange(z, date))
    ensures range.start <= DayRange(z, date).start && DayRange(z, date).end <= range.end ==>
              StartsOn(ListForHost(rows, host, range), z, date) == CountForHost(rows, host, DayRange(z, date))
  {
    hide LocalDate, DayRange, Regular, NoMidnightRepeats, Attends, StartsOn;
    if rows == [] {
      NothingStarts(z, date);
    } else {
      var n := |rows| - 1;
      var b := rows[n];
      CapCountsAgree(rows[..n], host, z, date, range);
      StartsOnAppend(ListForHost(rows[..n], host, range), b, z, date);
      DateIsDayRange(z, date, b.startUtc);
      assert ListForHost(rows[..n], host, range) + [] == ListForHost(rows[..n], host, range);
    }
  }

  lemma NothingStarts(z: int -> int, date: int)
    ensures StartsOn([], z, date) == 0
  {
  }

  lemma DateIsDayRange(z: int -> int, date: int, t: int)
    requires Regular(z) && NoMidnightRepeats(z)
    ensures LocalDate(z, t) == date <==> DayRange(z, date).start <= t < DayRange(z, date).end
  {
    hide LocalDate, LocalTimeToInstant;
    DayRangeIsLocalDateIff(z);
    assert InDay(z, date, t) <==> LocalDate(z, t) == date;
  }

  function AtTheTurn(host: int): Booking {
    Booking(1, 1, host, [host], TURN_BACK, TURN_BACK + HOUR, 0, Confirmed, None, None, None, 0)
  }

  /**
   * Where the clocks turn back across a midnight the two counts do differ: a booking at
   * the turn counts for day 0 in the listing and for day 1 at commit.
   */
  lemma TurnedBackCountsDiffer(host: int)
    ensures var rows, listing := [AtTheTurn(host)], Interval(-DAY, 3 * DAY);
      && ProperBookings(rows) && Regular(TurnsBack)
      && listing.start <= DayRange(TurnsBack, 1).start && DayRange(TurnsBack, 1).end <= listing.end
      && StartsOn(ListForHost(rows, host, listing), TurnsBack, 1) == 0
      && StartsOn(ListForHost(rows, host, listing), TurnsBack, 0) == 1
      && CountForHost(rows, host, DayRange(TurnsBack, 1)) == 1
  {
    hide LocalDate, LocalTimeToInstant, Regular, NoMidnightRepeats;
    var rows, b := [AtTheTurn(host)], AtTheTurn(host);
    TurnedBackDaysDiffer();
    assert ListForHost([], host, Interval(-DAY, 3 * DAY)) == [] && rows[..0] == [];
    assert ListForHost(rows, host, Interval(-DAY, 3 * DAY)) == [b];
    assert [b][..0] == [];
    DayOneIsListed();
  }

  lemma DayOneIsListed()
    requires Regular(TurnsBack)
    ensures -DAY <= DayRange(TurnsBack, 1).start && DayRange(TurnsBack, 1).end <= 3 * DAY
  {
    hide LocalTimeToInstant;
    LocalTimeBounds(TurnsBack, 1, 0);
    LocalTimeBounds(TurnsBack, 2, 0);
  }
}
