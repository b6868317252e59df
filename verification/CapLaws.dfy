/**
 * What the daily cap counts: bookings, from the rows of the table to the starts offered
 * and accepted (src/core/slots/engine.ts, src/engine.ts, src/adapters/coordinator.ts).
 */
module CapLaws {
  import opened Common
  import opened Intervals
  import opened Zone
  import opened LocalDays
  import opened Domain
  import opened DailyCap
  import opened SlotEngine
  import opened ListingAgreement
  import opened SlotLaws

  /** Row `b` is a confirmed booking that `host` takes part in. */
  predicate TakesPart(b: Booking, host: int) {
    b.status == Confirmed && (b.hostUserId == host || host in b.hostUserIds)
  }

  /** The rows of the host's confirmed bookings that start on `date` by this clock. */
  ghost function StartingOn(rows: seq<Booking>, host: int, z: int -> int, date: int): set<int> {
    set i | 0 <= i < |rows| && TakesPart(rows[i], host)
            && (rows[i].startUtc + z(rows[i].startUtc)) / 86_400_000 == date
  }

  /** Those of them that touch the query range. */
  ghost function Seen(rows: seq<Booking>, host: int, z: int -> int, date: int, range: Interval): set<int> {
    set i | i in StartingOn(rows, host, z, date) && rows[i].startUtc < range.end && range.start < rows[i].endUtc
  }

  /** The rows of the host's confirmed bookings that start in `range`. */
  ghost function StartingIn(rows: seq<Booking>, host: int, range: Interval): set<int> {
    set i | 0 <= i < |rows| && TakesPart(rows[i], host) && range.start <= rows[i].startUtc < range.end
  }

  lemma OneMore(a: set<int>, b: set<int>, n: int)
    requires n !in a && b - {n} == a
    ensures |b| == |a| + if n in b then 1 else 0
  {
    assert n in b ==> b == a + {n};
  }

  /** The counts a listing loads are numbers of bookings. */
  lemma {:induction false} ListedCount(rows: seq<Booking>, host: int, z: int -> int, date: int, range: Interval)
    ensures StartsOn(ListForHost(rows, host, range), z, date) == |Seen(rows, host, z, date, range)|
  {
    hide LocalDate, StartsOn;
    if rows == [] {
      NothingStarts(z, date);
      assert Seen(rows, host, z, date, range) == {};
    } else {
      hide Seen;
      var n, b := |rows| - 1, rows[|rows| - 1];
      ListedCount(rows[..n], host, z, date, range);
      StartsOnAppend(ListForHost(rows[..n], host, range), b, z, date);
      LocalDateByOffset(z, b.startUtc);
      assert ListForHost(rows[..n], host, range) + [] == ListForHost(rows[..n], host, range);
      LastSeen(rows, host, z, date, range);
      OneMore(Seen(rows[..n], host, z, date, range), Seen(rows, host, z, date, range), n);
    }
  }

  lemma LastSeen(rows: seq<Booking>, host: int, z: int -> int, date: int, range: Interval)
    requires rows != []
    ensures var n, b := |rows| - 1, rows[|rows| - 1];
      && n !in Seen(rows[..n], host, z, date, range)
      && Seen(rows, host, z, date, range) - {n} == Seen(rows[..n], host, z, date, range)
      && (n in Seen(rows, host, z, date, range) <==>
            && TakesPart(b, host) && (b.startUtc + z(b.startUtc)) / 86_400_000 == date
            && b.startUtc < range.end && range.start < b.endUtc)
  {
    hide TakesPart;
  }

  /** So are the counts the commit loads. */
  lemma {:induction false} CommitCount(rows: seq<Booking>, host: int, range: Interval)
    ensures CountForHost(rows, host, range) == |StartingIn(rows, host, range)|
  {
    if rows == [] {
      assert StartingIn(rows, host, range) == {};
    } else {
      var n := |rows| - 1;
      CommitCount(rows[..n], host, range);
      OneMore(StartingIn(rows[..n], host, range), StartingIn(rows, host, range), n);
    }
  }

  /** The host's map is what `perDayCounts` makes of the bookings listed for `range`. */
  ghost predicate CountedFor(h: HostInput, rows: seq<Booking>, range: Interval) {
    && h.bookingsPerLocalDate.Some?
    && forall date :: Counted(h.bookingsPerLocalDate.value, date)
                      == StartsOn(ListForHost(rows, h.hostUserId, range), h.availability.zone, date)
  }

  /** The host's map is the one day a commit loads. */
  ghost predicate CountedAt(h: HostInput, rows: seq<Booking>, start: int) {
    var z := h.availability.zone;
    h.bookingsPerLocalDate
    == Some(map[LocalDate(z, start) := CountForHost(rows, h.hostUserId, DayRange(z, LocalDate(z, start)))])
  }

  /** The confirmed bookings a start has to share its day with, as a listing sees them. */
  ghost function SameDay(h: HostInput, rows: seq<Booking>, range: Interval, start: int): nat {
    |Seen(rows, h.hostUserId, h.availability.zone, ClockDate(h, start), range)|
  }

  /** Below the cap means fewer bookings on that day than the event type allows. */
  lemma BelowCapIff(h: HostInput, et: EventType, rows: seq<Booking>, range: Interval, start: int)
    requires CountedFor(h, rows, range)
    ensures BelowCap(h, et, start) <==> (et.maxPerDay.Some? ==> SameDay(h, rows, range, start) < et.maxPerDay.value)
  {
    hide Seen, ListForHost, StartsOn;
    ListedCount(rows, h.hostUserId, h.availability.zone, ClockDate(h, start), range);
    assert Counted(h.bookingsPerLocalDate.value, ClockDate(h, start)) == SameDay(h, rows, range, start);
  }

  /**
   * No start is offered on a day that already has as many bookings of the host as the event
   * type allows, and none is held back for the cap on any other.
   */
  lemma OfferedWithinCap(q: SlotQuery, h: HostInput, rows: seq<Booking>, range: Interval, start: int)
    requires ValidEventType(q.eventType) && ValidAvailability(h.availability) && DatesFor(h.availability, q.range).Some?
    requires CountedFor(h, rows, range)
    ensures Offers(q, h, start) <==>
              && CanOffer(q, h.(bookingsPerLocalDate := None), start)
              && (q.eventType.maxPerDay.Some? ==> SameDay(h, rows, range, start) < q.eventType.maxPerDay.value)
  {
    hide BelowCap, NothingBusy, Stretch, OnWindowGrid, SameDay, ValidAvailability, DatesFor, Offers;
    OfferedIff(q, h, start);
    BelowCapIff(h, q.eventType, rows, range, start);
    NothingBusyIgnoresCounts(h, q.eventType, start);
  }

  lemma NothingBusyIgnoresCounts(h: HostInput, et: EventType, start: int)
    ensures NothingBusy(h.(bookingsPerLocalDate := None), et, start) <==> NothingBusy(h, et, start)
  {
  }

  /** The same for every host of a collective listing. */
  lemma AllOfferedWithinCap(q: SlotQuery, rows: seq<Booking>, range: Interval, start: int, j: nat)
    requires Loadable(q) && j < |q.hosts| && CountedFor(q.hosts[j], rows, range) && AllOffer(q, start)
    ensures q.eventType.maxPerDay.Some? ==> SameDay(q.hosts[j], rows, range, start) < q.eventType.maxPerDay.value
  {
    hide BelowCap, NothingBusy, CommonStretch, OnWindowGrid, CountedFor, SameDay, Loadable, AllOffer;
    AllOfferedIff(q, start);
    BelowCapIff(q.hosts[j], q.eventType, rows, range, start);
  }

  /**
   * At commit a start is accepted exactly when it would be without a cap and fewer
   * confirmed bookings of the host start in the range of its day than the cap.
   */
  lemma AcceptedWithinCap(h: HostInput, et: EventType, rows: seq<Booking>, start: int, now: int)
    requires ValidEventType(et) && ValidAvailability(h.availability) && CountedAt(h, rows, start)
    ensures var day := DayRange(h.availability.zone, ClockDate(h, start));
      SlotValid(h, et, start, now) <==>
        && SlotValid(h, et.(maxPerDay := None), start, now)
        && (et.maxPerDay.Some? ==> |StartingIn(rows, h.hostUserId, day)| < et.maxPerDay.value)
  {
    hide StartingIn, DayRange, CountForHost, LocalDate, NothingBusy, Scheduled, ValidAvailability, SlotValid;
    LocalDateByOffset(h.availability.zone, start);
    CommitCount(rows, h.hostUserId, DayRange(h.availability.zone, ClockDate(h, start)));
    AcceptedIff(h, et, start, now);
    AcceptedIff(h, et.(maxPerDay := None), start, now);
    SameBusy(h, et, start);
  }

  lemma SameBusy(h: HostInput, et: EventType, start: int)
    ensures NothingBusy(h, et.(maxPerDay := None), start) <==> NothingBusy(h, et, start)
  {
  }

  /** Where no midnight repeats, those are the bookings that start on its local date. */
  lemma DayHoldsItsDate(rows: seq<Booking>, host: int, z: int -> int, date: int)
    requires Regular(z) && NoMidnightRepeats(z)
    ensures StartingIn(rows, host, DayRange(z, date)) == StartingOn(rows, host, z, date)
  {
    hide DayRange, Regular, NoMidnightRepeats, TakesPart, LocalDate;
    forall i | 0 <= i < |rows|
      ensures (rows[i].startUtc + z(rows[i].startUtc)) / 86_400_000 == date
              <==> DayRange(z, date).start <= rows[i].startUtc < DayRange(z, date).end
    {
      DateIsDayRange(z, date, rows[i].startUtc);
      LocalDateByOffset(z, rows[i].startUtc);
    }
  }
}
