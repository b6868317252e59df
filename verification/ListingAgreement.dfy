/**
 * The generator and the arbiter agree: what `computeSlots` lists,
 * `isSlotStillValid` accepts, although the two read different date ranges.
 */
module ListingAgreement {
  import opened Common
  import opened Intervals
  import opened Zone
  import opened LocalDays
  import opened SlotEngine

  /** Some date's schedule covers `t`, whatever range was queried. */
  ghost predicate FreeEver(av: Availability, t: int) {
    exists d :: FreeOn(av, d, t)
  }

  lemma FreeForIsFreeEver(av: Availability, range: Interval, t: int)
    requires t in FreeFor(av, range)
    ensures FreeEver(av, t)
  {
    var dates := DatesFor(av, range).value;
    var i :| 0 <= i < |dates| && FreeOn(av, dates[i], t);
  }

  /** A date covering `t` is within the offset bounds of `t`. */
  lemma CoveringDateBounds(av: Availability, d: int, t: int)
    requires ValidAvailability(av) && FreeOn(av, d, t)
    ensures d * DAY <= t + MAX_OFFSET && t + MIN_OFFSET < (d + 1) * DAY
  {
    hide LocalTimeToInstant;
    var k :| 0 <= k < |DayWindows(av, d)| && WindowCovers(av.zone, d, DayWindows(av, d)[k], t);
    DayWindowsAreValid(av, d);
    var w := DayWindows(av, d)[k];
    LocalTimeBounds(av.zone, d, w.startMinute);
    LocalTimeBounds(av.zone, d, w.endMinute);
  }

  lemma DateIsLoaded(av: Availability, range: Interval, d: int)
    requires DatesFor(av, range).Some?
    requires LocalDate(av.zone, range.start - DAY) <= d <= LocalDate(av.zone, range.end + DAY)
    ensures d in DatesFor(av, range).value
  {
    DateRunMembers(LocalDate(av.zone, range.start - DAY), LocalDate(av.zone, range.end + DAY), d);
  }

  lemma LocalDateBounds(z: int -> int, t: int)
    requires IsZone(z)
    ensures LocalDate(z, t) * DAY <= t + MAX_OFFSET
    ensures t + MIN_OFFSET < (LocalDate(z, t) + 1) * DAY
  {
    LocalDateByOffset(z, t);
    assert MIN_OFFSET <= z(t) <= MAX_OFFSET;
    var d := (t + z(t)) / DAY;
    assert d * DAY <= t + z(t) < (d + 1) * DAY;
  }

  /** The commit-time probe loads every date that can cover the footprint. */
  lemma ProbeSeesWholeSchedule(h: HostInput, et: EventType, start: int, t: int)
    requires ValidEventType(et) && ValidAvailability(h.availability)
    requires var f := SlotFootprint(et, start); f.start <= t < f.end
    ensures t in FreeFor(h.availability, ProbeRange(et, start)) <==> FreeEver(h.availability, t)
  {
    hide LocalDate, FreeOn, DatesFor, ValidEventType;
    var av, probe := h.availability, ProbeRange(et, start);
    ProbeDatesExist(h, et, start);
    if FreeEver(av, t) {
      var d :| FreeOn(av, d, t);
      CoveringDateBounds(av, d, t);
      LocalDateBounds(av.zone, probe.start - DAY);
      LocalDateBounds(av.zone, probe.end + DAY);
      DateIsLoaded(av, probe, d);
      var dates := DatesFor(av, probe).value;
      var i :| 0 <= i < |dates| && dates[i] == d;
      assert FreeOnAny(av, dates, t);
    }
    if t in FreeFor(av, probe) {
      FreeForIsFreeEver(av, probe, t);
    }
  }

  /** A host that offers a start in a listing accepts it at commit time. */
  lemma OfferIsValid(q: SlotQuery, h: HostInput, start: int, free: iset<int>)
    requires ValidEventType(q.eventType) && ValidAvailability(h.availability)
    requires free <= FreeFor(h.availability, q.range)
    requires Gridded(free, q.eventType, start) && InPolicy(q, start)
    requires UnderCap(h, q.eventType, start) && Clear(h, q.eventType, start)
    ensures SlotValid(h, q.eventType, start, q.now)
  {
    hide FreeFor;
    var et := q.eventType;
    var w :| Maximal(free, w) && Candidate(w, et, start);
    CandidateOnGrid(w, et, start);
    var f := SlotFootprint(et, start);
    forall t | f.start <= t < f.end ensures t in FreeFor(h.availability, ProbeRange(et, start)) {
      assert t in free;
      FreeForIsFreeEver(h.availability, q.range, t);
      ProbeSeesWholeSchedule(h, et, start, t);
    }
  }

  ghost predicate ValidQuery(q: SlotQuery) {
    && ValidEventType(q.eventType)
    && DistinctHosts(q.hosts)
    && forall j :: 0 <= j < |q.hosts| ==> ValidAvailability(q.hosts[j].availability)
  }

  /** With a cap of at least one, an unloaded count and a count of zero agree. */
  lemma ListingCapIsCap(h: HostInput, et: EventType, start: int)
    requires ValidEventType(et)
    ensures ListingCap(h, et, start) <==> UnderCap(h, et, start)
  {
  }

  /**
   * Every slot the engine offers, for every host it offers it for, passes the
   * commit-time check on the same inputs, whatever the offset function.
   */
  lemma ListedSlotIsValid(q: SlotQuery, start: int, j: nat)
    requires ValidQuery(q) && j < |q.hosts|
    requires q.hosts[j].hostUserId in EligibleIds(q, start)
    ensures SlotValid(q.hosts[j], q.eventType, start, q.now)
  {
    hide SlotValid;
    var h := q.hosts[j];
    if q.eventType.schedulingType == Collective {
      assert AllOffer(q, start);
      CommonFreeIsFree(q, j);
      OfferIsValid(q, h, start, CommonFree(q));
    } else {
      OfferingIdsAreEarlier(q, |q.hosts|, start);
      var i :| 0 <= i < |q.hosts| && q.hosts[i].hostUserId == h.hostUserId && Offers(q, q.hosts[i], start);
      assert i == j;
      ListingCapIsCap(h, q.eventType, start);
      OfferIsValid(q, h, start, FreeFor(h.availability, q.range));
    }
  }

  lemma CommonFreeIsFree(q: SlotQuery, j: nat)
    requires j < |q.hosts|
    ensures CommonFree(q) <= FreeFor(q.hosts[j].availability, q.range)
  {
    hide FreeFor;
    forall t | t in CommonFree(q) ensures t in FreeFor(q.hosts[j].availability, q.range) {
      assert FreeForAll(q, t);
    }
  }
}
