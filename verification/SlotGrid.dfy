/**
 * Whether the slot grid depends on who asks: the same host, two query ranges
 * (freeIntervalsForHost, candidatesInWindow and computeSlots in
 * src/core/slots/engine.ts).
 */
module SlotGrid {
  import opened Common
  import opened Intervals
  import opened Zone
  import opened LocalDays
  import opened SlotEngine
  import opened ListingAgreement

  /** Gridding looks no further than the uncovered instants around the start. */
  lemma GriddedIsLocal(p: iset<int>, r: iset<int>, et: EventType, start: int, u: int, v: int)
    requires 0 < et.Duration() && 0 <= et.Before() && 0 <= et.After()
    requires u < start < v && u !in p && v !in p
    requires forall t :: u <= t <= v ==> (t in p <==> t in r)
    ensures Gridded(p, et, start) ==> Gridded(r, et, start)
  {
    if Gridded(p, et, start) {
      var w :| Maximal(p, w) && Candidate(w, et, start);
      assert w.start <= start < w.end;
      assert u < w.start && w.end <= v;
      assert Maximal(r, w);
    }
  }

  // ---- Zones with one offset ---------------------------------------------------------

  ghost predicate ConstantOffset(z: int -> int, c: int) {
    && MIN_OFFSET <= c <= MAX_OFFSET && c % SECOND == 0
    && forall t :: z(t) == c
  }

  lemma ConstantResolution(z: int -> int, c: int, date: int, minutes: int)
    requires ConstantOffset(z, c)
    ensures LocalTimeToInstant(z, date, minutes) == date * DAY + minutes * MINUTE - c
  {
    hide WallClockToInstant;
    var x := date * DAY + minutes * MINUTE;
    LocalTimeTarget(z, date, minutes);
    OnWholeSecond(date, minutes);
    ConstantWallClock(z, c, x);
  }

  lemma ConstantWallClock(z: int -> int, c: int, x: int)
    requires ConstantOffset(z, c) && x % SECOND == 0
    ensures WallClockToInstant(z, x) == x - c
  {
    hide Resolve;
    ResolveIsByOffsets(z, x);
    assert z(x - c) == c;
  }

  /** With one offset a window covers only instants of its own local date. */
  lemma CoveringDateIsLocalDate(av: Availability, c: int, d: int, t: int)
    requires ValidAvailability(av) && ConstantOffset(av.zone, c) && FreeOn(av, d, t)
    ensures d == (t + c) / DAY
  {
    hide LocalTimeToInstant;
    var k :| 0 <= k < |DayWindows(av, d)| && WindowCovers(av.zone, d, DayWindows(av, d)[k], t);
    DayWindowsAreValid(av, d);
    var w := DayWindows(av, d)[k];
    ConstantResolution(av.zone, c, d, w.startMinute);
    ConstantResolution(av.zone, c, d, w.endMinute);
    DayOfInstant(d, t + c);
  }

  lemma DayOfInstant(d: int, x: int)
    requires d * DAY <= x < (d + 1) * DAY
    ensures x / DAY == d
  {
  }

  /** A query sees the whole schedule of the days next to those it asks about. */
  lemma NearbyDaysAreLoaded(av: Availability, c: int, range: Interval, t: int, start: int)
    requires ValidAvailability(av) && ConstantOffset(av.zone, c) && DatesFor(av, range).Some?
    requires range.start <= start < range.end
    requires (start + c) / DAY - 1 <= (t + c) / DAY <= (start + c) / DAY + 1
    ensures t in FreeFor(av, range) <==> FreeEver(av, t)
  {
    hide LocalDate, FreeOn, DatesFor;
    if FreeEver(av, t) {
      var d :| FreeOn(av, d, t);
      CoveringDateIsLocalDate(av, c, d, t);
      LocalDateByOffset(av.zone, range.start - DAY);
      LocalDateByOffset(av.zone, range.end + DAY);
      assert av.zone(range.start - DAY) == c && av.zone(range.end + DAY) == c;
      NeighbourDates(range.start + c, start + c, range.end + c);
      DateIsLoaded(av, range, d);
      var dates := DatesFor(av, range).value;
      var i :| 0 <= i < |dates| && dates[i] == d;
      assert FreeOnAny(av, dates, t);
    }
    if t in FreeFor(av, range) {
      FreeForIsFreeEver(av, range, t);
    }
  }

  lemma NeighbourDates(lo: int, x: int, hi: int)
    requires lo <= x < hi
    ensures (lo - DAY) / DAY <= x / DAY - 1 && x / DAY + 1 <= (hi + DAY) / DAY
  {
    assert (lo - DAY) / DAY == lo / DAY - 1 && (hi + DAY) / DAY == hi / DAY + 1;
    assert lo / DAY <= x / DAY <= hi / DAY;
  }

  /** Every local day leaves some instant outside the schedule. */
  ghost predicate EveryDayBreaks(av: Availability, c: int) {
    forall d :: BreaksOn(av, c, d)
  }

  ghost predicate BreaksOn(av: Availability, c: int, d: int) {
    exists t :: (t + c) / DAY == d && !FreeEver(av, t)
  }

  lemma SameGrid(av: Availability, c: int, et: EventType, a: Interval, b: Interval, start: int)
    requires ValidEventType(et) && ValidAvailability(av) && ConstantOffset(av.zone, c) && EveryDayBreaks(av, c)
    requires DatesFor(av, a).Some? && DatesFor(av, b).Some?
    requires a.start <= start < a.end && b.start <= start < b.end
    ensures Gridded(FreeFor(av, a), et, start) ==> Gridded(FreeFor(av, b), et, start)
  {
    hide FreeFor, DatesFor, FreeEver, ConstantOffset, ValidAvailability, Gridded;
    var d := (start + c) / DAY;
    assert BreaksOn(av, c, d - 1) && BreaksOn(av, c, d + 1);
    var u :| (u + c) / DAY == d - 1 && !FreeEver(av, u);
    var v :| (v + c) / DAY == d + 1 && !FreeEver(av, v);
    DaysAreOrdered(u + c, start + c);
    DaysAreOrdered(start + c, v + c);
    forall t | u <= t <= v
      ensures t in FreeFor(av, a) <==> FreeEver(av, t)
      ensures t in FreeFor(av, b) <==> FreeEver(av, t)
    {
      assert (u + c) / DAY <= (t + c) / DAY <= (v + c) / DAY;
      NearbyDaysAreLoaded(av, c, a, t, start);
      NearbyDaysAreLoaded(av, c, b, t, start);
    }
    GriddedIsLocal(FreeFor(av, a), FreeFor(av, b), et, start, u, v);
  }

  lemma DaysAreOrdered(x: int, y: int)
    requires x / DAY < y / DAY
    ensures x < y
  {
  }

  /**
   * The grid does not depend on who asks: with one offset and a break in every
   * local day, a host's offers agree wherever two query ranges overlap.
   */
  lemma OffersDoNotDependOnRange(q: SlotQuery, h: HostInput, c: int, other: Interval, start: int)
    requires ValidEventType(q.eventType) && ValidAvailability(h.availability)
    requires ConstantOffset(h.availability.zone, c) && EveryDayBreaks(h.availability, c)
    requires DatesFor(h.availability, q.range).Some? && DatesFor(h.availability, other).Some?
    requires q.range.start <= start < q.range.end && other.start <= start < other.end
    ensures Offers(q, h, start) <==> Offers(q.(range := other), h, start)
  {
    hide EveryDayBreaks, FreeFor, ConstantOffset, DatesFor;
    SameGrid(h.availability, c, q.eventType, q.range, other, start);
    SameGrid(h.availability, c, q.eventType, other, q.range, start);
  }

  /** Each host's zone has one offset and each of its local days a break. */
  ghost predicate SteadyHosts(q: SlotQuery, offsets: seq<int>, a: Interval, b: Interval) {
    && |offsets| == |q.hosts|
    && forall j :: 0 <= j < |q.hosts| ==> SteadyHost(q.hosts[j], offsets[j], a, b)
  }

  ghost predicate SteadyHost(h: HostInput, c: int, a: Interval, b: Interval) {
    && ValidAvailability(h.availability) && ConstantOffset(h.availability.zone, c) && EveryDayBreaks(h.availability, c)
    && DatesFor(h.availability, a).Some? && DatesFor(h.availability, b).Some?
  }

  /** `t` lies within a local day of `start` for each of the first `n` hosts. */
  ghost predicate NearFor(offsets: seq<int>, n: nat, t: int, start: int)
    requires n <= |offsets|
  {
    forall j :: 0 <= j < n ==>
      (start + offsets[j]) / DAY - 1 <= (t + offsets[j]) / DAY <= (start + offsets[j]) / DAY + 1
  }

  /** Some host's break shortly before and shortly after `start`, near for every host. */
  lemma {:induction false} CommonBreaks(q: SlotQuery, offsets: seq<int>, a: Interval, b: Interval, n: nat, start: int)
    returns (u: int, v: int)
    requires SteadyHosts(q, offsets, a, b) && 0 < n <= |q.hosts|
    ensures u < start < v && NearFor(offsets, n, u, start) && NearFor(offsets, n, v, start)
    ensures exists j :: 0 <= j < n && !FreeEver(q.hosts[j].availability, u)
    ensures exists j :: 0 <= j < n && !FreeEver(q.hosts[j].availability, v)
  {
    hide SteadyHost, FreeEver;
    var u', v' := HostBreaks(q.hosts[n - 1], offsets[n - 1], a, b, start);
    if n == 1 {
      u, v := u', v';
    } else {
      u, v := CommonBreaks(q, offsets, a, b, n - 1, start);
      NearerBreaks(offsets, n, start, u, v, u', v');
      u := if u < u' then u' else u;
      v := if v' < v then v' else v;
    }
  }

  lemma HostBreaks(h: HostInput, c: int, a: Interval, b: Interval, start: int) returns (u: int, v: int)
    requires SteadyHost(h, c, a, b)
    ensures u < start < v && (u + c) / DAY == (start + c) / DAY - 1 && (v + c) / DAY == (start + c) / DAY + 1
    ensures !FreeEver(h.availability, u) && !FreeEver(h.availability, v)
  {
    hide FreeEver, ConstantOffset, ValidAvailability, DatesFor;
    var d := (start + c) / DAY;
    assert BreaksOn(h.availability, c, d - 1) && BreaksOn(h.availability, c, d + 1);
    u :| (u + c) / DAY == d - 1 && !FreeEver(h.availability, u);
    v :| (v + c) / DAY == d + 1 && !FreeEver(h.availability, v);
    DaysAreOrdered(u + c, start + c);
    DaysAreOrdered(start + c, v + c);
  }

  lemma NearerBreaks(offsets: seq<int>, n: nat, start: int, u: int, v: int, u': int, v': int)
    requires 1 < n <= |offsets| && u < start < v && u' < start < v'
    requires NearFor(offsets, n - 1, u, start) && NearFor(offsets, n - 1, v, start)
    requires (u' + offsets[n - 1]) / DAY == (start + offsets[n - 1]) / DAY - 1
    requires (v' + offsets[n - 1]) / DAY == (start + offsets[n - 1]) / DAY + 1
    ensures NearFor(offsets, n, Max(u, u'), start) && NearFor(offsets, n, Min(v, v'), start)
  {
    forall j | 0 <= j < n
      ensures (start + offsets[j]) / DAY - 1 <= (Max(u, u') + offsets[j]) / DAY <= (start + offsets[j]) / DAY + 1
      ensures (start + offsets[j]) / DAY - 1 <= (Min(v, v') + offsets[j]) / DAY <= (start + offsets[j]) / DAY + 1
    {
      DayIsMonotone(u + offsets[j], Max(u, u') + offsets[j]);
      DayIsMonotone(u' + offsets[j], Max(u, u') + offsets[j]);
      DayIsMonotone(Max(u, u') + offsets[j], start + offsets[j]);
      DayIsMonotone(Min(v, v') + offsets[j], v + offsets[j]);
      DayIsMonotone(Min(v, v') + offsets[j], v' + offsets[j]);
      DayIsMonotone(start + offsets[j], Min(v, v') + offsets[j]);
    }
  }

  lemma DayIsMonotone(x: int, y: int)
    requires x <= y
    ensures x / DAY <= y / DAY
  {
  }

  lemma CommonTimeNearby(
    q: SlotQuery, offsets: seq<int>, a: Interval, b: Interval, range: Interval, u: int, v: int, t: int, start: int)
    requires SteadyHosts(q, offsets, a, b) && (range == a || range == b)
    requires range.start <= start < range.end && u <= t <= v && u < start < v
    requires NearFor(offsets, |q.hosts|, u, start) && NearFor(offsets, |q.hosts|, v, start)
    ensures t in CommonFree(q.(range := range)) <==>
              forall j :: 0 <= j < |q.hosts| ==> FreeEver(q.hosts[j].availability, t)
  {
    hide FreeEver, FreeFor;
    forall j | 0 <= j < |q.hosts|
      ensures t in FreeFor(q.hosts[j].availability, range) <==> FreeEver(q.hosts[j].availability, t)
    {
      assert SteadyHost(q.hosts[j], offsets[j], a, b);
      DayIsMonotone(u + offsets[j], t + offsets[j]);
      DayIsMonotone(t + offsets[j], v + offsets[j]);
      NearbyDaysAreLoaded(q.hosts[j].availability, offsets[j], range, t, start);
    }
    assert t in CommonFree(q.(range := range)) <==> FreeForAll(q.(range := range), t);
  }

  lemma SameCommonGrid(q: SlotQuery, offsets: seq<int>, a: Interval, b: Interval, start: int)
    requires ValidEventType(q.eventType) && SteadyHosts(q, offsets, a, b) && q.hosts != []
    requires a.start <= start < a.end && b.start <= start < b.end
    ensures Gridded(CommonFree(q.(range := a)), q.eventType, start)
            <==> Gridded(CommonFree(q.(range := b)), q.eventType, start)
  {
    hide FreeEver, FreeFor, CommonFree, SteadyHosts, NearFor, Gridded;
    var u, v := CommonBreaks(q, offsets, a, b, |q.hosts|, start);
    forall t | u <= t <= v
      ensures t in CommonFree(q.(range := a)) <==> t in CommonFree(q.(range := b))
      ensures t in CommonFree(q.(range := a)) ==>
                forall j :: 0 <= j < |q.hosts| ==> FreeEver(q.hosts[j].availability, t)
    {
      CommonTimeNearby(q, offsets, a, b, a, u, v, t, start);
      CommonTimeNearby(q, offsets, a, b, b, u, v, t, start);
    }
    GriddedIsLocal(CommonFree(q.(range := a)), CommonFree(q.(range := b)), q.eventType, start, u, v);
    GriddedIsLocal(CommonFree(q.(range := b)), CommonFree(q.(range := a)), q.eventType, start, u, v);
  }

  lemma {:induction false} SameOfferingIds(q: SlotQuery, offsets: seq<int>, other: Interval, n: nat, start: int)
    requires ValidEventType(q.eventType) && SteadyHosts(q, offsets, q.range, other) && n <= |q.hosts|
    requires q.range.start <= start < q.range.end && other.start <= start < other.end
    ensures OfferingIds(q, n, start) == OfferingIds(q.(range := other), n, start)
  {
    hide Offers, EveryDayBreaks, ConstantOffset, DatesFor, ValidAvailability;
    if n > 0 {
      SameOfferingIds(q, offsets, other, n - 1, start);
      assert SteadyHost(q.hosts[n - 1], offsets[n - 1], q.range, other);
      OffersDoNotDependOnRange(q, q.hosts[n - 1], offsets[n - 1], other, start);
    }
  }

  /** Listings for two ranges give every start they share to the same hosts. */
  lemma ListingsAgreeOnOverlap(q: SlotQuery, offsets: seq<int>, other: Interval, start: int)
    requires ValidEventType(q.eventType) && SteadyHosts(q, offsets, q.range, other)
    requires q.range.start <= start < q.range.end && other.start <= start < other.end
    ensures EligibleIds(q, start) == EligibleIds(q.(range := other), start)
  {
    hide OfferingIds, SteadyHosts, CommonFree, Gridded;
    if Runs(q) {
      if q.eventType.schedulingType == Collective {
        SameCommonGrid(q, offsets, q.range, other, start);
        assert q.(range := q.range) == q;
      } else {
        SameOfferingIds(q, offsets, other, |q.hosts|, start);
      }
    }
  }
}
