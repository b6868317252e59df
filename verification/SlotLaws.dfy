/**
 * What the filters of the slot engine mean in an event type's own minutes and days, a
 * host's own windows and a host's own bookings (src/core/slots/engine.ts).
 */
module SlotLaws {
  import opened Common
  import opened Intervals
  import opened Zone
  import opened LocalDays
  import opened SlotEngine
  import opened ListingAgreement

  // ---- The schedule ---------------------------------------------------------------------

  /** The override that decides about `date`: the last one for it. */
  ghost predicate Decides(overrides: seq<DateOverride>, date: int, i: int) {
    0 <= i < |overrides| && overrides[i].date == date && forall j :: i < j < |overrides| ==> overrides[j].date != date
  }

  /** `w` is open on `date`: from the deciding override, else from the weekday, 0 being Sunday. */
  ghost predicate OpenWindow(av: Availability, date: int, w: DayWindow) {
    if exists i :: Decides(av.overrides, date, i)
    then exists i :: Decides(av.overrides, date, i) && w in av.overrides[i].windows
    else (date + 4) % 7 < |av.weekly| && w in av.weekly[(date + 4) % 7]
  }

  lemma {:induction false} LastOverrideDecides(overrides: seq<DateOverride>, date: int)
    ensures OverrideFor(overrides, date).None? <==> forall i :: !Decides(overrides, date, i)
    ensures forall i :: Decides(overrides, date, i) ==> OverrideFor(overrides, date) == Some(overrides[i].windows)
  {
    if overrides != [] {
      var n := |overrides| - 1;
      if overrides[n].date == date {
        assert Decides(overrides, date, n);
      } else {
        LastOverrideDecides(overrides[..n], date);
        forall i ensures Decides(overrides, date, i) <==> Decides(overrides[..n], date, i) {
        }
      }
    }
  }

  /** The windows of a date are the open ones. */
  lemma WindowsAreOpen(av: Availability, date: int, w: DayWindow)
    ensures w in DayWindows(av, date) <==> OpenWindow(av, date, w)
  {
    LastOverrideDecides(av.overrides, date);
    if i :| Decides(av.overrides, date, i) {
      assert DayWindows(av, date) == av.overrides[i].windows;
    }
  }

  /** The window of minutes `[from, to)` of local date `date` covers `t`, its ends resolved as wall clocks. */
  ghost predicate CoversByClock(z: int -> int, date: int, w: DayWindow, t: int) {
    && WallClockToInstant(z, date * 86_400_000 + w.startMinute * 60_000) <= t
    && t < WallClockToInstant(z, date * 86_400_000 + w.endMinute * 60_000)
  }

  /** Some open window of some date covers `t`. */
  ghost predicate Scheduled(av: Availability, t: int) {
    exists date, w :: OpenWindow(av, date, w) && CoversByClock(av.zone, date, w, t)
  }

  lemma FreeIsScheduled(av: Availability, t: int)
    requires ValidAvailability(av)
    ensures FreeEver(av, t) <==> Scheduled(av, t)
  {
    hide OpenWindow, DayWindows, WallClockToInstant;
    if FreeEver(av, t) {
      var date :| FreeOn(av, date, t);
      var k :| 0 <= k < |DayWindows(av, date)| && WindowCovers(av.zone, date, DayWindows(av, date)[k], t);
      var w := DayWindows(av, date)[k];
      WindowsAreOpen(av, date, w);
      WindowByClock(av, date, w, t);
    }
    if Scheduled(av, t) {
      var date, w :| OpenWindow(av, date, w) && CoversByClock(av.zone, date, w, t);
      WindowsAreOpen(av, date, w);
      WindowByClock(av, date, w, t);
      var k :| 0 <= k < |DayWindows(av, date)| && DayWindows(av, date)[k] == w;
      assert FreeOn(av, date, t);
    }
  }

  lemma WindowByClock(av: Availability, date: int, w: DayWindow, t: int)
    requires ValidAvailability(av) && w in DayWindows(av, date)
    ensures WindowCovers(av.zone, date, w, t) <==> CoversByClock(av.zone, date, w, t)
  {
    hide WallClockToInstant, DayWindows, LocalTimeToInstant;
    DayWindowsAreValid(av, date);
    LocalTimeTarget(av.zone, date, w.startMinute);
    LocalTimeTarget(av.zone, date, w.endMinute);
  }

  /**
   * In a regular zone: `t` is scheduled exactly when the clock of the zone has reached the
   * start of some open window by `t` and its end not yet.
   */
  lemma ScheduledByReach(av: Availability, t: int)
    requires ValidAvailability(av) && Regular(av.zone)
    ensures Scheduled(av, t) <==>
              exists date, w :: OpenWindow(av, date, w) && ReachedOnly(av.zone, date, w, t)
  {
    hide OpenWindow, WallClockToInstant, Regular;
    forall date, w ensures CoversByClock(av.zone, date, w, t) <==> ReachedOnly(av.zone, date, w, t) {
      OnWholeSecond(date, w.startMinute);
      OnWholeSecond(date, w.endMinute);
      ReachedIffAtOrAfter(av.zone, date * DAY + w.startMinute * MINUTE, t);
      ReachedIffAtOrAfter(av.zone, date * DAY + w.endMinute * MINUTE, t);
    }
  }

  ghost predicate ReachedOnly(z: int -> int, date: int, w: DayWindow, t: int) {
    && Reached(z, date * 86_400_000 + w.startMinute * 60_000, t)
    && !Reached(z, date * 86_400_000 + w.endMinute * 60_000, t)
  }

  // ---- One start ----------------------------------------------------------------------------

  /** When the meeting with its buffers begins and ends. */
  function FootprintStart(et: EventType, start: int): int {
    start - et.bufferBeforeMinutes * 60_000
  }

  function FootprintEnd(et: EventType, start: int): int {
    start + (et.durationMinutes + et.bufferAfterMinutes) * 60_000
  }

  /** Nothing busy touches the meeting or its buffers. */
  ghost predicate NothingBusy(h: HostInput, et: EventType, start: int) {
    forall i :: 0 <= i < |h.busy| ==>
      h.busy[i].end <= FootprintStart(et, start) || FootprintEnd(et, start) <= h.busy[i].start
  }

  /** The notice in minutes and the horizon in days. */
  predicate InNotice(et: EventType, start: int, now: int) {
    now + et.minNoticeMinutes * 60_000 <= start <= now + et.maxHorizonDays * 86_400_000
  }

  /** The day a start counts for, as the host's own clock shows it. */
  function ClockDate(h: HostInput, start: int): int {
    (start + h.availability.zone(start)) / 86_400_000
  }

  /** The number the host's map gives for that day stays below the cap. */
  predicate BelowCap(h: HostInput, et: EventType, start: int) {
    et.maxPerDay.Some? ==>
      if h.bookingsPerLocalDate.Some? && ClockDate(h, start) in h.bookingsPerLocalDate.value
      then h.bookingsPerLocalDate.value[ClockDate(h, start)] < et.maxPerDay.value
      else 0 < et.maxPerDay.value
  }

  lemma FootprintIsRaw(et: EventType, start: int)
    ensures SlotFootprint(et, start) == Interval(FootprintStart(et, start), FootprintEnd(et, start))
  {
  }

  lemma ClearIsNothingBusy(h: HostInput, et: EventType, start: int)
    ensures Clear(h, et, start) <==> NothingBusy(h, et, start)
  {
    FootprintIsRaw(et, start);
  }

  lemma UnderCapIsBelowCap(h: HostInput, et: EventType, start: int)
    ensures UnderCap(h, et, start) <==> BelowCap(h, et, start)
  {
    hide LocalDate;
    LocalDateByOffset(h.availability.zone, start);
  }

  /**
   * What a host can take: a start on the five-minute grid, within notice and horizon, below
   * the cap, with every instant of the meeting and its buffers scheduled and none busy.
   */
  ghost predicate CanTake(h: HostInput, et: EventType, start: int, now: int) {
    && start % 300_000 == 0 && InNotice(et, start, now) && BelowCap(h, et, start)
    && (forall t :: FootprintStart(et, start) <= t < FootprintEnd(et, start) ==> Scheduled(h.availability, t))
    && NothingBusy(h, et, start)
  }

  /** That is what a host accepts at commit time, whatever its zone does. */
  lemma AcceptedIff(h: HostInput, et: EventType, start: int, now: int)
    requires ValidEventType(et) && ValidAvailability(h.availability)
    ensures SlotValid(h, et, start, now) <==> CanTake(h, et, start, now)
  {
    hide FreeFor, FreeEver, Scheduled, Clear, UnderCap, BelowCap, NothingBusy, ValidEventType, ValidAvailability;
    FootprintIsRaw(et, start);
    ClearIsNothingBusy(h, et, start);
    UnderCapIsBelowCap(h, et, start);
    forall t | FootprintStart(et, start) <= t < FootprintEnd(et, start)
      ensures t in FreeFor(h.availability, ProbeRange(et, start)) <==> Scheduled(h.availability, t)
    {
      ProbeSeesWholeSchedule(h, et, start, t);
      FreeIsScheduled(h.availability, t);
    }
  }

  // ---- A listing -------------------------------------------------------------------------------

  /** The grid step in minutes: the interval if there is one, else the duration. */
  function StepMinutes(et: EventType): int {
    if et.slotIntervalMinutes.Some? then et.slotIntervalMinutes.value else et.durationMinutes
  }

  /** `start` is a whole number of steps after the window's first five-minute mark, and fits. */
  ghost predicate OnWindowGrid(w: Interval, et: EventType, start: int) {
    && w.start <= FootprintStart(et, start) && FootprintEnd(et, start) <= w.end
    && exists k: nat :: start == FirstMark(w) + Steps(et, k)
  }

  /** The first five-minute mark of a window. */
  function FirstMark(w: Interval): int {
    (w.start + 299_999) / 300_000 * 300_000
  }

  /** `k` steps in milliseconds. */
  function Steps(et: EventType, k: nat): int {
    if k == 0 then 0 else Steps(et, k - 1) + StepMinutes(et) * 60_000
  }

  lemma {:induction false} GridIsSteps(et: EventType, anchor: int, k: nat)
    ensures GridPoint(anchor, et.Step(), k) == anchor + Steps(et, k)
  {
    if k > 0 {
      GridIsSteps(et, anchor, k - 1);
    }
  }

  /** So many steps are that many times the step. */
  lemma {:induction false} StepsAreMultiples(et: EventType, k: nat)
    ensures Steps(et, k) == k * (StepMinutes(et) * 60_000)
  {
    if k > 0 {
      StepsAreMultiples(et, k - 1);
    }
  }

  lemma CandidateIsOnGrid(w: Interval, et: EventType, start: int)
    ensures Candidate(w, et, start) <==> OnWindowGrid(w, et, start)
  {
    hide GridPoint, Steps;
    assert FirstMark(w) == CeilBucket(w.start);
    if Candidate(w, et, start) {
      var k: nat :| start == GridPoint(CeilBucket(w.start), et.Step(), k);
      GridIsSteps(et, CeilBucket(w.start), k);
    }
    if OnWindowGrid(w, et, start) {
      var k: nat :| start == FirstMark(w) + Steps(et, k);
      GridIsSteps(et, CeilBucket(w.start), k);
    }
  }

  /** Open on a date from the local date a day before the query to that of a day after. */
  ghost predicate ScheduledFor(av: Availability, range: Interval, t: int) {
    exists date, w :: Loads(av, range, date) && OpenWindow(av, date, w) && CoversByClock(av.zone, date, w, t)
  }

  predicate Loads(av: Availability, range: Interval, date: int) {
    var from, to := range.start - 86_400_000, range.end + 86_400_000;
    (from + av.zone(from)) / 86_400_000 <= date <= (to + av.zone(to)) / 86_400_000
  }

  lemma FreeIsScheduledFor(av: Availability, range: Interval, t: int)
    requires ValidAvailability(av) && DatesFor(av, range).Some? && range.start <= range.end
    ensures t in FreeFor(av, range) <==> ScheduledFor(av, range, t)
  {
    hide OpenWindow, DayWindows, WallClockToInstant, LocalDate, DateRun;
    var first, last := LocalDate(av.zone, range.start - DAY), LocalDate(av.zone, range.end + DAY);
    LocalDateByOffset(av.zone, range.start - DAY);
    LocalDateByOffset(av.zone, range.end + DAY);
    DatesRunForward(av.zone, range);
    var dates := DateRun(first, last);
    if t in FreeFor(av, range) {
      var i :| 0 <= i < |dates| && FreeOn(av, dates[i], t);
      DateRunMembers(first, last, dates[i]);
      var k :| 0 <= k < |DayWindows(av, dates[i])|
               && WindowCovers(av.zone, dates[i], DayWindows(av, dates[i])[k], t);
      WindowsAreOpen(av, dates[i], DayWindows(av, dates[i])[k]);
      WindowByClock(av, dates[i], DayWindows(av, dates[i])[k], t);
    }
    if ScheduledFor(av, range, t) {
      var date, w :| Loads(av, range, date) && OpenWindow(av, date, w) && CoversByClock(av.zone, date, w, t);
      DateRunMembers(first, last, date);
      WindowsAreOpen(av, date, w);
      WindowByClock(av, date, w, t);
      var k :| 0 <= k < |DayWindows(av, date)| && DayWindows(av, date)[k] == w;
      assert FreeOn(av, date, t);
      var i :| 0 <= i < |dates| && dates[i] == date;
      assert FreeOn(av, dates[i], t);
    }
  }

  /** Two days apart, no offset makes the later date the earlier one. */
  lemma DatesRunForward(z: int -> int, range: Interval)
    requires IsZone(z) && range.start <= range.end
    ensures LocalDate(z, range.start - DAY) <= LocalDate(z, range.end + DAY)
  {
    hide LocalDate;
    LocalDateByOffset(z, range.start - DAY);
    LocalDateByOffset(z, range.end + DAY);
    assert MIN_OFFSET <= z(range.end + DAY) && z(range.start - DAY) <= MAX_OFFSET;
  }

  /** Scheduled for every host, as far as the query loads. */
  ghost predicate AllScheduledFor(q: SlotQuery, t: int) {
    forall j :: 0 <= j < |q.hosts| ==> ScheduledFor(q.hosts[j].availability, q.range, t)
  }

  /** `w` is a whole stretch of one host's scheduled time. */
  ghost predicate Stretch(av: Availability, range: Interval, w: Interval) {
    && w.start < w.end
    && (forall t :: w.start <= t < w.end ==> ScheduledFor(av, range, t))
    && !ScheduledFor(av, range, w.start - 1) && !ScheduledFor(av, range, w.end)
  }

  /** `w` is a whole stretch of time scheduled for all hosts. */
  ghost predicate CommonStretch(q: SlotQuery, w: Interval) {
    && w.start < w.end
    && (forall t :: w.start <= t < w.end ==> AllScheduledFor(q, t))
    && !AllScheduledFor(q, w.start - 1) && !AllScheduledFor(q, w.end)
  }

  /**
   * What a listing may offer of one host: a start of the query, within notice and horizon,
   * below the cap if the counts were loaded, on the grid of a stretch of scheduled time
   * that holds the meeting and its buffers, with none of them busy.
   */
  ghost predicate CanOffer(q: SlotQuery, h: HostInput, start: int) {
    && q.range.start <= start < q.range.end && InNotice(q.eventType, start, q.now)
    && (h.bookingsPerLocalDate.Some? ==> BelowCap(h, q.eventType, start))
    && NothingBusy(h, q.eventType, start)
    && exists w :: Stretch(h.availability, q.range, w) && OnWindowGrid(w, q.eventType, start)
  }

  lemma OfferedIff(q: SlotQuery, h: HostInput, start: int)
    requires ValidEventType(q.eventType) && ValidAvailability(h.availability) && DatesFor(h.availability, q.range).Some?
    ensures Offers(q, h, start) <==> CanOffer(q, h, start)
  {
    hide FreeFor, ScheduledFor, Clear, UnderCap, BelowCap, NothingBusy, ValidEventType, ValidAvailability, Candidate,
         OnWindowGrid, DatesFor;
    ClearIsNothingBusy(h, q.eventType, start);
    UnderCapIsBelowCap(h, q.eventType, start);
    if q.range.start <= q.range.end {
      forall t ensures t in FreeFor(h.availability, q.range) <==> ScheduledFor(h.availability, q.range, t) {
        FreeIsScheduledFor(h.availability, q.range, t);
      }
      forall w ensures Candidate(w, q.eventType, start) <==> OnWindowGrid(w, q.eventType, start) {
        CandidateIsOnGrid(w, q.eventType, start);
      }
      forall w ensures Maximal(FreeFor(h.availability, q.range), w) <==> Stretch(h.availability, q.range, w) {
      }
    }
  }

  /** What a collective listing may offer: on the grid of common time, every host below its cap and clear. */
  ghost predicate AllCanOffer(q: SlotQuery, start: int) {
    && q.range.start <= start < q.range.end && InNotice(q.eventType, start, q.now)
    && (forall j :: 0 <= j < |q.hosts| ==>
          BelowCap(q.hosts[j], q.eventType, start) && NothingBusy(q.hosts[j], q.eventType, start))
    && exists w :: CommonStretch(q, w) && OnWindowGrid(w, q.eventType, start)
  }

  ghost predicate Loadable(q: SlotQuery) {
    && ValidQuery(q)
    && forall j :: 0 <= j < |q.hosts| ==> DatesFor(q.hosts[j].availability, q.range).Some?
  }

  lemma CommonIsScheduled(q: SlotQuery, t: int)
    requires Loadable(q) && q.range.start <= q.range.end
    ensures t in CommonFree(q) <==> AllScheduledFor(q, t)
  {
    hide FreeFor, ScheduledFor, ValidAvailability, DatesFor, ValidEventType, DistinctHosts;
    forall j | 0 <= j < |q.hosts|
      ensures t in FreeFor(q.hosts[j].availability, q.range) <==> ScheduledFor(q.hosts[j].availability, q.range, t)
    {
      FreeIsScheduledFor(q.hosts[j].availability, q.range, t);
    }
    assert t in CommonFree(q) <==> FreeForAll(q, t);
  }

  lemma AllOfferedIff(q: SlotQuery, start: int)
    requires Loadable(q)
    ensures AllOffer(q, start) <==> AllCanOffer(q, start)
  {
    hide CommonFree, AllScheduledFor, Clear, UnderCap, BelowCap, NothingBusy, Loadable, Candidate, OnWindowGrid;
    forall j | 0 <= j < |q.hosts|
      ensures UnderCap(q.hosts[j], q.eventType, start) <==> BelowCap(q.hosts[j], q.eventType, start)
      ensures Clear(q.hosts[j], q.eventType, start) <==> NothingBusy(q.hosts[j], q.eventType, start)
    {
      ClearIsNothingBusy(q.hosts[j], q.eventType, start);
      UnderCapIsBelowCap(q.hosts[j], q.eventType, start);
    }
    if q.range.start <= q.range.end {
      forall t ensures t in CommonFree(q) <==> AllScheduledFor(q, t) {
        CommonIsScheduled(q, t);
      }
      forall w ensures Candidate(w, q.eventType, start) <==> OnWindowGrid(w, q.eventType, start) {
        CandidateIsOnGrid(w, q.eventType, start);
      }
      forall w ensures Maximal(CommonFree(q), w) <==> CommonStretch(q, w) {
      }
    }
  }

  /**
   * Who a start is listed for: nobody while the event type is inactive; every host of a
   * collective event together or none; of any other event exactly the hosts that can.
   */
  ghost predicate ListedFor(q: SlotQuery, start: int, id: int) {
    && q.eventType.active
    && (exists j :: 0 <= j < |q.hosts| && q.hosts[j].hostUserId == id
          && (q.eventType.schedulingType != Collective ==> CanOffer(q, q.hosts[j], start)))
    && (q.eventType.schedulingType == Collective ==> AllCanOffer(q, start))
  }

  lemma EligibleIff(q: SlotQuery, start: int, id: int)
    requires Loadable(q)
    ensures id in EligibleIds(q, start) <==> ListedFor(q, start, id)
  {
    hide Offers, AllOffer, CanOffer, AllCanOffer, DatesFor, ValidAvailability;
    AllOfferedIff(q, start);
    OfferingIdsAreEarlier(q, |q.hosts|, start);
    forall j | 0 <= j < |q.hosts| ensures Offers(q, q.hosts[j], start) <==> CanOffer(q, q.hosts[j], start) {
      OfferedIff(q, q.hosts[j], start);
    }
    if id in HostIds(q.hosts) {
      var j :| 0 <= j < |HostIds(q.hosts)| && HostIds(q.hosts)[j] == id;
      assert q.hosts[j].hostUserId == id;
    }
    forall j | 0 <= j < |q.hosts| ensures q.hosts[j].hostUserId in HostIds(q.hosts) {
      assert HostIds(q.hosts)[j] == q.hosts[j].hostUserId;
    }
  }

  predicate IsHost(q: SlotQuery, i: int, id: int) {
    0 <= i < |q.hosts| && q.hosts[i].hostUserId == id
  }

  /** The ids come in the order of the query's hosts, none twice. */
  ghost predicate InQueryOrder(q: SlotQuery, ids: seq<int>) {
    forall a, b, i, j :: 0 <= a < b < |ids| && IsHost(q, i, ids[a]) && IsHost(q, j, ids[b]) ==> i < j
  }

  lemma {:induction false} OfferingInOrder(q: SlotQuery, n: nat, start: int)
    requires DistinctHosts(q.hosts) && n <= |q.hosts|
    ensures InQueryOrder(q, OfferingIds(q, n, start))
  {
    hide Offers;
    if n > 0 {
      OfferingInOrder(q, n - 1, start);
      OfferingIdsAreEarlier(q, n - 1, start);
      var before, ids := OfferingIds(q, n - 1, start), OfferingIds(q, n, start);
      forall a, b, i, j | 0 <= a < b < |ids| && IsHost(q, i, ids[a]) && IsHost(q, j, ids[b]) ensures i < j {
        assert before[a] == ids[a] && ids[a] in before;
        if b == |before| {
          assert j == n - 1;
        } else {
          assert before[b] == ids[b];
        }
      }
    }
  }

  /**
   * A listing, slot by slot: starts in order, each once, ends after the event type's
   * minutes, hosts in query order, and a host in a slot exactly when the start is listed
   * for it, so nothing is left out and nothing made up.
   */
  lemma ListingMeans(q: SlotQuery, slots: seq<Slot>)
    requires Loadable(q) && IsListing(q, slots)
    ensures forall i, j :: 0 <= i < j < |slots| ==> slots[i].start < slots[j].start
    ensures forall i :: 0 <= i < |slots| ==>
              && slots[i].end == slots[i].start + q.eventType.durationMinutes * 60_000
              && slots[i].eligibleHostIds != [] && InQueryOrder(q, slots[i].eligibleHostIds)
              && forall id :: id in slots[i].eligibleHostIds <==> ListedFor(q, slots[i].start, id)
    ensures forall start, id :: ListedFor(q, start, id) ==> exists i :: 0 <= i < |slots| && slots[i].start == start
  {
    hide Loadable, ListedFor, EligibleIds;
    forall i | 0 <= i < |slots|
      ensures InQueryOrder(q, slots[i].eligibleHostIds)
      ensures forall id :: id in slots[i].eligibleHostIds <==> ListedFor(q, slots[i].start, id)
    {
      EligibleInOrder(q, slots[i].start);
      forall id ensures id in slots[i].eligibleHostIds <==> ListedFor(q, slots[i].start, id) {
        EligibleIff(q, slots[i].start, id);
      }
    }
    forall start, id | ListedFor(q, start, id) ensures exists i :: 0 <= i < |slots| && slots[i].start == start {
      EligibleIff(q, start, id);
      var slot := Slot(start, start + q.eventType.Duration(), EligibleIds(q, start));
      assert slot in slots;
      var i :| 0 <= i < |slots| && slots[i] == slot;
      assert slots[i].start == start;
    }
  }

  lemma EligibleInOrder(q: SlotQuery, start: int)
    requires Loadable(q)
    ensures InQueryOrder(q, EligibleIds(q, start))
  {
    hide Offers, AllOffer, DatesFor, ValidAvailability;
    OfferingInOrder(q, |q.hosts|, start);
  }
}
