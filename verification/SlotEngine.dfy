/**
 * The slot engine (src/core/slots/engine.ts): which starts are offered, and the
 * re-validation of one start at booking time.
 */
module SlotEngine {
  import opened Common
  import opened Intervals
  import opened Zone
  import opened LocalDays

  datatype DayWindow = DayWindow(startMinute: int, endMinute: int)

  datatype DateOverride = DateOverride(date: int, windows: seq<DayWindow>)

  datatype Availability = Availability(
    zone: int -> int,
    weekly: seq<seq<DayWindow>>,
    overrides: seq<DateOverride>)

  datatype SchedulingType = Personal | RoundRobin | Collective

  datatype EventType = EventType(
    id: int,
    ownerTeamId: Option<int>,
    schedulingType: SchedulingType,
    durationMinutes: int,
    slotIntervalMinutes: Option<int>,
    bufferBeforeMinutes: int,
    bufferAfterMinutes: int,
    minNoticeMinutes: int,
    maxHorizonDays: int,
    maxPerDay: Option<int>,
    active: bool)
  {
    function Duration(): int { durationMinutes * MINUTE }
    function Step(): int { (if slotIntervalMinutes.Some? then slotIntervalMinutes.value else durationMinutes) * MINUTE }
    function Before(): int { bufferBeforeMinutes * MINUTE }
    function After(): int { bufferAfterMinutes * MINUTE }
    function Earliest(now: int): int { now + minNoticeMinutes * MINUTE }
    function Latest(now: int): int { now + maxHorizonDays * DAY }
  }

  datatype HostInput = HostInput(
    hostUserId: int,
    availability: Availability,
    busy: seq<Interval>,
    bookingsPerLocalDate: Option<map<int, int>>)

  datatype SlotQuery = SlotQuery(eventType: EventType, hosts: seq<HostInput>, range: Interval, now: int)

  datatype Slot = Slot(start: int, end: int, eligibleHostIds: seq<int>)

  // ---- What the request validators guarantee (src/http/api/rest.ts) ---------------

  predicate FiveMinuteField(value: int, lo: int, hi: int) {
    lo <= value <= hi && value % 5 == 0
  }

  predicate ValidEventType(et: EventType) {
    && FiveMinuteField(et.durationMinutes, 5, 1440)
    && (et.slotIntervalMinutes.Some? ==> FiveMinuteField(et.slotIntervalMinutes.value, 5, 1440))
    && FiveMinuteField(et.bufferBeforeMinutes, 0, 720)
    && FiveMinuteField(et.bufferAfterMinutes, 0, 720)
    && 0 <= et.minNoticeMinutes
    && 1 <= et.maxHorizonDays
    && (et.maxPerDay.Some? ==> 1 <= et.maxPerDay.value)
  }

  predicate ValidWindow(w: DayWindow) {
    FiveMinuteField(w.startMinute, 0, 1440) && FiveMinuteField(w.endMinute, 0, 1440) && w.startMinute < w.endMinute
  }

  ghost predicate ValidAvailability(av: Availability) {
    && IsZone(av.zone)
    && (forall i, k :: 0 <= i < |av.weekly| && 0 <= k < |av.weekly[i]| ==> ValidWindow(av.weekly[i][k]))
    && (forall i, k :: 0 <= i < |av.overrides| && 0 <= k < |av.overrides[i].windows| ==>
          ValidWindow(av.overrides[i].windows[k]))
  }

  ghost predicate DistinctHosts(hosts: seq<HostInput>) {
    forall i, j :: 0 <= i < j < |hosts| ==> hosts[i].hostUserId != hosts[j].hostUserId
  }

  // ---- Availability windows ----------------------------------------------------------

  /** 1970-01-01, day number 0, was a Thursday; 0 is Sunday. */
  function DayOfWeek(date: int): int {
    (date + 4) % 7
  }

  /** The last override of a date wins, as when the list is loaded into a `Map`. */
  function OverrideFor(overrides: seq<DateOverride>, date: int): Option<seq<DayWindow>> {
    if overrides == [] then None
    else
      var last := overrides[|overrides| - 1];
      if last.date == date then Some(last.windows)
      else OverrideFor(overrides[..|overrides| - 1], date)
  }

  /** An override replaces the whole day, including with none. */
  function DayWindows(av: Availability, date: int): seq<DayWindow> {
    match OverrideFor(av.overrides, date)
    case Some(windows) => windows
    case None => if DayOfWeek(date) < |av.weekly| then av.weekly[DayOfWeek(date)] else []
  }

  lemma {:induction false} OverrideIsListed(overrides: seq<DateOverride>, date: int)
    ensures OverrideFor(overrides, date).Some? ==>
              exists i :: 0 <= i < |overrides| && overrides[i].windows == OverrideFor(overrides, date).value
  {
    if overrides != [] {
      var n := |overrides| - 1;
      if overrides[n].date != date {
        OverrideIsListed(overrides[..n], date);
        if OverrideFor(overrides[..n], date).Some? {
          var i :| 0 <= i < n && overrides[..n][i].windows == OverrideFor(overrides, date).value;
          assert overrides[i].windows == OverrideFor(overrides, date).value;
        }
      }
    }
  }

  lemma DayWindowsAreValid(av: Availability, date: int)
    requires ValidAvailability(av)
    ensures forall k :: 0 <= k < |DayWindows(av, date)| ==> ValidWindow(DayWindows(av, date)[k])
  {
    OverrideIsListed(av.overrides, date);
  }

  function WindowInstants(z: int -> int, date: int, w: DayWindow): Interval {
    Interval(LocalTimeToInstant(z, date, w.startMinute), LocalTimeToInstant(z, date, w.endMinute))
  }

  ghost predicate WindowCovers(z: int -> int, date: int, w: DayWindow, t: int) {
    && w.startMinute < w.endMinute
    && WindowInstants(z, date, w).start <= t < WindowInstants(z, date, w).end
  }

  /** Some window of local date `date` covers `t`. */
  ghost predicate FreeOn(av: Availability, date: int, t: int) {
    exists k :: 0 <= k < |DayWindows(av, date)| && WindowCovers(av.zone, date, DayWindows(av, date)[k], t)
  }

  ghost predicate FreeOnAny(av: Availability, dates: seq<int>, t: int) {
    exists i :: 0 <= i < |dates| && FreeOn(av, dates[i], t)
  }

  /** The dates read for a query range: a day wider on each side. */
  function DatesFor(av: Availability, range: Interval): Option<seq<int>> {
    LocalDates(av.zone, range.start - DAY, range.end + DAY)
  }

  /** The schedule's free time as seen from a query range. */
  ghost function FreeFor(av: Availability, range: Interval): iset<int> {
    match DatesFor(av, range)
    case None => iset{}
    case Some(dates) => iset t | FreeOnAny(av, dates, t)
  }

  /** The windows of one date that the transitions of that date leave non-empty. */
  method WindowsOfDate(av: Availability, date: int) returns (out: seq<Interval>)
    ensures Proper(out)
    ensures forall t :: t in Points(out) <==> FreeOn(av, date, t)
  {
    hide LocalTimeToInstant, DayWindows;
    var dayWindows := DayWindows(av, date);
    out := [];
    for k := 0 to |dayWindows|
      invariant Proper(out)
      invariant forall t :: t in Points(out) <==>
                  exists j :: 0 <= j < k && WindowCovers(av.zone, date, dayWindows[j], t)
    {
      var w := dayWindows[k];
      if w.endMinute > w.startMinute {
        var x := WindowInstants(av.zone, date, w);
        if x.end > x.start {
          PointsOfAppend(out, [x]);
          PointsOfOne(x);
          out := out + [x];
        }
      }
    }
  }

  /** `freeIntervalsForHost`; `None` when the range spans too many dates. */
  method FreeIntervalsForHost(av: Availability, range: Interval) returns (r: Option<seq<Interval>>)
    ensures r.None? <==> DatesFor(av, range).None?
    ensures r.Some? ==> Normal(r.value) && Points(r.value) == FreeFor(av, range)
  {
    var found := LocalDatesBetween(av.zone, range.start - DAY, range.end + DAY);
    if found.None? {
      return None;
    }
    var windows := WindowsOfDates(av, found.value);
    var merged := MergeIntervals(windows);
    return Some(merged);
  }

  method WindowsOfDates(av: Availability, dates: seq<int>) returns (windows: seq<Interval>)
    ensures Proper(windows)
    ensures forall t :: t in Points(windows) <==> FreeOnAny(av, dates, t)
  {
    hide FreeOn, FreeOnAny;
    windows := [];
    NoDatesNoTime(av);
    for i := 0 to |dates|
      invariant Proper(windows)
      invariant forall t :: t in Points(windows) <==> FreeOnAny(av, dates[..i], t)
    {
      var day := WindowsOfDate(av, dates[i]);
      PointsOfAppend(windows, day);
      FreeOnOneMore(av, dates, i);
      windows := windows + day;
    }
    assert dates[..|dates|] == dates;
  }

  lemma NoDatesNoTime(av: Availability)
    ensures forall t :: !FreeOnAny(av, [], t)
  {
  }

  lemma FreeOnOneMore(av: Availability, dates: seq<int>, i: nat)
    requires i < |dates|
    ensures forall t :: FreeOnAny(av, dates[..i + 1], t) <==> FreeOnAny(av, dates[..i], t) || FreeOn(av, dates[i], t)
  {
    assert dates[..i + 1] == dates[..i] + [dates[i]];
    forall t ensures FreeOnAny(av, dates[..i + 1], t) <==> FreeOnAny(av, dates[..i], t) || FreeOn(av, dates[i], t) {
      if FreeOnAny(av, dates[..i], t) {
        var k :| 0 <= k < i && FreeOn(av, dates[..i][k], t);
        assert dates[..i + 1][k] == dates[..i][k];
      }
      if FreeOn(av, dates[i], t) {
        assert dates[..i + 1][i] == dates[i];
      }
    }
  }

  // ---- Candidate starts ----------------------------------------------------------------

  /** The `k`-th point of the grid: the anchor moved on by `k` steps. */
  function GridPoint(anchor: int, step: int, k: nat): int {
    if k == 0 then anchor else GridPoint(anchor, step, k - 1) + step
  }

  lemma {:induction false} GridIsIncreasing(anchor: int, step: int, j: nat, k: nat)
    requires 0 < step && j < k
    ensures GridPoint(anchor, step, j) + step <= GridPoint(anchor, step, k)
  {
    if j < k - 1 {
      GridIsIncreasing(anchor, step, j, k - 1);
    }
  }

  lemma {:induction false} GridPointOnGrid(anchor: int, step: int, k: nat)
    requires OnGrid(anchor) && OnGrid(step)
    ensures OnGrid(GridPoint(anchor, step, k))
  {
    if k > 0 {
      GridPointOnGrid(anchor, step, k - 1);
    }
  }

  /** The footprint of `start`, buffers included, lies inside the window. */
  predicate FitsWindow(w: Interval, et: EventType, start: int) {
    w.start <= start - et.Before() && start + et.Duration() + et.After() <= w.end
  }

  /** `start` is on the grid anchored at the window's own start, and its footprint fits. */
  ghost predicate Candidate(w: Interval, et: EventType, start: int) {
    && FitsWindow(w, et, start)
    && exists k: nat :: start == GridPoint(CeilBucket(w.start), et.Step(), k)
  }

  /** `candidatesInWindow` */
  method CandidatesInWindow(w: Interval, et: EventType) returns (out: seq<int>)
    ensures StrictlySorted(out)
    ensures forall s :: s in out <==> 0 < et.Step() && Candidate(w, et, s)
  {
    out := [];
    var step := et.Step();
    if step <= 0 {
      return;
    }
    var anchor := CeilBucket(w.start);
    var start := anchor;
    ghost var n := 0;
    NoneBeforeAnchor(w, et);
    while start + et.Duration() + et.After() <= w.end
      invariant 0 <= n && start == GridPoint(anchor, step, n)
      invariant StrictlySorted(out) && forall i :: 0 <= i < |out| ==> out[i] < start
      invariant forall s :: s in out <==> s < start && Candidate(w, et, s)
      decreases w.end - (start + et.Duration() + et.After())
    {
      NextGridPoint(w, et, start, n);
      if start - et.Before() >= w.start {
        out := out + [start];
      }
      start := start + step;
      n := n + 1;
    }
  }

  lemma NoneBeforeAnchor(w: Interval, et: EventType)
    requires 0 < et.Step()
    ensures forall s :: Candidate(w, et, s) ==> CeilBucket(w.start) <= s
  {
    forall s | Candidate(w, et, s) ensures CeilBucket(w.start) <= s {
      var k: nat :| s == GridPoint(CeilBucket(w.start), et.Step(), k);
      if k > 0 { GridIsIncreasing(CeilBucket(w.start), et.Step(), 0, k); }
    }
  }

  /** Between consecutive grid points there is no candidate. */
  lemma NextGridPoint(w: Interval, et: EventType, start: int, n: nat)
    requires 0 < et.Step() && start == GridPoint(CeilBucket(w.start), et.Step(), n)
    ensures start + et.Step() == GridPoint(CeilBucket(w.start), et.Step(), n + 1)
    ensures forall s :: start <= s < start + et.Step() && Candidate(w, et, s) ==> s == start
    ensures Candidate(w, et, start) <==> FitsWindow(w, et, start)
  {
    hide FitsWindow, CeilBucket;
    var anchor, step := CeilBucket(w.start), et.Step();
    forall s | start <= s < start + step && Candidate(w, et, s) ensures s == start {
      var k: nat :| s == GridPoint(anchor, step, k);
      if k < n { GridIsIncreasing(anchor, step, k, n); }
      if n < k { GridIsIncreasing(anchor, step, n, k); }
    }
  }

  lemma CandidateOnGrid(w: Interval, et: EventType, start: int)
    requires ValidEventType(et) && Candidate(w, et, start)
    ensures OnGrid(start)
  {
    hide GridPoint, CeilBucket, FitsWindow;
    var k: nat :| start == GridPoint(CeilBucket(w.start), et.Step(), k);
    StepOnGrid(et);
    GridPointOnGrid(CeilBucket(w.start), et.Step(), k);
  }

  lemma StepOnGrid(et: EventType)
    requires ValidEventType(et)
    ensures OnGrid(et.Step())
  {
  }

  // ---- Filters ------------------------------------------------------------------------------

  /** The meeting plus its buffers: the single definition listing and commit share. */
  function BookingFootprint(start: int, end: int, et: EventType): Interval {
    Interval(start - et.Before(), end + et.After())
  }

  function SlotFootprint(et: EventType, start: int): Interval {
    BookingFootprint(start, start + et.Duration(), et)
  }

  function UsedOn(h: HostInput, start: int): int {
    var date := LocalDate(h.availability.zone, start);
    if h.bookingsPerLocalDate.Some? && date in h.bookingsPerLocalDate.value
    then h.bookingsPerLocalDate.value[date] else 0
  }

  predicate UnderCap(h: HostInput, et: EventType, start: int) {
    et.maxPerDay.Some? ==> UsedOn(h, start) < et.maxPerDay.value
  }

  predicate InPolicy(q: SlotQuery, start: int) {
    && q.range.start <= start < q.range.end
    && q.eventType.Earliest(q.now) <= start <= q.eventType.Latest(q.now)
  }

  ghost predicate Clear(h: HostInput, et: EventType, start: int) {
    !HitsAny(SlotFootprint(et, start), h.busy)
  }

  // ---- isSlotStillValid -----------------------------------------------------------------------

  function ProbeRange(et: EventType, start: int): Interval {
    var f := SlotFootprint(et, start);
    Interval(f.start - DAY, f.end + DAY)
  }

  ghost predicate FootprintFree(h: HostInput, et: EventType, start: int) {
    var f := SlotFootprint(et, start);
    forall t :: f.start <= t < f.end ==> t in FreeFor(h.availability, ProbeRange(et, start))
  }

  /** What the commit-time check accepts. */
  ghost predicate SlotValid(h: HostInput, et: EventType, start: int, now: int) {
    && OnGrid(start)
    && et.Earliest(now) <= start <= et.Latest(now)
    && UnderCap(h, et, start)
    && FootprintFree(h, et, start)
    && Clear(h, et, start)
  }

  lemma ProbeDatesExist(h: HostInput, et: EventType, start: int)
    requires ValidEventType(et) && IsZone(h.availability.zone)
    ensures DatesFor(h.availability, ProbeRange(et, start)).Some?
  {
    var z, p := h.availability.zone, ProbeRange(et, start);
    LocalDateByOffset(z, p.start - DAY);
    LocalDateByOffset(z, p.end + DAY);
    assert MIN_OFFSET <= z(p.start - DAY) && z(p.end + DAY) <= MAX_OFFSET;
  }

  method IsSlotStillValid(h: HostInput, et: EventType, start: int, now: int) returns (r: bool)
    requires ValidEventType(et) && IsZone(h.availability.zone)
    ensures r <==> SlotValid(h, et, start, now)
  {
    hide FreeFor, DatesFor, UsedOn, Normal;
    if start % BUCKET != 0 {
      return false;
    }
    var footprint := BookingFootprint(start, start + et.Duration(), et);
    if start < et.Earliest(now) || start > et.Latest(now) {
      return false;
    }
    if et.maxPerDay.Some? && UsedOn(h, start) >= et.maxPerDay.value {
      return false;
    }
    ProbeDatesExist(h, et, start);
    var free := FreeIntervalsForHost(h.availability, Interval(footprint.start - DAY, footprint.end + DAY));
    var inside := SomeContains(free.value, footprint);
    if !inside {
      return false;
    }
    var busy := OverlapsAny(footprint, h.busy);
    return !busy;
  }

  /** `free.some(contains)`: for windows in normal form, every instant of `x` is covered. */
  method SomeContains(free: seq<Interval>, x: Interval) returns (r: bool)
    requires Normal(free) && x.start < x.end
    ensures r <==> forall t :: x.start <= t < x.end ==> t in Points(free)
  {
    r := false;
    for i := 0 to |free|
      invariant r <==> exists j :: 0 <= j < i && free[j].start <= x.start && x.end <= free[j].end
    {
      if x.start >= free[i].start && x.end <= free[i].end {
        r := true;
      }
    }
    if forall t :: x.start <= t < x.end ==> t in Points(free) {
      RunInsideOneWindow(free, x);
    }
  }

  // ---- computeSlots: personal and round-robin ---------------------------------------------------

  /** Listing skips the cap for a host whose counts were not loaded. */
  predicate ListingCap(h: HostInput, et: EventType, start: int) {
    h.bookingsPerLocalDate.Some? ==> UnderCap(h, et, start)
  }

  /** `w` is one of the windows of the point set `free`, and `start` is gridded inside it. */
  ghost predicate Gridded(free: iset<int>, et: EventType, start: int) {
    exists w :: Maximal(free, w) && Candidate(w, et, start)
  }

  /** Host `h` can take `start` in this listing. */
  ghost predicate Offers(q: SlotQuery, h: HostInput, start: int) {
    && Gridded(FreeFor(h.availability, q.range), q.eventType, start)
    && InPolicy(q, start)
    && ListingCap(h, q.eventType, start)
    && Clear(h, q.eventType, start)
  }

  /** The first `n` hosts that can take `start`, in query order. */
  ghost function OfferingIds(q: SlotQuery, n: nat, start: int): seq<int>
    requires n <= |q.hosts|
  {
    if n == 0 then []
    else OfferingIds(q, n - 1, start)
         + if Offers(q, q.hosts[n - 1], start) then [q.hosts[n - 1].hostUserId] else []
  }

  /** Keeping the candidates of one window that pass every filter for one host. */
  method FilterForHost(q: SlotQuery, h: HostInput, candidates: seq<int>) returns (out: seq<int>)
    requires StrictlySorted(candidates)
    ensures StrictlySorted(out)
    ensures forall s :: s in out <==> s in candidates && Passes(q, h, s)
  {
    out := [];
    for i := 0 to |candidates|
      invariant StrictlySorted(out)
      invariant forall k :: 0 <= k < |out| ==> exists j :: 0 <= j < i && out[k] == candidates[j]
      invariant forall s :: s in out <==> s in candidates[..i] && Passes(q, h, s)
    {
      var start := candidates[i];
      assert candidates[..i + 1] == candidates[..i] + [start];
      if start < q.range.start || start >= q.range.end {
        continue;
      }
      if start < q.eventType.Earliest(q.now) || start > q.eventType.Latest(q.now) {
        continue;
      }
      if q.eventType.maxPerDay.Some? && h.bookingsPerLocalDate.Some?
         && UsedOn(h, start) >= q.eventType.maxPerDay.value {
        continue;
      }
      var busy := OverlapsAny(SlotFootprint(q.eventType, start), h.busy);
      if busy {
        continue;
      }
      out := out + [start];
    }
    assert candidates[..|candidates|] == candidates;
  }

  ghost predicate Passes(q: SlotQuery, h: HostInput, start: int) {
    InPolicy(q, start) && ListingCap(h, q.eventType, start) && Clear(h, q.eventType, start)
  }

  /** The starts one host offers, window by window. */
  method StartsForHost(q: SlotQuery, h: HostInput, windows: seq<Interval>) returns (out: seq<int>)
    requires 0 < q.eventType.Duration() && 0 < q.eventType.Step()
    requires 0 <= q.eventType.Before() && 0 <= q.eventType.After()
    requires Normal(windows) && Points(windows) == FreeFor(h.availability, q.range)
    ensures StrictlySorted(out)
    ensures forall s :: s in out <==> Offers(q, h, s)
  {
    out := [];
    for i := 0 to |windows|
      invariant StrictlySorted(out)
      invariant forall k :: 0 <= k < |out| && i < |windows| ==> out[k] < windows[i].start
      invariant forall s :: s in out <==> Passes(q, h, s) && InSomeWindow(windows[..i], q.eventType, s)
    {
      var w := windows[i];
      var candidates := CandidatesInWindow(w, q.eventType);
      var kept := FilterForHost(q, h, candidates);
      InOneMoreWindow(windows, q.eventType, i);
      forall k | 0 <= k < |kept| ensures w.start <= kept[k] < w.end {
        assert kept[k] in kept && kept[k] in candidates;
      }
      out := out + kept;
    }
    assert windows[..|windows|] == windows;
    forall s ensures InSomeWindow(windows, q.eventType, s)
                     <==> Gridded(FreeFor(h.availability, q.range), q.eventType, s)
    {
      GriddedInNormalForm(windows, q.eventType, s);
    }
  }

  ghost predicate InSomeWindow(windows: seq<Interval>, et: EventType, start: int) {
    exists i :: 0 <= i < |windows| && Candidate(windows[i], et, start)
  }

  lemma InOneMoreWindow(windows: seq<Interval>, et: EventType, i: nat)
    requires i < |windows|
    ensures forall s :: InSomeWindow(windows[..i + 1], et, s)
                        <==> InSomeWindow(windows[..i], et, s) || Candidate(windows[i], et, s)
  {
    forall s ensures InSomeWindow(windows[..i + 1], et, s)
                     <==> InSomeWindow(windows[..i], et, s) || Candidate(windows[i], et, s)
    {
      if InSomeWindow(windows[..i], et, s) {
        var k :| 0 <= k < i && Candidate(windows[..i][k], et, s);
        assert windows[..i + 1][k] == windows[..i][k];
      }
      if Candidate(windows[i], et, s) { assert windows[..i + 1][i] == windows[i]; }
      if InSomeWindow(windows[..i + 1], et, s) {
        var k :| 0 <= k < i + 1 && Candidate(windows[..i + 1][k], et, s);
        assert k < i ==> windows[..i][k] == windows[..i + 1][k];
      }
    }
  }

  /** Being gridded in the windows of a normal form depends only on what it denotes. */
  lemma GriddedInNormalForm(windows: seq<Interval>, et: EventType, start: int)
    requires Normal(windows)
    ensures InSomeWindow(windows, et, start) <==> Gridded(Points(windows), et, start)
  {
    if InSomeWindow(windows, et, start) {
      var i :| 0 <= i < |windows| && Candidate(windows[i], et, start);
      MembersAreMaximal(windows, windows[i]);
    }
    if Gridded(Points(windows), et, start) {
      var w :| Maximal(Points(windows), w) && Candidate(w, et, start);
      MembersAreMaximal(windows, w);
    }
  }

  /** Starts in insertion order, as a `Map` keeps them. */
  ghost predicate KeysOf(order: seq<int>, byStart: map<int, Slot>) {
    && (forall s :: s in order <==> s in byStart)
    && (forall i, j :: 0 <= i < j < |order| ==> order[i] != order[j])
  }

  /** Recording one more host's starts in the `byStart` map. */
  method AddHost(order: seq<int>, byStart: map<int, Slot>, starts: seq<int>, id: int, duration: int)
    returns (order': seq<int>, byStart': map<int, Slot>)
    requires KeysOf(order, byStart) && StrictlySorted(starts)
    requires forall s :: s in byStart ==> byStart[s].start == s && byStart[s].end == s + duration
    requires forall s :: s in byStart ==> id !in byStart[s].eligibleHostIds
    ensures KeysOf(order', byStart')
    ensures forall s :: s in byStart' <==> s in byStart || s in starts
    ensures forall s :: s in byStart' ==> byStart'[s] == WithHost(byStart, s, starts, id, duration)
  {
    order', byStart' := order, byStart;
    for i := 0 to |starts|
      invariant KeysOf(order', byStart')
      invariant forall s :: s in byStart' <==> s in byStart || s in starts[..i]
      invariant forall s :: s in byStart' ==> byStart'[s] == WithHost(byStart, s, starts[..i], id, duration)
    {
      var start := starts[i];
      assert starts[..i + 1] == starts[..i] + [start];
      assert start !in starts[..i];
      if start in byStart' {
        var existing := byStart'[start];
        if id !in existing.eligibleHostIds {
          byStart' := byStart'[start := existing.(eligibleHostIds := existing.eligibleHostIds + [id])];
        }
      } else {
        order' := order' + [start];
        byStart' := byStart'[start := Slot(start, start + duration, [id])];
      }
    }
    assert starts[..|starts|] == starts;
  }

  ghost function WithHost(byStart: map<int, Slot>, s: int, starts: seq<int>, id: int, duration: int): Slot {
    var ids := if s in byStart then byStart[s].eligibleHostIds else [];
    Slot(s, s + duration, if s in starts then ids + [id] else ids)
  }

  method SortedStarts(order: seq<int>) returns (starts: seq<int>)
    requires forall i, j :: 0 <= i < j < |order| ==> order[i] != order[j]
    ensures StrictlySorted(starts)
    ensures forall s :: s in starts <==> s in order
  {
    SortedOnce(order);
    return SortInts(order);
  }

  /** `Array.from(map.values()).sort(by start)` */
  method SortedSlots(order: seq<int>, byStart: map<int, Slot>) returns (slots: seq<Slot>)
    requires KeysOf(order, byStart)
    requires forall s :: s in byStart ==> byStart[s].start == s
    ensures SortedByStart(slots)
    ensures forall slot :: slot in slots <==> slot.start in byStart && slot == byStart[slot.start]
  {
    var starts := SortedStarts(order);
    slots := [];
    for i := 0 to |starts|
      invariant |slots| == i
      invariant forall j :: 0 <= j < i ==> starts[j] in byStart && slots[j] == byStart[starts[j]]
    {
      assert starts[i] in starts;
      slots := slots + [byStart[starts[i]]];
    }
    forall slot: Slot | slot in slots ensures slot.start in byStart && slot == byStart[slot.start] {
      var i :| 0 <= i < |starts| && slots[i] == slot;
    }
    forall slot: Slot | slot.start in byStart && slot == byStart[slot.start] ensures slot in slots {
      assert slot.start in starts;
      var i :| 0 <= i < |starts| && starts[i] == slot.start;
      assert slots[i] == slot;
    }
  }

  ghost predicate SortedByStart(slots: seq<Slot>) {
    forall i, j :: 0 <= i < j < |slots| ==> slots[i].start < slots[j].start
  }

  lemma SortedOnce(order: seq<int>)
    requires forall i, j :: 0 <= i < j < |order| ==> order[i] != order[j]
    ensures StrictlySorted(SortInts(order))
    ensures forall s :: s in SortInts(order) <==> s in order
  {
    hide SortInts;
    var sorted := SortInts(order);
    SameElements(order, sorted);
    forall i, j | 0 <= i < j < |sorted| ensures sorted[i] < sorted[j] {
      if sorted[i] == sorted[j] {
        TwiceInMultiset(sorted, i, j);
        OnceInMultiset(order, sorted[i]);
      }
    }
  }

  lemma TwiceInMultiset(s: seq<int>, i: nat, j: nat)
    requires i < j < |s| && s[i] == s[j]
    ensures multiset(s)[s[i]] >= 2
  {
    assert s == s[..i] + [s[i]] + s[i + 1..j] + [s[j]] + s[j + 1..];
  }

  lemma {:induction false} OnceInMultiset(s: seq<int>, x: int)
    requires forall i, j :: 0 <= i < j < |s| ==> s[i] != s[j]
    ensures multiset(s)[x] <= 1
  {
    if s != [] {
      assert s == [s[0]] + s[1..];
      OnceInMultiset(s[1..], x);
      assert s[0] !in s[1..];
    }
  }

  lemma {:induction false} OfferingIdsAreEarlier(q: SlotQuery, n: nat, start: int)
    requires n <= |q.hosts|
    ensures forall id :: id in OfferingIds(q, n, start) <==>
              exists j :: 0 <= j < n && q.hosts[j].hostUserId == id && Offers(q, q.hosts[j], start)
  {
    hide Offers;
    if n > 0 {
      OfferingIdsAreEarlier(q, n - 1, start);
    }
  }

  // ---- computeSlots: collective ------------------------------------------------------------------

  ghost predicate FreeForAll(q: SlotQuery, t: int) {
    forall j :: 0 <= j < |q.hosts| ==> t in FreeFor(q.hosts[j].availability, q.range)
  }

  /** The time every host's schedule leaves free. */
  ghost function CommonFree(q: SlotQuery): iset<int> {
    iset t | FreeForAll(q, t)
  }

  /** Every host can take `start`, on the grid of their common windows. */
  ghost predicate AllOffer(q: SlotQuery, start: int) {
    && Gridded(CommonFree(q), q.eventType, start)
    && InPolicy(q, start)
    && forall j :: 0 <= j < |q.hosts| ==>
         UnderCap(q.hosts[j], q.eventType, start) && Clear(q.hosts[j], q.eventType, start)
  }

  // ---- computeSlots ----------------------------------------------------------------------------------

  predicate Runs(q: SlotQuery) {
    q.eventType.active && q.hosts != [] && 0 < q.eventType.Duration() && 0 < q.eventType.Step()
  }

  function HostIds(hosts: seq<HostInput>): seq<int> {
    seq(|hosts|, i requires 0 <= i < |hosts| => hosts[i].hostUserId)
  }

  /** The hosts a start is offered for; none means it is not offered. */
  ghost function EligibleIds(q: SlotQuery, start: int): seq<int> {
    if !Runs(q) then []
    else if q.eventType.schedulingType == Collective then
      if AllOffer(q, start) then HostIds(q.hosts) else []
    else OfferingIds(q, |q.hosts|, start)
  }

  /** The complete listing: every offered start once, in order, with its hosts. */
  ghost predicate IsListing(q: SlotQuery, slots: seq<Slot>) {
    && SortedByStart(slots)
    && (forall i :: 0 <= i < |slots| ==>
          && EligibleIds(q, slots[i].start) != []
          && slots[i] == Slot(slots[i].start, slots[i].start + q.eventType.Duration(), EligibleIds(q, slots[i].start)))
    && (forall start :: EligibleIds(q, start) != [] ==>
          Slot(start, start + q.eventType.Duration(), EligibleIds(q, start)) in slots)
  }

  /** `computeSlots`; `None` when a host's range spans too many dates. */
  method ComputeSlots(q: SlotQuery) returns (r: Option<seq<Slot>>)
    requires DistinctHosts(q.hosts)
    requires 0 <= q.eventType.Before() && 0 <= q.eventType.After()
    ensures r.None? <==> Runs(q) && exists j :: 0 <= j < |q.hosts| && DatesFor(q.hosts[j].availability, q.range).None?
    ensures r.Some? ==> IsListing(q, r.value)
  {
    if !q.eventType.active || |q.hosts| == 0 {
      return Some([]);
    }
    if q.eventType.Duration() <= 0 || q.eventType.Step() <= 0 {
      return Some([]);
    }
    var free := FreeByHost(q);
    if free.None? {
      return None;
    }
    if q.eventType.schedulingType == Collective {
      var slots := CollectiveSlots(q, free.value);
      return Some(slots);
    } else {
      var slots := PerHostSlots(q, free.value);
      return Some(slots);
    }
  }

  ghost predicate IsFree(q: SlotQuery, free: seq<seq<Interval>>) {
    && |free| == |q.hosts|
    && forall j :: 0 <= j < |free| ==>
         Normal(free[j]) && Points(free[j]) == FreeFor(q.hosts[j].availability, q.range)
  }

  /** `freeByHost` */
  method FreeByHost(q: SlotQuery) returns (r: Option<seq<seq<Interval>>>)
    ensures r.None? <==> exists j :: 0 <= j < |q.hosts| && DatesFor(q.hosts[j].availability, q.range).None?
    ensures r.Some? ==> IsFree(q, r.value)
  {
    hide DatesFor, FreeFor;
    var out: seq<seq<Interval>> := [];
    for i := 0 to |q.hosts|
      invariant |out| == i
      invariant forall j :: 0 <= j < i ==> DatesFor(q.hosts[j].availability, q.range).Some?
      invariant forall j :: 0 <= j < i ==>
                  Normal(out[j]) && Points(out[j]) == FreeFor(q.hosts[j].availability, q.range)
    {
      var one := FreeIntervalsForHost(q.hosts[i].availability, q.range);
      if one.None? {
        return None;
      }
      out := out + [one.value];
    }
    return Some(out);
  }

  /** The `byStart` map after the first `n` hosts. */
  ghost predicate Collected(q: SlotQuery, n: nat, order: seq<int>, byStart: map<int, Slot>)
    requires n <= |q.hosts|
  {
    && KeysOf(order, byStart)
    && (forall s :: s in byStart <==> OfferingIds(q, n, s) != [])
    && (forall s :: s in byStart ==>
          byStart[s] == Slot(s, s + q.eventType.Duration(), OfferingIds(q, n, s)))
  }

  /** One more host. */
  method CollectHost(q: SlotQuery, i: nat, windows: seq<Interval>, order: seq<int>, byStart: map<int, Slot>)
    returns (order': seq<int>, byStart': map<int, Slot>)
    requires DistinctHosts(q.hosts) && Runs(q) && i < |q.hosts|
    requires 0 <= q.eventType.Before() && 0 <= q.eventType.After()
    requires Normal(windows) && Points(windows) == FreeFor(q.hosts[i].availability, q.range)
    requires Collected(q, i, order, byStart)
    ensures Collected(q, i + 1, order', byStart')
  {
    hide Offers, FreeFor, IsZone, Normal;
    var h := q.hosts[i];
    var starts := StartsForHost(q, h, windows);
    forall s | s in byStart ensures h.hostUserId !in byStart[s].eligibleHostIds {
      OfferingIdsAreEarlier(q, i, s);
    }
    order', byStart' := AddHost(order, byStart, starts, h.hostUserId, q.eventType.Duration());
  }

  /** The personal and round-robin branch. */
  method PerHostSlots(q: SlotQuery, free: seq<seq<Interval>>) returns (slots: seq<Slot>)
    requires DistinctHosts(q.hosts) && Runs(q) && IsFree(q, free)
    requires 0 <= q.eventType.Before() && 0 <= q.eventType.After()
    requires q.eventType.schedulingType != Collective
    ensures IsListing(q, slots)
  {
    var order: seq<int>, byStart: map<int, Slot> := [], map[];
    for i := 0 to |q.hosts|
      invariant Collected(q, i, order, byStart)
    {
      order, byStart := CollectHost(q, i, free[i], order, byStart);
    }
    slots := SortedSlots(order, byStart);
    ListingFromMap(q, slots, order, byStart);
  }

  lemma ListingFromMap(q: SlotQuery, slots: seq<Slot>, order: seq<int>, byStart: map<int, Slot>)
    requires Runs(q) && q.eventType.schedulingType != Collective
    requires Collected(q, |q.hosts|, order, byStart)
    requires SortedByStart(slots)
    requires forall slot :: slot in slots <==> slot.start in byStart && slot == byStart[slot.start]
    ensures IsListing(q, slots)
  {
    forall start | EligibleIds(q, start) != []
      ensures Slot(start, start + q.eventType.Duration(), EligibleIds(q, start)) in slots
    {
      assert byStart[start] in slots;
    }
    forall i | 0 <= i < |slots|
      ensures EligibleIds(q, slots[i].start) != []
      ensures slots[i] == Slot(slots[i].start, slots[i].start + q.eventType.Duration(), EligibleIds(q, slots[i].start))
    {
      assert slots[i] in slots;
    }
  }

  /** The collective branch: grid the common windows once. */
  method CollectiveSlots(q: SlotQuery, free: seq<seq<Interval>>) returns (slots: seq<Slot>)
    requires Runs(q) && IsFree(q, free)
    requires 0 <= q.eventType.Before() && 0 <= q.eventType.After()
    requires q.eventType.schedulingType == Collective
    ensures IsListing(q, slots)
  {
    var common := IntersectAll(free);
    CommonWindows(q, free, common);
    var starts := CollectiveStarts(q, common);
    var hostIds := HostIds(q.hosts);
    var found: seq<Slot> := [];
    for i := 0 to |starts|
      invariant |found| == i
      invariant forall j :: 0 <= j < i ==>
                  found[j] == Slot(starts[j], starts[j] + q.eventType.Duration(), hostIds)
    {
      found := found + [Slot(starts[i], starts[i] + q.eventType.Duration(), hostIds)];
    }
    slots := DedupeByStart(found);
    CollectiveFound(q, starts, found);
    CollectiveListing(q, found, slots);
  }

  /** `dedupeByStart`: the first slot of each start, in order of start. */
  method DedupeByStart(slots: seq<Slot>) returns (out: seq<Slot>)
    ensures SortedByStart(out)
    ensures forall slot :: slot in out ==> slot in slots
    ensures forall slot :: slot in slots ==> StartListed(out, slot.start)
  {
    var order: seq<int>, seen: map<int, Slot> := [], map[];
    for i := 0 to |slots|
      invariant KeysOf(order, seen)
      invariant forall s :: s in seen ==> seen[s].start == s && seen[s] in slots
      invariant forall j :: 0 <= j < i ==> slots[j].start in seen
    {
      if slots[i].start !in seen {
        order := order + [slots[i].start];
        seen := seen[slots[i].start := slots[i]];
      }
    }
    out := SortedSlots(order, seen);
    forall slot | slot in slots ensures StartListed(out, slot.start) {
      assert seen[slot.start] in out;
    }
  }

  ghost predicate StartListed(slots: seq<Slot>, start: int) {
    exists slot :: slot in slots && slot.start == start
  }

  lemma CollectiveFound(q: SlotQuery, starts: seq<int>, found: seq<Slot>)
    requires forall s :: s in starts <==> AllOffer(q, s)
    requires |found| == |starts|
    requires forall j :: 0 <= j < |starts| ==>
               found[j] == Slot(starts[j], starts[j] + q.eventType.Duration(), HostIds(q.hosts))
    ensures forall slot: Slot :: slot in found <==>
              AllOffer(q, slot.start)
              && slot == Slot(slot.start, slot.start + q.eventType.Duration(), HostIds(q.hosts))
  {
    hide AllOffer;
    forall slot: Slot | slot in found
      ensures AllOffer(q, slot.start)
      ensures slot == Slot(slot.start, slot.start + q.eventType.Duration(), HostIds(q.hosts))
    {
      var j :| 0 <= j < |found| && found[j] == slot;
      assert starts[j] in starts;
    }
    forall slot: Slot | AllOffer(q, slot.start)
                        && slot == Slot(slot.start, slot.start + q.eventType.Duration(), HostIds(q.hosts))
      ensures slot in found
    {
      var j :| 0 <= j < |starts| && starts[j] == slot.start;
      assert found[j] == slot;
    }
  }

  lemma CollectiveListing(q: SlotQuery, found: seq<Slot>, slots: seq<Slot>)
    requires Runs(q) && q.eventType.schedulingType == Collective
    requires forall slot: Slot :: slot in found <==>
               AllOffer(q, slot.start)
               && slot == Slot(slot.start, slot.start + q.eventType.Duration(), HostIds(q.hosts))
    requires SortedByStart(slots)
    requires forall slot :: slot in slots ==> slot in found
    requires forall slot :: slot in found ==> StartListed(slots, slot.start)
    ensures IsListing(q, slots)
  {
    hide AllOffer;
    hide StartListed;
    assert HostIds(q.hosts) != [];
    forall i | 0 <= i < |slots| ensures slots[i] in found {
      assert slots[i] in slots;
    }
    forall start | EligibleIds(q, start) != []
      ensures Slot(start, start + q.eventType.Duration(), EligibleIds(q, start)) in slots
    {
      var slot := Slot(start, start + q.eventType.Duration(), HostIds(q.hosts));
      assert slot in found;
      KeptStart(slots, start);
      var kept :| kept in slots && kept.start == start;
      assert kept in found;
    }
  }

  lemma KeptStart(slots: seq<Slot>, start: int)
    requires StartListed(slots, start)
    ensures exists kept :: kept in slots && kept.start == start
  {
  }

  lemma CommonWindows(q: SlotQuery, free: seq<seq<Interval>>, common: seq<Interval>)
    requires Runs(q) && IsFree(q, free) && Points(common) == CommonPoints(free)
    ensures Points(common) == CommonFree(q)
  {
    forall t ensures t in CommonPoints(free) <==> t in CommonFree(q) {
      forall j | 0 <= j < |free| ensures Covered(free[j], t) <==> t in FreeFor(q.hosts[j].availability, q.range) {
        assert t in Points(free[j]) <==> Covered(free[j], t);
      }
    }
  }

  ghost predicate PassesAll(q: SlotQuery, start: int) {
    && InPolicy(q, start)
    && forall j :: 0 <= j < |q.hosts| ==>
         UnderCap(q.hosts[j], q.eventType, start) && Clear(q.hosts[j], q.eventType, start)
  }

  /** `exceedsDailyCap` and the busy filter, for every participating host. */
  method AllHostsTake(q: SlotQuery, start: int) returns (r: bool)
    ensures r <==> forall j :: 0 <= j < |q.hosts| ==>
                     UnderCap(q.hosts[j], q.eventType, start) && Clear(q.hosts[j], q.eventType, start)
  {
    if q.eventType.maxPerDay.Some? {
      for i := 0 to |q.hosts|
        invariant forall j :: 0 <= j < i ==> UnderCap(q.hosts[j], q.eventType, start)
      {
        if UsedOn(q.hosts[i], start) >= q.eventType.maxPerDay.value {
          return false;
        }
      }
    }
    for i := 0 to |q.hosts|
      invariant forall j :: 0 <= j < i ==> Clear(q.hosts[j], q.eventType, start)
    {
      var busy := OverlapsAny(SlotFootprint(q.eventType, start), q.hosts[i].busy);
      if busy {
        return false;
      }
    }
    return true;
  }

  method FilterForAll(q: SlotQuery, candidates: seq<int>) returns (out: seq<int>)
    requires StrictlySorted(candidates)
    ensures StrictlySorted(out)
    ensures forall s :: s in out <==> s in candidates && PassesAll(q, s)
  {
    out := [];
    for i := 0 to |candidates|
      invariant StrictlySorted(out)
      invariant forall k :: 0 <= k < |out| ==> exists j :: 0 <= j < i && out[k] == candidates[j]
      invariant forall s :: s in out <==> s in candidates[..i] && PassesAll(q, s)
    {
      var start := candidates[i];
      assert candidates[..i + 1] == candidates[..i] + [start];
      if start < q.range.start || start >= q.range.end {
        continue;
      }
      if start < q.eventType.Earliest(q.now) || start > q.eventType.Latest(q.now) {
        continue;
      }
      var taken := AllHostsTake(q, start);
      if !taken {
        continue;
      }
      out := out + [start];
    }
    assert candidates[..|candidates|] == candidates;
  }

  method CollectiveStarts(q: SlotQuery, windows: seq<Interval>) returns (out: seq<int>)
    requires 0 < q.eventType.Duration() && 0 < q.eventType.Step()
    requires 0 <= q.eventType.Before() && 0 <= q.eventType.After()
    requires Normal(windows) && Points(windows) == CommonFree(q)
    ensures StrictlySorted(out)
    ensures forall s :: s in out <==> AllOffer(q, s)
  {
    out := [];
    for i := 0 to |windows|
      invariant StrictlySorted(out)
      invariant forall k :: 0 <= k < |out| && i < |windows| ==> out[k] < windows[i].start
      invariant forall s :: s in out <==> PassesAll(q, s) && InSomeWindow(windows[..i], q.eventType, s)
    {
      var w := windows[i];
      var candidates := CandidatesInWindow(w, q.eventType);
      var kept := FilterForAll(q, candidates);
      InOneMoreWindow(windows, q.eventType, i);
      forall k | 0 <= k < |kept| ensures w.start <= kept[k] < w.end {
        assert kept[k] in kept && kept[k] in candidates;
      }
      out := out + kept;
    }
    assert windows[..|windows|] == windows;
    forall s ensures InSomeWindow(windows, q.eventType, s) <==> Gridded(CommonFree(q), q.eventType, s) {
      GriddedInNormalForm(windows, q.eventType, s);
    }
  }
}
