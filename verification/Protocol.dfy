/**
 * The booking protocol as a transition system: many `book()` attempts and
 * reschedule, cancel and prune steps over one database
 * (src/adapters/coordinator.ts, src/http/api/rest.ts, src/adapters/scheduled.ts).
 *
 * The atomic batches are the only reads and writes of the tables that matter;
 * everything an attempt computes in between may rest on arbitrarily old data.
 */
module Protocol {
  import opened Common
  import opened Intervals
  import opened Buckets
  import opened SlotEngine
  import opened Domain
  import opened BookingService
  import opened Store

  /** Where one request stands. A reschedule goes on to mark its original. */
  datatype Phase =
    | Preparing
    | Ready(booking: Booking, claims: seq<BucketClaim>, footprint: Interval)
    | Marking(newId: int)
    | RollingBack(newId: int)
    | Ended

  /** `now` is the clock captured on entry; `original` is the booking being moved. */
  datatype Attempt = Attempt(now: int, original: Option<int>, phase: Phase)

  datatype State = State(db: Db, clock: int, attempts: map<int, Attempt>)

  const LOCK_TRAIL := 7 * DAY
  /** The longest an attempt may take from capturing its clock to committing. */
  const COMMIT_LIMIT := 6 * DAY

  function At(s: State, a: int, phase: Phase): map<int, Attempt>
    requires a in s.attempts
  {
    s.attempts[a := s.attempts[a].(phase := phase)]
  }

  // ---- Steps ------------------------------------------------------------------------

  ghost predicate Tick(s: State, t: State) {
    s.clock <= t.clock && t == s.(clock := t.clock)
  }

  ghost predicate Begin(s: State, t: State, a: int, original: Option<int>) {
    && a !in s.attempts
    && (original.Some? ==> original.value in s.db.bookings)
    && t == s.(attempts := s.attempts[a := Attempt(s.clock, original, Preparing)])
  }

  /** Preparation from any snapshot: the hosts, busy times and counts are unconstrained. */
  ghost predicate PrepareFrom(s: State, t: State, a: int, req: BookingRequest) {
    && a in s.attempts && s.attempts[a].phase == Preparing
    && ValidRequest(req) && DistinctHosts(req.hosts)
    && req.now == s.attempts[a].now && req.rescheduleOf == s.attempts[a].original
    && match Prepare(req)
       case Prepared(b, claims) =>
         t == s.(attempts := At(s, a, Ready(b, claims, SlotFootprint(req.eventType, req.start))))
       case Refused(_) => t == s.(attempts := At(s, a, Ended))
  }

  /** `createWithLocks`, within six days of the captured clock. */
  ghost predicate Commit(s: State, t: State, a: int) {
    && a in s.attempts && s.attempts[a].phase.Ready?
    && s.clock <= s.attempts[a].now + COMMIT_LIMIT
    && var Ready(b, claims, f) := s.attempts[a].phase;
       if CanCreate(s.db, b, claims) then
         t == s.(db := Created(s.db, b, claims, f),
                 attempts := At(s, a, if s.attempts[a].original.Some? then Marking(b.id) else Ended))
       else t == s.(attempts := At(s, a, Ended))
  }

  /** An idempotent replay hands the route an existing booking instead of a new one. */
  ghost predicate Replay(s: State, t: State, a: int, id: int) {
    && a in s.attempts && s.attempts[a].phase == Preparing
    && id in s.db.bookings
    && t == s.(attempts := At(s, a, if s.attempts[a].original.Some? then Marking(id) else Ended))
  }

  /** `markRescheduled`; when the original is no longer confirmed, roll back. */
  ghost predicate Mark(s: State, t: State, a: int) {
    && a in s.attempts && s.attempts[a].phase.Marking? && s.attempts[a].original.Some?
    && var o, n := s.attempts[a].original.value, s.attempts[a].phase.newId;
       t == s.(db := MarkDb(s.db, o, n),
               attempts := At(s, a, if Live(s.db, o) then Ended else RollingBack(n)))
  }

  ghost predicate RollBack(s: State, t: State, a: int) {
    && a in s.attempts && s.attempts[a].phase.RollingBack?
    && t == s.(db := CancelDb(s.db, s.attempts[a].phase.newId, s.clock), attempts := At(s, a, Ended))
  }

  /** Any cancel route; its earlier status check may be stale. */
  ghost predicate Cancel(s: State, t: State, id: int) {
    t == s.(db := CancelDb(s.db, id, s.clock))
  }

  /** The scheduled prune, from a clock read at some earlier moment. */
  ghost predicate Prune(s: State, t: State, now: int) {
    now <= s.clock && t == s.(db := PruneDb(s.db, now - LOCK_TRAIL))
  }

  datatype Action =
    | DoTick
    | DoBegin(a: int, original: Option<int>)
    | DoPrepare(a: int, req: BookingRequest)
    | DoCommit(a: int)
    | DoReplay(a: int, id: int)
    | DoMark(a: int)
    | DoRollBack(a: int)
    | DoCancel(id: int)
    | DoPrune(now: int)

  ghost predicate Step(s: State, t: State, action: Action) {
    match action
    case DoTick => Tick(s, t)
    case DoBegin(a, original) => Begin(s, t, a, original)
    case DoPrepare(a, req) => PrepareFrom(s, t, a, req)
    case DoCommit(a) => Commit(s, t, a)
    case DoReplay(a, id) => Replay(s, t, a, id)
    case DoMark(a) => Mark(s, t, a)
    case DoRollBack(a) => RollBack(s, t, a)
    case DoCancel(id) => Cancel(s, t, id)
    case DoPrune(now) => Prune(s, t, now)
  }

  ghost predicate Init(s: State) {
    && s.db.bookings == map[] && s.db.locks == map[] && s.db.footprints == map[]
    && s.db.cutoff <= s.clock - LOCK_TRAIL && s.attempts == map[]
  }

  /** A run: states joined by steps, from an empty database. */
  ghost predicate Run(states: seq<State>, actions: seq<Action>) {
    && |states| == |actions| + 1
    && Init(states[0])
    && forall i :: 0 <= i < |actions| ==> Step(states[i], states[i + 1], actions[i])
  }

  // ---- The invariant -----------------------------------------------------------------------

  ghost predicate ReadyOk(a: Attempt) {
    a.phase.Ready? ==>
      var Ready(b, claims, f) := a.phase;
      && b.status == Confirmed && b.rescheduleOf == a.original && b.rescheduledTo == None
      && ExactClaims(b, claims, f) && NoRepeats(claims)
      && Aligned(f) && f.start < f.end
      && a.now <= b.startUtc <= f.start + 720 * MINUTE
  }

  ghost predicate Inv(s: State) {
    && LockIndex(s.db) && FootprintsAligned(s.db) && NoDoubleBooking(s.db)
    && s.db.cutoff <= s.clock - LOCK_TRAIL
    && forall a :: a in s.attempts ==> s.attempts[a].now <= s.clock && ReadyOk(s.attempts[a])
  }

  /** Pruning keeps a seven-day trail, so no fresh footprint reaches below the cutoff. */
  lemma FreshFootprintAfterCutoff(db: Db, clock: int, a: Attempt)
    requires db.cutoff <= clock - LOCK_TRAIL && clock <= a.now + COMMIT_LIMIT
    requires a.phase.Ready? && ReadyOk(a)
    ensures AfterCutoff(db, a.phase.footprint)
  {
    var f := a.phase.footprint;
    forall x | x in BucketsOf(f) ensures db.cutoff <= x {
      BucketIn(f, x);
    }
  }

  lemma CommitKeepsInv(s: State, t: State, a: int)
    requires Inv(s) && Commit(s, t, a)
    ensures Inv(t)
  {
    var Ready(b, claims, f) := s.attempts[a].phase;
    FreshFootprintAfterCutoff(s.db, s.clock, s.attempts[a]);
    if CanCreate(s.db, b, claims) {
      CreateKeepsIndex(s.db, b, claims, f);
      CreateKeepsApart(s.db, b, claims, f);
    }
  }

  /** Fewer confirmed bookings with the same footprints stay apart. */
  lemma FewerStayApart(db: Db, d: Db)
    requires NoDoubleBooking(db) && d.footprints == db.footprints
    requires forall i :: Live(d, i) ==> Live(db, i) && d.bookings[i].hostUserIds == db.bookings[i].hostUserIds
    ensures NoDoubleBooking(d)
  {
    forall i, j | BothHold(d, i, j) ensures !Overlaps(d.footprints[i], d.footprints[j]) {
      assert BothHold(db, i, j);
    }
  }

  lemma PrepareKeepsInv(s: State, t: State, a: int, req: BookingRequest)
    requires Inv(s) && PrepareFrom(s, t, a, req)
    ensures Inv(t)
  {
    hide Prepare;
    if Prepare(req).Prepared? {
      PreparedClaims(req);
    }
  }

  lemma StepKeepsInv(s: State, t: State, action: Action)
    requires Inv(s) && Step(s, t, action)
    ensures Inv(t)
  {
    hide PrepareFrom, Commit, LockIndex, NoDoubleBooking;
    match action
    case DoPrepare(a, req) => PrepareKeepsInv(s, t, a, req);
    case DoCommit(a) => CommitKeepsInv(s, t, a);
    case DoMark(a) =>
      MarkKeepsIndex(s.db, s.attempts[a].original.value, s.attempts[a].phase.newId);
      FewerStayApart(s.db, t.db);
    case DoRollBack(a) =>
      CancelKeepsIndex(s.db, s.attempts[a].phase.newId, s.clock);
      FewerStayApart(s.db, t.db);
    case DoCancel(id) =>
      CancelKeepsIndex(s.db, id, s.clock);
      FewerStayApart(s.db, t.db);
    case DoPrune(now) =>
      PruneKeepsIndex(s.db, now - LOCK_TRAIL);
      FewerStayApart(s.db, t.db);
    case DoTick =>
    case DoBegin(_, _) =>
    case DoReplay(_, _) =>
  }

  lemma InitKeepsInv(s: State)
    requires Init(s)
    ensures Inv(s)
  {
  }

  lemma {:induction false} RunKeepsInv(states: seq<State>, actions: seq<Action>, i: nat)
    requires Run(states, actions) && i < |states|
    ensures Inv(states[i])
  {
    hide Inv, Step;
    if i == 0 {
      InitKeepsInv(states[0]);
    } else {
      RunKeepsInv(states, actions, i - 1);
      StepKeepsInv(states[i - 1], states[i], actions[i - 1]);
    }
  }

  /**
   * Double booking is impossible: in every state of every run, however stale the
   * data each attempt prepared from, two distinct confirmed bookings that share a
   * host have disjoint buffered footprints; and the lock table is exactly the
   * index of confirmed bookings from the last prune on.
   */
  lemma NeverDoubleBooked(states: seq<State>, actions: seq<Action>, i: nat)
    requires Run(states, actions) && i < |states|
    ensures NoDoubleBooking(states[i].db)
    ensures LockIndex(states[i].db)
    ensures states[i].db.cutoff <= states[i].clock - LOCK_TRAIL
  {
    RunKeepsInv(states, actions, i);
  }

  // ---- The meetings themselves ----------------------------------------------------------

  /** The footprint a booking was committed with holds its meeting. */
  ghost predicate MeetingsInside(db: Db) {
    forall id :: id in db.bookings ==> id in db.footprints && HoldsMeeting(db.footprints[id], db.bookings[id])
  }

  predicate HoldsMeeting(f: Interval, b: Booking) {
    f.start <= b.startUtc < b.endUtc <= f.end
  }

  ghost predicate ReadyInside(s: State) {
    forall a :: a in s.attempts && s.attempts[a].phase.Ready? ==>
      HoldsMeeting(s.attempts[a].phase.footprint, s.attempts[a].phase.booking)
  }

  lemma PreparedInside(req: BookingRequest)
    requires ValidRequest(req) && Prepare(req).Prepared?
    ensures HoldsMeeting(SlotFootprint(req.eventType, req.start), Prepare(req).booking)
  {
    hide Participating, LocalDays.LocalDate, Claims, BucketsOf;
  }

  lemma StepKeepsInside(s: State, t: State, action: Action)
    requires MeetingsInside(s.db) && ReadyInside(s) && Step(s, t, action)
    ensures MeetingsInside(t.db) && ReadyInside(t)
  {
    hide Prepare, CanCreate, WithClaims, ValidRequest, DistinctHosts;
    if action.DoPrepare? && Prepare(action.req).Prepared? {
      PreparedInside(action.req);
    }
  }

  lemma {:induction false} RunKeepsInside(states: seq<State>, actions: seq<Action>, i: nat)
    requires Run(states, actions) && i < |states|
    ensures MeetingsInside(states[i].db) && ReadyInside(states[i])
  {
    hide Step, MeetingsInside, ReadyInside;
    if i == 0 {
      NothingInside(states[0]);
    } else {
      RunKeepsInside(states, actions, i - 1);
      StepKeepsInside(states[i - 1], states[i], actions[i - 1]);
    }
  }

  lemma NothingInside(s: State)
    requires Init(s)
    ensures MeetingsInside(s.db) && ReadyInside(s)
  {
  }

  /** So no host is ever in two confirmed meetings at once. */
  lemma MeetingsNeverOverlap(states: seq<State>, actions: seq<Action>, i: nat, x: int, y: int, host: int)
    requires Run(states, actions) && i < |states| && x != y && x in states[i].db.bookings && y in states[i].db.bookings
    requires states[i].db.bookings[x].status == Confirmed && states[i].db.bookings[y].status == Confirmed
    requires host in states[i].db.bookings[x].hostUserIds && host in states[i].db.bookings[y].hostUserIds
    ensures states[i].db.bookings[x].endUtc <= states[i].db.bookings[y].startUtc
            || states[i].db.bookings[y].endUtc <= states[i].db.bookings[x].startUtc
  {
    hide Step, LockIndex;
    RunKeepsInv(states, actions, i);
    RunKeepsInside(states, actions, i);
    assert BothHold(states[i].db, x, y);
  }
}
