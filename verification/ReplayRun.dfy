/**
 * A run, from an empty database, in which a replay makes a reschedule route cancel the
 * live replacement: one host, one booking, two reschedule requests with one key.
 */
module ReplayRun {
  import opened Common
  import opened Intervals
  import opened Buckets
  import opened Zone
  import opened LocalDays
  import opened SlotEngine
  import opened ListingAgreement
  import opened RoundTheClock
  import opened Domain
  import opened BookingService
  import opened Store
  import opened Protocol
  import opened Rescheduling
  import opened Replays
  import RoundRobin

  const HOST := 7

  function Meeting(): EventType {
    EventType(1, None, Personal, 30, None, 0, 0, 0, 30, None, true)
  }

  function Wanted(id: int, start: int, original: Option<int>): BookingRequest {
    BookingRequest(Meeting(), [HostInput(HOST, AlwaysOpen(0), [], None)], None, start, 0, id, original,
                   RoundRobin.Rotation(map[], map[]))
  }

  /** The host is open and free whenever asked. */
  lemma WantedIsAccepted(id: int, start: int, original: Option<int>)
    requires OnGrid(start) && 0 <= start <= 30 * DAY
    ensures Accepts(Wanted(id, start, original), Wanted(id, start, original).hosts[0])
  {
    hide FreeFor, AlwaysOpen, LocalDate;
    var r := Wanted(id, start, original);
    var h := r.hosts[0];
    AlwaysOpenNeverCloses(0);
    var f := SlotFootprint(r.eventType, start);
    forall t | f.start <= t < f.end ensures t in FreeFor(h.availability, ProbeRange(r.eventType, start)) {
      assert OpenAt(h.availability, 0, t);
      ProbeSeesWholeSchedule(h, r.eventType, start, t);
    }
  }

  /** So it is prepared, with this id, host, footprint and original. */
  lemma WantedIsPrepared(id: int, start: int, original: Option<int>)
    requires OnGrid(start) && 0 <= start <= 30 * DAY
    ensures ValidRequest(Wanted(id, start, original)) && DistinctHosts(Wanted(id, start, original).hosts)
    ensures var p := Prepare(Wanted(id, start, original));
      && p.Prepared? && p.booking.id == id && p.booking.status == Confirmed && p.booking.rescheduleOf == original
      && p.booking.hostUserIds == [HOST]
  {
    hide Accepts, AlwaysOpen, LocalDate, Claims, BucketsOf;
    WantedIsAccepted(id, start, original);
    AlwaysOpenNeverCloses(0);
    var r := Wanted(id, start, original);
    assert HostIds([r.hosts[0]]) == [HOST];
  }

  // ---- Building the run -------------------------------------------------------------------

  lemma Extend(states: seq<State>, actions: seq<Action>, action: Action, t: State)
    requires Run(states, actions) && Step(states[|actions|], t, action)
    ensures Run(states + [t], actions + [action])
  {
    hide Step;
  }

  function Last(states: seq<State>, actions: seq<Action>): State
    requires |states| == |actions| + 1
  {
    states[|actions|]
  }

  ghost predicate NothingThen(db: Db, start: int) {
    forall x :: x in db.footprints ==> !Overlaps(db.footprints[x], SlotFootprint(Meeting(), start))
  }

  /** Where nothing overlaps, the batch of a prepared attempt succeeds. */
  lemma ClearBatch(s: State, a: int, start: int)
    requires Inv(s) && a in s.attempts && s.attempts[a].phase.Ready? && s.clock <= s.attempts[a].now + COMMIT_LIMIT
    requires s.attempts[a].phase.footprint == SlotFootprint(Meeting(), start) && NothingThen(s.db, start)
    requires s.attempts[a].phase.booking.id !in s.db.bookings
    ensures CanCreate(s.db, s.attempts[a].phase.booking, s.attempts[a].phase.claims)
  {
    hide LockIndex, NoDoubleBooking, CanCreate, BucketsOf;
    var Ready(b, claims, f) := s.attempts[a].phase;
    FreshFootprintAfterCutoff(s.db, s.clock, s.attempts[a]);
    CommitIffNoConflict(s.db, b, claims, f);
  }

  predicate OnlyBooks(actions: seq<Action>) {
    forall i :: 0 <= i < |actions| ==> actions[i].DoBegin? || actions[i].DoPrepare? || actions[i].DoCommit?
  }

  /** Begin, prepare and commit, at time zero. */
  lemma Book(states: seq<State>, actions: seq<Action>, a: int, id: int, start: int, original: Option<int>)
    returns (states': seq<State>, actions': seq<Action>)
    requires Run(states, actions) && OnGrid(start) && 0 <= start <= 30 * DAY
    requires var s := Last(states, actions);
      && s.clock == 0 && a !in s.attempts && id !in s.db.bookings && NothingThen(s.db, start)
      && (original.Some? ==> original.value in s.db.bookings)
    ensures Run(states', actions')
    ensures var s, t := Last(states, actions), Last(states', actions');
      && t.clock == 0
      && t.attempts == s.attempts[a := Attempt(0, original, if original.Some? then Marking(id) else Ended)]
      && t.db.footprints == s.db.footprints[id := SlotFootprint(Meeting(), start)]
      && (forall x :: x in s.db.bookings ==> x in t.db.bookings && t.db.bookings[x] == s.db.bookings[x])
      && (forall x :: x in t.db.bookings ==> x in s.db.bookings || x == id)
      && Live(t.db, id) && t.db.bookings[id].rescheduleOf == original
    ensures OnlyBooks(actions) ==> OnlyBooks(actions')
  {
    hide Prepare, CanCreate, Inv, WithClaims, ValidRequest, DistinctHosts;
    var s, req := Last(states, actions), Wanted(id, start, original);
    WantedIsPrepared(id, start, original);
    var b, claims, f := Prepare(req).booking, Prepare(req).buckets, SlotFootprint(Meeting(), start);
    var s1 := s.(attempts := s.attempts[a := Attempt(0, original, Preparing)]);
    Extend(states, actions, DoBegin(a, original), s1);
    var s2 := s1.(attempts := At(s1, a, Ready(b, claims, f)));
    Extend(states + [s1], actions + [DoBegin(a, original)], DoPrepare(a, req), s2);
    states', actions' := states + [s1] + [s2], actions + [DoBegin(a, original)] + [DoPrepare(a, req)];
    RunKeepsInv(states', actions', |actions'|);
    ClearBatch(s2, a, start);
    var s3 := s2.(db := Created(s2.db, b, claims, f),
                  attempts := At(s2, a, if original.Some? then Marking(b.id) else Ended));
    Extend(states', actions', DoCommit(a), s3);
    states', actions' := states' + [s3], actions' + [DoCommit(a)];
  }

  /** Two reschedule requests of booking 1 in flight: one has written booking 2, one is about to be answered. */
  lemma TwoInFlight() returns (states: seq<State>, actions: seq<Action>)
    ensures Run(states, actions)
    ensures var s := Last(states, actions);
      && s.attempts == map[1 := Attempt(0, None, Ended), 2 := Attempt(0, Some(1), Marking(2)),
                           3 := Attempt(0, Some(1), Preparing)]
      && Live(s.db, 1) && s.db.bookings[1].rescheduleOf == None
      && Live(s.db, 2) && s.db.bookings[2].rescheduleOf == Some(1)
    ensures OnlyBooks(actions)
  {
    hide Step;
    var s0 := State(Db(map[], map[], map[], -LOCK_TRAIL), 0, map[]);
    states, actions := [s0], [];
    FirstState(s0);
    states, actions := Book(states, actions, 1, 1, 10 * DAY, None);
    states, actions := Book(states, actions, 2, 2, 11 * DAY, Some(1));
    var s := Last(states, actions);
    var t := s.(attempts := s.attempts[3 := Attempt(0, Some(1), Preparing)]);
    BeginStep(s, t, 3, Some(1));
    Extend(states, actions, DoBegin(3, Some(1)), t);
    states, actions := states + [t], actions + [DoBegin(3, Some(1))];
  }

  lemma FirstState(s: State)
    requires s == State(Db(map[], map[], map[], -LOCK_TRAIL), 0, map[])
    ensures Run([s], [])
  {
  }

  lemma BeginStep(s: State, t: State, a: int, original: Option<int>)
    requires a !in s.attempts && s.clock == 0 && (original.Some? ==> original.value in s.db.bookings)
    requires t == s.(attempts := s.attempts[a := Attempt(0, original, Preparing)])
    ensures Step(s, t, DoBegin(a, original))
  {
  }

  /**
   * A run from an empty database that ends with booking 1 moved to booking 2 and
   * booking 2 cancelled by a roll-back; the mark of either route may come first.
   */
  lemma ReplayCancelsReplacement(first: int, second: int) returns (states: seq<State>, actions: seq<Action>)
    requires (first == 2 && second == 3) || (first == 3 && second == 2)
    ensures Run(states, actions) && |actions| >= 4
    ensures actions[|actions| - 4..] == [DoReplay(3, 2), DoMark(first), DoMark(second), DoRollBack(second)]
    ensures Harms(states[|actions| - 1], states[|actions|], 2)
    ensures MovedTo(states[|actions|].db, 1, 2) && states[|actions|].db.bookings[2].status == Cancelled
  {
    hide Step, Run, Harms;
    states, actions := TwoInFlight();
    RunLength(states, actions);
    var t := ReplayMakesTwoHolders(Last(states, actions), 2, 3, 1, 2);
    var run := EitherOrderCancels(t, first, second, 1, 2);
    Extend(states, actions, DoReplay(3, 2), t);
    Extend(states + [t], actions + [DoReplay(3, 2)], DoMark(first), run[1]);
    Extend(states + [t] + [run[1]], actions + [DoReplay(3, 2)] + [DoMark(first)], DoMark(second), run[2]);
    Extend(states + [t] + [run[1]] + [run[2]], actions + [DoReplay(3, 2)] + [DoMark(first)] + [DoMark(second)],
           DoRollBack(second), run[3]);
    states := states + [t] + [run[1]] + [run[2]] + [run[3]];
    actions := actions + [DoReplay(3, 2)] + [DoMark(first)] + [DoMark(second)] + [DoRollBack(second)];
  }

  lemma RunLength(states: seq<State>, actions: seq<Action>)
    requires Run(states, actions)
    ensures |states| == |actions| + 1
  {
  }
}
