/**
 * What an idempotent replay does to the reschedule routes (src/http/api/rest.ts,
 * reschedule route; src/adapters/coordinator.ts, idempotency). All of this is about
 * runs of the protocol with replays in them.
 */
module Replays {
  import opened Common
  import opened Intervals
  import opened Buckets
  import opened Domain
  import opened SlotEngine
  import opened BookingService
  import opened Store
  import opened Protocol
  import opened Rescheduling

  // ---- Moves are won marks ------------------------------------------------------------

  /** This step is a mark that gets to its original `o` in time and moves it to `n`. */
  predicate Wins(s: State, action: Action, o: int, n: int) {
    && action.DoMark? && action.a in s.attempts
    && s.attempts[action.a].phase == Marking(n) && s.attempts[action.a].original == Some(o)
    && Live(s.db, o)
  }

  ghost predicate Settled(s: State) {
    forall o :: o in s.db.bookings ==>
      (s.db.bookings[o].rescheduledTo.Some? <==> s.db.bookings[o].status == Rescheduled)
  }

  /** What reschedule attempts refer to exists, and so does what anything was moved to. */
  ghost predicate Known(s: State) {
    && (forall a :: a in s.attempts && s.attempts[a].original.Some? ==> s.attempts[a].original.value in s.db.bookings)
    && (forall a, n :: Holds(s, a, n) ==> n in s.db.bookings && s.attempts[a].original.Some?)
    && (forall o, n :: MovedTo(s.db, o, n) ==> n in s.db.bookings)
  }

  /** Steps that only add bookings and holders of bookings keep what is referred to. */
  lemma KnownStays(s: State, t: State)
    requires Known(s) && s.db.bookings.Keys <= t.db.bookings.Keys
    requires forall x :: x in s.attempts ==> x in t.attempts && t.attempts[x].original == s.attempts[x].original
    requires forall x :: x in t.attempts && x !in s.attempts && t.attempts[x].original.Some? ==>
               t.attempts[x].original.value in t.db.bookings
    requires forall x, n :: Holds(t, x, n) ==>
               Holds(s, x, n) || (n in t.db.bookings && x in t.attempts && t.attempts[x].original.Some?)
    requires forall o, n :: MovedTo(t.db, o, n) ==> MovedTo(s.db, o, n) || n in t.db.bookings
    ensures Known(t)
  {
  }

  lemma StepMoves(s: State, t: State, action: Action)
    requires Inv(s) && Settled(s) && Known(s) && Step(s, t, action)
    ensures Settled(t) && Known(t)
    ensures forall o, n :: MovedTo(t.db, o, n) <==> MovedTo(s.db, o, n) || Wins(s, action, o, n)
  {
    hide PrepareFrom, Commit, Inv, Mark, RollBack, Known;
    match action
    case DoPrepare(a, req) => PrepareMoves(s, t, a, req);
    case DoCommit(a) => CommitMoves(s, t, a);
    case DoMark(a) => MarkMoves(s, t, a);
    case DoRollBack(a) => RollBackMoves(s, t, a);
    case DoCancel(id) => CancelMoves(s, t, id);
    case DoTick => KnownStays(s, t);
    case DoPrune(_) => KnownStays(s, t);
    case DoReplay(_, _) => KnownStays(s, t);
    case DoBegin(_, _) => KnownStays(s, t);
  }

  lemma PrepareMoves(s: State, t: State, a: int, req: BookingRequest)
    requires Settled(s) && Known(s) && PrepareFrom(s, t, a, req)
    ensures Settled(t) && Known(t) && t.db == s.db
  {
    hide Prepare, Known;
    KnownStays(s, t);
  }

  lemma CommitMoves(s: State, t: State, a: int)
    requires Inv(s) && Settled(s) && Known(s) && Commit(s, t, a)
    ensures Settled(t) && Known(t)
    ensures forall o, n :: MovedTo(t.db, o, n) <==> MovedTo(s.db, o, n)
  {
    hide LockIndex, NoDoubleBooking, FootprintsAligned, NewClaims, WithClaims, Known;
    assert ReadyOk(s.attempts[a]);
    forall o, n ensures MovedTo(t.db, o, n) <==> MovedTo(s.db, o, n) {
    }
    KnownStays(s, t);
  }

  lemma MarkMoves(s: State, t: State, a: int)
    requires Settled(s) && Known(s) && Mark(s, t, a)
    ensures Settled(t) && Known(t)
    ensures forall o, n :: MovedTo(t.db, o, n) <==> MovedTo(s.db, o, n) || Wins(s, DoMark(a), o, n)
  {
    assert Holds(s, a, s.attempts[a].phase.newId);
    forall o, n ensures MovedTo(t.db, o, n) <==> MovedTo(s.db, o, n) || Wins(s, DoMark(a), o, n) {
    }
    forall x, n | Holds(t, x, n) ensures Holds(s, x, n) {
    }
    KnownStays(s, t);
  }

  lemma CancelMoves(s: State, t: State, id: int)
    requires Settled(s) && Known(s) && Cancel(s, t, id)
    ensures Settled(t) && Known(t)
    ensures forall o, n :: MovedTo(t.db, o, n) <==> MovedTo(s.db, o, n)
  {
    hide Known;
    forall o, n ensures MovedTo(t.db, o, n) <==> MovedTo(s.db, o, n) {
    }
    KnownStays(s, t);
  }

  lemma RollBackMoves(s: State, t: State, a: int)
    requires Settled(s) && Known(s) && RollBack(s, t, a)
    ensures Settled(t) && Known(t)
    ensures forall o, n :: MovedTo(t.db, o, n) <==> MovedTo(s.db, o, n)
  {
    hide Known;
    forall o, n ensures MovedTo(t.db, o, n) <==> MovedTo(s.db, o, n) {
    }
    forall x, n | Holds(t, x, n) ensures Holds(s, x, n) {
    }
    KnownStays(s, t);
  }

  lemma {:induction false} RunIsSettled(states: seq<State>, actions: seq<Action>, i: nat)
    requires Run(states, actions) && i < |states|
    ensures Inv(states[i]) && Settled(states[i]) && Known(states[i])
  {
    hide Inv, Step;
    RunKeepsInv(states, actions, i);
    if i > 0 {
      RunIsSettled(states, actions, i - 1);
      StepMoves(states[i - 1], states[i], actions[i - 1]);
    }
  }

  ghost predicate MarkedBefore(states: seq<State>, actions: seq<Action>, i: nat, o: int, n: int)
    requires |states| == |actions| + 1 && i < |states|
  {
    exists j :: 0 <= j < i && Wins(states[j], actions[j], o, n)
  }

  /** `o` carries `n` as its replacement exactly when an earlier mark of `o` for `n` won. */
  lemma {:induction false} MovedIffMarked(states: seq<State>, actions: seq<Action>, i: nat, o: int, n: int)
    requires Run(states, actions) && i < |states|
    ensures MovedTo(states[i].db, o, n) <==> MarkedBefore(states, actions, i, o, n)
  {
    hide Inv, Step, Wins;
    if i > 0 {
      MovedIffMarked(states, actions, i - 1, o, n);
      RunIsSettled(states, actions, i - 1);
      StepMoves(states[i - 1], states[i], actions[i - 1]);
    }
  }

  // ---- When a roll-back does harm ---------------------------------------------------------

  ghost predicate IsReplacement(db: Db, n: int) {
    exists o :: MovedTo(db, o, n)
  }

  /** A step that cancels a confirmed booking something was moved to. */
  ghost predicate Harms(s: State, t: State, n: int) {
    Live(s.db, n) && n in t.db.bookings && t.db.bookings[n].status == Cancelled && IsReplacement(t.db, n)
  }

  lemma RollBackEffect(s: State, t: State, a: int)
    requires RollBack(s, t, a)
    ensures var n := s.attempts[a].phase.newId;
      && (Harms(s, t, n) <==> Live(s.db, n) && IsReplacement(s.db, n))
      && (forall o :: MovedTo(t.db, o, n) <==> MovedTo(s.db, o, n))
  {
    var n := s.attempts[a].phase.newId;
    forall o ensures MovedTo(t.db, o, n) <==> MovedTo(s.db, o, n) {
    }
  }

  /**
   * In every run, replays included: a roll-back cancels the live replacement of some
   * booking if and only if the booking it rolls back is still confirmed and an earlier
   * mark for that same booking won.
   */
  lemma RollBackHarmsIff(states: seq<State>, actions: seq<Action>, i: nat, a: int)
    requires Run(states, actions) && i < |actions| && actions[i] == DoRollBack(a)
    ensures a in states[i].attempts && states[i].attempts[a].phase.RollingBack?
    ensures var n := states[i].attempts[a].phase.newId;
      Harms(states[i], states[i + 1], n)
      <==> Live(states[i].db, n) && exists o :: MarkedBefore(states, actions, i, o, n)
  {
    hide MarkedBefore;
    assert Step(states[i], states[i + 1], actions[i]);
    var n := states[i].attempts[a].phase.newId;
    RollBackEffect(states[i], states[i + 1], a);
    forall o ensures MovedTo(states[i].db, o, n) <==> MarkedBefore(states, actions, i, o, n) {
      MovedIffMarked(states, actions, i, o, n);
    }
  }

  /** Replays hand a reschedule route only bookings made for the original it is moving. */
  ghost predicate MatchingReplays(states: seq<State>, actions: seq<Action>)
    requires Run(states, actions)
  {
    forall j :: 0 <= j < |actions| ==> MatchingReplay(states[j], actions[j])
  }

  ghost predicate MatchingReplay(s: State, action: Action) {
    action.DoReplay? && action.a in s.attempts && s.attempts[action.a].original.Some? && action.id in s.db.bookings ==>
      s.db.bookings[action.id].rescheduleOf == s.attempts[action.a].original
  }

  ghost predicate PointBack(s: State) {
    && (forall a, n :: Holds(s, a, n) ==> n in s.db.bookings && s.db.bookings[n].rescheduleOf == s.attempts[a].original)
    && (forall o, n :: MovedTo(s.db, o, n) ==> n in s.db.bookings && s.db.bookings[n].rescheduleOf == Some(o))
  }

  lemma StepPointsBack(s: State, t: State, action: Action)
    requires Inv(s) && Settled(s) && Known(s) && PointBack(s) && Step(s, t, action) && MatchingReplay(s, action)
    ensures PointBack(t)
  {
    hide Inv, Settled, Known, PrepareFrom;
    StepMoves(s, t, action);
    StepKeepsOrigins(s, t, action);
    forall a, n | Holds(t, a, n)
      ensures n in t.db.bookings && t.db.bookings[n].rescheduleOf == t.attempts[a].original
    {
      NewHolder(s, t, action, a, n);
    }
    forall o, n | MovedTo(t.db, o, n) ensures n in t.db.bookings && t.db.bookings[n].rescheduleOf == Some(o) {
      if Wins(s, action, o, n) {
        assert Holds(s, action.a, n);
      }
    }
  }

  /** Bookings stay, with what they replace. */
  lemma StepKeepsOrigins(s: State, t: State, action: Action)
    requires Inv(s) && Step(s, t, action)
    ensures forall n :: n in s.db.bookings ==>
              n in t.db.bookings && t.db.bookings[n].rescheduleOf == s.db.bookings[n].rescheduleOf
  {
    hide Inv, Prepare, NewClaims, WithClaims;
  }

  /** A holder held before, has just committed, or has just been given the booking by a replay. */
  lemma NewHolder(s: State, t: State, action: Action, a: int, n: int)
    requires Inv(s) && Step(s, t, action) && Holds(t, a, n)
    ensures t.attempts[a].original == (if a in s.attempts then s.attempts[a].original else None)
    ensures a in s.attempts
    ensures || Holds(s, a, n)
            || (action == DoCommit(a) && n !in s.db.bookings && n in t.db.bookings
                && t.db.bookings[n].rescheduleOf == s.attempts[a].original)
            || (action == DoReplay(a, n) && s.attempts[a].original.Some? && n in s.db.bookings)
  {
    hide Prepare, NewClaims, WithClaims, LockIndex, NoDoubleBooking, FootprintsAligned;
    if action.DoCommit? {
      assert ReadyOk(s.attempts[action.a]);
    }
  }

  lemma {:induction false} RunPointsBack(states: seq<State>, actions: seq<Action>, i: nat)
    requires Run(states, actions) && MatchingReplays(states, actions) && i < |states|
    ensures PointBack(states[i])
  {
    hide Inv, Step, MatchingReplay;
    if i > 0 {
      RunPointsBack(states, actions, i - 1);
      RunIsSettled(states, actions, i - 1);
      assert MatchingReplay(states[i - 1], actions[i - 1]);
      StepPointsBack(states[i - 1], states[i], actions[i - 1]);
    }
  }

  /**
   * What the route could look at before it rolls back: while replays stay with their
   * original, harm is done exactly when the original it failed to mark already carries
   * this very booking as its replacement.
   */
  lemma OwnOriginalTells(states: seq<State>, actions: seq<Action>, i: nat, a: int)
    requires Run(states, actions) && MatchingReplays(states, actions) && i < |actions| && actions[i] == DoRollBack(a)
    ensures a in states[i].attempts && states[i].attempts[a].phase.RollingBack? && states[i].attempts[a].original.Some?
    ensures var n, o := states[i].attempts[a].phase.newId, states[i].attempts[a].original.value;
      Harms(states[i], states[i + 1], n) <==> Live(states[i].db, n) && MovedTo(states[i].db, o, n)
  {
    assert Step(states[i], states[i + 1], actions[i]);
    var n := states[i].attempts[a].phase.newId;
    assert Holds(states[i], a, n);
    RunIsSettled(states, actions, i);
    RunPointsBack(states, actions, i);
    RollBackEffect(states[i], states[i + 1], a);
  }

  // ---- Without replays into reschedule routes ----------------------------------------------

  /** No reschedule route is answered by a replay; anything else may happen, and at any time. */
  ghost predicate FirstHand(states: seq<State>, actions: seq<Action>)
    requires Run(states, actions)
  {
    forall j :: 0 <= j < |actions| ==> FirstHandStep(states[j], actions[j])
  }

  predicate FirstHandStep(s: State, action: Action) {
    action.DoReplay? && action.a in s.attempts ==> s.attempts[action.a].original.None?
  }

  /** A booking being marked or rolled back has one holder, and nothing was moved to it. */
  ghost predicate SingleHolder(s: State) {
    && (forall a, n, o :: Holds(s, a, n) ==> !MovedTo(s.db, o, n))
    && (forall a, b, n :: Holds(s, a, n) && Holds(s, b, n) ==> a == b)
  }

  lemma StepKeepsSingle(s: State, t: State, action: Action)
    requires Inv(s) && Settled(s) && Known(s) && SingleHolder(s) && Step(s, t, action) && FirstHandStep(s, action)
    ensures SingleHolder(t)
  {
    hide Inv, Settled, PrepareFrom, Commit, MovedTo;
    StepMoves(s, t, action);
    forall a, n | Holds(t, a, n) ensures Holds(s, a, n) || (action == DoCommit(a) && n !in s.db.bookings) {
      NewHolder(s, t, action, a, n);
    }
    forall a, n, o | Holds(t, a, n) ensures !MovedTo(t.db, o, n) {
      if Wins(s, action, o, n) {
        assert Holds(s, action.a, n);
        MarkEnds(s, t, action.a);
      }
    }
  }

  /** An attempt whose mark wins holds nothing any more. */
  lemma MarkEnds(s: State, t: State, a: int)
    requires Mark(s, t, a) && Live(s.db, s.attempts[a].original.value)
    ensures forall n :: !Holds(t, a, n)
  {
  }

  lemma {:induction false} RunKeepsSingle(states: seq<State>, actions: seq<Action>, i: nat)
    requires Run(states, actions) && FirstHand(states, actions) && i < |states|
    ensures SingleHolder(states[i])
  {
    hide Inv, Step, FirstHandStep;
    if i > 0 {
      RunKeepsSingle(states, actions, i - 1);
      RunIsSettled(states, actions, i - 1);
      StepKeepsSingle(states[i - 1], states[i], actions[i - 1]);
    }
  }

  /** Without replays into reschedule routes no roll-back cancels a booking something was moved to. */
  lemma RollBackSparesReplacements(states: seq<State>, actions: seq<Action>, i: nat, a: int)
    requires Run(states, actions) && FirstHand(states, actions) && i < |actions| && actions[i] == DoRollBack(a)
    ensures a in states[i].attempts && states[i].attempts[a].phase.RollingBack?
    ensures !Harms(states[i], states[i + 1], states[i].attempts[a].phase.newId)
  {
    assert Step(states[i], states[i + 1], actions[i]);
    var n := states[i].attempts[a].phase.newId;
    assert Holds(states[i], a, n);
    RunKeepsSingle(states, actions, i);
    RollBackEffect(states[i], states[i + 1], a);
  }

  // ---- Two routes with one replacement -------------------------------------------------------

  predicate OnItsWay(s: State, a: int, o: int, n: int) {
    && a in s.attempts && s.attempts[a].original == Some(o)
    && (s.attempts[a].phase == Marking(n) || s.attempts[a].phase == RollingBack(n) || s.attempts[a].phase == Ended)
  }

  /** Two routes that both held `n` for `o`: whoever is last to finish leaves neither confirmed. */
  predicate Contended(s: State, a: int, b: int, o: int, n: int) {
    && a != b && OnItsWay(s, a, o, n) && OnItsWay(s, b, o, n) && o in s.db.bookings && n in s.db.bookings
    && ((s.attempts[a].phase == Marking(n) && s.attempts[b].phase == Marking(n))
        || (!Live(s.db, o) && (s.attempts[a].phase != Ended || s.attempts[b].phase != Ended || !Live(s.db, n))))
  }

  lemma StepKeepsContended(s: State, t: State, action: Action, a: int, b: int, o: int, n: int)
    requires Contended(s, a, b, o, n) && Step(s, t, action)
    ensures Contended(t, a, b, o, n)
  {
    hide Prepare, NewClaims, WithClaims;
  }

  lemma {:induction false} RunKeepsContended(
    states: seq<State>, actions: seq<Action>, i: nat, j: nat, a: int, b: int, o: int, n: int)
    requires Run(states, actions) && i <= j < |states| && Contended(states[i], a, b, o, n)
    ensures Contended(states[j], a, b, o, n)
    decreases j
  {
    hide Step, Contended;
    if i < j {
      RunKeepsContended(states, actions, i, j - 1, a, b, o, n);
      StepKeepsContended(states[j - 1], states[j], actions[j - 1], a, b, o, n);
    }
  }

  /**
   * Once two reschedule routes of one original hold the same replacement, whatever else
   * happens and in whichever order they go on, when both have finished neither the
   * original nor the replacement is confirmed: the replacement is cancelled unless it
   * was itself moved on.
   */
  lemma BothHoldersLose(
    states: seq<State>, actions: seq<Action>, i: nat, j: nat, a: int, b: int, o: int, n: int)
    requires Run(states, actions) && i <= j < |states| && a != b
    requires a in states[i].attempts && states[i].attempts[a] == Attempt(states[i].attempts[a].now, Some(o), Marking(n))
    requires b in states[i].attempts && states[i].attempts[b] == Attempt(states[i].attempts[b].now, Some(o), Marking(n))
    requires a in states[j].attempts && states[j].attempts[a].phase == Ended
    requires b in states[j].attempts && states[j].attempts[b].phase == Ended
    ensures !Live(states[j].db, o) && !Live(states[j].db, n) && n in states[j].db.bookings
    ensures states[j].db.bookings[n].status == Cancelled || states[j].db.bookings[n].rescheduledTo.Some?
  {
    hide Step, Inv;
    RunIsSettled(states, actions, i);
    assert Holds(states[i], a, n);
    RunKeepsContended(states, actions, i, j, a, b, o, n);
    RunIsSettled(states, actions, j);
  }

  /** From two such holders, in either order of their marks, with nothing in between. */
  lemma EitherOrderCancels(s: State, first: int, second: int, o: int, n: int) returns (run: seq<State>)
    requires first != second && first in s.attempts && second in s.attempts && o != n
    requires s.attempts[first].original == Some(o) == s.attempts[second].original
    requires s.attempts[first].phase == Marking(n) == s.attempts[second].phase
    requires Live(s.db, o) && Live(s.db, n)
    ensures |run| == 4 && run[0] == s
    ensures Step(run[0], run[1], DoMark(first)) && Step(run[1], run[2], DoMark(second))
    ensures Step(run[2], run[3], DoRollBack(second))
    ensures MovedTo(run[3].db, o, n) && run[3].db.bookings[n].status == Cancelled && Harms(run[2], run[3], n)
  {
    var s1 := s.(db := MarkDb(s.db, o, n), attempts := At(s, first, Ended));
    var s2 := s1.(db := MarkDb(s1.db, o, n), attempts := At(s1, second, RollingBack(n)));
    var s3 := s2.(db := CancelDb(s2.db, n, s2.clock), attempts := At(s2, second, Ended));
    run := [s, s1, s2, s3];
    assert MovedTo(s3.db, o, n);
  }

  /** A replay makes two holders of one: the second route is given the first one's replacement. */
  lemma ReplayMakesTwoHolders(s: State, a: int, b: int, o: int, n: int) returns (t: State)
    requires a != b && a in s.attempts && b in s.attempts && n in s.db.bookings
    requires s.attempts[a].original == Some(o) == s.attempts[b].original
    requires s.attempts[a].phase == Marking(n) && s.attempts[b].phase == Preparing
    ensures Step(s, t, DoReplay(b, n)) && t.db == s.db
    ensures t.attempts.Keys == s.attempts.Keys
    ensures t.attempts[a] == s.attempts[a] && t.attempts[b] == s.attempts[b].(phase := Marking(n))
  {
    t := s.(attempts := At(s, b, Marking(n)));
  }

  /**
   * A replay for an original that is no longer confirmed cancels the booking replayed,
   * whatever that was made for; when the original had been moved to it, it does the
   * same harm after the first route's mark.
   */
  lemma LateReplayCancels(s: State, b: int, o: int, n: int) returns (run: seq<State>)
    requires b in s.attempts && s.attempts[b].original == Some(o) && s.attempts[b].phase == Preparing
    requires o in s.db.bookings && !Live(s.db, o) && Live(s.db, n)
    ensures |run| == 4 && run[0] == s
    ensures Step(run[0], run[1], DoReplay(b, n)) && Step(run[1], run[2], DoMark(b))
    ensures Step(run[2], run[3], DoRollBack(b))
    ensures n in run[3].db.bookings && run[3].db.bookings[n].status == Cancelled
    ensures MovedTo(s.db, o, n) ==> MovedTo(run[3].db, o, n) && Harms(run[2], run[3], n)
  {
    var s1 := s.(attempts := At(s, b, Marking(n)));
    var s2 := s1.(db := MarkDb(s1.db, o, n), attempts := At(s1, b, RollingBack(n)));
    var s3 := s2.(db := CancelDb(s2.db, n, s2.clock), attempts := At(s2, b, Ended));
    run := [s, s1, s2, s3];
    assert MovedTo(s3.db, o, n) <==> MovedTo(s.db, o, n);
  }
}
