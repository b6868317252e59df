/**
 * What the reschedule routes keep: book the new time, mark the old booking, roll
 * the new one back when the mark loses (src/http/api/rest.ts, reschedule route).
 */
module Rescheduling {
  import opened Common
  import opened Domain
  import opened Store
  import opened Protocol

  /**
   * The end of a reschedule route: mark the original, or roll the new booking back
   * when somebody else got to the original first. Either way one of the two stands.
   */
  method FinishReschedule(store: Repository, original: int, newId: int, at: int) returns (moved: bool)
    modifies store
    ensures moved == Live(old(store.View()), original)
    ensures store.View() == if moved then MarkDb(old(store.View()), original, newId)
                            else CancelDb(MarkDb(old(store.View()), original, newId), newId, at)
    ensures !Live(store.View(), original)
    ensures newId != original && Live(old(store.View()), newId) ==> (Live(store.View(), newId) <==> moved)
    ensures LockIndex(old(store.View())) ==> LockIndex(store.View())
  {
    hide LockIndex;
    ghost var before := store.View();
    moved := store.MarkRescheduled(original, newId);
    if LockIndex(before) {
      MarkKeepsIndex(before, original, newId);
    }
    if !moved {
      var _ := store.CancelWithLockRelease(newId, at);
      if LockIndex(before) {
        CancelKeepsIndex(MarkDb(before, original, newId), newId, at);
      }
    }
  }

  /** What the route does is the mark of the protocol, and its roll-back where it lost. */
  lemma FinishIsProtocol(s: State, a: int) returns (t: State, u: State)
    requires a in s.attempts && s.attempts[a].phase.Marking? && s.attempts[a].original.Some?
    ensures Step(s, t, DoMark(a))
    ensures var o, n := s.attempts[a].original.value, s.attempts[a].phase.newId;
      if Live(s.db, o) then u == t && u.db == MarkDb(s.db, o, n)
      else Step(t, u, DoRollBack(a)) && u.db == CancelDb(MarkDb(s.db, o, n), n, s.clock)
  {
    hide MarkDb, CancelDb;
    var o, n := s.attempts[a].original.value, s.attempts[a].phase.newId;
    t := s.(db := MarkDb(s.db, o, n), attempts := At(s, a, if Live(s.db, o) then Ended else RollingBack(n)));
    u := if Live(s.db, o) then t else t.(db := CancelDb(t.db, n, t.clock), attempts := At(t, a, Ended));
  }

  /** Attempt `a` created booking `n` and has not finished with it. */
  predicate Holds(s: State, a: int, n: int) {
    a in s.attempts && (s.attempts[a].phase == Marking(n) || s.attempts[a].phase == RollingBack(n))
  }

  ghost predicate InFlight(s: State, n: int) {
    exists a :: Holds(s, a, n)
  }

  /**
   * Steps in which no reschedule route is answered by an idempotent replay, and nobody
   * acts on a replacement before the route that created it has marked the original.
   */
  ghost predicate QuietStep(s: State, t: State, action: Action) {
    && Step(s, t, action)
    && match action
       case DoReplay(a, _) => s.attempts[a].original.None?
       case DoMark(a) => s.attempts[a].original.Some? ==> !InFlight(s, s.attempts[a].original.value)
       case DoCancel(id) => !InFlight(s, id)
       case _ => true
  }

  ghost predicate QuietRun(states: seq<State>, actions: seq<Action>) {
    && Run(states, actions)
    && forall i :: 0 <= i < |actions| ==> QuietStep(states[i], states[i + 1], actions[i])
  }

  /** A booking in flight is a confirmed replacement with a single holder. */
  ghost predicate HeldOk(s: State) {
    && (forall a, n :: Holds(s, a, n) ==>
          && Live(s.db, n) && s.attempts[a].original.Some?
          && s.db.bookings[n].rescheduleOf == s.attempts[a].original && s.db.bookings[n].rescheduledTo == None)
    && (forall a, b, n :: Holds(s, a, n) && Holds(s, b, n) ==> a == b)
  }

  ghost predicate MovedTo(db: Db, o: int, n: int) {
    o in db.bookings && db.bookings[o].rescheduledTo == Some(n)
  }

  /** A moved booking points forward to a settled replacement that points back. */
  ghost predicate ForwardOk(s: State) {
    && (forall o :: o in s.db.bookings ==>
          (s.db.bookings[o].rescheduledTo.Some? <==> s.db.bookings[o].status == Rescheduled))
    && (forall o, n :: MovedTo(s.db, o, n) ==>
          n in s.db.bookings && s.db.bookings[n].rescheduleOf == Some(o) && !InFlight(s, n))
  }

  ghost predicate ReplacementOf(db: Db, n: int, o: int) {
    n in db.bookings && db.bookings[n].rescheduleOf == Some(o)
  }

  /** A replacement is the one its original moved to, or cancelled, or still in flight. */
  ghost predicate BackwardOk(s: State) {
    forall n, o :: ReplacementOf(s.db, n, o) ==>
      && o in s.db.bookings
      && (MovedTo(s.db, o, n) || s.db.bookings[n].status == Cancelled || InFlight(s, n))
  }

  ghost predicate OriginalsExist(s: State) {
    forall a :: a in s.attempts && s.attempts[a].original.Some? ==> s.attempts[a].original.value in s.db.bookings
  }

  ghost predicate Linked(s: State) {
    HeldOk(s) && ForwardOk(s) && BackwardOk(s) && OriginalsExist(s)
  }

  /** Steps that leave the bookings and the in-flight set alone keep the links. */
  lemma SameLinks(s: State, t: State)
    requires Linked(s) && t.db.bookings == s.db.bookings && OriginalsExist(t)
    requires forall a, n :: Holds(t, a, n) <==> Holds(s, a, n)
    requires forall a, n :: Holds(s, a, n) ==>
               a in t.attempts && t.attempts[a].original == s.attempts[a].original
    ensures Linked(t)
  {
    forall n ensures InFlight(t, n) <==> InFlight(s, n) {
      if InFlight(s, n) { var a :| Holds(s, a, n); assert Holds(t, a, n); }
      if InFlight(t, n) { var a :| Holds(t, a, n); assert Holds(s, a, n); }
    }
    forall n | n in s.db.bookings ensures Live(t.db, n) <==> Live(s.db, n) {
    }
    forall o, n | MovedTo(t.db, o, n) ensures MovedTo(s.db, o, n) {
    }
    forall n, o | ReplacementOf(t.db, n, o)
      ensures o in t.db.bookings && (MovedTo(t.db, o, n) || t.db.bookings[n].status == Cancelled || InFlight(t, n))
    {
      assert ReplacementOf(s.db, n, o);
      assert MovedTo(s.db, o, n) ==> MovedTo(t.db, o, n);
    }
  }

  lemma CommitKeepsLinks(s: State, t: State, a: int)
    requires Inv(s) && Linked(s) && Commit(s, t, a)
    ensures Linked(t)
  {
    var Ready(b, claims, f) := s.attempts[a].phase;
    assert ReadyOk(s.attempts[a]);
    if CanCreate(s.db, b, claims) {
      forall x, n | Holds(t, x, n) ensures (Holds(s, x, n) && n != b.id) || (x == a && n == b.id) {
        if x != a {
          assert Holds(s, x, n) && Live(s.db, n);
        }
      }
      forall x, n | Holds(s, x, n) ensures Holds(t, x, n) && n != b.id && x != a {
      }
      forall n | InFlight(s, n) ensures InFlight(t, n) {
        var x :| Holds(s, x, n);
        assert Holds(t, x, n);
      }
      forall n | InFlight(t, n) ensures InFlight(s, n) || n == b.id {
        var x :| Holds(t, x, n);
      }
      forall o, n | MovedTo(t.db, o, n) ensures MovedTo(s.db, o, n) && n != b.id {
        assert o != b.id;
        assert MovedTo(s.db, o, n);
      }
      forall n, o | ReplacementOf(t.db, n, o)
        ensures o in t.db.bookings && (MovedTo(t.db, o, n) || t.db.bookings[n].status == Cancelled || InFlight(t, n))
      {
        if n == b.id {
          assert Holds(t, a, n);
        } else {
          assert ReplacementOf(s.db, n, o);
          assert MovedTo(s.db, o, n) ==> MovedTo(t.db, o, n);
        }
      }
    } else {
      SameLinks(s, t);
    }
  }

  lemma MarkKeepsLinks(s: State, t: State, a: int)
    requires Linked(s) && Mark(s, t, a) && !InFlight(s, s.attempts[a].original.value)
    ensures Linked(t)
  {
    var o, n := s.attempts[a].original.value, s.attempts[a].phase.newId;
    assert Holds(s, a, n);
    if Live(s.db, o) {
      forall x, m ensures Holds(t, x, m) <==> Holds(s, x, m) && x != a {
      }
      forall m ensures InFlight(t, m) <==> InFlight(s, m) && m != n {
        if InFlight(s, m) && m != n { var x :| Holds(s, x, m); assert Holds(t, x, m); }
        if InFlight(t, m) { var x :| Holds(t, x, m); assert Holds(s, x, m); }
      }
      forall p, m | MovedTo(t.db, p, m) ensures (p == o && m == n) || (p != o && MovedTo(s.db, p, m)) {
      }
      forall m, p | ReplacementOf(t.db, m, p)
        ensures p in t.db.bookings && (MovedTo(t.db, p, m) || t.db.bookings[m].status == Cancelled || InFlight(t, m))
      {
        assert ReplacementOf(s.db, m, p);
        if MovedTo(s.db, p, m) {
          assert p != o;
          assert MovedTo(t.db, p, m);
        }
        if m == n {
          assert MovedTo(t.db, o, n);
        }
      }
    } else {
      forall x, m ensures Holds(t, x, m) <==> Holds(s, x, m) {
      }
      SameLinks(s, t);
    }
  }

  /** Cancelling a booking nobody holds, or rolling back the one held by `a`. */
  lemma CancelKeepsLinks(s: State, t: State, id: int)
    requires Linked(s) && t.db.bookings == CancelDb(s.db, id, s.clock).bookings
    requires forall x, m :: Holds(t, x, m) <==> Holds(s, x, m) && m != id
    requires forall x, m :: Holds(t, x, m) ==> t.attempts[x].original == s.attempts[x].original
    requires OriginalsExist(t)
    ensures Linked(t)
  {
    forall m ensures InFlight(t, m) <==> InFlight(s, m) && m != id {
      if InFlight(s, m) && m != id { var x :| Holds(s, x, m); assert Holds(t, x, m); }
      if InFlight(t, m) { var x :| Holds(t, x, m); assert Holds(s, x, m); }
    }
    forall o, n ensures MovedTo(t.db, o, n) <==> MovedTo(s.db, o, n) {
    }
    forall n, o | ReplacementOf(t.db, n, o)
      ensures o in t.db.bookings && (MovedTo(t.db, o, n) || t.db.bookings[n].status == Cancelled || InFlight(t, n))
    {
      assert ReplacementOf(s.db, n, o);
      if InFlight(s, n) && n == id {
        var x :| Holds(s, x, n);
        assert Live(s.db, n);
      }
    }
  }

  lemma StepKeepsLinks(s: State, t: State, action: Action)
    requires Inv(s) && Linked(s) && QuietStep(s, t, action)
    ensures Linked(t)
  {
    hide PrepareFrom, Commit, Inv;
    match action
    case DoCommit(a) => CommitKeepsLinks(s, t, a);
    case DoMark(a) => MarkKeepsLinks(s, t, a);
    case DoPrepare(a, req) => PrepareKeepsLinks(s, t, a, req);
    case DoRollBack(a) => RollBackKeepsLinks(s, t, a);
    case DoCancel(id) => CancelRouteKeepsLinks(s, t, id);
    case DoReplay(_, _) => SameLinks(s, t);
    case DoTick => SameLinks(s, t);
    case DoPrune(_) => SameLinks(s, t);
    case DoBegin(a, original) => BeginKeepsLinks(s, t, a, original);
  }

  lemma BeginKeepsLinks(s: State, t: State, a: int, original: Option<int>)
    requires Linked(s) && Begin(s, t, a, original)
    ensures Linked(t)
  {
    SameLinks(s, t);
  }

  lemma PrepareKeepsLinks(s: State, t: State, a: int, req: BookingService.BookingRequest)
    requires Linked(s) && PrepareFrom(s, t, a, req)
    ensures Linked(t)
  {
    hide BookingService.Prepare;
    SameLinks(s, t);
  }

  lemma RollBackKeepsLinks(s: State, t: State, a: int)
    requires Linked(s) && RollBack(s, t, a)
    ensures Linked(t)
  {
    var n := s.attempts[a].phase.newId;
    assert Holds(s, a, n);
    CancelKeepsLinks(s, t, n);
  }

  lemma CancelRouteKeepsLinks(s: State, t: State, id: int)
    requires Linked(s) && Cancel(s, t, id) && !InFlight(s, id)
    ensures Linked(t)
  {
    forall x, m | Holds(s, x, m) ensures m != id {
    }
    CancelKeepsLinks(s, t, id);
  }

  lemma {:induction false} RunKeepsLinks(states: seq<State>, actions: seq<Action>, i: nat)
    requires QuietRun(states, actions) && i < |states|
    ensures Inv(states[i]) && Linked(states[i])
  {
    hide Inv, QuietStep, Step;
    RunKeepsInv(states, actions, i);
    if i > 0 {
      RunKeepsLinks(states, actions, i - 1);
      StepKeepsLinks(states[i - 1], states[i], actions[i - 1]);
    }
  }

  /**
   * No orphaned duplicates: once the routes have finished, an original has at
   * most one replacement that is not cancelled, the one it was moved to.
   */
  lemma OneReplacementSurvives(states: seq<State>, actions: seq<Action>, i: nat, o: int, n: int)
    requires QuietRun(states, actions) && i < |states|
    requires ReplacementOf(states[i].db, n, o) && !InFlight(states[i], n)
    ensures states[i].db.bookings[n].status == Cancelled || MovedTo(states[i].db, o, n)
  {
    RunKeepsLinks(states, actions, i);
  }
}
