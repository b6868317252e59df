/**
 * Invitations when replays answer reschedule routes (src/http/api/rest.ts, reschedule
 * route; src/adapters/notify.ts): which of the promises about UID, SEQUENCE and
 * completeness survive, and exactly when the last one fails.
 */
module InviteReplays {
  import opened Common
  import opened Domain
  import opened Store
  import opened Protocol
  import opened Rescheduling
  import opened Replays
  import opened IcsChain
  import opened Invitations

  /**
   * Any replay may happen that hands a reschedule route a booking made for the original
   * it is moving; nobody cancels or moves a booking that is in flight.
   */
  ghost predicate MatchedStep(s: State, t: State, action: Action) {
    && Step(s, t, action) && MatchingReplay(s, action)
    && match action
       case DoMark(a) => s.attempts[a].original.Some? ==> !InFlight(s, s.attempts[a].original.value)
       case DoCancel(id) => !InFlight(s, id)
       case _ => true
  }

  datatype Act = Route(action: Action) | Send(notice: Notice)

  ghost predicate Acts(m: Mail, n: Mail, act: Act) {
    match act
    case Route(action) => MatchedStep(m.routes, n.routes, action) && Delivers(m, n, action)
    case Send(notice) => SendStep(m, n, notice)
  }

  ghost predicate MatchedMail(mails: seq<Mail>, acts: seq<Act>) {
    && |mails| == |acts| + 1
    && Init(mails[0].routes) && mails[0].lineage == map[] && mails[0].due == {} && mails[0].sent == []
    && forall i :: 0 <= i < |acts| ==> Acts(mails[i], mails[i + 1], acts[i])
  }

  // ---- What such runs keep of the links ---------------------------------------------------

  /** A replacement is the one its original moved to, or cancelled, or still in flight. */
  ghost predicate Accounted(s: State) {
    forall n, o :: ReplacementOf(s.db, n, o) ==>
      && o in s.db.bookings
      && (MovedTo(s.db, o, n) || s.db.bookings[n].status == Cancelled || InFlight(s, n))
  }

  /** While an original is confirmed so is every replacement written for it. */
  ghost predicate InOrder(s: State) {
    forall n, o :: ReplacementOf(s.db, n, o) && Live(s.db, o) ==> Live(s.db, n)
  }

  /** A route rolls back only after its original was moved or cancelled. */
  ghost predicate LostFirst(s: State) {
    forall a :: a in s.attempts && s.attempts[a].phase.RollingBack? ==>
      s.attempts[a].original.Some? && !Live(s.db, s.attempts[a].original.value)
  }

  /** Only announced bookings are moved on. */
  ghost predicate MovesPublic(db: Db) {
    forall o, n :: MovedTo(db, o, n) ==> Public(db, o)
  }

  ghost predicate Traced(s: State) {
    && Settled(s) && Known(s) && PointBack(s) && Accounted(s) && MovesPublic(s.db)
    && InOrder(s) && LostFirst(s)
  }

  lemma TracedIsChained(s: State)
    requires Traced(s)
    ensures Chained(s.db)
  {
    forall o, n | Public(s.db, n) && ReplacementOf(s.db, n, o) ensures Superseded(s.db, o) {
      assert MovedTo(s.db, o, n);
    }
  }

  lemma TracedHasOriginals(s: State)
    requires Traced(s)
    ensures OriginalsExist(s)
  {
  }

  /** Cancelled is for good, and a booking is cancelled by a cancel route or a roll-back. */
  ghost predicate Cancels(s: State, action: Action, id: int) {
    Live(s.db, id)
    && (action == DoCancel(id)
        || (action.DoRollBack? && action.a in s.attempts && s.attempts[action.a].phase == RollingBack(id)))
  }

  ghost predicate IsCancelled(db: Db, id: int) {
    id in db.bookings && db.bookings[id].status == Cancelled
  }

  lemma StepCancels(s: State, t: State, action: Action)
    requires Inv(s) && Step(s, t, action)
    ensures forall id :: IsCancelled(t.db, id) <==> IsCancelled(s.db, id) || Cancels(s, action, id)
  {
    hide BookingService.Prepare, NewClaims, WithClaims, LockIndex, NoDoubleBooking, FootprintsAligned;
    if action.DoCommit? {
      assert ReadyOk(s.attempts[action.a]);
    }
  }

  /** A holder lets go by winning its mark or by rolling back. */
  lemma HolderLeaves(s: State, t: State, action: Action, a: int, n: int)
    requires Step(s, t, action) && Known(s) && Holds(s, a, n) && !Holds(t, a, n)
    ensures s.attempts[a].original.Some?
    ensures Wins(s, action, s.attempts[a].original.value, n)
            || (action == DoRollBack(a) && s.attempts[a].phase == RollingBack(n))
  {
    hide BookingService.Prepare, NewClaims, WithClaims;
  }

  lemma BookingsStay(s: State, t: State, action: Action)
    requires Inv(s) && Step(s, t, action)
    ensures forall n :: n in s.db.bookings ==>
              n in t.db.bookings && t.db.bookings[n].rescheduleOf == s.db.bookings[n].rescheduleOf
    ensures forall n :: n in t.db.bookings && n !in s.db.bookings ==>
              action.DoCommit? && action.a in s.attempts && Commits(s, action.a)
              && s.attempts[action.a].phase.booking.id == n && t.db.bookings[n] == s.attempts[action.a].phase.booking
  {
    hide BookingService.Prepare, NewClaims, WithClaims, LockIndex, NoDoubleBooking, FootprintsAligned;
    StepKeepsOrigins(s, t, action);
  }

  lemma StepKeepsAccounted(s: State, t: State, action: Action)
    requires Inv(s) && Traced(s) && MatchedStep(s, t, action)
    ensures Accounted(t)
  {
    hide Inv, Step, MatchingReplay, Wins;
    TracedHasOriginals(s);
    StepMoves(s, t, action);
    StepCancels(s, t, action);
    BookingsStay(s, t, action);
    forall n, o | ReplacementOf(t.db, n, o) 
      ensures o in t.db.bookings && (MovedTo(t.db, o, n) || IsCancelled(t.db, n) || InFlight(t, n))
    {
      if n !in s.db.bookings {
        NewIsHeld(s, t, action.a, n, o);
      } else if InFlight(s, n) && !MovedTo(s.db, o, n) {
        var a :| Holds(s, a, n);
        if !Holds(t, a, n) {
          HolderLeaves(s, t, action, a, n);
          LetGoUnmoved(s, n, o);
        }
      }
    }
  }

  /** A replacement written for an original is held by the route that wrote it. */
  lemma NewIsHeld(s: State, t: State, a: int, n: int, o: int)
    requires Inv(s) && Step(s, t, DoCommit(a)) && Commits(s, a) && s.attempts[a].phase.booking.id == n
    requires ReplacementOf(t.db, n, o) && t.db.bookings[n] == s.attempts[a].phase.booking
    requires OriginalsExist(s)
    ensures InFlight(t, n) && o in t.db.bookings && Live(t.db, n)
  {
    hide LockIndex, NoDoubleBooking, FootprintsAligned, WithClaims, NewClaims;
    assert ReadyOk(s.attempts[a]);
    assert Holds(t, a, n);
  }

  /** A replacement nothing was moved to is confirmed or cancelled. */
  lemma LetGoUnmoved(s: State, n: int, o: int)
    requires Traced(s) && ReplacementOf(s.db, n, o) && !MovedTo(s.db, o, n)
    ensures Live(s.db, n) || IsCancelled(s.db, n)
  {
    if s.db.bookings[n].status == Rescheduled {
      assert MovedTo(s.db, n, s.db.bookings[n].rescheduledTo.value);
    }
  }

  predicate Moves(s: State, action: Action, id: int) {
    action.DoMark? && action.a in s.attempts && s.attempts[action.a].original.Some?
    && Wins(s, action, s.attempts[action.a].original.value, id)
  }

  ghost predicate FirstBooked(s: State, action: Action, id: int) {
    action.DoCommit? && Commits(s, action.a) && s.attempts[action.a].phase.booking.id == id
    && s.attempts[action.a].phase.booking.rescheduleOf.None?
  }

  /** A REQUEST is owed for a first booking written and for a replacement moved to. */
  lemma OwedRequests(s: State, action: Action, id: int)
    ensures Notice(Request, id) in Owed(s, action) <==> FirstBooked(s, action, id) || Moves(s, action, id)
  {
    hide CanCreate;
  }

  /** A step announces exactly the bookings it owes a REQUEST for, each for the first time. */
  lemma StepAnnounces(s: State, t: State, action: Action, id: int)
    requires Inv(s) && Traced(s) && Step(s, t, action)
    ensures Public(t.db, id) <==> Public(s.db, id) || Notice(Request, id) in Owed(s, action)
    ensures Notice(Request, id) in Owed(s, action) ==> !Public(s.db, id)
  {
    hide Inv, Step, Accounted, Owed, Commits;
    OwedRequests(s, action, id);
    StepMoves(s, t, action);
    BookingsStay(s, t, action);
    if FirstBooked(s, action, id) {
      FirstIsNew(s, t, action.a);
    }
    if Moves(s, action, id) {
      assert Holds(s, action.a, id);
    }
    if id in t.db.bookings && t.db.bookings[id].rescheduleOf.Some? {
      var o := t.db.bookings[id].rescheduleOf.value;
      assert ReplacementOf(t.db, id, o);
      assert MovedTo(t.db, o, id) <==> MovedTo(s.db, o, id) || Wins(s, action, o, id);
      if id in s.db.bookings {
        assert ReplacementOf(s.db, id, o);
      }
    }
  }

  lemma FirstIsNew(s: State, t: State, a: int)
    requires Commits(s, a) && Step(s, t, DoCommit(a))
    ensures var b := s.attempts[a].phase.booking;
      b.id !in s.db.bookings && b.id in t.db.bookings && t.db.bookings[b.id] == b
  {
    hide WithClaims, NewClaims;
  }

  /** A confirmed booking that nobody holds has been announced. */
  lemma LiveIsPublic(s: State, id: int)
    requires Accounted(s) && Live(s.db, id) && !InFlight(s, id)
    ensures Public(s.db, id)
  {
    if s.db.bookings[id].rescheduleOf.Some? {
      assert ReplacementOf(s.db, id, s.db.bookings[id].rescheduleOf.value);
    }
  }

  lemma StepKeepsMovesPublic(s: State, t: State, action: Action)
    requires Inv(s) && Traced(s) && MatchedStep(s, t, action)
    ensures MovesPublic(t.db)
  {
    hide Inv, Step, Known, Settled, PointBack, Accounted, Public, InOrder, LostFirst, MatchingReplay;
    StepMoves(s, t, action);
    forall o, n | MovedTo(t.db, o, n) ensures Public(t.db, o) {
      StepAnnounces(s, t, action, o);
      if Wins(s, action, o, n) {
        LiveIsPublic(s, o);
      }
    }
  }

  /** A booking stops being confirmed by being cancelled or moved, and never is again. */
  lemma StepLives(s: State, t: State, action: Action, id: int)
    requires Inv(s) && Settled(s) && Known(s) && Step(s, t, action) && id in s.db.bookings
    ensures Live(t.db, id) ==> Live(s.db, id)
    ensures Live(s.db, id) && !Live(t.db, id) ==> Cancels(s, action, id) || exists n :: Wins(s, action, id, n)
  {
    hide Inv, Step, Wins;
    StepMoves(s, t, action);
    StepCancels(s, t, action);
    BookingsStay(s, t, action);
    if s.db.bookings[id].status == Rescheduled {
      assert MovedTo(s.db, id, s.db.bookings[id].rescheduledTo.value);
      assert MovedTo(t.db, id, s.db.bookings[id].rescheduledTo.value);
    }
    if t.db.bookings[id].status == Rescheduled {
      assert MovedTo(t.db, id, t.db.bookings[id].rescheduledTo.value);
    }
    assert IsCancelled(s.db, id) ==> IsCancelled(t.db, id);
    assert IsCancelled(t.db, id) ==> IsCancelled(s.db, id) || Cancels(s, action, id);
  }

  lemma StepKeepsInOrder(s: State, t: State, action: Action)
    requires Inv(s) && Traced(s) && MatchedStep(s, t, action)
    ensures InOrder(t)
  {
    hide Inv, Step, MatchingReplay;
    TracedHasOriginals(s);
    BookingsStay(s, t, action);
    forall n, o | ReplacementOf(t.db, n, o) && Live(t.db, o) ensures Live(t.db, n) {
      if n !in s.db.bookings {
        NewIsHeld(s, t, action.a, n, o);
      } else {
        assert ReplacementOf(s.db, n, o);
        StepLives(s, t, action, o);
        StepLives(s, t, action, n);
        if !Live(t.db, n) {
          EndsAfterOriginal(s, t, action, n, o);
        }
      }
    }
  }

  /** Whoever ends a replacement finds its original ended. */
  lemma EndsAfterOriginal(s: State, t: State, action: Action, n: int, o: int)
    requires Traced(s) && MatchedStep(s, t, action) && ReplacementOf(s.db, n, o) && Live(s.db, n)
    requires Cancels(s, action, n) || exists m :: Wins(s, action, n, m)
    ensures !Live(s.db, o)
  {
    hide Step, MatchingReplay, InOrder, Known;
    if action.DoRollBack? {
      assert Holds(s, action.a, n);
    } else {
      LiveIsPublic(s, n);
    }
  }

  lemma StepKeepsLostFirst(s: State, t: State, action: Action)
    requires Inv(s) && Traced(s) && Step(s, t, action)
    ensures LostFirst(t)
  {
    hide Inv, Step, Accounted, InOrder, PointBack, MovesPublic;
    forall a | a in t.attempts && t.attempts[a].phase.RollingBack?
      ensures t.attempts[a].original.Some? && !Live(t.db, t.attempts[a].original.value)
    {
      NewLoser(s, t, action, a);
      StepLives(s, t, action, s.attempts[a].original.value);
    }
  }

  lemma NewLoser(s: State, t: State, action: Action, a: int)
    requires Step(s, t, action) && a in t.attempts && t.attempts[a].phase.RollingBack? && LostFirst(s)
    ensures a in s.attempts && t.attempts[a].original == s.attempts[a].original && s.attempts[a].original.Some?
    ensures !Live(s.db, s.attempts[a].original.value)
  {
    hide BookingService.Prepare, NewClaims, WithClaims;
  }

  lemma StepKeepsTraced(s: State, t: State, action: Action)
    requires Inv(s) && Traced(s) && MatchedStep(s, t, action)
    ensures Traced(t)
  {
    hide Inv, Step, MatchingReplay, Settled, Known, PointBack, Accounted, MovesPublic, InOrder, LostFirst;
    StepMoves(s, t, action);
    StepPointsBack(s, t, action);
    StepKeepsAccounted(s, t, action);
    StepKeepsMovesPublic(s, t, action);
    StepKeepsInOrder(s, t, action);
    StepKeepsLostFirst(s, t, action);
  }

  // ---- Which messages a step calls for ------------------------------------------------------

  /** A roll-back that cancels an announced booking calls for a CANCEL that no route owes. */
  ghost predicate Untold(s: State, action: Action, notice: Notice) {
    && action.DoRollBack? && notice.kind == Cancellation
    && Cancels(s, action, notice.bookingId) && Public(s.db, notice.bookingId)
  }

  lemma OwedCancels(s: State, action: Action, id: int)
    ensures Notice(Cancellation, id) in Owed(s, action) <==> action == DoCancel(id) && Live(s.db, id)
  {
    hide CanCreate;
  }

  /** A newly announced booking is confirmed. */
  lemma AnnouncedIsLive(s: State, t: State, action: Action, id: int)
    requires Inv(s) && Traced(s) && Step(s, t, action) && Notice(Request, id) in Owed(s, action)
    ensures !IsCancelled(t.db, id) && !IsCancelled(s.db, id)
  {
    hide Inv, Step, Owed, Settled, Known, Accounted, MovesPublic, LostFirst, Commits;
    OwedRequests(s, action, id);
    StepCancels(s, t, action);
    if FirstBooked(s, action, id) {
      FirstIsNew(s, t, action.a);
    } else {
      var o := s.attempts[action.a].original.value;
      assert Holds(s, action.a, id);
      assert ReplacementOf(s.db, id, o);
    }
  }

  /** A step calls for the messages it owes, and for the CANCEL of a booking it harms. */
  lemma StepWarrants(s: State, t: State, action: Action, notice: Notice)
    requires Inv(s) && Traced(s) && MatchedStep(s, t, action)
    ensures Warranted(t.db, notice) <==>
              Warranted(s.db, notice) || notice in Owed(s, action) || Untold(s, action, notice)
    ensures notice in Owed(s, action) || Untold(s, action, notice) ==> !Warranted(s.db, notice)
    ensures Untold(s, action, notice) ==> notice !in Owed(s, action)
  {
    hide Inv, Step, Traced, Owed, Public, MatchingReplay;
    var id := notice.bookingId;
    StepAnnounces(s, t, action, id);
    PublicIsStored(s.db, id);
    PublicIsStored(t.db, id);
    if notice.kind == Cancellation {
      assert notice == Notice(Cancellation, id);
      assert Warranted(s.db, notice) <==> Public(s.db, id) && IsCancelled(s.db, id);
      assert Warranted(t.db, notice) <==> Public(t.db, id) && IsCancelled(t.db, id);
      OwedCancels(s, action, id);
      StepCancels(s, t, action);
      if Notice(Request, id) in Owed(s, action) {
        AnnouncedIsLive(s, t, action, id);
      }
      if action == DoCancel(id) && Live(s.db, id) {
        TracedIsAccounted(s);
        LiveIsPublic(s, id);
      }
    } else {
      assert notice == Notice(Request, id);
    }
  }

  lemma TracedIsAccounted(s: State)
    requires Traced(s)
    ensures Accounted(s)
  {
  }

  lemma PublicIsStored(db: Db, id: int)
    ensures Public(db, id) ==> id in db.bookings
  {
  }

  /** Such a roll-back is exactly one that harms. */
  lemma UntoldIsHarm(s: State, t: State, a: int)
    requires Inv(s) && Traced(s) && Step(s, t, DoRollBack(a))
    ensures var n := s.attempts[a].phase.newId;
      Harms(s, t, n) <==> Untold(s, DoRollBack(a), Notice(Cancellation, n))
    ensures forall notice :: Untold(s, DoRollBack(a), notice) ==> notice.bookingId == s.attempts[a].phase.newId
  {
    hide Inv, Settled, Accounted, MovesPublic, InOrder, LostFirst;
    var n := s.attempts[a].phase.newId;
    RollBackEffect(s, t, a);
    assert Holds(s, a, n);
  }

  // ---- What the messages keep -----------------------------------------------------------------

  ghost predicate ReplayMail(m: Mail) {
    Inv(m.routes) && Traced(m.routes) && MailCore(m)
  }

  lemma RouteKeepsMail(m: Mail, n: Mail, action: Action)
    requires ReplayMail(m) && MatchedStep(m.routes, n.routes, action) && Delivers(m, n, action)
    ensures ReplayMail(n)
  {
    hide Inv, Traced, Step, MatchingReplay, LineageOk, Warranted, Owed, Public, Untold, Chained;
    StepKeepsInv(m.routes, n.routes, action);
    StepKeepsTraced(m.routes, n.routes, action);
    TracedIsChained(n.routes);
    TracedHasOriginals(m.routes);
    StepKeepsLineage(m, n, action);
    forall notice
      ensures Warranted(n.routes.db, notice) <==>
                Warranted(m.routes.db, notice) || notice in Owed(m.routes, action) || Untold(m.routes, action, notice)
      ensures notice in Owed(m.routes, action) ==> !Warranted(m.routes.db, notice)
    {
      StepWarrants(m.routes, n.routes, action, notice);
    }
    PublicStays(m.routes.db, n.routes.db);
    forall notice ensures Sent(n, notice) <==> Sent(m, notice) {
    }
    forall i | 0 <= i < |n.sent| ensures Faithful(n, n.sent[i]) {
      SentFacts(m, i);
    }
  }

  /** A CANCEL that is due concerns a booking nothing replaced. */
  lemma DueCancelIsSent(m: Mail, notice: Notice)
    requires Traced(m.routes) && Warranted(m.routes.db, notice)
    ensures notice.kind == Cancellation ==> !CancelSuppressed(m.routes.db.bookings[notice.bookingId])
  {
  }

  lemma SendKeepsMail(m: Mail, n: Mail, notice: Notice)
    requires ReplayMail(m) && SendStep(m, n, notice)
    ensures ReplayMail(n)
    ensures forall x :: x in n.due || Sent(n, x) <==> x in m.due || Sent(m, x)
  {
    hide Inv, Traced, LineageOk, Rendered, Chained, Warranted;
    assert Warranted(m.routes.db, notice);
    WarrantedIsPublic(m.routes.db, notice);
    DueCancelIsSent(m, notice);
    RenderedIsFaithful(m, notice);
    var invite := Rendered(m.routes.db.bookings, notice);
    assert n.sent == m.sent + [invite];
    forall x ensures Sent(n, x) <==> Sent(m, x) || x == notice {
      if Sent(m, x) {
        var i :| 0 <= i < |m.sent| && m.sent[i].notice == x;
        assert n.sent[i].notice == x;
      }
      if x == notice { assert n.sent[|m.sent|].notice == x; }
    }
    forall i | 0 <= i < |n.sent| ensures Faithful(n, n.sent[i]) && (i < |m.sent| ==> n.sent[i].notice != notice) {
      if i < |m.sent| {
        assert Faithful(m, m.sent[i]);
        assert Sent(m, m.sent[i].notice);
      }
    }
  }

  lemma WarrantedIsPublic(db: Db, notice: Notice)
    requires Warranted(db, notice)
    ensures Public(db, notice.bookingId)
  {
  }

  lemma {:induction false} RunKeepsReplayMail(mails: seq<Mail>, acts: seq<Act>, i: nat)
    requires MatchedMail(mails, acts) && i < |mails|
    ensures ReplayMail(mails[i])
  {
    hide ReplayMail, MatchedStep, Delivers, SendStep;
    if i == 0 {
      FirstReplayMail(mails[0]);
    } else {
      RunKeepsReplayMail(mails, acts, i - 1);
      assert Acts(mails[i - 1], mails[i - 1 + 1], acts[i - 1]);
      match acts[i - 1]
      case Route(action) => RouteKeepsMail(mails[i - 1], mails[i], action);
      case Send(notice) => SendKeepsMail(mails[i - 1], mails[i], notice);
    }
  }

  lemma FirstReplayMail(m: Mail)
    requires Init(m.routes) && m.lineage == map[] && m.due == {} && m.sent == []
    ensures ReplayMail(m)
  {
    InitKeepsInv(m.routes);
  }

  /**
   * Replays into reschedule routes never make two invitations with one UID share a
   * SEQUENCE, as long as they stay with their original.
   */
  lemma DistinctDespiteReplays(mails: seq<Mail>, acts: seq<Act>, i: nat, j: nat, k: nat)
    requires MatchedMail(mails, acts) && i < |mails|
    requires j < |mails[i].sent| && k < |mails[i].sent| && j != k
    ensures mails[i].sent[j].notice != mails[i].sent[k].notice
    ensures mails[i].sent[j].uid == mails[i].sent[k].uid ==> mails[i].sent[j].sequence != mails[i].sent[k].sequence
  {
    hide MatchedMail, MailCore;
    RunKeepsReplayMail(mails, acts, i);
    NoticesDiffer(mails[i], j, k);
    if mails[i].sent[j].uid == mails[i].sent[k].uid {
      SequencesDiffer(mails[i], j, k);
    }
  }

  lemma NoticesDiffer(m: Mail, j: nat, k: nat)
    requires MailCore(m) && j < |m.sent| && k < |m.sent| && j != k
    ensures m.sent[j].notice != m.sent[k].notice
  {
    hide Chained, LineageOk, OnlyWarranted, Faithful;
  }

  // ---- When a cancellation goes untold ----------------------------------------------------------

  /** This act is a roll-back that cancels the live replacement of some booking. */
  ghost predicate HarmfulAct(m: Mail, n: Mail, act: Act) {
    && act.Route? && act.action.DoRollBack? && act.action.a in m.routes.attempts
    && m.routes.attempts[act.action.a].phase.RollingBack?
    && Harms(m.routes, n.routes, m.routes.attempts[act.action.a].phase.newId)
  }

  /** Acts lose no message and call for none without owing it, but for harmful ones. */
  lemma ActKeepsTold(m: Mail, n: Mail, act: Act)
    requires ReplayMail(m) && Acts(m, n, act)
    ensures AllWarranted(n) <==> AllWarranted(m) && !HarmfulAct(m, n, act)
  {
    hide ReplayMail;
    match act
    case Send(notice) => SendTells(m, n, notice);
    case Route(action) => RouteTells(m, n, action);
  }

  lemma SendTells(m: Mail, n: Mail, notice: Notice)
    requires ReplayMail(m) && SendStep(m, n, notice)
    ensures AllWarranted(n) <==> AllWarranted(m)
  {
    hide ReplayMail, Warranted, Rendered, KeyedById;
    SendKeepsMail(m, n, notice);
  }

  ghost predicate Told(m: Mail, notice: Notice) {
    notice in m.due || Sent(m, notice)
  }

  lemma RouteTells(m: Mail, n: Mail, action: Action)
    requires ReplayMail(m) && MatchedStep(m.routes, n.routes, action) && Delivers(m, n, action)
    ensures AllWarranted(n) <==> AllWarranted(m) && !HarmfulAct(m, n, Route(action))
  {
    hide Inv, Traced, Step, MatchingReplay, Warranted, Owed, Public, Untold, MailCore, Harms;
    CoreIsWarranted(m);
    forall notice
      ensures Warranted(n.routes.db, notice) <==>
                Warranted(m.routes.db, notice) || notice in Owed(m.routes, action) || Untold(m.routes, action, notice)
      ensures notice in Owed(m.routes, action) || Untold(m.routes, action, notice) ==> !Warranted(m.routes.db, notice)
      ensures Untold(m.routes, action, notice) ==> notice !in Owed(m.routes, action)
      ensures Told(n, notice) <==> Told(m, notice) || notice in Owed(m.routes, action)
      ensures Untold(m.routes, action, notice) ==> HarmfulAct(m, n, Route(action))
    {
      StepWarrants(m.routes, n.routes, action, notice);
      UntoldOnlyByHarm(m, n, action, notice);
    }
    if HarmfulAct(m, n, Route(action)) {
      UntoldIsHarm(m.routes, n.routes, action.a);
      var lost := Notice(Cancellation, m.routes.attempts[action.a].phase.newId);
      assert !Told(n, lost) && Warranted(n.routes.db, lost);
    }
    if !AllWarranted(m) {
      var lost :| Warranted(m.routes.db, lost) && !Told(m, lost);
      assert !Told(n, lost) && Warranted(n.routes.db, lost);
    }
  }

  lemma CoreIsWarranted(m: Mail)
    requires MailCore(m)
    ensures forall notice :: Told(m, notice) ==> Warranted(m.routes.db, notice)
  {
    hide Chained, LineageOk, Warranted;
  }

  lemma UntoldOnlyByHarm(m: Mail, n: Mail, action: Action, notice: Notice)
    requires Inv(m.routes) && Traced(m.routes) && Step(m.routes, n.routes, action)
    ensures Untold(m.routes, action, notice) ==> HarmfulAct(m, n, Route(action))
  {
    hide Inv, Traced, Harms, Public;
    if Untold(m.routes, action, notice) {
      UntoldIsHarm(m.routes, n.routes, action.a);
      assert notice == Notice(Cancellation, m.routes.attempts[action.a].phase.newId);
    }
  }

  /**
   * Every message the state calls for is owed or sent, in a state of such a run, if and
   * only if no roll-back before it cancelled a live replacement. Each that did leaves a
   * cancellation the guest is never told of.
   */
  lemma EverythingToldIff(mails: seq<Mail>, acts: seq<Act>, i: nat)
    requires MatchedMail(mails, acts) && i < |mails|
    ensures AllWarranted(mails[i]) <==> forall j :: 0 <= j < i ==> !HarmfulAct(mails[j], mails[j + 1], acts[j])
  {
    hide ReplayMail, MatchedStep, Delivers, SendStep, HarmfulAct, AllWarranted;
    if i == 0 {
      NothingToTell(mails[0]);
    } else {
      EverythingToldIff(mails, acts, i - 1);
      RunKeepsReplayMail(mails, acts, i - 1);
      assert Acts(mails[i - 1], mails[i - 1 + 1], acts[i - 1]);
      ActKeepsTold(mails[i - 1], mails[i], acts[i - 1]);
    }
  }

  lemma NothingToTell(m: Mail)
    requires Init(m.routes) && m.due == {} && m.sent == []
    ensures AllWarranted(m)
  {
  }

  // ---- A replay that does not stay with its original ------------------------------------------------

  /**
   * A first booking replayed into a reschedule route whose mark wins: its REQUEST, sent
   * long ago, is owed again and goes out again, the same UID and SEQUENCE included.
   */
  lemma PlainReplayRepeats(m: Mail, a: int, o: int, n: int, j: nat) returns (run: seq<Mail>)
    requires ReplayMail(m) && j < |m.sent| && m.sent[j].notice == Notice(Request, n)
    requires a in m.routes.attempts && m.routes.attempts[a].original == Some(o)
    requires m.routes.attempts[a].phase == Preparing
    requires Live(m.routes.db, o) && n in m.routes.db.bookings && m.routes.db.bookings[n].rescheduleOf == None
    ensures |run| == 4 && run[0] == m
    ensures Step(run[0].routes, run[1].routes, DoReplay(a, n)) && Delivers(run[0], run[1], DoReplay(a, n))
    ensures Step(run[1].routes, run[2].routes, DoMark(a)) && Delivers(run[1], run[2], DoMark(a))
    ensures SendStep(run[2], run[3], Notice(Request, n))
    ensures run[3].sent == m.sent + [m.sent[j]]
  {
    hide Inv, Traced, Chained, EachOnce, OnlyWarranted, LoadedRoot, LoadedSequence, LineageOk;
    var s, notice := m.routes, Notice(Request, n);
    var s1 := s.(attempts := At(s, a, Marking(n)));
    var s2 := s1.(db := MarkDb(s1.db, o, n), attempts := At(s1, a, Ended));
    var m1 := m.(routes := s1);
    var m2 := m1.(routes := s2, due := m1.due + {notice});
    MarkKeepsFamily(s.db, o, n);
    SameFamily(s.db.bookings, s2.db.bookings, m.lineage);
    LineageKeys(s.db.bookings, m.lineage);
    LineageKeys(s2.db.bookings, m.lineage);
    var invite := Rendered(s2.db.bookings, notice);
    run := [m, m1, m2, m2.(due := m2.due - {notice}, sent := m2.sent + [invite])];
    LoadedChainIsExactIff(s2.db.bookings, m.lineage, n);
    LinkToPredecessor(s.db.bookings, m.lineage, n);
    SentFacts(m, j);
    DepthZeroIsRoot(m, m.sent[j].uid);
    assert invite == m.sent[j];
  }

  lemma MarkKeepsFamily(db: Db, o: int, n: int)
    ensures var d := MarkDb(db, o, n);
      d.bookings.Keys == db.bookings.Keys
      && forall id :: id in db.bookings ==>
           d.bookings[id].id == db.bookings[id].id && d.bookings[id].rescheduleOf == db.bookings[id].rescheduleOf
  {
  }
}
