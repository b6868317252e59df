/**
 * Every invitation a run of the booking routes sends (src/adapters/notify.ts,
 * driven by src/http/api/rest.ts and src/adapters/coordinator.ts).
 */
module Invitations {
  import opened Common
  import opened Domain
  import opened Store
  import opened Protocol
  import opened Rescheduling
  import opened IcsChain

  datatype Kind = Request | Cancellation

  /** A message a route still owes for one booking. */
  datatype Notice = Notice(kind: Kind, bookingId: int)

  datatype Invite = Invite(notice: Notice, uid: int, sequence: nat)

  /** The routes, the true lineage of every booking, the messages owed and sent. */
  datatype Mail = Mail(routes: State, lineage: map<int, Origin>, due: set<Notice>, sent: seq<Invite>)

  ghost function OriginOf(m: Mail, b: Booking): Origin {
    if b.rescheduleOf.Some? && b.rescheduleOf.value in m.lineage
    then Origin(m.lineage[b.rescheduleOf.value].root, m.lineage[b.rescheduleOf.value].depth + 1)
    else Origin(b.id, 0)
  }

  ghost predicate Commits(s: State, a: int) {
    && a in s.attempts && s.attempts[a].phase.Ready?
    && CanCreate(s.db, s.attempts[a].phase.booking, s.attempts[a].phase.claims)
  }

  /** The messages a route step gives rise to. */
  ghost function Owed(s: State, action: Action): set<Notice> {
    match action
    // A replacement gets no "confirmed" mail: its route sends "rescheduled" instead.
    case DoCommit(a) =>
      if Commits(s, a) && s.attempts[a].phase.booking.rescheduleOf.None?
      then {Notice(Request, s.attempts[a].phase.booking.id)} else {}
    case DoMark(a) =>
      if a in s.attempts && s.attempts[a].phase.Marking? && s.attempts[a].original.Some?
         && Live(s.db, s.attempts[a].original.value)
      then {Notice(Request, s.attempts[a].phase.newId)} else {}
    case DoCancel(id) => if Live(s.db, id) then {Notice(Cancellation, id)} else {}
    case _ => {}
  }

  ghost function LineageAfter(m: Mail, action: Action): map<int, Origin> {
    match action
    case DoCommit(a) =>
      if Commits(m.routes, a) then
        var b := m.routes.attempts[a].phase.booking;
        m.lineage[b.id := OriginOf(m, b)]
      else m.lineage
    case _ => m.lineage
  }

  /** What a step does to the messages and to the true lineage. */
  ghost predicate Delivers(m: Mail, n: Mail, action: Action) {
    && n.sent == m.sent
    && n.due == m.due + Owed(m.routes, action)
    && n.lineage == LineageAfter(m, action)
  }

  ghost predicate RouteStep(m: Mail, n: Mail, action: Action) {
    QuietStep(m.routes, n.routes, action) && Delivers(m, n, action)
  }

  /** The attachment built for a notice: the loaded chain decides UID and SEQUENCE. */
  function Rendered(bookings: map<int, Booking>, notice: Notice): Invite
    requires KeyedById(bookings) && notice.bookingId in bookings
  {
    Invite(notice,
           LoadedRoot(bookings, notice.bookingId),
           LoadedSequence(bookings, notice.bookingId) + if notice.kind == Cancellation then 1 else 0)
  }

  /** Sending an owed message; a superseded booking's CANCEL is suppressed. */
  ghost predicate SendStep(m: Mail, n: Mail, notice: Notice) {
    && notice in m.due && KeyedById(m.routes.db.bookings) && notice.bookingId in m.routes.db.bookings
    && n == m.(due := m.due - {notice},
               sent := m.sent
                       + if notice.kind == Cancellation && CancelSuppressed(m.routes.db.bookings[notice.bookingId])
                         then [] else [Rendered(m.routes.db.bookings, notice)])
  }

  ghost predicate MailStep(m: Mail, n: Mail) {
    (exists action :: RouteStep(m, n, action)) || (exists notice :: SendStep(m, n, notice))
  }

  ghost predicate MailRun(mails: seq<Mail>) {
    && mails != []
    && Init(mails[0].routes) && mails[0].lineage == map[] && mails[0].due == {} && mails[0].sent == []
    && forall i :: 0 <= i < |mails| - 1 ==> MailStep(mails[i], mails[i + 1])
  }

  // ---- The invariant ------------------------------------------------------------------

  /** A booking guests have been told of: a first booking, or one something moved to. */
  ghost predicate Public(db: Db, id: int) {
    && id in db.bookings
    && (db.bookings[id].rescheduleOf.Some? ==> MovedTo(db, db.bookings[id].rescheduleOf.value, id))
  }

  /** The messages that must exist in this state. */
  ghost predicate Warranted(db: Db, notice: Notice) {
    && Public(db, notice.bookingId)
    && (notice.kind == Cancellation ==> db.bookings[notice.bookingId].status == Cancelled)
  }

  ghost predicate Sent(m: Mail, notice: Notice) {
    exists i :: 0 <= i < |m.sent| && m.sent[i].notice == notice
  }

  ghost predicate EachOnce(m: Mail) {
    && (forall i, j :: 0 <= i < j < |m.sent| ==> m.sent[i].notice != m.sent[j].notice)
    && (forall notice :: Sent(m, notice) ==> notice !in m.due)
  }

  ghost predicate AllWarranted(m: Mail) {
    forall notice :: notice in m.due || Sent(m, notice) <==> Warranted(m.routes.db, notice)
  }

  /** How many reschedules a message can look back. */
  const HOPS := CHAIN_ROWS + 1

  /**
   * What the true lineage says a message carries: the UID of the announced booking that
   * many moves back in its chain, or of the root, and the number of moves to it.
   */
  ghost predicate Faithful(m: Mail, invite: Invite) {
    invite.notice.bookingId in m.lineage ==>
      var origin := m.lineage[invite.notice.bookingId];
      && Public(m.routes.db, invite.uid) && invite.uid in m.lineage
      && m.lineage[invite.uid] == Origin(origin.root, origin.depth - Min(origin.depth, HOPS))
      && invite.sequence == Min(origin.depth, HOPS) + if invite.notice.kind == Cancellation then 1 else 0
  }

  ghost predicate MailInv(m: Mail) {
    && Inv(m.routes) && Linked(m.routes)
    && LineageOk(m.routes.db.bookings, m.lineage)
    && EachOnce(m) && AllWarranted(m)
    && forall i :: 0 <= i < |m.sent| ==> Faithful(m, m.sent[i])
  }

  /** Lineage depends only on which bookings there are and what each replaces. */
  lemma SameFamily(before: map<int, Booking>, after: map<int, Booking>, lineage: map<int, Origin>)
    requires LineageOk(before, lineage) && after.Keys == before.Keys
    requires forall id :: id in before ==>
               after[id].id == before[id].id && after[id].rescheduleOf == before[id].rescheduleOf
    ensures LineageOk(after, lineage)
  {
  }

  lemma CommitKeepsLineage(m: Mail, n: Mail, a: int)
    requires Inv(m.routes) && OriginalsExist(m.routes) && LineageOk(m.routes.db.bookings, m.lineage)
    requires Commit(m.routes, n.routes, a) && Delivers(m, n, DoCommit(a))
    ensures LineageOk(n.routes.db.bookings, n.lineage)
    ensures forall id :: id in m.lineage ==> id in n.lineage && n.lineage[id] == m.lineage[id]
  {
    hide LockIndex, NoDoubleBooking, FootprintsAligned, WithClaims, NewClaims, Owed;
    assert ReadyOk(m.routes.attempts[a]);
  }

  lemma StepKeepsLineage(m: Mail, n: Mail, action: Action)
    requires Inv(m.routes) && OriginalsExist(m.routes) && LineageOk(m.routes.db.bookings, m.lineage)
    requires Step(m.routes, n.routes, action) && Delivers(m, n, action)
    ensures LineageOk(n.routes.db.bookings, n.lineage)
    ensures forall id :: id in m.lineage ==> id in n.lineage && n.lineage[id] == m.lineage[id]
  {
    hide PrepareFrom, Inv, LineageOk, Owed, OriginalsExist, Commit;
    if action.DoCommit? {
      CommitKeepsLineage(m, n, action.a);
    } else {
      if action.DoPrepare? {
        SameBookings(m.routes, n.routes, action.a, action.req);
      }
      SameFamily(m.routes.db.bookings, n.routes.db.bookings, m.lineage);
    }
  }

  /** How one step changes which messages are warranted. */
  lemma OwedIsNewlyWarranted(s: State, t: State, action: Action)
    requires Inv(s) && Linked(s) && QuietStep(s, t, action)
    ensures forall notice :: Warranted(t.db, notice) <==> Warranted(s.db, notice) || notice in Owed(s, action)
    ensures forall notice :: notice in Owed(s, action) ==> !Warranted(s.db, notice)
  {
    hide PrepareFrom, LockIndex, NoDoubleBooking, Commit;
    match action
    case DoCommit(a) => CommitOwes(s, t, a);
    case DoMark(a) => MarkOwes(s, t, a);
    case DoCancel(id) => CancelOwes(s, t, id);
    case DoRollBack(a) => RollBackOwes(s, t, a);
    case DoPrepare(a, req) => SameBookings(s, t, a, req);
    case DoTick =>
    case DoReplay(_, _) =>
    case DoPrune(_) =>
    case DoBegin(_, _) =>
  }

  lemma SameBookings(s: State, t: State, a: int, req: BookingService.BookingRequest)
    requires PrepareFrom(s, t, a, req)
    ensures t.db == s.db
  {
    hide BookingService.Prepare;
  }

  lemma CommitOwes(s: State, t: State, a: int)
    requires Inv(s) && Linked(s) && Commit(s, t, a)
    ensures forall notice :: Warranted(t.db, notice) <==> Warranted(s.db, notice) || notice in Owed(s, DoCommit(a))
    ensures forall notice :: notice in Owed(s, DoCommit(a)) ==> !Warranted(s.db, notice)
  {
    hide LockIndex, NoDoubleBooking;
    var Ready(b, claims, f) := s.attempts[a].phase;
    assert ReadyOk(s.attempts[a]);
    if CanCreate(s.db, b, claims) {
      forall o ensures !MovedTo(s.db, o, b.id) {
      }
      forall id | id != b.id ensures Public(t.db, id) <==> Public(s.db, id) {
        if id in s.db.bookings && s.db.bookings[id].rescheduleOf.Some? {
          assert ReplacementOf(s.db, id, s.db.bookings[id].rescheduleOf.value);
        }
      }
    }
  }

  lemma MarkOwes(s: State, t: State, a: int)
    requires Inv(s) && Linked(s) && Mark(s, t, a) && !InFlight(s, s.attempts[a].original.value)
    ensures forall notice :: Warranted(t.db, notice) <==> Warranted(s.db, notice) || notice in Owed(s, DoMark(a))
    ensures forall notice :: notice in Owed(s, DoMark(a)) ==> !Warranted(s.db, notice)
  {
    hide Inv;
    var o, n := s.attempts[a].original.value, s.attempts[a].phase.newId;
    assert Holds(s, a, n);
    assert InFlight(s, n);
    if Live(s.db, o) {
      assert !MovedTo(s.db, o, n);
      forall id | id != n ensures Public(t.db, id) <==> Public(s.db, id) {
      }
    }
  }

  lemma CancelOwes(s: State, t: State, id: int)
    requires Linked(s) && Cancel(s, t, id) && !InFlight(s, id)
    ensures forall notice :: Warranted(t.db, notice) <==> Warranted(s.db, notice) || notice in Owed(s, DoCancel(id))
    ensures forall notice :: notice in Owed(s, DoCancel(id)) ==> !Warranted(s.db, notice)
  {
    forall k ensures Public(t.db, k) <==> Public(s.db, k) {
    }
    if Live(s.db, id) && s.db.bookings[id].rescheduleOf.Some? {
      assert ReplacementOf(s.db, id, s.db.bookings[id].rescheduleOf.value);
    }
  }

  lemma RollBackOwes(s: State, t: State, a: int)
    requires Linked(s) && RollBack(s, t, a)
    ensures forall notice :: Warranted(t.db, notice) <==> Warranted(s.db, notice)
  {
    var n := s.attempts[a].phase.newId;
    assert Holds(s, a, n);
    assert InFlight(s, n);
    forall k ensures Public(t.db, k) <==> Public(s.db, k) {
    }
    assert !Public(s.db, n);
  }

  lemma LinksHaveOriginals(s: State)
    requires Linked(s)
    ensures OriginalsExist(s)
  {
  }

  lemma RouteStepKeepsMail(m: Mail, n: Mail, action: Action)
    requires MailInv(m) && RouteStep(m, n, action)
    ensures MailInv(n)
  {
    hide Inv, Linked, LineageOk, Warranted, Owed, Public, Step;
    StepKeepsInvQuiet(m.routes, n.routes, action);
    StepKeepsLinks(m.routes, n.routes, action);
    LinksHaveOriginals(m.routes);
    StepKeepsLineage(m, n, action);
    OwedIsNewlyWarranted(m.routes, n.routes, action);
    PublicStays(m.routes.db, n.routes.db);
    forall notice ensures Sent(n, notice) <==> Sent(m, notice) {
    }
    forall i | 0 <= i < |n.sent| ensures Faithful(n, n.sent[i]) {
      SentIsKnown(m, i);
      assert Faithful(m, m.sent[i]);
    }
  }

  /** Once announced, a booking stays announced. */
  lemma PublicStays(db: Db, d: Db)
    requires forall notice :: Warranted(db, notice) ==> Warranted(d, notice)
    ensures forall id :: Public(db, id) ==> Public(d, id)
  {
    forall id | Public(db, id) ensures Public(d, id) {
      assert Warranted(db, Notice(Request, id));
    }
  }

  lemma SentIsKnown(m: Mail, i: nat)
    requires AllWarranted(m) && i < |m.sent| && LineageOk(m.routes.db.bookings, m.lineage)
    ensures m.sent[i].notice.bookingId in m.lineage
  {
    assert Sent(m, m.sent[i].notice);
    assert Warranted(m.routes.db, m.sent[i].notice);
  }

  lemma StepKeepsInvQuiet(s: State, t: State, action: Action)
    requires Inv(s) && QuietStep(s, t, action)
    ensures Inv(t)
  {
    hide Inv, Step;
    StepKeepsInv(s, t, action);
  }

  lemma SendStepKeepsMail(m: Mail, n: Mail, notice: Notice)
    requires MailInv(m) && SendStep(m, n, notice)
    ensures MailInv(n)
  {
    hide Inv, LineageOk, Rendered, Chained;
    assert Warranted(m.routes.db, notice);
    CancelIsNeverSuppressed(m, notice);
    LinksChain(m.routes);
    RenderedIsFaithful(m, notice);
    var invite := Rendered(m.routes.db.bookings, notice);
    assert n.sent == m.sent + [invite];
    forall x ensures Sent(n, x) <==> Sent(m, x) || x == notice {
      if Sent(m, x) {
        var i :| 0 <= i < |m.sent| && m.sent[i].notice == x;
        assert n.sent[i].notice == x;
      }
      if x == notice { assert n.sent[|m.sent|].notice == x; }
    }
    forall i | 0 <= i < |n.sent| ensures Faithful(n, n.sent[i]) && (i < |m.sent| ==> n.sent[i].notice != notice) {
      if i < |m.sent| {
        assert Faithful(m, m.sent[i]);
        assert Sent(m, m.sent[i].notice);
      }
    }
  }

  /** A booking whose cancellation is announced was never superseded. */
  lemma CancelIsNeverSuppressed(m: Mail, notice: Notice)
    requires Linked(m.routes) && Warranted(m.routes.db, notice)
    ensures notice.kind == Cancellation ==> !CancelSuppressed(m.routes.db.bookings[notice.bookingId])
  {
  }

  lemma RenderedIsFaithful(m: Mail, notice: Notice)
    requires Chained(m.routes.db) && LineageOk(m.routes.db.bookings, m.lineage) && Public(m.routes.db, notice.bookingId)
    ensures Rendered(m.routes.db.bookings, notice).notice == notice
    ensures Faithful(m, Rendered(m.routes.db.bookings, notice))
  {
    hide LoadedRoot, LoadedSequence, LineageOk, Chained;
    var bookings, id := m.routes.db.bookings, notice.bookingId;
    LineageKeys(bookings, m.lineage);
    var hops := Min(m.lineage[id].depth, HOPS);
    LoadedChainIsExactIff(bookings, m.lineage, id);
    PredecessorsArePublic(m, id, hops);
    if m.lineage[id].depth <= HOPS {
      DepthZeroIsRoot(m, Predecessor(bookings, m.lineage, id, hops));
    }
  }

  lemma LineageKeys(bookings: map<int, Booking>, lineage: map<int, Origin>)
    requires LineageOk(bookings, lineage)
    ensures lineage.Keys == bookings.Keys && KeyedById(bookings)
  {
  }

  lemma DepthZeroIsRoot(m: Mail, id: int)
    requires LineageOk(m.routes.db.bookings, m.lineage) && id in m.lineage && m.lineage[id].depth == 0
    ensures m.lineage[id].root == id
  {
  }

  /** What a public booking was moved from is public too, and superseded. */
  ghost predicate Chained(db: Db) {
    forall o, n :: Public(db, n) && ReplacementOf(db, n, o) ==> Superseded(db, o)
  }

  ghost predicate Superseded(db: Db, o: int) {
    Public(db, o) && db.bookings[o].status == Rescheduled
  }

  lemma LinksChain(s: State)
    requires Linked(s)
    ensures Chained(s.db)
  {
    forall o, n | Public(s.db, n) && ReplacementOf(s.db, n, o) ensures Superseded(s.db, o) {
      if s.db.bookings[o].rescheduleOf.Some? {
        assert ReplacementOf(s.db, o, s.db.bookings[o].rescheduleOf.value);
        HeldIsLive(s, o);
      }
    }
  }

  lemma PredecessorIsPublic(db: Db, id: int)
    requires Chained(db) && Public(db, id) && db.bookings[id].rescheduleOf.Some?
    ensures Superseded(db, db.bookings[id].rescheduleOf.value)
  {
    assert ReplacementOf(db, id, db.bookings[id].rescheduleOf.value);
  }

  lemma HeldIsLive(s: State, n: int)
    requires Linked(s)
    ensures InFlight(s, n) ==> Live(s.db, n)
  {
  }

  lemma {:induction false} PredecessorsArePublic(m: Mail, id: int, n: nat)
    requires Chained(m.routes.db) && LineageOk(m.routes.db.bookings, m.lineage)
    requires id in m.lineage && id in m.routes.db.bookings && Public(m.routes.db, id) && n <= m.lineage[id].depth
    ensures Public(m.routes.db, Predecessor(m.routes.db.bookings, m.lineage, id, n))
    decreases n
  {
    hide Chained, LineageOk, Public;
    if n > 0 {
      LinkToPredecessor(m.routes.db.bookings, m.lineage, id);
      PredecessorIsPublic(m.routes.db, id);
      PredecessorsArePublic(m, m.routes.db.bookings[id].rescheduleOf.value, n - 1);
    }
  }

  lemma {:induction false} RunKeepsMail(mails: seq<Mail>, i: nat)
    requires MailRun(mails) && i < |mails|
    ensures MailInv(mails[i])
  {
    hide MailInv, RouteStep, SendStep;
    if i == 0 {
      FirstMail(mails[0]);
    } else {
      RunKeepsMail(mails, i - 1);
      var m, n := mails[i - 1], mails[i];
      assert MailStep(m, n);
      if action :| RouteStep(m, n, action) {
        RouteStepKeepsMail(m, n, action);
      } else {
        var notice :| SendStep(m, n, notice);
        SendStepKeepsMail(m, n, notice);
      }
    }
  }

  lemma FirstMail(m: Mail)
    requires Init(m.routes) && m.lineage == map[] && m.due == {} && m.sent == []
    ensures MailInv(m)
  {
    InitKeepsInv(m.routes);
  }

  // ---- One UID, distinct SEQUENCEs, and the last word -----------------------------------

  /** Public bookings of one chain form a line: one per depth. */
  lemma {:induction false} ChainIsLinear(m: Mail, a: int, b: int)
    requires Chained(m.routes.db) && LineageOk(m.routes.db.bookings, m.lineage)
    requires Public(m.routes.db, a) && Public(m.routes.db, b) && m.lineage[a] == m.lineage[b]
    ensures a == b
    decreases m.lineage[a].depth
  {
    hide Chained;
    var bookings := m.routes.db.bookings;
    if bookings[a].rescheduleOf.Some? && bookings[b].rescheduleOf.Some? {
      PredecessorIsPublic(m.routes.db, a);
      PredecessorIsPublic(m.routes.db, b);
      ChainIsLinear(m, bookings[a].rescheduleOf.value, bookings[b].rescheduleOf.value);
    }
  }

  /** Above any shallower depth a chain passes through a superseded public booking. */
  lemma {:induction false} ChainPassesThrough(m: Mail, id: int, depth: nat) returns (at: int)
    requires Chained(m.routes.db) && LineageOk(m.routes.db.bookings, m.lineage)
    requires Public(m.routes.db, id) && depth < m.lineage[id].depth
    ensures Public(m.routes.db, at) && m.lineage[at] == Origin(m.lineage[id].root, depth)
    ensures m.routes.db.bookings[at].status == Rescheduled
    decreases m.lineage[id].depth
  {
    hide Chained;
    PredecessorIsPublic(m.routes.db, id);
    at := m.routes.db.bookings[id].rescheduleOf.value;
    if depth < m.lineage[at].depth {
      at := ChainPassesThrough(m, at, depth);
    }
  }

  ghost predicate OnlyWarranted(m: Mail) {
    forall notice :: notice in m.due || Sent(m, notice) ==> Warranted(m.routes.db, notice)
  }

  /** What the numbering of messages rests on. */
  ghost predicate MailCore(m: Mail) {
    && Chained(m.routes.db) && LineageOk(m.routes.db.bookings, m.lineage)
    && EachOnce(m) && OnlyWarranted(m)
    && forall i :: 0 <= i < |m.sent| ==> Faithful(m, m.sent[i])
  }

  lemma MailHasCore(m: Mail)
    requires MailInv(m)
    ensures MailCore(m)
  {
    hide Inv, Linked, LineageOk, EachOnce, Faithful, Warranted, Chained;
    LinksChain(m.routes);
  }

  lemma SentFacts(m: Mail, j: nat)
    requires MailCore(m) && j < |m.sent|
    ensures var x := m.sent[j]; var id := x.notice.bookingId;
      && Public(m.routes.db, id) && id in m.lineage && Faithful(m, x)
      && (x.notice.kind == Cancellation ==> m.routes.db.bookings[id].status == Cancelled)
  {
    hide Chained, Faithful;
    assert Sent(m, m.sent[j].notice);
    assert Warranted(m.routes.db, m.sent[j].notice);
    assert Faithful(m, m.sent[j]);
  }

  /** A message names the root of its chain exactly up to twenty-one reschedules. */
  lemma UidIsRootIff(m: Mail, j: nat)
    requires MailCore(m) && j < |m.sent|
    ensures var id := m.sent[j].notice.bookingId;
      id in m.lineage && (m.sent[j].uid == m.lineage[id].root <==> m.lineage[id].depth <= 21)
  {
    hide Chained, EachOnce, OnlyWarranted, Public, LineageOk;
    SentFacts(m, j);
    LineageKeys(m.routes.db.bookings, m.lineage);
    RootHasDepthZero(m.routes.db.bookings, m.lineage, m.sent[j].notice.bookingId);
    if m.lineage[m.sent[j].uid].depth == 0 {
      DepthZeroIsRoot(m, m.sent[j].uid);
    }
  }

  /** Two messages with one UID are about one booking, or about one chain not too deep. */
  lemma SameUidMeans(m: Mail, j: nat, k: nat)
    requires MailCore(m) && j < |m.sent| && k < |m.sent| && m.sent[j].uid == m.sent[k].uid
    ensures var x, y := m.sent[j].notice.bookingId, m.sent[k].notice.bookingId;
      && x in m.lineage && y in m.lineage && m.lineage[x].root == m.lineage[y].root
      && (x == y || (m.lineage[x].depth <= HOPS && m.lineage[y].depth <= HOPS))
  {
    hide Chained, LineageOk, EachOnce, OnlyWarranted, Public;
    SentFacts(m, j);
    SentFacts(m, k);
    var x, y := m.sent[j].notice.bookingId, m.sent[k].notice.bookingId;
    if m.lineage[x].depth > HOPS {
      assert m.lineage[x] == m.lineage[y];
      ChainIsLinear(m, x, y);
    } else if m.lineage[y].depth > HOPS {
      assert false;
    }
  }

  /** A CANCEL and a REQUEST of one chain never share a SEQUENCE. */
  lemma CancelClashesWithNothing(m: Mail, j: nat, k: nat)
    requires MailCore(m) && j < |m.sent| && k < |m.sent|
    requires m.sent[j].notice.kind == Cancellation && m.sent[k].notice.kind == Request
    requires m.sent[j].uid == m.sent[k].uid
    ensures m.sent[j].sequence != m.sent[k].sequence
  {
    hide Chained, EachOnce, OnlyWarranted;
    SentFacts(m, j);
    SentFacts(m, k);
    SameUidMeans(m, j, k);
    var c, r := m.sent[j].notice.bookingId, m.sent[k].notice.bookingId;
    if m.sent[j].sequence == m.sent[k].sequence && c != r {
      var at := ChainPassesThrough(m, r, m.lineage[c].depth);
      ChainIsLinear(m, at, c);
    }
  }

  /**
   * In every state of every run, however long its chains: two invitations with the same
   * UID never share a SEQUENCE, and an invitation carries the UID of its chain's root
   * exactly when at most twenty-one reschedules lie behind it.
   */
  lemma SequencesAreDistinct(mails: seq<Mail>, i: nat, j: nat, k: nat)
    requires MailRun(mails) && i < |mails|
    requires j < |mails[i].sent| && k < |mails[i].sent| && j != k
    ensures var m := mails[i]; var id := m.sent[j].notice.bookingId;
      && id in m.lineage
      && (m.sent[j].uid == m.lineage[id].root <==> m.lineage[id].depth <= 21)
      && (m.sent[j].uid == m.sent[k].uid ==> m.sent[j].sequence != m.sent[k].sequence)
  {
    hide MailRun, MailInv, MailCore;
    RunKeepsMail(mails, i);
    MailHasCore(mails[i]);
    UidIsRootIff(mails[i], j);
    if mails[i].sent[j].uid == mails[i].sent[k].uid {
      SequencesDiffer(mails[i], j, k);
    }
  }

  lemma SequencesDiffer(m: Mail, j: nat, k: nat)
    requires MailCore(m) && j < |m.sent| && k < |m.sent| && j != k
    requires m.sent[j].uid == m.sent[k].uid
    ensures m.sent[j].sequence != m.sent[k].sequence
  {
    hide Chained, OnlyWarranted;
    SentFacts(m, j);
    SentFacts(m, k);
    SameUidMeans(m, j, k);
    var x, y := m.sent[j].notice, m.sent[k].notice;
    assert x != y;
    if x.kind == Cancellation && y.kind == Request {
      CancelClashesWithNothing(m, j, k);
    } else if x.kind == Request && y.kind == Cancellation {
      CancelClashesWithNothing(m, k, j);
    } else if m.sent[j].sequence == m.sent[k].sequence {
      ChainIsLinear(m, x.bookingId, y.bookingId);
    }
  }

  /** The end of a chain: public and not superseded. */
  ghost predicate IsFinal(m: Mail, id: int) {
    Public(m.routes.db, id) && m.routes.db.bookings[id].status != Rescheduled
  }

  /** Every chain has an end. */
  lemma {:induction false} FinalExists(m: Mail, id: int) returns (final: int)
    requires Linked(m.routes) && LineageOk(m.routes.db.bookings, m.lineage) && Public(m.routes.db, id)
    ensures IsFinal(m, final) && m.lineage[final].root == m.lineage[id].root
    decreases set x | x in m.lineage && m.lineage[x].depth > m.lineage[id].depth
  {
    var b := m.routes.db.bookings[id];
    if b.status != Rescheduled {
      final := id;
    } else {
      var n := b.rescheduledTo.value;
      assert MovedTo(m.routes.db, id, n);
      var deeper := set x | x in m.lineage && m.lineage[x].depth > m.lineage[id].depth;
      assert n in deeper && n !in (set x | x in m.lineage && m.lineage[x].depth > m.lineage[n].depth);
      final := FinalExists(m, n);
    }
  }

  /** The message that describes the state of a chain's end. */
  ghost function LastWord(m: Mail, final: int): Notice
    requires final in m.routes.db.bookings
  {
    Notice(if m.routes.db.bookings[final].status == Cancelled then Cancellation else Request, final)
  }

  /**
   * Once nothing is owed, take any invitation sent: its chain has an end, and the message
   * that describes that end, a REQUEST for the booking that stands or the CANCEL of the one
   * that was cancelled, has the highest SEQUENCE of all with its UID. It has the UID of the
   * invitation taken unless more than twenty-one reschedules lie behind the end and the
   * invitation is about an earlier booking.
   */
  lemma HighestDescribesFinal(mails: seq<Mail>, i: nat, k: nat) returns (final: int, top: nat)
    requires MailRun(mails) && i < |mails| && mails[i].due == {} && k < |mails[i].sent|
    ensures var m := mails[i]; var id := m.sent[k].notice.bookingId;
      && IsFinal(m, final) && final in m.lineage && id in m.lineage && m.lineage[final].root == m.lineage[id].root
      && top < |m.sent| && m.sent[top].notice == LastWord(m, final)
      && (forall j :: 0 <= j < |m.sent| && j != top && m.sent[j].uid == m.sent[top].uid ==>
            m.sent[j].sequence < m.sent[top].sequence)
      && (m.sent[top].uid == m.sent[k].uid <==> m.lineage[final].depth <= 21 || id == final)
  {
    hide MailRun, Inv, MailCore;
    var m := mails[i];
    RunKeepsMail(mails, i);
    MailHasCore(m);
    SentFacts(m, k);
    final := FinalExists(m, m.sent[k].notice.bookingId);
    top := LastWordIsHighest(m, final);
    SharesUidWithFinal(m, final, top, k);
  }

  lemma LastWordIsHighest(m: Mail, final: int) returns (top: nat)
    requires MailInv(m) && m.due == {} && IsFinal(m, final)
    ensures top < |m.sent| && m.sent[top].notice == LastWord(m, final) && final in m.lineage
    ensures forall j :: 0 <= j < |m.sent| && j != top && m.sent[j].uid == m.sent[top].uid ==>
              m.sent[j].sequence < m.sent[top].sequence
  {
    hide Inv, Linked, MailCore;
    MailHasCore(m);
    assert Warranted(m.routes.db, LastWord(m, final));
    assert Sent(m, LastWord(m, final));
    top :| 0 <= top < |m.sent| && m.sent[top].notice == LastWord(m, final);
    SentFacts(m, top);
    forall j | 0 <= j < |m.sent| && j != top && m.sent[j].uid == m.sent[top].uid
      ensures m.sent[j].sequence < m.sent[top].sequence
    {
      LowerThanFinal(m, final, top, j);
    }
  }

  /** No announced booking of a chain lies beyond its end. */
  lemma NoneBeyondFinal(m: Mail, final: int, id: int)
    requires MailCore(m) && IsFinal(m, final) && Public(m.routes.db, id)
    requires final in m.lineage && id in m.lineage && m.lineage[id].root == m.lineage[final].root
    ensures m.lineage[id].depth <= m.lineage[final].depth
  {
    hide OnlyWarranted, EachOnce, Chained;
    if m.lineage[final].depth < m.lineage[id].depth {
      var at := ChainPassesThrough(m, id, m.lineage[final].depth);
      ChainIsLinear(m, at, final);
    }
  }

  lemma SharesUidWithFinal(m: Mail, final: int, top: nat, k: nat)
    requires MailCore(m) && IsFinal(m, final) && top < |m.sent| && k < |m.sent|
    requires m.sent[top].notice.bookingId == final && final in m.lineage && m.sent[k].notice.bookingId in m.lineage
    requires m.lineage[final].root == m.lineage[m.sent[k].notice.bookingId].root
    ensures m.sent[top].uid == m.sent[k].uid <==> m.lineage[final].depth <= HOPS || m.sent[k].notice.bookingId == final
  {
    hide Chained, OnlyWarranted, EachOnce, IsFinal, Public;
    SentFacts(m, top);
    SentFacts(m, k);
    NoneBeyondFinal(m, final, m.sent[k].notice.bookingId);
    UidIsRootIff(m, top);
    UidIsRootIff(m, k);
    if m.sent[top].uid == m.sent[k].uid {
      SameUidMeans(m, top, k);
    } else if m.sent[k].notice.bookingId == final {
      ChainUids(m, top, k);
    }
  }

  /** The UID of a message depends on its booking alone. */
  lemma ChainUids(m: Mail, j: nat, k: nat)
    requires MailCore(m) && j < |m.sent| && k < |m.sent| && m.sent[j].notice.bookingId == m.sent[k].notice.bookingId
    ensures m.sent[j].uid == m.sent[k].uid
  {
    hide Chained, LineageOk, OnlyWarranted, EachOnce, Public;
    SentFacts(m, j);
    SentFacts(m, k);
    ChainIsLinear(m, m.sent[j].uid, m.sent[k].uid);
  }

  lemma LowerThanFinal(m: Mail, final: int, top: nat, j: nat)
    requires MailCore(m) && IsFinal(m, final)
    requires top < |m.sent| && j < |m.sent| && j != top
    requires m.sent[top].notice == LastWord(m, final) && m.sent[j].uid == m.sent[top].uid
    ensures m.sent[j].sequence < m.sent[top].sequence
  {
    hide Chained, OnlyWarranted;
    SentFacts(m, top);
    SentFacts(m, j);
    SameUidMeans(m, j, top);
    var id := m.sent[j].notice.bookingId;
    NoneBeyondFinal(m, final, id);
    if m.lineage[id].depth == m.lineage[final].depth {
      ChainIsLinear(m, id, final);
    } else {
      var at := ChainPassesThrough(m, final, m.lineage[id].depth);
      ChainIsLinear(m, at, id);
    }
  }
}
