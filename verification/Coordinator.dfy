/**
 * One booking request from start to finish (`book` in src/adapters/coordinator.ts),
 * over the key table, the hosts' calendars and the booking store, with any of its
 * calls allowed to fail.
 */
module Coordinator {
  import opened Common
  import opened Domain
  import opened SlotEngine
  import opened BookingService
  import opened BookingLaws
  import opened Store
  import opened HostCalendar
  import Idempotency
  import LocalDays
  import Buckets
  import Protocol
  import Rotations = RoundRobin

  const LEASE_TTL_MS := 15_000

  /** The answer: a booking, a reason why not, or an error that went up. */
  datatype Outcome = Booked(booking: Booking) | Declined(why: Decline) | Thrown

  datatype Decline = Policy | LeaseFailed | Outside | Taken

  datatype Request = Request(
    key: Option<Idempotency.Key>,
    hash: int,
    leaseId: int,
    eventTypeKnown: bool,
    hostIds: seq<int>,
    booking: BookingRequest)

  /** Which calls fail; a lease release that is lost leaves the lease to expire. */
  datatype Faults = Faults(
    lookupThrows: bool,
    leaseThrowsAt: Option<int>,
    loadThrows: bool,
    commitThrows: bool,
    rotationFails: bool,
    putFails: bool,
    afterThrows: bool,
    lostReleases: set<int>,
    releaseFails: bool,
    repairFails: bool)

  function DeclineFor(refusal: Refusal): Decline {
    match refusal
    case SlotTaken => Taken
    case OutsideAvailability => Outside
    case NoEligibleHost => Outside
    case PolicyRefusal => Policy
  }

  // ---- Rows of the key table --------------------------------------------------------

  function Placeholder(r: Request): Idempotency.Row {
    Idempotency.Row(r.hash, None, r.booking.now + Idempotency.TTL)
  }

  function Recorded(r: Request, id: int): Idempotency.Row {
    Idempotency.Row(r.hash, Some(id), r.booking.now + Idempotency.TTL)
  }

  function Freed(r: Request): Idempotency.Row {
    Idempotency.Row(r.hash, None, r.booking.now)
  }

  /** What a request that won its reservation leaves under its key. */
  function RowLeft(r: Request, written: Option<Booking>, faults: Faults): Idempotency.Row {
    match written
    case Some(b) => if faults.putFails && faults.repairFails then Placeholder(r) else Recorded(r, b.id)
    case None => if faults.releaseFails then Placeholder(r) else Freed(r)
  }

  function RowsLeft(rows: map<Idempotency.Key, Idempotency.Row>, r: Request, written: Option<Booking>, faults: Faults):
    map<Idempotency.Key, Idempotency.Row>
  {
    if r.key.None? then rows else rows[r.key.value := RowLeft(r, written, faults)]
  }

  /** The key table after the last writes of a request. */
  function RowsFinished(
    rows: map<Idempotency.Key, Idempotency.Row>, r: Request, written: Option<Booking>, settled: bool, faults: Faults):
    map<Idempotency.Key, Idempotency.Row>
  {
    if r.key.None? || settled then rows
    else
      match written
      case None => if faults.releaseFails then rows else rows[r.key.value := Freed(r)]
      case Some(b) => if faults.repairFails then rows else rows[r.key.value := Recorded(r, b.id)]
  }

  /** Reserving, recording and the last writes leave the row stated by `RowLeft`. */
  lemma RowsAddUp(
    rows: map<Idempotency.Key, Idempotency.Row>, r: Request, written: Option<Booking>, settled: bool, faults: Faults)
    requires settled == (written.Some? && r.key.Some? && !faults.putFails)
    ensures r.key.Some? ==>
              var k := r.key.value;
              var reserved := rows[k := Placeholder(r)];
              var recorded := if settled then reserved[k := Recorded(r, written.value.id)] else reserved;
              RowsFinished(recorded, r, written, settled, faults) == RowsLeft(rows, r, written, faults)
  {
  }

  /** The reservation is refused: an unexpired row is there. */
  predicate KeyTaken(rows: map<Idempotency.Key, Idempotency.Row>, r: Request, clock: int) {
    r.key.Some? && !Idempotency.Reservable(rows, r.key.value, clock)
  }

  /** The answer to a refused reservation. */
  function ReplyTo(row: Idempotency.Row, r: Request, bookings: map<int, Booking>): Outcome {
    if row.requestHash != r.hash then Declined(Policy)
    else if row.response.Some? && row.response.value in bookings then Booked(bookings[row.response.value])
    else Declined(Policy)
  }

  // ---- Leases -------------------------------------------------------------------------

  predicate NeedsLease(r: Request) {
    r.booking.eventType.schedulingType == Collective && |r.hostIds| > 1
  }

  /** How the walk over the hosts, in ascending order, ended. */
  datatype Walk = Granted | Denied | Threw

  /** The lease row of a host; a calendar starts without one. */
  function RowOf(rows: map<int, Option<Lease>>, host: int): Option<Lease> {
    if host in rows then rows[host] else None
  }

  /** The call for this host's lease fails, or finds it taken by somebody else. */
  predicate Stops(rows: map<int, Option<Lease>>, host: int, leaseId: int, throwsAt: Option<int>, clock: int) {
    throwsAt == Some(host) || LeasedToOther(RowOf(rows, host), leaseId, clock)
  }

  /** The first position from `i` on at which the walk stops, or the end. */
  function HowFar(
    rows: map<int, Option<Lease>>, ordered: seq<int>, i: nat, leaseId: int, throwsAt: Option<int>, clock: int): (n: nat)
    requires i <= |ordered|
    ensures i <= n <= |ordered|
    ensures forall j :: i <= j < n ==> !Stops(rows, ordered[j], leaseId, throwsAt, clock)
    ensures n < |ordered| ==> Stops(rows, ordered[n], leaseId, throwsAt, clock)
    decreases |ordered| - i
  {
    if i == |ordered| || Stops(rows, ordered[i], leaseId, throwsAt, clock) then i
    else HowFar(rows, ordered, i + 1, leaseId, throwsAt, clock)
  }

  /** How a walk ends that has come as far as `n`. */
  function EndAt(ordered: seq<int>, n: nat, throwsAt: Option<int>): Walk
    requires n <= |ordered|
  {
    if n == |ordered| then Granted else if throwsAt == Some(ordered[n]) then Threw else Denied
  }

  function WalkedHosts(r: Request, faults: Faults, rows: map<int, Option<Lease>>, clock: int): seq<int> {
    if !NeedsLease(r) then []
    else
      var ordered := SortInts(r.hostIds);
      ordered[..HowFar(rows, ordered, 0, r.leaseId, faults.leaseThrowsAt, clock)]
  }

  function WalkEnd(r: Request, faults: Faults, rows: map<int, Option<Lease>>, clock: int): Walk {
    if !NeedsLease(r) then Granted
    else
      var ordered := SortInts(r.hostIds);
      EndAt(ordered, HowFar(rows, ordered, 0, r.leaseId, faults.leaseThrowsAt, clock), faults.leaseThrowsAt)
  }

  /** The leases a request gets: it walks its hosts once the event type has been found. */
  function Acquired(r: Request, faults: Faults, rows: map<int, Option<Lease>>, clock: int): seq<int> {
    if faults.lookupThrows || !r.eventTypeKnown then [] else WalkedHosts(r, faults, rows, clock)
  }

  // ---- The outcome ----------------------------------------------------------------------

  datatype Verdict = Wins(booking: Booking, claims: seq<BucketClaim>) | Fails(out: Outcome)

  /** What becomes of a request that holds its reservation. */
  ghost function Decide(r: Request, faults: Faults, rows: map<int, Option<Lease>>, clock: int, db: Db): Verdict {
    if faults.lookupThrows then Fails(Thrown)
    else if !r.eventTypeKnown then Fails(Declined(Policy))
    else
      match WalkEnd(r, faults, rows, clock)
      case Threw => Fails(Thrown)
      case Denied => Fails(Declined(LeaseFailed))
      case Granted => Arbitrate(r, faults, db)
  }

  /** Validation on fresh data, then the batch. */
  ghost function Arbitrate(r: Request, faults: Faults, db: Db): Verdict {
    if faults.loadThrows then Fails(Thrown)
    else if r.booking.hosts == [] then Fails(Declined(Outside))
    else
      match Prepare(r.booking)
      case Refused(reason) => Fails(Declined(DeclineFor(reason)))
      case Prepared(b, claims) =>
        if faults.commitThrows then Fails(Thrown)
        else if CanCreate(db, b, claims) then Wins(b, claims)
        else Fails(Declined(Taken))
  }

  ghost function OutcomeOf(v: Verdict, faults: Faults): Outcome {
    match v
    case Wins(b, _) => if faults.afterThrows then Thrown else Booked(b)
    case Fails(out) => out
  }

  ghost function Written(v: Verdict): Option<Booking> {
    if v.Wins? then Some(v.booking) else None
  }

  ghost function StoreAfter(db: Db, r: Request, v: Verdict): Db {
    if v.Wins? then Created(db, v.booking, v.claims, SlotFootprint(r.booking.eventType, r.booking.start)) else db
  }

  /** The rotation moves for a committed round-robin booking of a team, and only then. */
  ghost function RotationAfter(last: map<int, int>, r: Request, v: Verdict, faults: Faults): map<int, int> {
    if v.Wins? && r.booking.eventType.schedulingType == RoundRobin && r.booking.eventType.ownerTeamId.Some?
       && !faults.rotationFails
    then last[v.booking.hostUserId := r.booking.now]
    else last
  }

  class Desk {
    const store: Repository
    const keys: Idempotency.Table
    const calendars: map<int, Calendar>
    var lastAssigned: map<int, int>

    constructor (store: Repository, keys: Idempotency.Table, calendars: map<int, Calendar>)
      ensures this.store == store && this.keys == keys && this.calendars == calendars && lastAssigned == map[]
    {
      this.store, this.keys, this.calendars, lastAssigned := store, keys, calendars, map[];
    }

    /** Each host has a calendar of its own. */
    ghost predicate Valid()
      reads calendars.Values
    {
      && (forall h, k :: h in calendars && k in calendars && h != k ==> calendars[h] != calendars[k])
      && (forall h :: h in calendars ==> calendars[h].Valid())
    }

    /** The lease rows of all hosts. */
    ghost function LeaseRows(): map<int, Option<Lease>>
      reads calendars.Values
    {
      map h | h in calendars :: calendars[h].lease
    }

    ghost function HoldRows(): map<int, map<int, Hold>>
      reads calendars.Values
    {
      map h | h in calendars :: calendars[h].holds
    }

    method AcquireOne(host: int, leaseId: int, clock: int) returns (ok: bool)
      requires Valid() && host in calendars
      modifies calendars.Values
      ensures Valid() && HoldRows() == old(HoldRows())
      ensures ok == !LeasedToOther(old(LeaseRows())[host], leaseId, clock)
      ensures LeaseRows() == if ok then old(LeaseRows())[host := Some(LeaseFor(leaseId, clock, LEASE_TTL_MS))]
                             else old(LeaseRows())
    {
      ok := calendars[host].AcquireLease(leaseId, LEASE_TTL_MS, clock);
      OthersUntouched(host);
    }

    twostate lemma OthersUntouched(host: int)
      requires old(Valid()) && host in calendars
      requires forall h :: h in calendars && calendars[h] != calendars[host] ==>
                 calendars[h].lease == old(calendars[h].lease)
      ensures LeaseRows() == old(LeaseRows())[host := calendars[host].lease]
    {
      var before, after := old(LeaseRows()), LeaseRows();
      forall h | h in calendars && h != host ensures h in before && h in after && after[h] == before[h] {
        assert calendars[h] != calendars[host];
        assert before[h] == old(calendars[h].lease) && after[h] == calendars[h].lease;
      }
      assert after[host] == calendars[host].lease;
      assert after.Keys == calendars.Keys == before.Keys;
    }

    method ReleaseOne(host: int, leaseId: int)
      requires Valid() && host in calendars
      modifies calendars.Values
      ensures Valid() && HoldRows() == old(HoldRows())
      ensures LeaseRows() == old(LeaseRows())[host := LeaseWithout(old(LeaseRows())[host], leaseId)]
    {
      calendars[host].ReleaseLease(leaseId);
      OthersUntouched(host);
    }

    /** One lease per host, in order, stopping at the first that is not granted. */
    method AcquireAll(ordered: seq<int>, leaseId: int, throwsAt: Option<int>, clock: int)
      returns (acquired: seq<int>, end: Walk)
      requires Valid() && StrictlySorted(ordered) && forall h :: h in ordered ==> h in calendars
      modifies calendars.Values
      ensures Valid() && HoldRows() == old(HoldRows())
      ensures var n := HowFar(old(LeaseRows()), ordered, 0, leaseId, throwsAt, clock);
        acquired == ordered[..n] && end == EndAt(ordered, n, throwsAt)
      ensures LeaseRows() == LeasesTaken(old(LeaseRows()), acquired, leaseId, clock)
    {
      hide Valid, LeasesTaken, LeasedToOther, LeaseFor;
      acquired := [];
      ghost var before := LeaseRows();
      TakeNone(before, leaseId, clock);
      for i := 0 to |ordered|
        invariant Valid() && HoldRows() == old(HoldRows())
        invariant acquired == ordered[..i]
        invariant HowFar(before, ordered, i, leaseId, throwsAt, clock)
                  == HowFar(before, ordered, 0, leaseId, throwsAt, clock)
        invariant LeaseRows() == LeasesTaken(before, acquired, leaseId, clock)
      {
        var host := ordered[i];
        if throwsAt == Some(host) {
          return acquired, Threw;
        }
        TakeOneMore(before, acquired, host, leaseId, clock);
        var ok := AcquireOne(host, leaseId, clock);
        if !ok {
          return acquired, Denied;
        }
        acquired := acquired + [host];
      }
      assert ordered[..|ordered|] == ordered;
      end := Granted;
    }

    /** Giving back what was acquired; a lost call leaves the row to expire. */
    method ReleaseAll(acquired: seq<int>, leaseId: int, lost: set<int>)
      requires Valid() && StrictlySorted(acquired) && forall h :: h in acquired ==> h in calendars
      modifies calendars.Values
      ensures Valid() && HoldRows() == old(HoldRows())
      ensures LeaseRows() == LeasesGiven(old(LeaseRows()), acquired, leaseId, lost)
    {
      hide Valid, LeasesGiven, LeaseWithout;
      ghost var before := LeaseRows();
      GiveNone(before, leaseId, lost);
      for i := 0 to |acquired|
        invariant Valid() && HoldRows() == old(HoldRows())
        invariant LeaseRows() == LeasesGiven(before, acquired[..i], leaseId, lost)
      {
        var host := acquired[i];
        assert acquired[..i + 1] == acquired[..i] + [host];
        GiveOneMore(before, acquired[..i], host, leaseId, lost);
        if host !in lost {
          ReleaseOne(host, leaseId);
        }
      }
      assert acquired[..|acquired|] == acquired;
    }

    ghost predicate ReadyFor(r: Request)
      reads calendars.Values
    {
      && Valid() && ValidRequest(r.booking) && NoRepeats(r.hostIds)
      && forall h :: h in r.hostIds ==> h in calendars
    }

    /** The leases of a collective booking; other bookings take none. */
    method WalkHosts(r: Request, faults: Faults, clock: int) returns (acquired: seq<int>, end: Walk)
      requires ReadyFor(r)
      modifies calendars.Values
      ensures Valid() && HoldRows() == old(HoldRows())
      ensures acquired == WalkedHosts(r, faults, old(LeaseRows()), clock)
      ensures end == WalkEnd(r, faults, old(LeaseRows()), clock)
      ensures StrictlySorted(acquired) && forall h :: h in acquired ==> h in r.hostIds
      ensures LeaseRows() == LeasesTaken(old(LeaseRows()), acquired, r.leaseId, clock)
    {
      hide Valid, LeaseRows, HoldRows, LeasesTaken, HowFar, SortInts, ValidRequest;
      acquired, end := [], Granted;
      TakeNone(LeaseRows(), r.leaseId, clock);
      if NeedsLease(r) {
        var ordered := SortInts(r.hostIds);
        SortedOnce(r.hostIds);
        acquired, end := AcquireAll(ordered, r.leaseId, faults.leaseThrowsAt, clock);
        assert forall h :: h in acquired ==> h in ordered;
      }
    }

    /** The commit and what follows it at once. */
    method Commit(r: Request, b: Booking, claims: seq<BucketClaim>, faults: Faults)
      returns (written: Option<Booking>, settled: bool)
      requires !faults.commitThrows
      modifies store, keys, `lastAssigned
      ensures var f := SlotFootprint(r.booking.eventType, r.booking.start);
        if CanCreate(old(store.View()), b, claims)
        then written == Some(b) && store.View() == Created(old(store.View()), b, claims, f)
        else written == None && store.View() == old(store.View())
      ensures settled == (written.Some? && r.key.Some? && !faults.putFails)
      ensures keys.rows == if settled then old(keys.rows)[r.key.value := Recorded(r, b.id)] else old(keys.rows)
      ensures var v := if written.Some? then Wins(b, claims) else Fails(Declined(Taken));
        lastAssigned == RotationAfter(old(lastAssigned), r, v, faults)
    {
      settled := false;
      written := store.CreateWithLocks(b, claims, SlotFootprint(r.booking.eventType, r.booking.start));
      if written.None? {
        return;
      }
      if r.booking.eventType.schedulingType == RoundRobin && r.booking.eventType.ownerTeamId.Some?
         && !faults.rotationFails
      {
        lastAssigned := lastAssigned[written.value.hostUserId := r.booking.now];
      }
      if r.key.Some? && !faults.putFails {
        keys.Put(r.key.value, Recorded(r, written.value.id));
        settled := true;
      }
    }

    method ValidateAndCommit(r: Request, faults: Faults)
      returns (out: Outcome, written: Option<Booking>, settled: bool)
      requires ValidRequest(r.booking)
      modifies store, keys, `lastAssigned
      ensures var v := Arbitrate(r, faults, old(store.View()));
        && out == OutcomeOf(v, faults) && written == Written(v)
        && store.View() == StoreAfter(old(store.View()), r, v)
        && lastAssigned == RotationAfter(old(lastAssigned), r, v, faults)
      ensures settled == (written.Some? && r.key.Some? && !faults.putFails)
      ensures keys.rows == if settled then old(keys.rows)[r.key.value := Recorded(r, written.value.id)]
                           else old(keys.rows)
    {
      hide Prepare, CanCreate, Created, ValidRequest;
      if faults.loadThrows {
        return Thrown, None, false;
      }
      if |r.booking.hosts| == 0 {
        return Declined(Outside), None, false;
      }
      var prepared := PrepareBooking(r.booking);
      if prepared.Refused? {
        return Declined(DeclineFor(prepared.reason)), None, false;
      }
      if faults.commitThrows {
        return Thrown, None, false;
      }
      written, settled := Commit(r, prepared.booking, prepared.buckets, faults);
      if written.None? {
        out := Declined(Taken);
      } else {
        out := if faults.afterThrows then Thrown else Booked(written.value);
      }
    }

    /** The guarded part of a request: everything after the reservation. */
    method Attempt(r: Request, faults: Faults, clock: int)
      returns (out: Outcome, written: Option<Booking>, settled: bool, acquired: seq<int>)
      requires ReadyFor(r)
      modifies store, keys, calendars.Values, `lastAssigned
      ensures Valid() && HoldRows() == old(HoldRows())
      ensures acquired == Acquired(r, faults, old(LeaseRows()), clock)
      ensures StrictlySorted(acquired) && forall h :: h in acquired ==> h in r.hostIds
      ensures LeaseRows() == LeasesTaken(old(LeaseRows()), acquired, r.leaseId, clock)
      ensures var v := Decide(r, faults, old(LeaseRows()), clock, old(store.View()));
        && out == OutcomeOf(v, faults) && written == Written(v)
        && store.View() == StoreAfter(old(store.View()), r, v)
        && lastAssigned == RotationAfter(old(lastAssigned), r, v, faults)
      ensures settled == (written.Some? && r.key.Some? && !faults.putFails)
      ensures keys.rows == if settled then old(keys.rows)[r.key.value := Recorded(r, written.value.id)]
                           else old(keys.rows)
    {
      hide Arbitrate, LeasesTaken, ValidRequest, Valid, LeaseRows, HoldRows;
      written, settled, acquired := None, false, [];
      TakeNone(LeaseRows(), r.leaseId, clock);
      if faults.lookupThrows {
        return Thrown, None, false, [];
      }
      if !r.eventTypeKnown {
        return Declined(Policy), None, false, [];
      }
      var end;
      acquired, end := WalkHosts(r, faults, clock);
      if end.Threw? {
        return Thrown, None, false, acquired;
      }
      if end.Denied? {
        return Declined(LeaseFailed), None, false, acquired;
      }
      out, written, settled := ValidateAndCommit(r, faults);
    }

    /** What every exit goes through: leases back, then the key freed or its record repaired. */
    method Finish(r: Request, written: Option<Booking>, settled: bool, acquired: seq<int>, faults: Faults)
      requires Valid() && StrictlySorted(acquired) && forall h :: h in acquired ==> h in calendars
      modifies keys, calendars.Values
      ensures Valid() && HoldRows() == old(HoldRows())
      ensures LeaseRows() == LeasesGiven(old(LeaseRows()), acquired, r.leaseId, faults.lostReleases)
      ensures keys.rows == RowsFinished(old(keys.rows), r, written, settled, faults)
    {
      hide LeasesGiven, Valid, LeaseRows, HoldRows;
      ReleaseAll(acquired, r.leaseId, faults.lostReleases);
      if r.key.Some? && !settled && written.None? && !faults.releaseFails {
        keys.Put(r.key.value, Freed(r));
      }
      if r.key.Some? && !settled && written.Some? && !faults.repairFails {
        keys.Put(r.key.value, Recorded(r, written.value.id));
      }
    }

    /**
     * A request, whatever fails on the way: an error or a refusal frees the key and
     * gives back every lease; once a booking is written the key is never freed.
     */
    method Book(r: Request, faults: Faults, clock: int) returns (out: Outcome)
      requires ReadyFor(r)
      modifies store, keys, calendars.Values, `lastAssigned
      ensures Valid() && HoldRows() == old(HoldRows())
      ensures KeyTaken(old(keys.rows), r, clock) ==>
                && out == ReplyTo(old(keys.rows)[r.key.value], r, old(store.bookings))
                && keys.rows == old(keys.rows) && store.View() == old(store.View())
                && LeaseRows() == old(LeaseRows()) && lastAssigned == old(lastAssigned)
      ensures !KeyTaken(old(keys.rows), r, clock) ==>
                var v := Decide(r, faults, old(LeaseRows()), clock, old(store.View()));
                && out == OutcomeOf(v, faults)
                && store.View() == StoreAfter(old(store.View()), r, v)
                && keys.rows == RowsLeft(old(keys.rows), r, Written(v), faults)
                && lastAssigned == RotationAfter(old(lastAssigned), r, v, faults)
                && LeaseRows() == LeasesLeft(old(LeaseRows()), r, faults, clock)
      ensures !KeyTaken(old(keys.rows), r, clock) ==>
                && RightAnswer(old(store.View()), store.View(), r, faults, old(LeaseRows()), clock, out)
                && RightTables(old(store.View()), store.View(), r)
                && RightKey(old(keys.rows), keys.rows, old(store.View()), store.View(), r, faults)
                && RightRotation(old(lastAssigned), lastAssigned, old(store.View()), store.View(), r, faults)
    {
      hide Decide, Acquired, LeasesTaken, LeasesGiven, OutcomeOf, RotationAfter, StoreAfter, Valid, LeaseRows, HoldRows,
           ValidRequest, RightAnswer, RightTables, RightKey, RightRotation;
      if r.key.Some? {
        var claim := keys.Reserve(r.key.value, Placeholder(r), clock);
        if claim.Existing? {
          var prior := claim.row;
          if prior.requestHash != r.hash {
            return Declined(Policy);
          }
          if prior.response.Some? && prior.response.value in store.bookings {
            return Booked(store.bookings[prior.response.value]);
          }
          return Declined(Policy);
        }
      }
      var written, settled, acquired;
      out, written, settled, acquired := Attempt(r, faults, clock);
      Finish(r, written, settled, acquired, faults);
      RowsAddUp(old(keys.rows), r, written, settled, faults);
      AnswerIsRight(old(store.View()), r, faults, old(LeaseRows()), clock);
      WritesAreRight(old(store.View()), r, faults, old(LeaseRows()), clock, old(keys.rows), old(lastAssigned));
    }
  }

  ghost function LeasesTaken(rows: map<int, Option<Lease>>, acquired: seq<int>, leaseId: int, clock: int):
    map<int, Option<Lease>>
  {
    map h | h in rows :: if h in acquired then Some(LeaseFor(leaseId, clock, LEASE_TTL_MS)) else rows[h]
  }

  ghost function LeasesGiven(rows: map<int, Option<Lease>>, acquired: seq<int>, leaseId: int, lost: set<int>):
    map<int, Option<Lease>>
  {
    map h | h in rows :: if h in acquired && h !in lost then LeaseWithout(rows[h], leaseId) else rows[h]
  }

  /** The lease rows once a request is over. */
  ghost function LeasesLeft(rows: map<int, Option<Lease>>, r: Request, faults: Faults, clock: int):
    map<int, Option<Lease>>
  {
    var acquired := Acquired(r, faults, rows, clock);
    LeasesGiven(LeasesTaken(rows, acquired, r.leaseId, clock), acquired, r.leaseId, faults.lostReleases)
  }

  lemma TakeNone(rows: map<int, Option<Lease>>, leaseId: int, clock: int)
    ensures LeasesTaken(rows, [], leaseId, clock) == rows
  {
  }

  lemma TakeOneMore(rows: map<int, Option<Lease>>, acquired: seq<int>, host: int, leaseId: int, clock: int)
    requires host in rows && host !in acquired
    ensures host in LeasesTaken(rows, acquired, leaseId, clock)
    ensures LeasesTaken(rows, acquired, leaseId, clock)[host] == rows[host]
    ensures LeasesTaken(rows, acquired + [host], leaseId, clock) ==
            LeasesTaken(rows, acquired, leaseId, clock)[host := Some(LeaseFor(leaseId, clock, LEASE_TTL_MS))]
  {
    hide LeaseFor;
  }

  lemma GiveNone(rows: map<int, Option<Lease>>, leaseId: int, lost: set<int>)
    ensures LeasesGiven(rows, [], leaseId, lost) == rows
  {
  }

  lemma GiveOneMore(rows: map<int, Option<Lease>>, acquired: seq<int>, host: int, leaseId: int, lost: set<int>)
    requires host in rows && host !in acquired
    ensures host in LeasesGiven(rows, acquired, leaseId, lost)
    ensures LeasesGiven(rows, acquired, leaseId, lost)[host] == rows[host]
    ensures LeasesGiven(rows, acquired + [host], leaseId, lost) ==
            if host in lost then LeasesGiven(rows, acquired, leaseId, lost)
            else LeasesGiven(rows, acquired, leaseId, lost)[host := LeaseWithout(rows[host], leaseId)]
  {
    hide LeaseWithout;
  }

  // ---- What a request is answered ------------------------------------------------------------

  /** `b` is in the table now and its id was not before. */
  predicate IsNew(before: Db, after: Db, b: Booking) {
    b.id !in before.bookings && b.id in after.bookings && after.bookings[b.id] == b
  }

  /** A meeting of several hosts at once. */
  predicate OfSeveral(r: Request) {
    r.booking.eventType.schedulingType == Collective && 2 <= |r.hostIds|
  }

  /** A host whose lease the request cannot get: its call fails, or somebody else's lease there has time left. */
  predicate InTheWay(rows: map<int, Option<Lease>>, h: int, leaseId: int, throwsAt: Option<int>, clock: int) {
    throwsAt == Some(h)
    || (h in rows && rows[h].Some? && rows[h].value.leaseId != leaseId && clock < rows[h].value.expiresAt)
  }

  /** The lowest host id in the way. */
  ghost predicate FirstInTheWay(r: Request, faults: Faults, rows: map<int, Option<Lease>>, clock: int, next: int) {
    && next in r.hostIds && InTheWay(rows, next, r.leaseId, faults.leaseThrowsAt, clock)
    && forall h :: h in r.hostIds && h < next ==> !InTheWay(rows, h, r.leaseId, faults.leaseThrowsAt, clock)
  }

  lemma FirstStopIsInTheWay(r: Request, faults: Faults, rows: map<int, Option<Lease>>, clock: int)
    ensures forall h :: Stops(rows, h, r.leaseId, faults.leaseThrowsAt, clock)
                        <==> InTheWay(rows, h, r.leaseId, faults.leaseThrowsAt, clock)
    ensures forall h :: FirstStop(r, faults, rows, clock, h) <==> FirstInTheWay(r, faults, rows, clock, h)
  {
  }

  /** The event type is found and no host stands in the way of the leases. */
  ghost predicate GetsLeases(r: Request, faults: Faults, rows: map<int, Option<Lease>>, clock: int) {
    && !faults.lookupThrows && r.eventTypeKnown
    && (OfSeveral(r) ==> forall h :: h in r.hostIds ==> !InTheWay(rows, h, r.leaseId, faults.leaseThrowsAt, clock))
  }

  /** And there are hosts to look at. */
  ghost predicate GetsHosts(r: Request, faults: Faults, rows: map<int, Option<Lease>>, clock: int) {
    GetsLeases(r, faults, rows, clock) && !faults.loadThrows && r.booking.hosts != []
  }

  /** The id or a row to be locked is there already, or the batch asks for one twice. */
  ghost predicate Collides(db: Db, b: Booking, claims: seq<BucketClaim>) {
    b.id in db.bookings || !NoRepeats(claims) || exists c :: c in claims && c in db.locks
  }

  /** The request gets as far as its batch, and the batch goes through. */
  ghost predicate IsWritten(db: Db, r: Request, faults: Faults, rows: map<int, Option<Lease>>, clock: int) {
    && GetsHosts(r, faults, rows, clock) && Prepare(r.booking).Prepared? && !faults.commitThrows
    && !Collides(db, Prepare(r.booking).booking, Prepare(r.booking).buckets)
  }

  /** The call for the lease of the lowest host that stops the walk is the one that fails. */
  ghost predicate LeaseThrows(r: Request, faults: Faults, rows: map<int, Option<Lease>>, clock: int) {
    OfSeveral(r) && exists next :: FirstInTheWay(r, faults, rows, clock, next) && faults.leaseThrowsAt == Some(next)
  }

  /** That host is leased to somebody else. */
  ghost predicate LeaseRefused(r: Request, faults: Faults, rows: map<int, Option<Lease>>, clock: int) {
    OfSeveral(r) && exists next :: FirstInTheWay(r, faults, rows, clock, next) && faults.leaseThrowsAt != Some(next)
  }

  /**
   * The answer to a request that holds its reservation, whichever it is: a booking exactly
   * when that booking is new in the table and nothing failed after, and every refusal and
   * error exactly for its cause.
   */
  ghost predicate RightAnswer(
    before: Db, after: Db, r: Request, faults: Faults, rows: map<int, Option<Lease>>, clock: int, out: Outcome)
  {
    var req := r.booking;
    && (forall b :: out == Booked(b) <==> IsNew(before, after, b) && !faults.afterThrows)
    && (forall b :: IsNew(before, after, b) <==>
          IsWritten(before, r, faults, rows, clock) && b == Prepare(req).booking)
    && (out == Declined(Taken) <==>
          && GetsHosts(r, faults, rows, clock)
          && ((req.eventType.active && TimeIsTaken(req))
              || (Prepare(req).Prepared? && !faults.commitThrows
                  && Collides(before, Prepare(req).booking, Prepare(req).buckets))))
    && (out == Declined(Outside) <==>
          && GetsLeases(r, faults, rows, clock) && !faults.loadThrows
          && (req.hosts == [] || (req.eventType.active && TimeIsOutside(req))))
    && (out == Declined(Policy) <==>
          !faults.lookupThrows && (r.eventTypeKnown ==> GetsHosts(r, faults, rows, clock) && !req.eventType.active))
    && (out == Declined(LeaseFailed) <==>
          !faults.lookupThrows && r.eventTypeKnown && LeaseRefused(r, faults, rows, clock))
    && (out == Thrown <==>
          || faults.lookupThrows
          || (r.eventTypeKnown && LeaseThrows(r, faults, rows, clock))
          || (GetsLeases(r, faults, rows, clock) && faults.loadThrows)
          || (GetsHosts(r, faults, rows, clock) && CanBePrepared(req) && faults.commitThrows)
          || (IsWritten(before, r, faults, rows, clock) && faults.afterThrows))
  }

  /** How a walk that needs leases ends, by its first stop. */
  lemma WalkEndIff(r: Request, faults: Faults, rows: map<int, Option<Lease>>, clock: int)
    requires NoRepeats(r.hostIds)
    ensures WalkEnd(r, faults, rows, clock).Granted? <==>
              OfSeveral(r) ==> forall h :: h in r.hostIds ==> !InTheWay(rows, h, r.leaseId, faults.leaseThrowsAt, clock)
    ensures WalkEnd(r, faults, rows, clock).Threw? <==> LeaseThrows(r, faults, rows, clock)
    ensures WalkEnd(r, faults, rows, clock).Denied? <==> LeaseRefused(r, faults, rows, clock)
  {
    hide WalkEnd, WalkedHosts, FirstStop, FirstInTheWay, Stops, InTheWay;
    FirstStopIsInTheWay(r, faults, rows, clock);
    if NeedsLease(r) {
      WalkCompletes(r, faults, rows, clock);
      forall next | FirstStop(r, faults, rows, clock, next)
        ensures WalkEnd(r, faults, rows, clock) == if faults.leaseThrowsAt == Some(next) then Threw else Denied
      {
        WalkStops(r, faults, rows, clock, next);
      }
    } else {
      NoLeaseNoStop(r, faults, rows, clock);
    }
  }

  lemma CreatesUnlessCollides(db: Db, b: Booking, claims: seq<BucketClaim>)
    ensures CanCreate(db, b, claims) <==> !Collides(db, b, claims)
  {
  }

  lemma NewIsCreated(db: Db, r: Request, b: Booking, claims: seq<BucketClaim>)
    requires b.id !in db.bookings
    ensures forall x :: IsNew(db, StoreAfter(db, r, Wins(b, claims)), x) <==> x == b
  {
    hide WithClaims;
  }

  lemma NothingIsNew(db: Db)
    ensures forall b :: !IsNew(db, db, b)
  {
  }

  lemma AnswerIsRight(db: Db, r: Request, faults: Faults, rows: map<int, Option<Lease>>, clock: int)
    requires NoRepeats(r.hostIds)
    ensures var v := Decide(r, faults, rows, clock, db);
      RightAnswer(db, StoreAfter(db, r, v), r, faults, rows, clock, OutcomeOf(v, faults))
  {
    hide WalkEnd, LeaseThrows, LeaseRefused, OfSeveral, InTheWay, Prepare, TimeIsTaken, TimeIsOutside, CanBePrepared,
         CanCreate, Collides, StoreAfter, IsNew;
    WalkEndIff(r, faults, rows, clock);
    AnswerIff(r.booking);
    NothingIsNew(db);
    NotWritten(db, r, Fails(Thrown));
    var v := Decide(r, faults, rows, clock, db);
    if v.Fails? {
      NotWritten(db, r, v);
    }
    if Prepare(r.booking).Prepared? {
      var b, claims := Prepare(r.booking).booking, Prepare(r.booking).buckets;
      CreatesUnlessCollides(db, b, claims);
      if CanCreate(db, b, claims) {
        CreatedIsNew(db, r, b, claims);
      }
    }
  }

  lemma NotWritten(db: Db, r: Request, v: Verdict)
    requires v.Fails?
    ensures StoreAfter(db, r, v) == db
  {
  }

  lemma CreatedIsNew(db: Db, r: Request, b: Booking, claims: seq<BucketClaim>)
    requires CanCreate(db, b, claims)
    ensures forall x :: IsNew(db, StoreAfter(db, r, Wins(b, claims)), x) <==> x == b
  {
    NewIsCreated(db, r, b, claims);
  }

  /**
   * What a request does to the tables: nothing, or one new booking of the right hosts with
   * exactly the rows it must lock, and every row that was there stays.
   */
  ghost predicate RightTables(before: Db, after: Db, r: Request) {
    && (forall id :: id in before.bookings ==> id in after.bookings && after.bookings[id] == before.bookings[id])
    && (forall c :: c in before.locks ==> c in after.locks && after.locks[c] == before.locks[c])
    && ((forall b :: !IsNew(before, after, b)) ==> after == before)
    && (forall b :: IsNew(before, after, b) ==>
          && after.bookings.Keys == before.bookings.Keys + {b.id}
          && RightHosts(r.booking, b.hostUserIds)
          && forall c :: c in after.locks && c !in before.locks <==> MustLock(r.booking, b.hostUserIds, c))
    && (forall b, c :: IsNew(before, after, b) && c in after.locks && c !in before.locks ==> after.locks[c] == b.id)
  }

  /**
   * The row of the request's key, other keys untouched: the booking recorded for a day if
   * there is a new one and one of the two writes succeeded; free at once if there is none
   * and the release succeeded; else the placeholder, for a day.
   */
  ghost predicate RightKey(
    rows: map<Idempotency.Key, Idempotency.Row>, rows': map<Idempotency.Key, Idempotency.Row>,
    before: Db, after: Db, r: Request, faults: Faults)
  {
    match r.key
    case None => rows' == rows
    case Some(k) =>
      && rows'.Keys == rows.Keys + {k}
      && (forall x :: x in rows && x != k ==> rows'[x] == rows[x])
      && rows'[k].requestHash == r.hash
      && (forall b :: IsNew(before, after, b) ==>
            && rows'[k].expiresAt == r.booking.now + 86_400_000
            && rows'[k].response == if faults.putFails && faults.repairFails then None else Some(b.id))
      && ((forall b :: !IsNew(before, after, b)) ==>
            && rows'[k].response == None
            && rows'[k].expiresAt == r.booking.now + if faults.releaseFails then 86_400_000 else 0)
  }

  /** A new round-robin booking of a team is remembered as its host's last, and nothing else is. */
  ghost predicate RightRotation(
    last: map<int, int>, last': map<int, int>, before: Db, after: Db, r: Request, faults: Faults)
  {
    var kept := r.booking.eventType.schedulingType != RoundRobin || r.booking.eventType.ownerTeamId.None?
                || faults.rotationFails;
    && (kept || (forall b :: !IsNew(before, after, b)) ==> last' == last)
    && (!kept ==> forall b :: IsNew(before, after, b) ==> last' == last[b.hostUserId := r.booking.now])
  }

  lemma WritesAreRight(
    db: Db, r: Request, faults: Faults, rows: map<int, Option<Lease>>, clock: int,
    keys: map<Idempotency.Key, Idempotency.Row>, last: map<int, int>)
    requires ValidRequest(r.booking)
    ensures var v := Decide(r, faults, rows, clock, db); var d := StoreAfter(db, r, v);
      && RightTables(db, d, r)
      && RightKey(keys, RowsLeft(keys, r, Written(v), faults), db, d, r, faults)
      && RightRotation(last, RotationAfter(last, r, v, faults), db, d, r, faults)
  {
    hide Decide, RightTables, RightKey, RightRotation, StoreAfter, RowsLeft, RotationAfter, ValidRequest;
    var v := Decide(r, faults, rows, clock, db);
    if v.Fails? {
      FailureWritesNothing(db, r, faults, v, keys, last);
    } else {
      WinsArePrepared(r, faults, rows, clock, db);
      SuccessWrites(db, r, faults, v.booking, v.claims, keys, last);
      SuccessLocks(db, r, v.booking, v.claims);
    }
  }

  lemma WinsArePrepared(r: Request, faults: Faults, rows: map<int, Option<Lease>>, clock: int, db: Db)
    requires Decide(r, faults, rows, clock, db).Wins?
    ensures var v := Decide(r, faults, rows, clock, db);
      Prepare(r.booking) == Prepared(v.booking, v.claims) && CanCreate(db, v.booking, v.claims)
  {
    hide Prepare, CanCreate, WalkEnd;
  }

  lemma FailureWritesNothing(
    db: Db, r: Request, faults: Faults, v: Verdict, keys: map<Idempotency.Key, Idempotency.Row>, last: map<int, int>)
    requires v.Fails?
    ensures RightTables(db, StoreAfter(db, r, v), r)
    ensures RightKey(keys, RowsLeft(keys, r, Written(v), faults), db, StoreAfter(db, r, v), r, faults)
    ensures RightRotation(last, RotationAfter(last, r, v, faults), db, StoreAfter(db, r, v), r, faults)
  {
    hide RightHosts, MustLock;
    NothingIsNew(db);
  }

  lemma SuccessWrites(
    db: Db, r: Request, faults: Faults, b: Booking, claims: seq<BucketClaim>,
    keys: map<Idempotency.Key, Idempotency.Row>, last: map<int, int>)
    requires CanCreate(db, b, claims)
    ensures var v := Wins(b, claims); var d := StoreAfter(db, r, v);
      && RightKey(keys, RowsLeft(keys, r, Written(v), faults), db, d, r, faults)
      && RightRotation(last, RotationAfter(last, r, v, faults), db, d, r, faults)
  {
    hide StoreAfter, IsNew;
    CreatedIsNew(db, r, b, claims);
    assert IsNew(db, StoreAfter(db, r, Wins(b, claims)), b);
  }

  lemma SuccessLocks(db: Db, r: Request, b: Booking, claims: seq<BucketClaim>)
    requires ValidRequest(r.booking) && Prepare(r.booking) == Prepared(b, claims) && CanCreate(db, b, claims)
    ensures RightTables(db, StoreAfter(db, r, Wins(b, claims)), r)
  {
    hide Prepare, RightHosts, MustLock, ValidRequest, IsNew;
    CreatedIsNew(db, r, b, claims);
    assert IsNew(db, StoreAfter(db, r, Wins(b, claims)), b);
    RightParticipants(r.booking);
    RightBooking(r.booking);
  }

  /** Recording the assignment is what the rotation calls advancing. */
  lemma RotationAdvances(r: Request, faults: Faults, rows: map<int, Option<Lease>>, clock: int, db: Db)
    requires Decide(r, faults, rows, clock, db).Wins? && r.booking.eventType.schedulingType == RoundRobin
    requires r.booking.eventType.ownerTeamId.Some? && !faults.rotationFails
    ensures var v := Decide(r, faults, rows, clock, db);
      var eligible := HostIds(Accepting(r.booking, |r.booking.hosts|));
      && eligible != []
      && RotationAfter(r.booking.rotation.last, r, v, faults)
         == Rotations.Advance(r.booking.rotation, r.booking.now, eligible).last
  {
    hide Decide, Accepts, Rotations.Chosen, Rotations.Advance, LocalDays.LocalDate, Claims, Buckets.BucketsOf;
    WinsArePrepared(r, faults, rows, clock, db);
    var eligible := Accepting(r.booking, |r.booking.hosts|);
    var id := Rotations.Chosen(r.booking.rotation, r.booking.now, HostIds(eligible));
    ChosenIsThere(r.booking, eligible);
    IndexIsHost(eligible, id);
    AdvanceRemembers(r.booking.rotation, r.booking.now, HostIds(eligible));
  }

  lemma AdvanceRemembers(r: Rotations.Rotation, now: int, eligible: seq<int>)
    requires eligible != []
    ensures Rotations.Advance(r, now, eligible).last == r.last[Rotations.Chosen(r, now, eligible) := now]
  {
  }

  // ---- What a request amounts to ------------------------------------------------------------

  /** `next` is the host the walk stops at: it stops there, and at no host before. */
  ghost predicate FirstStop(r: Request, faults: Faults, rows: map<int, Option<Lease>>, clock: int, next: int) {
    && next in r.hostIds && Stops(rows, next, r.leaseId, faults.leaseThrowsAt, clock)
    && forall h :: h in r.hostIds && h < next ==> !Stops(rows, h, r.leaseId, faults.leaseThrowsAt, clock)
  }

  /** The walk stops at the lowest host id that stops it, with the leases of those below. */
  lemma WalkStops(r: Request, faults: Faults, rows: map<int, Option<Lease>>, clock: int, next: int)
    requires NoRepeats(r.hostIds) && NeedsLease(r) && FirstStop(r, faults, rows, clock, next)
    ensures WalkEnd(r, faults, rows, clock) == if faults.leaseThrowsAt == Some(next) then Threw else Denied
    ensures forall h :: h in WalkedHosts(r, faults, rows, clock) <==> h in r.hostIds && h < next
  {
    hide SortInts, LeasedToOther, HowFar, Stops;
    var ordered := SortInts(r.hostIds);
    SortedOnce(r.hostIds);
    var n := HowFar(rows, ordered, 0, r.leaseId, faults.leaseThrowsAt, clock);
    var m :| 0 <= m < |ordered| && ordered[m] == next;
    assert forall j :: 0 <= j < |ordered| ==> ordered[j] in r.hostIds by {
      assert forall j :: 0 <= j < |ordered| ==> ordered[j] in ordered;
    }
    assert n == m;
    assert forall j :: 0 <= j < n ==> ordered[..n][j] == ordered[j];
  }

  /** It comes to the end exactly when no host stops it, and then has every lease. */
  lemma WalkCompletes(r: Request, faults: Faults, rows: map<int, Option<Lease>>, clock: int)
    requires NoRepeats(r.hostIds) && NeedsLease(r)
    ensures WalkEnd(r, faults, rows, clock).Granted? <==> forall next :: !FirstStop(r, faults, rows, clock, next)
    ensures WalkEnd(r, faults, rows, clock).Granted? <==>
              forall h :: h in r.hostIds ==> !Stops(rows, h, r.leaseId, faults.leaseThrowsAt, clock)
    ensures WalkEnd(r, faults, rows, clock).Granted? ==>
              forall h :: h in r.hostIds ==> h in WalkedHosts(r, faults, rows, clock)
  {
    hide SortInts, LeasedToOther, HowFar, Stops;
    var ordered := SortInts(r.hostIds);
    SortedOnce(r.hostIds);
    var n := HowFar(rows, ordered, 0, r.leaseId, faults.leaseThrowsAt, clock);
    assert forall j :: 0 <= j < |ordered| ==> ordered[j] in ordered;
    if n < |ordered| {
      assert FirstStop(r, faults, rows, clock, ordered[n]);
    } else {
      assert ordered[..n] == ordered;
    }
  }

  /**
   * When a request is declined for a lease: a known collective event type of several
   * hosts, and the lowest host id that stops the walk is leased to somebody else and
   * its call did not fail. Nothing else, and always then.
   */
  lemma LeaseFailureIff(r: Request, faults: Faults, rows: map<int, Option<Lease>>, clock: int, db: Db)
    requires NoRepeats(r.hostIds)
    ensures Decide(r, faults, rows, clock, db) == Fails(Declined(LeaseFailed)) <==>
            && !faults.lookupThrows && r.eventTypeKnown && NeedsLease(r)
            && exists next :: FirstStop(r, faults, rows, clock, next) && faults.leaseThrowsAt != Some(next)
  {
    hide Arbitrate, WalkEnd, WalkedHosts, FirstStop, NeedsLease;
    ArbitrationIsNotALease(r, faults, db);
    if NeedsLease(r) {
      WalkCompletes(r, faults, rows, clock);
      if next :| FirstStop(r, faults, rows, clock, next) {
        WalkStops(r, faults, rows, clock, next);
      }
      forall next | FirstStop(r, faults, rows, clock, next) && faults.leaseThrowsAt != Some(next)
        ensures WalkEnd(r, faults, rows, clock).Denied?
      {
        WalkStops(r, faults, rows, clock, next);
      }
    } else {
      NoLeaseNoStop(r, faults, rows, clock);
    }
  }

  lemma NoLeaseNoStop(r: Request, faults: Faults, rows: map<int, Option<Lease>>, clock: int)
    requires !NeedsLease(r)
    ensures WalkEnd(r, faults, rows, clock).Granted? && WalkedHosts(r, faults, rows, clock) == []
  {
  }

  lemma ArbitrationIsNotALease(r: Request, faults: Faults, db: Db)
    ensures Arbitrate(r, faults, db) != Fails(Declined(LeaseFailed))
  {
    hide Prepare, CanCreate;
  }

  /** No lease of a finished request is left, except where its release was lost. */
  lemma LeasesComeBack(rows: map<int, Option<Lease>>, acquired: seq<int>, leaseId: int, clock: int, lost: set<int>)
    ensures var after := LeasesGiven(LeasesTaken(rows, acquired, leaseId, clock), acquired, leaseId, lost);
      && after.Keys == rows.Keys
      && forall h :: h in rows ==>
           after[h] == if h !in acquired then rows[h]
                       else if h in lost then Some(Lease(leaseId, clock + 15_000)) else None
  {
  }

  /** The state after some steps, if each was enabled in turn. */
  function Played(s: Idempotency.State, actions: seq<Idempotency.Action>): Option<Idempotency.State>
    decreases |actions|
  {
    if actions == [] then Some(s)
    else if Idempotency.Enabled(s, actions[0]) then Played(Idempotency.Next(s, actions[0]), actions[1..])
    else None
  }

  lemma PlayedStep(s: Idempotency.State, action: Idempotency.Action, rest: seq<Idempotency.Action>)
    requires Idempotency.Enabled(s, action)
    ensures Played(s, [action] + rest) == Played(Idempotency.Next(s, action), rest)
  {
    hide Idempotency.Enabled, Idempotency.Next;
    assert ([action] + rest)[1..] == rest;
  }

  /** The steps of a request on its key. */
  function KeyActions(a: int, r: Request, clock: int, written: Option<Booking>, faults: Faults): seq<Idempotency.Action>
    requires r.key.Some?
  {
    [Idempotency.Begin(a, r.key.value, r.hash)] + ([Idempotency.Tick(clock)] + ([Idempotency.Reserve(a)]
    + LaterActions(a, written, faults)))
  }

  function LaterActions(a: int, written: Option<Booking>, faults: Faults): seq<Idempotency.Action> {
    match written
    case None => [Idempotency.Fail(a)] + ([Idempotency.Release(a, !faults.releaseFails)] + [])
    case Some(b) =>
      [Idempotency.Commit(a, b.id)] + ([Idempotency.Record(a, !faults.putFails)]
      + if faults.putFails then [Idempotency.Repair(a, !faults.repairFails)] + [] else [])
  }

  /**
   * A request on a key is a run of the key machine: what `Book` leaves in the table
   * is what the machine's steps leave, whichever writes fail.
   */
  lemma BookRunsTheKeyMachine(
    s: Idempotency.State, a: int, r: Request, clock: int, written: Option<Booking>, faults: Faults)
    requires r.key.Some? && a !in s.attempts && s.clock == r.booking.now <= clock < r.booking.now + Idempotency.TTL
    requires !KeyTaken(s.rows, r, clock)
    ensures var end := Played(s, KeyActions(a, r, clock, written, faults));
      && end.Some? && end.value.rows == RowsLeft(s.rows, r, written, faults)
      && a in end.value.attempts && Idempotency.HasCommitted(end.value.attempts[a]) == written.Some?
      && (written.Some? ==> Idempotency.BookingOf(end.value.attempts[a]) == written.value.id)
  {
    hide Played;
    var later := LaterActions(a, written, faults);
    var s1 := Idempotency.Next(s, Idempotency.Begin(a, r.key.value, r.hash));
    var s2 := Idempotency.Next(s1, Idempotency.Tick(clock));
    var s3 := Idempotency.Next(s2, Idempotency.Reserve(a));
    PlayedStep(s, Idempotency.Begin(a, r.key.value, r.hash),
               [Idempotency.Tick(clock)] + ([Idempotency.Reserve(a)] + later));
    PlayedStep(s1, Idempotency.Tick(clock), [Idempotency.Reserve(a)] + later);
    PlayedStep(s2, Idempotency.Reserve(a), later);
    LaterStepsRun(s3, a, r, written, faults);
    assert s3.rows == s.rows[r.key.value := Placeholder(r)];
  }

  lemma LaterStepsRun(s: Idempotency.State, a: int, r: Request, written: Option<Booking>, faults: Faults)
    requires r.key.Some? && a in s.attempts && Idempotency.InTime(s, a) && s.attempts[a].phase.Working?
    requires s.attempts[a].key == r.key.value && s.attempts[a].requestHash == r.hash
    requires s.attempts[a].now == r.booking.now
    requires r.key.value in s.rows && s.rows[r.key.value] == Placeholder(r)
    ensures var end := Played(s, LaterActions(a, written, faults));
      && end.Some? && end.value.rows == s.rows[r.key.value := RowLeft(r, written, faults)]
      && a in end.value.attempts && Idempotency.HasCommitted(end.value.attempts[a]) == written.Some?
      && (written.Some? ==> Idempotency.BookingOf(end.value.attempts[a]) == written.value.id)
  {
    hide Played, LaterActions;
    match written
    case None => FailureStepsRun(s, a, r, faults);
    case Some(b) => SuccessStepsRun(s, a, r, b, faults);
  }

  lemma FailureStepsRun(s: Idempotency.State, a: int, r: Request, faults: Faults)
    requires r.key.Some? && a in s.attempts && Idempotency.InTime(s, a) && s.attempts[a].phase.Working?
    requires s.attempts[a].key == r.key.value && s.attempts[a].requestHash == r.hash
    requires s.attempts[a].now == r.booking.now
    requires r.key.value in s.rows && s.rows[r.key.value] == Placeholder(r)
    ensures var end := Played(s, LaterActions(a, None, faults));
      && end.Some? && end.value.rows == s.rows[r.key.value := RowLeft(r, None, faults)]
      && a in end.value.attempts && !Idempotency.HasCommitted(end.value.attempts[a])
  {
    hide Played;
    var s1 := Idempotency.Next(s, Idempotency.Fail(a));
    PlayedStep(s, Idempotency.Fail(a), [Idempotency.Release(a, !faults.releaseFails)] + []);
    PlayedStep(s1, Idempotency.Release(a, !faults.releaseFails), []);
    PlayedNothing(Idempotency.Next(s1, Idempotency.Release(a, !faults.releaseFails)));
  }

  lemma SuccessStepsRun(s: Idempotency.State, a: int, r: Request, b: Booking, faults: Faults)
    requires r.key.Some? && a in s.attempts && Idempotency.InTime(s, a) && s.attempts[a].phase.Working?
    requires s.attempts[a].key == r.key.value && s.attempts[a].requestHash == r.hash
    requires s.attempts[a].now == r.booking.now
    requires r.key.value in s.rows && s.rows[r.key.value] == Placeholder(r)
    ensures var end := Played(s, LaterActions(a, Some(b), faults));
      && end.Some? && end.value.rows == s.rows[r.key.value := RowLeft(r, Some(b), faults)]
      && a in end.value.attempts && Idempotency.HasCommitted(end.value.attempts[a])
      && Idempotency.BookingOf(end.value.attempts[a]) == b.id
  {
    hide Played;
    var record := Idempotency.Record(a, !faults.putFails);
    var s1 := Idempotency.Next(s, Idempotency.Commit(a, b.id));
    var s2 := Idempotency.Next(s1, record);
    var rest := if faults.putFails then [Idempotency.Repair(a, !faults.repairFails)] + [] else [];
    PlayedStep(s, Idempotency.Commit(a, b.id), [record] + rest);
    PlayedStep(s1, record, rest);
    if faults.putFails {
      PlayedStep(s2, Idempotency.Repair(a, !faults.repairFails), []);
      PlayedNothing(Idempotency.Next(s2, Idempotency.Repair(a, !faults.repairFails)));
    } else {
      PlayedNothing(s2);
    }
  }

  lemma PlayedNothing(s: Idempotency.State)
    ensures Played(s, []) == Some(s)
  {
  }

  /** A refused reservation is answered as the key machine answers it. */
  lemma ReplyIsTheMachines(row: Idempotency.Row, r: Request, bookings: map<int, Booking>)
    ensures ReplyTo(row, r, bookings) ==
            match Idempotency.Answer(row, r.hash)
            case Replayed(id) => if id in bookings then Booked(bookings[id]) else Declined(Policy)
            case InProgress => Declined(Policy)
            case KeyReused => Declined(Policy)
  {
  }

  /**
   * A request that writes a booking is a begin, a preparation and a commit of the
   * protocol, so everything proved of runs holds of it.
   */
  lemma BookRunsTheProtocol(
    s: Protocol.State, a: int, r: Request, faults: Faults, rows: map<int, Option<Lease>>, clock: int, at: int)
    returns (run: seq<Protocol.State>)
    requires a !in s.attempts && s.clock == r.booking.now <= at <= r.booking.now + Protocol.COMMIT_LIMIT
    requires ValidRequest(r.booking) && DistinctHosts(r.booking.hosts)
    requires r.booking.rescheduleOf.Some? ==> r.booking.rescheduleOf.value in s.db.bookings
    requires Decide(r, faults, rows, clock, s.db).Wins?
    ensures |run| == 5 && run[0] == s
    ensures Protocol.Step(run[0], run[1], Protocol.DoBegin(a, r.booking.rescheduleOf))
    ensures Protocol.Step(run[1], run[2], Protocol.DoPrepare(a, r.booking))
    ensures Protocol.Step(run[2], run[3], Protocol.DoTick)
    ensures Protocol.Step(run[3], run[4], Protocol.DoCommit(a))
    ensures run[4].db == StoreAfter(s.db, r, Decide(r, faults, rows, clock, s.db))
  {
    hide Prepare, CanCreate, Created, ValidRequest, DistinctHosts;
    var v := Decide(r, faults, rows, clock, s.db);
    var f := SlotFootprint(r.booking.eventType, r.booking.start);
    var s1 := s.(attempts := s.attempts[a := Protocol.Attempt(s.clock, r.booking.rescheduleOf, Protocol.Preparing)]);
    var s2 := s1.(attempts := Protocol.At(s1, a, Protocol.Ready(v.booking, v.claims, f)));
    var s3 := s2.(clock := at);
    var next := if r.booking.rescheduleOf.Some? then Protocol.Marking(v.booking.id) else Protocol.Ended;
    var s4 := s3.(db := Created(s3.db, v.booking, v.claims, f), attempts := Protocol.At(s3, a, next));
    run := [s, s1, s2, s3, s4];
  }
}
