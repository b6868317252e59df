/** The per-host Durable Object: holds, the lease and the alarm (src/do/host-calendar.ts). */
module HostCalendar {
  import opened Common

  const MIN_HOLD_MS := 30_000
  const MAX_HOLD_MS := 10 * MINUTE
  const MAX_LEASE_MS := 60_000

  datatype Hold = Hold(start: int, end: int, expiresAt: int)

  datatype Lease = Lease(leaseId: int, expiresAt: int)

  /** Somebody else holds the lease and it has not run out. */
  predicate LeasedToOther(lease: Option<Lease>, leaseId: int, now: int) {
    lease.Some? && lease.value.expiresAt > now && lease.value.leaseId != leaseId
  }

  function LeaseFor(leaseId: int, now: int, ttl: int): Lease {
    Lease(leaseId, now + Min(ttl, MAX_LEASE_MS))
  }

  /** Releasing removes only one's own lease. */
  function LeaseWithout(lease: Option<Lease>, leaseId: int): Option<Lease> {
    if lease.Some? && lease.value.leaseId == leaseId then None else lease
  }

  /** What happens to a host's lease. */
  datatype LeaseCall = Take(leaseId: int, ttl: int) | GiveBack(leaseId: int) | Wake

  function LeaseAfter(lease: Option<Lease>, call: LeaseCall, now: int): Option<Lease> {
    match call
    case Take(id, ttl) => if LeasedToOther(lease, id, now) then lease else Some(LeaseFor(id, now, ttl))
    case GiveBack(id) => LeaseWithout(lease, id)
    case Wake => if lease.Some? && lease.value.expiresAt <= now then None else lease
  }

  method AnyOf(ids: set<int>) returns (id: int)
    requires ids != {}
    ensures id in ids
  {
    EmptyOrMember(ids);
    id :| id in ids;
  }

  class Calendar {
    var holds: map<int, Hold>
    var lease: Option<Lease>
    var alarmAt: Option<int>

    /** Some hold or the lease expires at `e`. */
    ghost predicate Pending(e: int)
      reads `holds, `lease
    {
      (exists id :: id in holds && holds[id].expiresAt == e) || (lease.Some? && lease.value.expiresAt == e)
    }

    /** An alarm is set no later than every pending expiry. */
    ghost predicate Valid()
      reads this
    {
      forall e :: Pending(e) ==> alarmAt.Some? && alarmAt.value <= e
    }

    constructor ()
      ensures Valid() && holds == map[] && lease == None && alarmAt == None
    {
      holds, lease, alarmAt := map[], None, None;
    }

    method CreateHold(holdId: int, start: int, end: int, ttl: int, now: int) returns (expiresAt: int)
      requires Valid()
      modifies this
      ensures Valid() && lease == old(lease)
      ensures expiresAt == now + if ttl < 30_000 then 30_000 else if 600_000 < ttl then 600_000 else ttl
      ensures holds == old(holds)[holdId := Hold(start, end, expiresAt)]
    {
      expiresAt := now + Min(Max(ttl, MIN_HOLD_MS), MAX_HOLD_MS);
      ghost var before := alarmAt;
      holds := holds[holdId := Hold(start, end, expiresAt)];
      assert forall e :: Pending(e) ==> old(Pending(e)) || e == expiresAt;
      ScheduleNextAlarm();
    }

    method ReleaseHold(holdId: int)
      requires Valid()
      modifies this
      ensures Valid() && holds == old(holds) - {holdId} && lease == old(lease) && alarmAt == old(alarmAt)
    {
      holds := holds - {holdId};
      assert forall e :: Pending(e) ==> old(Pending(e));
    }

    method ActiveHolds(now: int) returns (active: map<int, Hold>)
      ensures forall id :: id in active ==> id in holds && active[id] == holds[id] && now < active[id].expiresAt
      ensures forall id :: id in holds && id !in active ==> holds[id].expiresAt <= now
      ensures Valid() ==> forall id :: id in active ==> alarmAt.Some? && alarmAt.value <= active[id].expiresAt
    {
      assert forall id :: id in holds ==> Pending(holds[id].expiresAt);
      return map id | id in holds && holds[id].expiresAt > now :: holds[id];
    }

    method AcquireLease(leaseId: int, ttl: int, now: int) returns (ok: bool)
      requires Valid()
      modifies this
      ensures Valid() && holds == old(holds)
      ensures ok <==> old(lease).None? || old(lease).value.leaseId == leaseId || old(lease).value.expiresAt <= now
      ensures ok ==> lease == Some(Lease(leaseId, now + if ttl < 60_000 then ttl else 60_000))
      ensures ok == !LeasedToOther(old(lease), leaseId, now)
      ensures lease == LeaseAfter(old(lease), Take(leaseId, ttl), now)
    {
      if lease.Some? && lease.value.expiresAt > now && lease.value.leaseId != leaseId {
        return false;
      }
      lease := Some(Lease(leaseId, now + Min(ttl, MAX_LEASE_MS)));
      ScheduleNextAlarm();
      return true;
    }

    method ReleaseLease(leaseId: int)
      requires Valid()
      modifies this
      ensures Valid() && holds == old(holds) && lease == LeaseAfter(old(lease), GiveBack(leaseId), 0)
    {
      if lease.Some? && lease.value.leaseId == leaseId {
        lease := None;
      }
      assert forall e :: Pending(e) ==> old(Pending(e));
    }

    /** `SELECT MIN(expires_at)` over holds and lease. */
    method EarliestPending() returns (next: Option<int>)
      ensures next.None? ==> forall e :: !Pending(e)
      ensures next.Some? ==> Pending(next.value) && forall e :: Pending(e) ==> next.value <= e
    {
      next := if lease.Some? then Some(lease.value.expiresAt) else None;
      var left := holds.Keys;
      while left != {}
        invariant left <= holds.Keys
        invariant next.None? ==> lease.None? && left == holds.Keys
        invariant next.Some? ==> Pending(next.value)
        invariant next.Some? && lease.Some? ==> next.value <= lease.value.expiresAt
        invariant forall id :: id in holds.Keys - left ==> next.Some? && next.value <= holds[id].expiresAt
        decreases |left|
      {
        var id := AnyOf(left);
        left := left - {id};
        if next.None? || holds[id].expiresAt < next.value {
          next := Some(holds[id].expiresAt);
        }
      }
    }

    /** Wake at the earliest pending expiry; nothing pending leaves the alarm alone. */
    method ScheduleNextAlarm()
      modifies this`alarmAt
      ensures Valid()
      ensures (forall e :: !Pending(e)) ==> alarmAt == old(alarmAt)
      ensures old(alarmAt).Some? ==> alarmAt.Some? && alarmAt.value <= old(alarmAt).value
      ensures alarmAt != old(alarmAt) ==> alarmAt.Some? && Pending(alarmAt.value)
    {
      var next := EarliestPending();
      if next.None? {
        return;
      }
      if alarmAt.None? || alarmAt.value > next.value {
        alarmAt := next;
      }
      assert Pending(next.value);
    }

    /** The alarm fires: expired rows go, and it is set again exactly when something is left. */
    method Alarm(now: int) returns (expired: set<int>)
      modifies this
      ensures Valid()
      ensures expired == set id | id in old(holds) && old(holds)[id].expiresAt <= now
      ensures holds == old(holds) - expired
      ensures lease == LeaseAfter(old(lease), Wake, now)
      ensures alarmAt.Some? ==> Pending(alarmAt.value) && now < alarmAt.value
      ensures alarmAt.None? ==> holds == map[] && lease == None
    {
      alarmAt := None;
      expired := set id | id in holds && holds[id].expiresAt <= now;
      holds := holds - expired;
      if lease.Some? && lease.value.expiresAt <= now {
        lease := None;
      }
      ScheduleNextAlarm();
      if alarmAt.None? {
        assert lease.Some? ==> Pending(lease.value.expiresAt);
        assert forall id :: id in holds ==> Pending(holds[id].expiresAt);
      }
    }
  }

  // ---- How long a lease lasts -------------------------------------------------------------

  datatype TimedCall = TimedCall(call: LeaseCall, at: int)

  ghost predicate InTurn(calls: seq<TimedCall>) {
    forall i, j :: 0 <= i < j < |calls| ==> calls[i].at <= calls[j].at
  }

  /** The lease before the `k`-th call. */
  ghost function LeaseAt(start: Option<Lease>, calls: seq<TimedCall>, k: nat): Option<Lease>
    requires k <= |calls|
  {
    if k == 0 then start else LeaseAfter(LeaseAt(start, calls, k - 1), calls[k - 1].call, calls[k - 1].at)
  }

  /** The `k`-th call asks for the lease and gets it. */
  ghost predicate Granted(start: Option<Lease>, calls: seq<TimedCall>, k: nat)
    requires k < |calls|
  {
    calls[k].call.Take? && !LeasedToOther(LeaseAt(start, calls, k), calls[k].call.leaseId, calls[k].at)
  }

  predicate IsBy(call: LeaseCall, id: int) {
    !call.Wake? && call.leaseId == id
  }

  /** When the lease granted by the `i`-th call runs out: after its own time, at most a minute. */
  function RunsOut(call: TimedCall): int
    requires call.call.Take?
  {
    call.at + if call.call.ttl < 60_000 then call.call.ttl else 60_000
  }

  /** Until it runs out nobody but its holder can end a lease. */
  lemma {:induction false} LeaseStays(start: Option<Lease>, calls: seq<TimedCall>, i: nat, j: nat)
    requires InTurn(calls) && i < j < |calls| && Granted(start, calls, i)
    requires forall m :: i < m < j ==> !IsBy(calls[m].call, calls[i].call.leaseId)
    requires calls[j].at < RunsOut(calls[i])
    ensures LeaseAt(start, calls, j) == Some(Lease(calls[i].call.leaseId, RunsOut(calls[i])))
  {
    hide InTurn;
    if i + 1 < j {
      CallsInTurn(calls, j - 1, j);
      LeaseStays(start, calls, i, j - 1);
    }
  }

  lemma CallsInTurn(calls: seq<TimedCall>, i: nat, j: nat)
    requires InTurn(calls) && i <= j < |calls|
    ensures calls[i].at <= calls[j].at
  {
  }

  /** After it was granted to somebody and until anybody else gets it, the lease is theirs or nobody's. */
  lemma {:induction false} LeaseStaysOrGoes(start: Option<Lease>, calls: seq<TimedCall>, i: nat, j: nat)
    requires i < j < |calls| && Granted(start, calls, i)
    requires forall m :: i < m < j ==> !Granted(start, calls, m)
    ensures var lease := LeaseAt(start, calls, j);
      lease == None || lease == Some(Lease(calls[i].call.leaseId, RunsOut(calls[i])))
  {
    if i + 1 < j {
      LeaseStaysOrGoes(start, calls, i, j - 1);
      assert !Granted(start, calls, j - 1);
    }
  }

  /**
   * How long a lease keeps others out: a request by somebody else, the first since the
   * grant to get it and with no call of the holder in between, gets the lease if and only
   * if the holder's time, or a minute, is over.
   */
  lemma OthersWaitIff(start: Option<Lease>, calls: seq<TimedCall>, i: nat, j: nat)
    requires InTurn(calls) && i < j < |calls| && Granted(start, calls, i)
    requires calls[j].call.Take? && calls[j].call.leaseId != calls[i].call.leaseId
    requires forall m :: i < m < j ==> !IsBy(calls[m].call, calls[i].call.leaseId) && !Granted(start, calls, m)
    ensures Granted(start, calls, j) <==> RunsOut(calls[i]) <= calls[j].at
  {
    hide LeaseAt;
    if calls[j].at < RunsOut(calls[i]) {
      LeaseStays(start, calls, i, j);
    }
    LeaseStaysOrGoes(start, calls, i, j);
  }

  /** Nor can anybody else get it in that time, whatever others try in between. */
  lemma OthersAreRefused(start: Option<Lease>, calls: seq<TimedCall>, i: nat, j: nat)
    requires InTurn(calls) && i < j < |calls| && Granted(start, calls, i)
    requires calls[j].call.Take? && calls[j].call.leaseId != calls[i].call.leaseId
    requires forall m :: i < m < j ==> !IsBy(calls[m].call, calls[i].call.leaseId)
    ensures calls[j].at < RunsOut(calls[i]) ==> !Granted(start, calls, j)
  {
    if calls[j].at < RunsOut(calls[i]) {
      LeaseStays(start, calls, i, j);
    }
  }

  /** Once the holder has given it back, whoever asks first gets it, at any time. */
  lemma GivenBackIsFree(start: Option<Lease>, calls: seq<TimedCall>, i: nat, j: nat, k: nat)
    requires i < j < k < |calls| && Granted(start, calls, i) && calls[j].call == GiveBack(calls[i].call.leaseId)
    requires calls[k].call.Take? && forall m :: i < m < k ==> !Granted(start, calls, m)
    ensures Granted(start, calls, k)
  {
    hide LeaseAt;
    LeaseStaysOrGoes(start, calls, i, j);
    StaysFree(start, calls, j, k);
  }

  lemma {:induction false} StaysFree(start: Option<Lease>, calls: seq<TimedCall>, j: nat, k: nat)
    requires j < k < |calls| && calls[j].call.GiveBack?
    requires LeaseAt(start, calls, j) == None
             || LeaseAt(start, calls, j).value.leaseId == calls[j].call.leaseId
    requires forall m :: j < m < k ==> !Granted(start, calls, m)
    ensures LeaseAt(start, calls, k) == None
    decreases k
  {
    if j + 1 < k {
      StaysFree(start, calls, j, k - 1);
      assert !Granted(start, calls, k - 1);
    }
  }
}
