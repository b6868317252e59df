/** The booking write path before the batch (src/core/domain/booking-service.ts). */
module BookingService {
  import opened Common
  import opened Intervals
  import opened Buckets
  import opened Zone
  import opened LocalDays
  import opened SlotEngine
  import opened RoundRobin
  import opened Domain

  datatype BookingRequest = BookingRequest(
    eventType: EventType,
    hosts: seq<HostInput>,
    expectedHostCount: Option<int>,
    start: int,
    now: int,
    bookingId: int,
    rescheduleOf: Option<int>,
    rotation: Rotation)

  datatype Refusal = SlotTaken | OutsideAvailability | PolicyRefusal | NoEligibleHost

  datatype BookingResult = Prepared(booking: Booking, buckets: seq<BucketClaim>) | Refused(reason: Refusal)

  ghost predicate ValidRequest(req: BookingRequest) {
    ValidEventType(req.eventType) && forall j :: 0 <= j < |req.hosts| ==> IsZone(req.hosts[j].availability.zone)
  }

  ghost predicate Accepts(req: BookingRequest, h: HostInput) {
    SlotValid(h, req.eventType, req.start, req.now)
  }

  /** `failureReason` */
  ghost function FailureReason(req: BookingRequest, h: HostInput): Refusal {
    if Clear(h, req.eventType, req.start) then OutsideAvailability else SlotTaken
  }

  ghost function Accepting(req: BookingRequest, n: nat): seq<HostInput>
    requires n <= |req.hosts|
  {
    if n == 0 then []
    else Accepting(req, n - 1) + if Accepts(req, req.hosts[n - 1]) then [req.hosts[n - 1]] else []
  }

  /** The first refusing host among the first `n`, by position. */
  ghost function FirstRefusing(req: BookingRequest, n: nat): Option<nat>
    requires n <= |req.hosts|
    ensures FirstRefusing(req, n).Some? ==> FirstRefusing(req, n).value < n
  {
    if n == 0 then None
    else if FirstRefusing(req, n - 1).Some? then FirstRefusing(req, n - 1)
    else if Accepts(req, req.hosts[n - 1]) then None else Some(n - 1)
  }

  function IndexOfHost(hosts: seq<HostInput>, id: int): Option<nat>
    ensures IndexOfHost(hosts, id).Some? ==> IndexOfHost(hosts, id).value < |hosts|
  {
    if hosts == [] then None
    else if hosts[0].hostUserId == id then Some(0)
    else
      match IndexOfHost(hosts[1..], id)
      case Some(i) => Some(i + 1)
      case None => None
  }

  datatype Choice = Participants(hosts: seq<HostInput>) | Nobody(reason: Refusal)

  /** Which hosts take part, by scheduling type. */
  ghost function Participating(req: BookingRequest): Choice
    requires req.hosts != []
  {
    match req.eventType.schedulingType
    case Collective =>
      if req.expectedHostCount.Some? && |req.hosts| < req.expectedHostCount.value then Nobody(OutsideAvailability)
      else if FirstRefusing(req, |req.hosts|).Some?
      then Nobody(FailureReason(req, req.hosts[FirstRefusing(req, |req.hosts|).value]))
      else Participants(req.hosts)
    case RoundRobin =>
      var eligible := Accepting(req, |req.hosts|);
      if eligible == [] then
        Nobody(if forall j :: 0 <= j < |req.hosts| ==> FailureReason(req, req.hosts[j]) == SlotTaken
               then SlotTaken else OutsideAvailability)
      else
        var chosen := IndexOfHost(eligible, RoundRobin.Chosen(req.rotation, req.now, HostIds(eligible)));
        if chosen.Some? then Participants([eligible[chosen.value]]) else Nobody(NoEligibleHost)
    case Personal =>
      if Accepts(req, req.hosts[0]) then Participants([req.hosts[0]])
      else Nobody(FailureReason(req, req.hosts[0]))
  }

  /** The booking row and the claims it must write. */
  function Write(req: BookingRequest, hosts: seq<HostInput>): BookingResult
    requires hosts != []
  {
    var et := req.eventType;
    Prepared(
      Booking(req.bookingId, et.id, hosts[0].hostUserId, HostIds(hosts), req.start, req.start + et.Duration(),
              LocalDate(hosts[0].availability.zone, req.start), Confirmed, req.rescheduleOf, None, None, req.now),
      Claims(HostIds(hosts), BucketsOf(SlotFootprint(et, req.start))))
  }

  /** The outcome of `prepareBooking`. */
  ghost function Prepare(req: BookingRequest): BookingResult {
    if !req.eventType.active then Refused(PolicyRefusal)
    else if req.hosts == [] then Refused(NoEligibleHost)
    else
      match Participating(req)
      case Nobody(reason) => Refused(reason)
      case Participants(hosts) =>
        ParticipantsNonEmpty(req);
        Write(req, hosts)
  }

  lemma ParticipantsNonEmpty(req: BookingRequest)
    requires req.hosts != []
    ensures Participating(req).Participants? ==> Participating(req).hosts != []
  {
  }

  method PrepareBooking(req: BookingRequest) returns (r: BookingResult)
    requires ValidRequest(req)
    ensures r == Prepare(req)
  {
    hide Participating;
    if !req.eventType.active {
      return Refused(PolicyRefusal);
    }
    if |req.hosts| == 0 {
      return Refused(NoEligibleHost);
    }
    var choice := ChooseParticipants(req);
    if choice.Nobody? {
      return Refused(choice.reason);
    }
    ParticipantsNonEmpty(req);
    r := BuildWrite(req, choice.hosts);
  }

  /** The claims are built host by host, bucket by bucket. */
  method BuildWrite(req: BookingRequest, participating: seq<HostInput>) returns (r: BookingResult)
    requires participating != []
    ensures r == Write(req, participating)
  {
    var et := req.eventType;
    var bucketStarts := IntervalToBuckets(SlotFootprint(et, req.start));
    var ids := HostIds(participating);
    var buckets: seq<BucketClaim> := [];
    for i := 0 to |ids|
      invariant buckets == Claims(ids[..i], bucketStarts)
    {
      ghost var before := buckets;
      for k := 0 to |bucketStarts|
        invariant buckets == before + HostClaims(ids[i], bucketStarts)[..k]
      {
        buckets := buckets + [BucketClaim(ids[i], bucketStarts[k])];
      }
      assert ids[..i + 1][..i] == ids[..i];
    }
    assert ids[..|ids|] == ids;
    var primary := participating[0];
    r := Prepared(
      Booking(req.bookingId, et.id, primary.hostUserId, ids, req.start, req.start + et.Duration(),
              LocalDate(primary.availability.zone, req.start), Confirmed, req.rescheduleOf, None, None, req.now),
      buckets);
  }

  method ReasonFor(req: BookingRequest, h: HostInput) returns (r: Refusal)
    ensures r == FailureReason(req, h)
  {
    var collides := OverlapsAny(SlotFootprint(req.eventType, req.start), h.busy);
    return if collides then SlotTaken else OutsideAvailability;
  }

  method ChooseParticipants(req: BookingRequest) returns (r: Choice)
    requires ValidRequest(req) && req.hosts != []
    ensures r == Participating(req)
  {
    if req.eventType.schedulingType == Collective {
      if req.expectedHostCount.Some? && |req.hosts| < req.expectedHostCount.value {
        return Nobody(OutsideAvailability);
      }
      var refusing := FindRefusing(req);
      if refusing.Some? {
        var reason := ReasonFor(req, req.hosts[refusing.value]);
        return Nobody(reason);
      }
      return Participants(req.hosts);
    } else if req.eventType.schedulingType == RoundRobin {
      r := ChooseRoundRobin(req);
    } else {
      var valid := IsSlotStillValid(req.hosts[0], req.eventType, req.start, req.now);
      if !valid {
        var reason := ReasonFor(req, req.hosts[0]);
        return Nobody(reason);
      }
      return Participants([req.hosts[0]]);
    }
  }

  method FindRefusing(req: BookingRequest) returns (r: Option<nat>)
    requires ValidRequest(req)
    ensures r == FirstRefusing(req, |req.hosts|)
  {
    hide Accepts;
    for i := 0 to |req.hosts|
      invariant FirstRefusing(req, i).None?
    {
      var valid := AcceptsNow(req, req.hosts[i]);
      if !valid {
        RefusingStays(req, i + 1, |req.hosts|);
        return Some(i);
      }
    }
    return None;
  }

  method AcceptsNow(req: BookingRequest, h: HostInput) returns (r: bool)
    requires ValidEventType(req.eventType) && IsZone(h.availability.zone)
    ensures r <==> Accepts(req, h)
  {
    r := IsSlotStillValid(h, req.eventType, req.start, req.now);
  }

  lemma {:induction false} RefusingStays(req: BookingRequest, m: nat, n: nat)
    requires m <= n <= |req.hosts| && FirstRefusing(req, m).Some?
    ensures FirstRefusing(req, n) == FirstRefusing(req, m)
    decreases n
  {
    if m < n {
      RefusingStays(req, m, n - 1);
    }
  }

  method ChooseRoundRobin(req: BookingRequest) returns (r: Choice)
    requires ValidRequest(req) && req.hosts != [] && req.eventType.schedulingType == RoundRobin
    ensures r == Participating(req)
  {
    hide Accepts, FailureReason;
    var eligible: seq<HostInput> := [];
    for i := 0 to |req.hosts|
      invariant eligible == Accepting(req, i)
    {
      var valid := AcceptsNow(req, req.hosts[i]);
      if valid {
        eligible := eligible + [req.hosts[i]];
      }
    }
    if |eligible| == 0 {
      var allBusy := true;
      for i := 0 to |req.hosts|
        invariant allBusy <==> forall j :: 0 <= j < i ==> FailureReason(req, req.hosts[j]) == SlotTaken
      {
        var reason := ReasonFor(req, req.hosts[i]);
        if reason != SlotTaken {
          allBusy := false;
        }
      }
      return Nobody(if allBusy then SlotTaken else OutsideAvailability);
    }
    var chosen := PickRoundRobinHost(req.rotation, req.now, HostIds(eligible));
    ChoiceIsMaximal(req.rotation, req.now, HostIds(eligible));
    var at := IndexOfHost(eligible, chosen.value);
    return if at.Some? then Participants([eligible[at.value]]) else Nobody(NoEligibleHost);
  }

  // ---- What a prepared write looks like ---------------------------------------------------

  lemma {:induction false} AcceptingAccept(req: BookingRequest, n: nat)
    requires n <= |req.hosts|
    ensures forall k :: 0 <= k < |Accepting(req, n)| ==> Accepts(req, Accepting(req, n)[k])
    ensures forall j :: 0 <= j < n && Accepts(req, req.hosts[j]) ==> req.hosts[j] in Accepting(req, n)
  {
    hide Accepts;
    if n > 0 {
      AcceptingAccept(req, n - 1);
    }
  }

  lemma {:induction false} NoneRefusing(req: BookingRequest, n: nat)
    requires n <= |req.hosts|
    ensures FirstRefusing(req, n).None? <==> forall j :: 0 <= j < n ==> Accepts(req, req.hosts[j])
  {
    hide Accepts;
    if n > 0 {
      NoneRefusing(req, n - 1);
    }
  }

  lemma {:induction false} IndexFound(hosts: seq<HostInput>, id: int)
    requires id in HostIds(hosts)
    ensures IndexOfHost(hosts, id).Some?
  {
    if hosts != [] && hosts[0].hostUserId != id {
      var i :| 0 <= i < |hosts| && HostIds(hosts)[i] == id;
      assert HostIds(hosts[1..])[i - 1] == id;
      IndexFound(hosts[1..], id);
    }
  }

  lemma ParticipantIndex(req: BookingRequest, k: nat) returns (j: nat)
    requires req.hosts != [] && Participating(req).Participants? && k < |Participating(req).hosts|
    ensures j < |req.hosts| && req.hosts[j] == Participating(req).hosts[k]
  {
    hide Accepts;
    match req.eventType.schedulingType
    case Collective => j := k;
    case Personal => j := 0;
    case RoundRobin =>
      var eligible := Accepting(req, |req.hosts|);
      var at := IndexOfHost(eligible, RoundRobin.Chosen(req.rotation, req.now, HostIds(eligible)));
      j := AcceptingIndex(req, |req.hosts|, at.value);
  }

  lemma {:induction false} AcceptingIndex(req: BookingRequest, n: nat, k: nat) returns (j: nat)
    requires n <= |req.hosts| && k < |Accepting(req, n)|
    ensures j < n && req.hosts[j] == Accepting(req, n)[k]
  {
    hide Accepts;
    if k < |Accepting(req, n - 1)| {
      j := AcceptingIndex(req, n - 1, k);
    } else {
      j := n - 1;
    }
  }

  /** Every participant accepted the slot, and participants are pairwise distinct. */
  lemma ParticipantsAccept(req: BookingRequest)
    requires req.hosts != [] && Participating(req).Participants? && DistinctHosts(req.hosts)
    ensures Participating(req).hosts != [] && forall h :: h in Participating(req).hosts ==> h in req.hosts
    ensures forall k :: 0 <= k < |Participating(req).hosts| ==> Accepts(req, Participating(req).hosts[k])
    ensures DistinctHosts(Participating(req).hosts)
  {
    hide Accepts;
    ParticipantsNonEmpty(req);
    forall h | h in Participating(req).hosts ensures h in req.hosts {
      var k :| 0 <= k < |Participating(req).hosts| && Participating(req).hosts[k] == h;
      var j := ParticipantIndex(req, k);
    }
    AcceptingAccept(req, |req.hosts|);
    NoneRefusing(req, |req.hosts|);
  }

  /**
   * A prepared write claims exactly the buckets of its footprint for each of its
   * distinct hosts, starts no earlier than the notice period, and never collides
   * with itself.
   */
  lemma PreparedClaims(req: BookingRequest)
    requires ValidRequest(req) && DistinctHosts(req.hosts) && Prepare(req).Prepared?
    ensures
      var b, claims := Prepare(req).booking, Prepare(req).buckets;
      var f := SlotFootprint(req.eventType, req.start);
      && b.id == req.bookingId && b.status == Confirmed && b.rescheduleOf == req.rescheduleOf && b.rescheduledTo == None
      && b.startUtc == req.start && req.now <= b.startUtc < b.endUtc
      && b.hostUserIds != [] && NoRepeats(b.hostUserIds)
      && (forall c :: c in claims <==> c.hostUserId in b.hostUserIds && c.bucketStart in BucketsOf(f))
      && NoRepeats(claims)
      && Aligned(f) && f.start < f.end && b.startUtc - f.start <= 720 * MINUTE
  {
    var hosts := Participating(req).hosts;
    ParticipantsAccept(req);
    var f := SlotFootprint(req.eventType, req.start);
    assert Accepts(req, hosts[0]);
    FootprintIsAligned(req.eventType, req.start);
    assert NoRepeats(HostIds(hosts));
    ClaimedIffMet(f, f.start);
    ClaimsAreDistinct(HostIds(hosts), BucketsOf(f));
    forall c
      ensures c in Claims(HostIds(hosts), BucketsOf(f)) <==>
                c.hostUserId in HostIds(hosts) && c.bucketStart in BucketsOf(f)
    {
      ClaimsMembers(HostIds(hosts), BucketsOf(f), c);
    }
  }

  lemma FootprintIsAligned(et: EventType, start: int)
    requires ValidEventType(et) && OnGrid(start)
    ensures Aligned(SlotFootprint(et, start))
    ensures SlotFootprint(et, start).start < SlotFootprint(et, start).end
    ensures start - SlotFootprint(et, start).start <= 720 * MINUTE
  {
    hide OnGrid;
    FiveMinutesOnGrid(et.durationMinutes);
    FiveMinutesOnGrid(et.bufferBeforeMinutes);
    FiveMinutesOnGrid(et.bufferAfterMinutes);
    GridSums(start, et.Before());
    GridSums(start, et.Duration());
    GridSums(start + et.Duration(), et.After());
  }

  lemma FiveMinutesOnGrid(minutes: int)
    requires minutes % 5 == 0
    ensures OnGrid(minutes * MINUTE)
  {
    assert minutes * MINUTE == minutes / 5 * BUCKET;
  }

  lemma GridSums(a: int, b: int)
    requires OnGrid(a) && OnGrid(b)
    ensures OnGrid(a + b) && OnGrid(a - b)
  {
  }
}
