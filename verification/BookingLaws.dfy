/**
 * What `prepareBooking` decides, read off the request alone: who takes part, what is
 * written, and why a request is refused (src/core/domain/booking-service.ts).
 */
module BookingLaws {
  import opened Common
  import opened Intervals
  import opened Buckets
  import opened LocalDays
  import opened SlotEngine
  import opened SlotLaws
  import opened Domain
  import opened BookingService
  import opened RotationShare
  import RoundRobin

  /** The caller got every host it meant. */
  predicate Complete(req: BookingRequest) {
    req.expectedHostCount.Some? ==> req.expectedHostCount.value <= |req.hosts|
  }

  ghost predicate Takes(req: BookingRequest, j: int) {
    0 <= j < |req.hosts| && Accepts(req, req.hosts[j])
  }

  /** Somebody already has the time of this host. */
  ghost predicate Busy(req: BookingRequest, j: int) {
    0 <= j < |req.hosts| && !NothingBusy(req.hosts[j], req.eventType, req.start)
  }

  /** The first host that cannot. */
  ghost predicate FirstToRefuse(req: BookingRequest, j: int) {
    0 <= j < |req.hosts| && !Takes(req, j) && forall i :: 0 <= i < j ==> Takes(req, i)
  }

  /** Accepting is being able to take the slot, in the event type's own terms. */
  lemma TakesIff(req: BookingRequest, j: nat)
    requires ValidEventType(req.eventType) && j < |req.hosts| && ValidAvailability(req.hosts[j].availability)
    ensures Takes(req, j) <==> CanTake(req.hosts[j], req.eventType, req.start, req.now)
  {
    hide SlotValid, CanTake;
    AcceptedIff(req.hosts[j], req.eventType, req.start, req.now);
  }

  lemma ReasonIsBusy(req: BookingRequest, j: nat)
    requires j < |req.hosts|
    ensures FailureReason(req, req.hosts[j]) == if Busy(req, j) then SlotTaken else OutsideAvailability
  {
    hide Clear, NothingBusy;
    ClearIsNothingBusy(req.hosts[j], req.eventType, req.start);
  }

  // ---- Whether -----------------------------------------------------------------------------

  ghost predicate CanBePrepared(req: BookingRequest) {
    && req.eventType.active && req.hosts != []
    && match req.eventType.schedulingType
       case Personal => Takes(req, 0)
       case RoundRobin => exists j :: Takes(req, j)
       case Collective => Complete(req) && forall j :: 0 <= j < |req.hosts| ==> Takes(req, j)
  }

  /** A time somebody has: the host's, every host's, or the first refusing host's. */
  ghost predicate TimeIsTaken(req: BookingRequest) {
    match req.eventType.schedulingType
    case Personal => !Takes(req, 0) && Busy(req, 0)
    case RoundRobin => forall j :: 0 <= j < |req.hosts| ==> !Takes(req, j) && Busy(req, j)
    case Collective => Complete(req) && exists j :: FirstToRefuse(req, j) && Busy(req, j)
  }

  /** A time that was never on offer, or a party that is not complete. */
  ghost predicate TimeIsOutside(req: BookingRequest) {
    match req.eventType.schedulingType
    case Personal => !Takes(req, 0) && !Busy(req, 0)
    case RoundRobin => (forall j :: 0 <= j < |req.hosts| ==> !Takes(req, j))
                       && exists j :: 0 <= j < |req.hosts| && !Busy(req, j)
    case Collective => !Complete(req) || exists j :: FirstToRefuse(req, j) && !Busy(req, j)
  }

  lemma FirstIsFirst(req: BookingRequest)
    ensures var first := FirstRefusing(req, |req.hosts|);
      forall j :: FirstToRefuse(req, j) <==> first == Some(j)
  {
    FirstRefuses(req, |req.hosts|);
  }

  lemma {:induction false} FirstRefuses(req: BookingRequest, n: nat)
    requires n <= |req.hosts|
    ensures FirstRefusing(req, n).Some? ==> FirstToRefuse(req, FirstRefusing(req, n).value)
    ensures FirstRefusing(req, n).None? ==> forall i :: 0 <= i < n ==> Takes(req, i)
    ensures forall j :: FirstToRefuse(req, j) && j < n ==> FirstRefusing(req, n) == Some(j)
  {
    hide Accepts;
    if n > 0 {
      FirstRefuses(req, n - 1);
    }
  }

  lemma NobodyAccepts(req: BookingRequest)
    ensures Accepting(req, |req.hosts|) == [] <==> forall j :: 0 <= j < |req.hosts| ==> !Takes(req, j)
  {
    hide Accepts;
    AcceptingAccept(req, |req.hosts|);
    if Accepting(req, |req.hosts|) != [] {
      var j := AcceptingIndex(req, |req.hosts|, 0);
      assert Accepts(req, Accepting(req, |req.hosts|)[0]);
      assert Takes(req, j);
    }
  }

  lemma AllReasons(req: BookingRequest)
    ensures (forall j :: 0 <= j < |req.hosts| ==> FailureReason(req, req.hosts[j]) == SlotTaken)
            <==> forall j :: 0 <= j < |req.hosts| ==> Busy(req, j)
  {
    hide FailureReason, Busy;
    forall j | 0 <= j < |req.hosts| ensures FailureReason(req, req.hosts[j]) == SlotTaken <==> Busy(req, j) {
      ReasonIsBusy(req, j);
    }
  }

  /**
   * The answer to a request, in every case: prepared exactly when it can be, and each
   * refusal exactly for its reason.
   */
  lemma AnswerIff(req: BookingRequest)
    ensures Prepare(req).Prepared? <==> CanBePrepared(req)
    ensures Prepare(req) == Refused(PolicyRefusal) <==> !req.eventType.active
    ensures Prepare(req) == Refused(NoEligibleHost) <==> req.eventType.active && req.hosts == []
    ensures Prepare(req) == Refused(SlotTaken) <==> req.eventType.active && req.hosts != [] && TimeIsTaken(req)
    ensures Prepare(req) == Refused(OutsideAvailability) <==>
              req.eventType.active && req.hosts != [] && TimeIsOutside(req)
  {
    if req.eventType.active && req.hosts != [] {
      match req.eventType.schedulingType
      case Personal => PersonalAnswer(req);
      case RoundRobin => RoundRobinAnswer(req);
      case Collective => CollectiveAnswer(req);
    }
  }

  lemma PersonalAnswer(req: BookingRequest)
    requires req.eventType.active && req.hosts != [] && req.eventType.schedulingType == Personal
    ensures Prepare(req).Prepared? <==> Takes(req, 0)
    ensures Prepare(req).Refused? ==> Prepare(req).reason == if Busy(req, 0) then SlotTaken else OutsideAvailability
  {
    hide Accepts, FailureReason, Busy;
    ReasonIsBusy(req, 0);
  }

  lemma CollectiveAnswer(req: BookingRequest)
    requires req.eventType.active && req.hosts != [] && req.eventType.schedulingType == Collective
    ensures Prepare(req).Prepared? <==> Complete(req) && forall j :: 0 <= j < |req.hosts| ==> Takes(req, j)
    ensures Prepare(req) == Refused(SlotTaken) <==> TimeIsTaken(req)
    ensures Prepare(req) == Refused(OutsideAvailability) <==> TimeIsOutside(req)
    ensures Prepare(req).Refused? ==> Prepare(req).reason == SlotTaken || Prepare(req).reason == OutsideAvailability
  {
    hide Accepts, FailureReason, Busy, FirstRefusing;
    FirstIsFirst(req);
    NoneRefusing(req, |req.hosts|);
    var first := FirstRefusing(req, |req.hosts|);
    if first.Some? {
      assert FirstToRefuse(req, first.value);
      ReasonIsBusy(req, first.value);
    }
  }

  lemma RoundRobinAnswer(req: BookingRequest)
    requires req.eventType.active && req.hosts != [] && req.eventType.schedulingType == RoundRobin
    ensures Prepare(req).Prepared? <==> exists j :: Takes(req, j)
    ensures Prepare(req) == Refused(SlotTaken) <==> TimeIsTaken(req)
    ensures Prepare(req) == Refused(OutsideAvailability) <==> TimeIsOutside(req)
    ensures Prepare(req).Refused? ==> Prepare(req).reason == SlotTaken || Prepare(req).reason == OutsideAvailability
  {
    hide Accepts, FailureReason, Busy, RoundRobin.Chosen;
    NobodyAccepts(req);
    AllReasons(req);
    var eligible := Accepting(req, |req.hosts|);
    if eligible != [] {
      ChosenIsThere(req, eligible);
      var j := AcceptingIndex(req, |req.hosts|, 0);
      AcceptingAccept(req, |req.hosts|);
      assert Takes(req, j);
    }
  }

  lemma ChosenIsThere(req: BookingRequest, eligible: seq<HostInput>)
    requires eligible != []
    ensures var id := RoundRobin.Chosen(req.rotation, req.now, HostIds(eligible));
      id in HostIds(eligible) && IndexOfHost(eligible, id).Some?
  {
    hide RoundRobin.Choice;
    RoundRobin.ChoiceIsMaximal(req.rotation, req.now, HostIds(eligible));
    IndexFound(eligible, RoundRobin.Chosen(req.rotation, req.now, HostIds(eligible)));
  }

  // ---- Who -----------------------------------------------------------------------------------

  /** Host `j` accepts, is due most of all that do, and comes first among equals. */
  ghost predicate DueToTake(req: BookingRequest, j: int) {
    && Takes(req, j)
    && forall k :: Takes(req, k) ==>
         var mine, theirs := DueOf(req, j), DueOf(req, k);
         theirs <= mine && (theirs == mine ==> req.hosts[j].hostUserId <= req.hosts[k].hostUserId)
  }

  function DueOf(req: BookingRequest, j: int): int
    requires 0 <= j < |req.hosts|
  {
    Due(req.rotation.weights, req.rotation.last, req.now, req.hosts[j].hostUserId)
  }

  /**
   * Who takes part in a prepared booking: all hosts of a collective event in their order,
   * each accepting; of a round-robin event the accepting host that is due; else the first.
   */
  ghost predicate RightHosts(req: BookingRequest, ids: seq<int>) {
    match req.eventType.schedulingType
    case Personal => Takes(req, 0) && ids == [req.hosts[0].hostUserId]
    case RoundRobin => exists j :: DueToTake(req, j) && ids == [req.hosts[j].hostUserId]
    case Collective =>
      && |ids| == |req.hosts|
      && forall j :: 0 <= j < |req.hosts| ==> Takes(req, j) && ids[j] == req.hosts[j].hostUserId
  }

  lemma RightParticipants(req: BookingRequest)
    requires Prepare(req).Prepared?
    ensures RightHosts(req, Prepare(req).booking.hostUserIds)
  {
    hide Accepts, LocalDate, Claims, BucketsOf;
    match req.eventType.schedulingType
    case Personal => assert HostIds([req.hosts[0]]) == [req.hosts[0].hostUserId];
    case Collective => NoneRefusing(req, |req.hosts|);
    case RoundRobin => RoundRobinHost(req);
  }

  lemma RoundRobinHost(req: BookingRequest)
    requires Prepare(req).Prepared? && req.eventType.schedulingType == RoundRobin
    ensures exists j :: DueToTake(req, j) && Prepare(req).booking.hostUserIds == [req.hosts[j].hostUserId]
  {
    hide Accepts, LocalDate, Claims, BucketsOf, RoundRobin.Chosen, Due;
    var eligible := Accepting(req, |req.hosts|);
    var id := RoundRobin.Chosen(req.rotation, req.now, HostIds(eligible));
    ChosenIsThere(req, eligible);
    var at := IndexOfHost(eligible, id);
    IndexIsHost(eligible, id);
    assert HostIds([eligible[at.value]]) == [id];
    var j := AcceptingIndex(req, |req.hosts|, at.value);
    AcceptingAccept(req, |req.hosts|);
    MostDueOfAccepting(req, eligible, id);
    forall k | Takes(req, k)
      ensures DueOf(req, k) <= DueOf(req, j)
      ensures DueOf(req, k) == DueOf(req, j) ==> req.hosts[j].hostUserId <= req.hosts[k].hostUserId
    {
      assert req.hosts[k] in eligible;
      InHostIds(eligible, req.hosts[k]);
    }
    assert DueToTake(req, j);
  }

  lemma InHostIds(hosts: seq<HostInput>, h: HostInput)
    requires h in hosts
    ensures h.hostUserId in HostIds(hosts)
  {
    var i :| 0 <= i < |hosts| && hosts[i] == h;
    assert HostIds(hosts)[i] == h.hostUserId;
  }

  lemma MostDueOfAccepting(req: BookingRequest, eligible: seq<HostInput>, id: int)
    requires eligible != [] && id == RoundRobin.Chosen(req.rotation, req.now, HostIds(eligible))
    ensures MostDue(req.rotation, req.now, HostIds(eligible), id)
  {
    hide RoundRobin.Choice, MostDue;
    RoundRobin.ChoiceIsMaximal(req.rotation, req.now, HostIds(eligible));
    ChosenIffMostDue(req.rotation, req.now, HostIds(eligible), id);
  }

  lemma {:induction false} IndexIsHost(hosts: seq<HostInput>, id: int)
    ensures IndexOfHost(hosts, id).Some? ==> hosts[IndexOfHost(hosts, id).value].hostUserId == id
  {
    if hosts != [] && hosts[0].hostUserId != id {
      IndexIsHost(hosts[1..], id);
    }
  }

  // ---- What --------------------------------------------------------------------------------------

  /** A row to be locked: a participant's five minutes that touch the meeting or its buffers. */
  predicate MustLock(req: BookingRequest, ids: seq<int>, c: BucketClaim) {
    && c.hostUserId in ids && c.bucketStart % 300_000 == 0
    && c.bucketStart < FootprintEnd(req.eventType, req.start)
    && FootprintStart(req.eventType, req.start) < c.bucketStart + 300_000
  }

  /** The zone the local date is stamped in is that of the first participant. */
  ghost predicate StampedBy(req: BookingRequest, id: int, date: int) {
    exists j :: 0 <= j < |req.hosts| && req.hosts[j].hostUserId == id
                && date == (req.start + req.hosts[j].availability.zone(req.start)) / 86_400_000
  }

  /** What a prepared booking says, field by field, and what it locks. */
  lemma RightBooking(req: BookingRequest)
    requires ValidRequest(req) && Prepare(req).Prepared?
    ensures var b, claims := Prepare(req).booking, Prepare(req).buckets;
      && b.id == req.bookingId && b.eventTypeId == req.eventType.id && b.createdAt == req.now
      && b.startUtc == req.start && b.endUtc == req.start + req.eventType.durationMinutes * 60_000
      && b.status == Confirmed && b.rescheduleOf == req.rescheduleOf
      && b.rescheduledTo == None && b.cancelledAt == None
      && b.hostUserIds != [] && b.hostUserId == b.hostUserIds[0] && StampedBy(req, b.hostUserId, b.localDate)
      && forall c :: c in claims <==> MustLock(req, b.hostUserIds, c)
  {
    hide Accepts, LocalDate, Claims, BucketsOf, Participating, ValidEventType;
    ParticipantsNonEmpty(req);
    var hosts := Participating(req).hosts;
    var j := ParticipantIndex(req, 0);
    LocalDateByOffset(hosts[0].availability.zone, req.start);
    FootprintIsRaw(req.eventType, req.start);
    FootprintHasTime(req.eventType, req.start);
    assert StampedBy(req, hosts[0].hostUserId, Prepare(req).booking.localDate) by {
      assert req.hosts[j] == hosts[0];
    }
    forall c ensures c in Prepare(req).buckets <==> MustLock(req, HostIds(hosts), c) {
      ClaimsMembers(HostIds(hosts), BucketsOf(SlotFootprint(req.eventType, req.start)), c);
      ClaimedIffMet(SlotFootprint(req.eventType, req.start), c.bucketStart);
      MeetsIff(c.bucketStart, SlotFootprint(req.eventType, req.start));
    }
  }

  lemma MeetsIff(b: int, x: Interval)
    requires x.start < x.end
    ensures Meets(b, x) <==> b < x.end && x.start < b + 300_000
  {
    if b < x.end && x.start < b + 300_000 {
      assert Has(Interval(b, b + BUCKET), Max(b, x.start)) && Has(x, Max(b, x.start));
    }
  }

  lemma FootprintHasTime(et: EventType, start: int)
    requires ValidEventType(et)
    ensures SlotFootprint(et, start).start < SlotFootprint(et, start).end
  {
  }
}
