/**
 * An offered slot commits: from the busy data a listing loads (src/engine.ts,
 * forEventType) to the batch that writes the booking, over one unchanged database.
 */
module OfferCommit {
  import opened Common
  import opened Intervals
  import opened Buckets
  import opened Zone
  import opened LocalDays
  import opened SlotEngine
  import opened SlotLaws
  import opened ListingAgreement
  import opened Domain
  import opened BookingService
  import opened Store

  /** An advisory hold row (`slot_holds`). */
  datatype HoldRow = HoldRow(claim: BucketClaim, holdId: int, expiresAt: int)

  /** `activeHolds`: unexpired rows in the range, the caller's own hold left out. */
  function ActiveHolds(holds: set<HoldRow>, host: int, range: Interval, now: int, except: Option<int>): set<int> {
    set r | r in holds && r.claim.hostUserId == host && range.start <= r.claim.bucketStart < range.end
            && r.expiresAt > now && Some(r.holdId) != except :: r.claim.bucketStart
  }

  function BucketIntervals(buckets: seq<int>): seq<Interval> {
    seq(|buckets|, i requires 0 <= i < |buckets| => Interval(buckets[i], buckets[i] + BUCKET))
  }

  function Combined(own: seq<int>, held: seq<int>, external: seq<Interval>): seq<Interval> {
    external + BucketIntervals(own) + BucketIntervals(held)
  }

  /** `combineBusy` */
  method CombineBusy(own: seq<int>, held: seq<int>, external: seq<Interval>) returns (out: seq<Interval>)
    ensures out == Combined(own, held, external)
  {
    out := external;
    for i := 0 to |own|
      invariant out == external + BucketIntervals(own)[..i]
    {
      out := out + [Interval(own[i], own[i] + BUCKET)];
    }
    for i := 0 to |held|
      invariant out == external + BucketIntervals(own) + BucketIntervals(held)[..i]
    {
      out := out + [Interval(held[i], held[i] + BUCKET)];
    }
  }

  /** Something in combined busy time hits `x` exactly when a source does. */
  lemma CombinedHits(own: seq<int>, held: seq<int>, external: seq<Interval>, x: Interval)
    ensures HitsAny(x, Combined(own, held, external)) <==>
              || HitsAny(x, external)
              || (exists b :: b in own && Overlaps(x, Interval(b, b + BUCKET)))
              || (exists b :: b in held && Overlaps(x, Interval(b, b + BUCKET)))
  {
    var all := Combined(own, held, external);
    if HitsAny(x, external) {
      var i :| 0 <= i < |external| && Overlaps(x, external[i]);
      assert all[i] == external[i];
    }
    if b :| b in own && Overlaps(x, Interval(b, b + BUCKET)) {
      var i :| 0 <= i < |own| && own[i] == b;
      assert all[|external| + i] == Interval(b, b + BUCKET);
    }
    if b :| b in held && Overlaps(x, Interval(b, b + BUCKET)) {
      var i :| 0 <= i < |held| && held[i] == b;
      assert all[|external| + |own| + i] == Interval(b, b + BUCKET);
    }
    if HitsAny(x, all) {
      var i :| 0 <= i < |all| && Overlaps(x, all[i]);
      if i < |external| {
        assert all[i] == external[i];
      } else if i < |external| + |own| {
        assert own[i - |external|] in own && all[i] == Interval(own[i - |external|], own[i - |external|] + BUCKET);
      } else {
        var k := i - |external| - |own|;
        assert held[k] in held && all[i] == Interval(held[k], held[k] + BUCKET);
      }
    }
  }

  /** The listing's busy range: the query range widened by buffers and duration. */
  function BusyRange(range: Interval, et: EventType): Interval {
    BookingFootprint(range.start, range.end + et.Duration(), et)
  }

  /** Where one host's busy list came from. */
  datatype Loaded = Loaded(own: seq<int>, held: seq<int>, external: seq<Interval>)

  /** `h` was built from the tables as read over `range` at `now`. */
  ghost predicate LoadedFrom(
    h: HostInput, from: Loaded, db: Db, holds: set<HoldRow>, range: Interval, now: int, except: Option<int>)
  {
    && h.busy == Combined(from.own, from.held, from.external)
    && (forall b :: b in from.own <==> BucketClaim(h.hostUserId, b) in BusyRows(db, {h.hostUserId}, range))
    && (forall b :: b in from.held <==> b in ActiveHolds(holds, h.hostUserId, range, now, except))
  }

  /** Every external event the commit sees against `x`, the listing had seen too. */
  ghost predicate NoNewExternal(listing: Loaded, commit: Loaded, x: Interval) {
    HitsAny(x, commit.external) ==> HitsAny(x, listing.external)
  }

  /** A start inside the query range has its whole footprint inside the busy range. */
  lemma FootprintInBusyRange(q: SlotQuery, start: int)
    requires q.range.start <= start < q.range.end
    ensures var f, r := SlotFootprint(q.eventType, start), BusyRange(q.range, q.eventType);
      r.start <= f.start && f.end <= r.end
  {
  }

  /** A host clear in the listing is clear at commit when nothing was added in between. */
  lemma StaysClear(
    q: SlotQuery, h: HostInput, c: HostInput, lf: Loaded, cf: Loaded,
    db: Db, holds: set<HoldRow>, start: int, now: int, except: Option<int>)
    requires ValidEventType(q.eventType) && OnGrid(start) && q.range.start <= start < q.range.end && q.now <= now
    requires h.hostUserId == c.hostUserId
    requires LoadedFrom(h, lf, db, holds, BusyRange(q.range, q.eventType), q.now, None)
    requires LoadedFrom(c, cf, db, holds, SlotFootprint(q.eventType, start), now, except)
    requires NoNewExternal(lf, cf, SlotFootprint(q.eventType, start))
    requires Clear(h, q.eventType, start)
    ensures Clear(c, q.eventType, start)
  {
    var f := SlotFootprint(q.eventType, start);
    FootprintInBusyRange(q, start);
    CombinedHits(lf.own, lf.held, lf.external, f);
    CombinedHits(cf.own, cf.held, cf.external, f);
    forall b | b in cf.own ensures b in lf.own {
    }
    forall b | b in cf.held ensures b in lf.held {
      var r :| r in holds && r.claim.hostUserId == c.hostUserId && r.claim.bucketStart == b
               && f.start <= r.claim.bucketStart < f.end && r.expiresAt > now;
    }
  }

  /** A host accepted on fresh rows has every bucket of the footprint free. */
  lemma AcceptedBucketsAreFree(
    c: HostInput, cf: Loaded, et: EventType, db: Db, holds: set<HoldRow>, start: int, now: int, except: Option<int>)
    requires ValidEventType(et) && OnGrid(start)
    requires LoadedFrom(c, cf, db, holds, SlotFootprint(et, start), now, except) && Clear(c, et, start)
    ensures forall b :: b in BucketsOf(SlotFootprint(et, start)) ==> BucketClaim(c.hostUserId, b) !in db.locks
  {
    hide BucketsOf, OnGrid, ValidEventType;
    var f := SlotFootprint(et, start);
    FootprintIsAligned(et, start);
    CombinedHits(cf.own, cf.held, cf.external, f);
    forall b | b in BucketsOf(f) ensures BucketClaim(c.hostUserId, b) !in db.locks {
      BucketIn(f, b);
      if b < f.start {
        GridGap(b, f.start);
      }
      assert Overlaps(f, Interval(b, b + BUCKET));
      assert b !in cf.own;
    }
  }

  /** Listing inputs and commit inputs describe the same hosts over the same tables. */
  ghost predicate SameHosts(
    q: SlotQuery, req: BookingRequest, listing: seq<Loaded>, commit: seq<Loaded>,
    db: Db, holds: set<HoldRow>, except: Option<int>)
  {
    && |req.hosts| == |q.hosts| == |listing| == |commit|
    && req.eventType == q.eventType && q.range.start <= req.start < q.range.end && q.now <= req.now
    && q.eventType.Earliest(req.now) <= req.start
    && forall j :: 0 <= j < |q.hosts| ==>
         && req.hosts[j].hostUserId == q.hosts[j].hostUserId
         && req.hosts[j].availability == q.hosts[j].availability
         && LoadedFrom(q.hosts[j], listing[j], db, holds, BusyRange(q.range, q.eventType), q.now, None)
         && LoadedFrom(req.hosts[j], commit[j], db, holds, SlotFootprint(q.eventType, req.start), req.now, except)
         && NoNewExternal(listing[j], commit[j], SlotFootprint(q.eventType, req.start))
         && (q.eventType.maxPerDay.Some? ==> UsedOn(req.hosts[j], req.start) == UsedOn(q.hosts[j], req.start))
  }

  /** Each host the listing offers accepts the booking request. */
  lemma OfferedHostAccepts(
    q: SlotQuery, req: BookingRequest, listing: seq<Loaded>, commit: seq<Loaded>,
    db: Db, holds: set<HoldRow>, except: Option<int>, j: nat)
    requires ValidQuery(q) && SameHosts(q, req, listing, commit, db, holds, except)
    requires j < |q.hosts| && q.hosts[j].hostUserId in EligibleIds(q, req.start)
    ensures Accepts(req, req.hosts[j])
  {
    hide EligibleIds;
    ListedSlotIsValid(q, req.start, j);
    StaysClear(q, q.hosts[j], req.hosts[j], listing[j], commit[j], db, holds, req.start, req.now, except);
    SameAvailabilityFree(q.hosts[j], req.hosts[j], q.eventType, req.start);
  }

  lemma SameAvailabilityFree(h: HostInput, c: HostInput, et: EventType, start: int)
    requires h.availability == c.availability && FootprintFree(h, et, start)
    ensures FootprintFree(c, et, start)
  {
    hide FreeFor;
  }

  /** The caller sent every host it meant, and one only for a personal event. */
  ghost predicate WholeParty(req: BookingRequest) {
    && (req.eventType.schedulingType == Personal ==> |req.hosts| == 1)
    && (req.expectedHostCount.Some? ==> |req.hosts| >= req.expectedHostCount.value)
  }

  /** `prepareBooking` accepts every offered slot. */
  lemma OfferedSlotPrepares(
    q: SlotQuery, req: BookingRequest, listing: seq<Loaded>, commit: seq<Loaded>,
    db: Db, holds: set<HoldRow>, except: Option<int>)
    requires ValidQuery(q) && SameHosts(q, req, listing, commit, db, holds, except) && WholeParty(req)
    requires EligibleIds(q, req.start) != []
    ensures Prepare(req).Prepared?
  {
    hide Accepts, EligibleIds, SameHosts;
    OfferRuns(q, req, listing, commit, db, holds, except);
    forall j | 0 <= j < |q.hosts| && q.hosts[j].hostUserId in EligibleIds(q, req.start)
      ensures Accepts(req, req.hosts[j])
    {
      OfferedHostAccepts(q, req, listing, commit, db, holds, except, j);
    }
    SomeEligible(q, req.start);
    NoneRefusing(req, |req.hosts|);
    AcceptingAccept(req, |req.hosts|);
    if req.eventType.schedulingType == RoundRobin {
      var eligible := Accepting(req, |req.hosts|);
      RoundRobin.ChoiceIsMaximal(req.rotation, req.now, HostIds(eligible));
      IndexFound(eligible, RoundRobin.Chosen(req.rotation, req.now, HostIds(eligible)));
    }
  }

  lemma OfferRuns(
    q: SlotQuery, req: BookingRequest, listing: seq<Loaded>, commit: seq<Loaded>,
    db: Db, holds: set<HoldRow>, except: Option<int>)
    requires SameHosts(q, req, listing, commit, db, holds, except) && EligibleIds(q, req.start) != []
    ensures req.eventType == q.eventType && q.eventType.active && |req.hosts| == |q.hosts| > 0
  {
    hide LoadedFrom;
  }

  /** A start is offered for all hosts of a collective event, for some host otherwise. */
  lemma SomeEligible(q: SlotQuery, start: int)
    requires EligibleIds(q, start) != []
    ensures exists j :: 0 <= j < |q.hosts| && q.hosts[j].hostUserId in EligibleIds(q, start)
    ensures q.eventType.schedulingType == Collective ==>
              forall j :: 0 <= j < |q.hosts| ==> q.hosts[j].hostUserId in EligibleIds(q, start)
  {
    hide Offers, AllOffer;
    if q.eventType.schedulingType == Collective {
      forall j | 0 <= j < |q.hosts| ensures q.hosts[j].hostUserId in EligibleIds(q, start) {
        assert HostIds(q.hosts)[j] == q.hosts[j].hostUserId;
      }
    } else {
      OfferingIdsAreEarlier(q, |q.hosts|, start);
      var id := EligibleIds(q, start)[0];
      assert id in OfferingIds(q, |q.hosts|, start);
      var j :| 0 <= j < |q.hosts| && q.hosts[j].hostUserId == id && Offers(q, q.hosts[j], start);
      assert q.hosts[j].hostUserId in EligibleIds(q, start);
    }
  }

  /** A prepared write over unchanged tables finds every bucket free. */
  lemma PreparedCommits(req: BookingRequest, commit: seq<Loaded>, db: Db, holds: set<HoldRow>, except: Option<int>)
    requires ValidRequest(req) && DistinctHosts(req.hosts) && Prepare(req).Prepared? && |commit| == |req.hosts|
    requires forall j :: 0 <= j < |req.hosts| ==>
               LoadedFrom(req.hosts[j], commit[j], db, holds, SlotFootprint(req.eventType, req.start), req.now, except)
    requires req.bookingId !in db.bookings
    ensures CanCreate(db, Prepare(req).booking, Prepare(req).buckets)
  {
    hide LoadedFrom, Accepts;
    PreparedClaims(req);
    ParticipantsAccept(req);
    var claims, hosts := Prepare(req).buckets, Participating(req).hosts;
    forall c | c in claims ensures c !in db.locks {
      assert c.hostUserId in HostIds(hosts);
      var k :| 0 <= k < |hosts| && HostIds(hosts)[k] == c.hostUserId;
      var j := ParticipantIndex(req, k);
      AcceptedIsFree(req, commit[j], db, holds, except, j);
    }
  }

  lemma AcceptedIsFree(
    req: BookingRequest, from: Loaded, db: Db, holds: set<HoldRow>, except: Option<int>, j: nat)
    requires ValidEventType(req.eventType) && j < |req.hosts| && Accepts(req, req.hosts[j])
    requires LoadedFrom(req.hosts[j], from, db, holds, SlotFootprint(req.eventType, req.start), req.now, except)
    ensures forall b :: b in BucketsOf(SlotFootprint(req.eventType, req.start)) ==>
              BucketClaim(req.hosts[j].hostUserId, b) !in db.locks
  {
    hide FootprintFree, LoadedFrom;
    AcceptedBucketsAreFree(req.hosts[j], from, req.eventType, db, holds, req.start, req.now, except);
  }

  /**
   * A slot the engine offers is a slot the batch accepts: if the lock and hold
   * tables are unchanged since the listing and no new external event covers the
   * slot, an offered start is prepared and then written, for every scheduling
   * type and whatever the query range.
   */
  lemma OfferedSlotCommits(
    q: SlotQuery, req: BookingRequest, listing: seq<Loaded>, commit: seq<Loaded>,
    db: Db, holds: set<HoldRow>, except: Option<int>)
    requires ValidQuery(q) && SameHosts(q, req, listing, commit, db, holds, except) && WholeParty(req)
    requires EligibleIds(q, req.start) != [] && req.bookingId !in db.bookings
    ensures Prepare(req).Prepared?
    ensures CanCreate(db, Prepare(req).booking, Prepare(req).buckets)
  {
    hide EligibleIds, LoadedFrom, Prepare;
    OfferedSlotPrepares(q, req, listing, commit, db, holds, except);
    SameIsValid(q, req);
    PreparedCommits(req, commit, db, holds, except);
  }

  lemma SameIsValid(q: SlotQuery, req: BookingRequest)
    requires ValidQuery(q) && |req.hosts| == |q.hosts| && req.eventType == q.eventType
    requires forall j :: 0 <= j < |q.hosts| ==>
               req.hosts[j].hostUserId == q.hosts[j].hostUserId && req.hosts[j].availability == q.hosts[j].availability
    ensures ValidRequest(req) && DistinctHosts(req.hosts)
  {
  }

  // ---- What keeps a slot from being offered ---------------------------------------------------

  /** Five minutes of some table that touch the meeting or its buffers. */
  predicate Touches(et: EventType, start: int, bucket: int) {
    bucket < FootprintEnd(et, start) && FootprintStart(et, start) < bucket + 300_000
  }

  /** Somebody's hold on this host, unexpired and not the caller's own. */
  predicate HeldByOther(r: HoldRow, host: int, now: int, except: Option<int>) {
    r.claim.hostUserId == host && now < r.expiresAt && except != Some(r.holdId)
  }

  /**
   * What clear means in the tables, for hosts whose busy list was read over a range around
   * the footprint: no lock row of the host, no hold of somebody else and no external event
   * touches the meeting or its buffers.
   */
  lemma ClearIffNothingThere(
    h: HostInput, from: Loaded, db: Db, holds: set<HoldRow>, range: Interval, now: int, except: Option<int>,
    et: EventType, start: int)
    requires ValidEventType(et) && OnGrid(start) && LoadedFrom(h, from, db, holds, range, now, except)
    requires range.start <= FootprintStart(et, start) && FootprintEnd(et, start) <= range.end
    requires forall c :: c in db.locks ==> OnGrid(c.bucketStart)
    requires forall r :: r in holds ==> OnGrid(r.claim.bucketStart)
    ensures Clear(h, et, start) <==>
              && (forall c :: c in db.locks && c.hostUserId == h.hostUserId ==> !Touches(et, start, c.bucketStart))
              && (forall r :: r in holds && HeldByOther(r, h.hostUserId, now, except) ==>
                    !Touches(et, start, r.claim.bucketStart))
              && !HitsAny(Interval(FootprintStart(et, start), FootprintEnd(et, start)), from.external)
  {
    hide OnGrid, ValidEventType, HitsAny, Combined;
    var f := SlotFootprint(et, start);
    FootprintIsRaw(et, start);
    FootprintIsAligned(et, start);
    CombinedHits(from.own, from.held, from.external, f);
    forall c | c in db.locks && c.hostUserId == h.hostUserId && Touches(et, start, c.bucketStart)
      ensures c.bucketStart in from.own && Overlaps(f, Interval(c.bucketStart, c.bucketStart + BUCKET))
    {
      TouchingIsInside(f, c.bucketStart);
      assert c == BucketClaim(h.hostUserId, c.bucketStart);
    }
    forall r | r in holds && HeldByOther(r, h.hostUserId, now, except) && Touches(et, start, r.claim.bucketStart)
      ensures r.claim.bucketStart in from.held
      ensures Overlaps(f, Interval(r.claim.bucketStart, r.claim.bucketStart + BUCKET))
    {
      TouchingIsInside(f, r.claim.bucketStart);
    }
    forall b | b in from.own && Overlaps(f, Interval(b, b + BUCKET))
      ensures BucketClaim(h.hostUserId, b) in db.locks && Touches(et, start, b)
    {
    }
    forall b | b in from.held && Overlaps(f, Interval(b, b + BUCKET))
      ensures exists r :: r in holds && HeldByOther(r, h.hostUserId, now, except) && r.claim.bucketStart == b
    {
      var r :| r in holds && r.claim.hostUserId == h.hostUserId && r.claim.bucketStart == b
               && r.expiresAt > now && Some(r.holdId) != except;
      assert HeldByOther(r, h.hostUserId, now, except);
    }
  }

  /** A bucket on the grid that touches an aligned interval begins inside it. */
  lemma TouchingIsInside(f: Interval, bucket: int)
    requires Aligned(f) && OnGrid(bucket) && bucket < f.end && f.start < bucket + 300_000
    ensures f.start <= bucket
  {
    if bucket < f.start {
      GridGap(bucket, f.start);
    }
  }
}
