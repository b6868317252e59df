/** Bookings and bucket claims (src/core/domain/types.ts, src/ports.ts). */
module Domain {
  import opened Common

  datatype Status = Confirmed | Cancelled | Rescheduled

  datatype Booking = Booking(
    id: int,
    eventTypeId: int,
    hostUserId: int,
    hostUserIds: seq<int>,
    startUtc: int,
    endUtc: int,
    localDate: int,
    status: Status,
    rescheduleOf: Option<int>,
    rescheduledTo: Option<int>,
    cancelledAt: Option<int>,
    createdAt: int)

  /** One row a booking writes to `slot_locks`, without the booking id. */
  datatype BucketClaim = BucketClaim(hostUserId: int, bucketStart: int)

  /** One host's claims on a list of buckets. */
  function HostClaims(host: int, buckets: seq<int>): seq<BucketClaim> {
    seq(|buckets|, i requires 0 <= i < |buckets| => BucketClaim(host, buckets[i]))
  }

  /** Every host's claims on the same buckets, host by host. */
  function Claims(hosts: seq<int>, buckets: seq<int>): seq<BucketClaim> {
    if hosts == [] then []
    else Claims(hosts[..|hosts| - 1], buckets) + HostClaims(hosts[|hosts| - 1], buckets)
  }

  lemma {:induction false} ClaimsMembers(hosts: seq<int>, buckets: seq<int>, c: BucketClaim)
    ensures c in Claims(hosts, buckets) <==> c.hostUserId in hosts && c.bucketStart in buckets
  {
    if hosts != [] {
      var n := |hosts| - 1;
      ClaimsMembers(hosts[..n], buckets, c);
      assert hosts == hosts[..n] + [hosts[n]];
      if c.hostUserId == hosts[n] && c.bucketStart in buckets {
        var i :| 0 <= i < |buckets| && buckets[i] == c.bucketStart;
        assert HostClaims(hosts[n], buckets)[i] == c;
      }
    }
  }

  ghost predicate NoRepeats<T>(s: seq<T>) {
    forall i, j :: 0 <= i < j < |s| ==> s[i] != s[j]
  }

  /** Distinct hosts and distinct buckets never make a batch collide with itself. */
  lemma {:induction false} ClaimsAreDistinct(hosts: seq<int>, buckets: seq<int>)
    requires NoRepeats(hosts) && NoRepeats(buckets)
    ensures NoRepeats(Claims(hosts, buckets))
  {
    if hosts != [] {
      var n := |hosts| - 1;
      var before, last := Claims(hosts[..n], buckets), HostClaims(hosts[n], buckets);
      ClaimsAreDistinct(hosts[..n], buckets);
      forall i, j | 0 <= i < |before| && 0 <= j < |last| ensures before[i] != last[j] {
        ClaimsMembers(hosts[..n], buckets, before[i]);
        assert before[i] in before;
        assert hosts[n] !in hosts[..n];
      }
    }
  }
}
