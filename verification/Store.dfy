/**
 * The booking tables and their atomic batches (src/adapters/d1/repositories.ts:
 * bookings and slot_locks).
 */
module Store {
  import opened Common
  import opened Intervals
  import opened Buckets
  import opened Domain

  /**
   * The tables as one value. `slot_locks` has primary key (host, bucket), so it
   * is a map from claims to booking ids. `footprints` remembers the buffered
   * interval each booking was committed with, and `cutoff` the latest prune.
   */
  datatype Db = Db(
    bookings: map<int, Booking>,
    locks: map<BucketClaim, int>,
    footprints: map<int, Interval>,
    cutoff: int)

  predicate Live(db: Db, id: int) {
    id in db.bookings && db.bookings[id].status == Confirmed
  }

  // ---- The batches as functions of the tables -------------------------------------

  /** The claims are distinct and none is in the table yet. */
  ghost predicate NewClaims(locks: map<BucketClaim, int>, claims: seq<BucketClaim>) {
    NoRepeats(claims) && forall c :: c in claims ==> c !in locks
  }

  function WithClaims(locks: map<BucketClaim, int>, claims: seq<BucketClaim>, id: int): map<BucketClaim, int> {
    locks + map c | c in claims :: id
  }

  ghost predicate CanCreate(db: Db, b: Booking, claims: seq<BucketClaim>) {
    b.id !in db.bookings && NewClaims(db.locks, claims)
  }

  ghost function Created(db: Db, b: Booking, claims: seq<BucketClaim>, footprint: Interval): Db {
    db.(bookings := db.bookings[b.id := b],
        locks := WithClaims(db.locks, claims, b.id),
        footprints := db.footprints[b.id := footprint])
  }

  function Release(locks: map<BucketClaim, int>, id: int): map<BucketClaim, int> {
    map c | c in locks && locks[c] != id :: locks[c]
  }

  /** The row update is conditional on `confirmed`; the lock release is not. */
  ghost function CancelDb(db: Db, id: int, at: int): Db {
    db.(bookings := if Live(db, id)
                    then db.bookings[id := db.bookings[id].(status := Cancelled, cancelledAt := Some(at))]
                    else db.bookings,
        locks := Release(db.locks, id))
  }

  ghost function MarkDb(db: Db, id: int, newId: int): Db {
    db.(bookings := if Live(db, id)
                    then db.bookings[id := db.bookings[id].(status := Rescheduled, rescheduledTo := Some(newId))]
                    else db.bookings,
        locks := Release(db.locks, id))
  }

  ghost function PruneDb(db: Db, cutoff: int): Db {
    db.(locks := map c | c in db.locks && c.bucketStart >= cutoff :: db.locks[c],
        cutoff := Max(db.cutoff, cutoff))
  }

  lemma OneMoreClaim(locks: map<BucketClaim, int>, claims: seq<BucketClaim>, id: int, n: nat)
    requires n < |claims|
    ensures WithClaims(locks, claims[..n + 1], id) == WithClaims(locks, claims[..n], id)[claims[n] := id]
    ensures NewClaims(locks, claims[..n + 1])
            <==> NewClaims(locks, claims[..n]) && claims[n] !in WithClaims(locks, claims[..n], id)
  {
    var before, c := claims[..n], claims[n];
    assert claims[..n + 1] == before + [c];
    NoRepeatsSnoc(before, c);
    MembersOfSnoc(before, c);
  }

  lemma NoRepeatsSnoc(s: seq<BucketClaim>, c: BucketClaim)
    ensures NoRepeats(s + [c]) <==> NoRepeats(s) && c !in s
  {
    if c in s {
      var i :| 0 <= i < |s| && s[i] == c;
      assert (s + [c])[i] == (s + [c])[|s|];
    }
    assert forall i :: 0 <= i < |s| ==> (s + [c])[i] == s[i];
  }

  lemma MembersOfSnoc(s: seq<BucketClaim>, c: BucketClaim)
    ensures forall x :: x in s + [c] <==> x in s || x == c
  {
  }

  lemma NewClaimsPrefix(locks: map<BucketClaim, int>, claims: seq<BucketClaim>, n: nat)
    requires n <= |claims| && NewClaims(locks, claims)
    ensures NewClaims(locks, claims[..n])
  {
  }

  /** The INSERTs of one batch: all of them, or a primary-key conflict. */
  method StageClaims(locks: map<BucketClaim, int>, claims: seq<BucketClaim>, id: int)
    returns (staged: Option<map<BucketClaim, int>>)
    ensures staged == if NewClaims(locks, claims) then Some(WithClaims(locks, claims, id)) else None
  {
    hide NewClaims, WithClaims;
    var rows := locks;
    NoClaims(locks, id);
    for i := 0 to |claims|
      invariant NewClaims(locks, claims[..i]) && rows == WithClaims(locks, claims[..i], id)
    {
      OneMoreClaim(locks, claims, id, i);
      if claims[i] in rows {
        if NewClaims(locks, claims) {
          NewClaimsPrefix(locks, claims, i + 1);
        }
        return None;
      }
      rows := rows[claims[i] := id];
    }
    assert claims[..|claims|] == claims;
    return Some(rows);
  }

  lemma NoClaims(locks: map<BucketClaim, int>, id: int)
    ensures NewClaims(locks, []) && WithClaims(locks, [], id) == locks
  {
  }

  // ---- The repository ----------------------------------------------------------------

  class Repository {
    var bookings: map<int, Booking>
    var slotLocks: map<BucketClaim, int>
    ghost var footprints: map<int, Interval>
    ghost var cutoff: int

    ghost function View(): Db
      reads this
    {
      Db(bookings, slotLocks, footprints, cutoff)
    }

    constructor ()
      ensures View() == Db(map[], map[], map[], cutoff)
    {
      bookings, slotLocks, footprints := map[], map[], map[];
    }

    /** One batch: the row and every claim, or nothing at all. */
    method CreateWithLocks(b: Booking, claims: seq<BucketClaim>, ghost footprint: Interval)
      returns (written: Option<Booking>)
      modifies this
      ensures CanCreate(old(View()), b, claims) ==>
                written == Some(b) && View() == Created(old(View()), b, claims, footprint)
      ensures !CanCreate(old(View()), b, claims) ==> written == None && View() == old(View())
    {
      if b.id in bookings {
        return None;
      }
      var staged := StageClaims(slotLocks, claims, b.id);
      if staged.None? {
        return None;
      }
      bookings := bookings[b.id := b];
      slotLocks := staged.value;
      footprints := footprints[b.id := footprint];
      return Some(b);
    }

    method CancelWithLockRelease(id: int, at: int) returns (changed: bool)
      modifies this
      ensures changed == Live(old(View()), id) && View() == CancelDb(old(View()), id, at)
    {
      changed := false;
      if id in bookings && bookings[id].status == Confirmed {
        bookings := bookings[id := bookings[id].(status := Cancelled, cancelledAt := Some(at))];
        changed := true;
      }
      slotLocks := Release(slotLocks, id);
    }

    method MarkRescheduled(id: int, newId: int) returns (changed: bool)
      modifies this
      ensures changed == Live(old(View()), id) && View() == MarkDb(old(View()), id, newId)
    {
      changed := false;
      if id in bookings && bookings[id].status == Confirmed {
        bookings := bookings[id := bookings[id].(status := Rescheduled, rescheduledTo := Some(newId))];
        changed := true;
      }
      slotLocks := Release(slotLocks, id);
    }

    method PruneLocksBefore(before: int) returns (removed: nat)
      modifies this
      ensures View() == PruneDb(old(View()), before)
      ensures removed == |old(slotLocks)| - |slotLocks|
    {
      var kept := map c | c in slotLocks && c.bucketStart >= before :: slotLocks[c];
      KeptIsSmaller(slotLocks, kept);
      removed := |slotLocks| - |kept|;
      slotLocks := kept;
      cutoff := Max(cutoff, before);
    }

    method BusyBuckets(hosts: set<int>, range: Interval) returns (rows: set<BucketClaim>)
      ensures rows == BusyRows(View(), hosts, range)
    {
      return set c | c in slotLocks && c.hostUserId in hosts && range.start <= c.bucketStart < range.end;
    }
  }

  lemma KeptIsSmaller(all: map<BucketClaim, int>, kept: map<BucketClaim, int>)
    requires kept.Keys <= all.Keys
    ensures |kept| <= |all|
  {
    assert |all.Keys - kept.Keys| == |all.Keys| - |kept.Keys|;
  }

  function BusyRows(db: Db, hosts: set<int>, range: Interval): set<BucketClaim> {
    set c | c in db.locks && c.hostUserId in hosts && range.start <= c.bucketStart < range.end
  }

  // ---- The lock table is an index of confirmed bookings ----------------------------------

  /** `c` is one of the claims booking `id` was committed with. */
  ghost predicate Claimed(db: Db, id: int, c: BucketClaim) {
    && id in db.bookings && id in db.footprints
    && c.hostUserId in db.bookings[id].hostUserIds
    && c.bucketStart in BucketsOf(db.footprints[id])
  }

  ghost predicate RowsAreClaims(db: Db) {
    forall c :: c in db.locks ==> Live(db, db.locks[c]) && Claimed(db, db.locks[c], c)
  }

  ghost predicate ClaimsAreRows(db: Db) {
    forall id, c :: Live(db, id) && Claimed(db, id, c) && db.cutoff <= c.bucketStart ==>
      c in db.locks && db.locks[c] == id
  }

  /** Exactly the claims of confirmed bookings, except those pruned away. */
  ghost predicate LockIndex(db: Db) {
    && db.footprints.Keys == db.bookings.Keys
    && RowsAreClaims(db)
    && ClaimsAreRows(db)
  }

  ghost predicate ExactClaims(b: Booking, claims: seq<BucketClaim>, footprint: Interval) {
    forall c :: c in claims <==> c.hostUserId in b.hostUserIds && c.bucketStart in BucketsOf(footprint)
  }

  lemma CreateKeepsIndex(db: Db, b: Booking, claims: seq<BucketClaim>, footprint: Interval)
    requires LockIndex(db) && CanCreate(db, b, claims)
    requires b.status == Confirmed && ExactClaims(b, claims, footprint)
    ensures LockIndex(Created(db, b, claims, footprint))
  {
    var d := Created(db, b, claims, footprint);
    forall c | c in d.locks ensures Live(d, d.locks[c]) && Claimed(d, d.locks[c], c) {
      if c !in claims {
        assert Live(db, db.locks[c]) && Claimed(db, db.locks[c], c);
      }
    }
    forall id, c | Live(d, id) && Claimed(d, id, c) && d.cutoff <= c.bucketStart
      ensures c in d.locks && d.locks[c] == id
    {
      if id != b.id {
        assert Live(db, id) && Claimed(db, id, c);
      }
    }
  }

  /** Dropping rows is safe when only unconfirmed or pruned claims lose theirs. */
  lemma ShrinkKeepsIndex(db: Db, d: Db)
    requires LockIndex(db) && db.cutoff <= d.cutoff && d.footprints == db.footprints
    requires d.bookings.Keys == db.bookings.Keys
    requires forall id :: id in db.bookings ==> d.bookings[id].hostUserIds == db.bookings[id].hostUserIds
    requires forall id :: Live(d, id) ==> Live(db, id)
    requires forall c :: c in d.locks ==> c in db.locks && d.locks[c] == db.locks[c] && Live(d, d.locks[c])
    requires forall c :: c in db.locks && Live(d, db.locks[c]) && d.cutoff <= c.bucketStart ==> c in d.locks
    ensures LockIndex(d)
  {
    forall c | c in d.locks ensures Claimed(d, d.locks[c], c) {
      assert Claimed(db, db.locks[c], c);
    }
    forall id, c | Live(d, id) && Claimed(d, id, c) && d.cutoff <= c.bucketStart
      ensures c in d.locks && d.locks[c] == id
    {
      assert Live(db, id) && Claimed(db, id, c);
    }
  }

  /** The unconditional DELETE is harmless: a booking that is not confirmed has no rows. */
  lemma CancelKeepsIndex(db: Db, id: int, at: int)
    requires LockIndex(db)
    ensures LockIndex(CancelDb(db, id, at))
    ensures !Live(db, id) ==> CancelDb(db, id, at) == db
  {
    hide Claimed;
    ShrinkKeepsIndex(db, CancelDb(db, id, at));
    if !Live(db, id) {
      assert Release(db.locks, id) == db.locks;
    }
  }

  lemma MarkKeepsIndex(db: Db, id: int, newId: int)
    requires LockIndex(db)
    ensures LockIndex(MarkDb(db, id, newId))
    ensures !Live(db, id) ==> MarkDb(db, id, newId) == db
  {
    hide Claimed;
    ShrinkKeepsIndex(db, MarkDb(db, id, newId));
    if !Live(db, id) {
      assert Release(db.locks, id) == db.locks;
    }
  }

  lemma PruneKeepsIndex(db: Db, cutoff: int)
    requires LockIndex(db)
    ensures LockIndex(PruneDb(db, cutoff))
  {
    hide Claimed;
    ShrinkKeepsIndex(db, PruneDb(db, cutoff));
  }

  /** Some confirmed booking of one of the hosts occupies this bucket. */
  ghost predicate Occupied(db: Db, hosts: set<int>, c: BucketClaim) {
    c.hostUserId in hosts && exists id :: Live(db, id) && Claimed(db, id, c)
  }

  /** From the prune cutoff on, reading the lock table equals scanning the bookings. */
  lemma BusyRowsAreOccupied(db: Db, hosts: set<int>, range: Interval)
    requires LockIndex(db) && db.cutoff <= range.start
    ensures forall c :: c in BusyRows(db, hosts, range) <==>
              range.start <= c.bucketStart < range.end && Occupied(db, hosts, c)
  {
    forall c ensures c in BusyRows(db, hosts, range) <==>
                     range.start <= c.bucketStart < range.end && Occupied(db, hosts, c)
    {
      if c in db.locks {
        assert Live(db, db.locks[c]) && Claimed(db, db.locks[c], c);
      }
    }
  }

  // ---- No double booking ------------------------------------------------------------------

  predicate SharesHost(a: Booking, b: Booking) {
    exists h :: h in a.hostUserIds && h in b.hostUserIds
  }

  /** Distinct confirmed bookings with a host in common. */
  ghost predicate BothHold(db: Db, i: int, j: int) {
    && i != j && Live(db, i) && Live(db, j) && i in db.footprints && j in db.footprints
    && SharesHost(db.bookings[i], db.bookings[j])
  }

  /** Two distinct confirmed bookings of one host never overlap, buffers included. */
  ghost predicate NoDoubleBooking(db: Db) {
    forall i, j :: BothHold(db, i, j) ==> !Overlaps(db.footprints[i], db.footprints[j])
  }

  /** A confirmed booking that shares a host with `b` and overlaps `footprint`. */
  ghost predicate Conflicts(db: Db, id: int, b: Booking, footprint: Interval) {
    && Live(db, id) && id in db.footprints
    && SharesHost(db.bookings[id], b) && Overlaps(db.footprints[id], footprint)
  }

  ghost predicate FootprintsAligned(db: Db) {
    forall id :: id in db.footprints ==>
      Aligned(db.footprints[id]) && db.footprints[id].start < db.footprints[id].end
  }

  ghost predicate AfterCutoff(db: Db, footprint: Interval) {
    forall x :: x in BucketsOf(footprint) ==> db.cutoff <= x
  }

  lemma ConflictBlocks(db: Db, id: int, b: Booking, claims: seq<BucketClaim>, footprint: Interval)
    requires LockIndex(db) && FootprintsAligned(db) && Conflicts(db, id, b, footprint)
    requires ExactClaims(b, claims, footprint) && AfterCutoff(db, footprint) && footprint.start < footprint.end
    ensures !CanCreate(db, b, claims)
  {
    var h :| h in db.bookings[id].hostUserIds && h in b.hostUserIds;
    SharedBucketIffOverlap(db.footprints[id], footprint);
    var x :| x in BucketsOf(db.footprints[id]) && x in BucketsOf(footprint);
    var c := BucketClaim(h, x);
    assert c in claims && Claimed(db, id, c);
  }

  /** The batch refuses a fresh booking exactly when it would double-book. */
  lemma CommitIffNoConflict(db: Db, b: Booking, claims: seq<BucketClaim>, footprint: Interval)
    requires LockIndex(db) && FootprintsAligned(db)
    requires ExactClaims(b, claims, footprint) && NoRepeats(claims) && b.id !in db.bookings
    requires AfterCutoff(db, footprint) && Aligned(footprint) && footprint.start < footprint.end
    ensures CanCreate(db, b, claims) <==> forall id :: !Conflicts(db, id, b, footprint)
  {
    forall id | Conflicts(db, id, b, footprint) ensures !CanCreate(db, b, claims) {
      ConflictBlocks(db, id, b, claims, footprint);
    }
    if !CanCreate(db, b, claims) {
      var c :| c in claims && c in db.locks;
      var id := db.locks[c];
      assert Live(db, id) && Claimed(db, id, c);
      SharedBucketIffOverlap(db.footprints[id], footprint);
      assert c.bucketStart in BucketsOf(footprint);
      assert Conflicts(db, id, b, footprint);
    }
  }

  lemma CreateKeepsApart(db: Db, b: Booking, claims: seq<BucketClaim>, footprint: Interval)
    requires LockIndex(db) && FootprintsAligned(db) && NoDoubleBooking(db) && CanCreate(db, b, claims)
    requires ExactClaims(b, claims, footprint) && AfterCutoff(db, footprint) && footprint.start < footprint.end
    ensures NoDoubleBooking(Created(db, b, claims, footprint))
  {
    forall id ensures !Conflicts(db, id, b, footprint) {
      if Conflicts(db, id, b, footprint) {
        ConflictBlocks(db, id, b, claims, footprint);
      }
    }
    var d := Created(db, b, claims, footprint);
    forall i, j | BothHold(d, i, j) ensures !Overlaps(d.footprints[i], d.footprints[j]) {
      if i == b.id {
        SharingIsSymmetric(d.bookings[i], d.bookings[j]);
        assert !Conflicts(db, j, b, footprint);
      } else if j == b.id {
        assert !Conflicts(db, i, b, footprint);
      } else {
        assert BothHold(db, i, j);
      }
    }
  }

  lemma SharingIsSymmetric(a: Booking, b: Booking)
    ensures SharesHost(a, b) <==> SharesHost(b, a)
  {
  }

  // ---- What cancelling, moving and pruning do, row by row -----------------------------------

  /** Cancelling a confirmed booking: it alone changes, when and how, and exactly its rows go. */
  lemma CancelMeans(db: Db, id: int, at: int)
    requires id in db.bookings && db.bookings[id].status == Confirmed
    ensures var d := CancelDb(db, id, at);
      && d.bookings.Keys == db.bookings.Keys
      && d.bookings[id].status == Cancelled && d.bookings[id].cancelledAt == Some(at)
      && d.bookings[id].(status := Confirmed, cancelledAt := db.bookings[id].cancelledAt) == db.bookings[id]
      && (forall x :: x in db.bookings && x != id ==> d.bookings[x] == db.bookings[x])
      && (forall c :: c in d.locks <==> c in db.locks && db.locks[c] != id)
      && forall c :: c in d.locks ==> d.locks[c] == db.locks[c]
  {
  }

  /** Moving one to another: it alone changes, and exactly its rows go. */
  lemma MarkMeans(db: Db, id: int, newId: int)
    requires id in db.bookings && db.bookings[id].status == Confirmed
    ensures var d := MarkDb(db, id, newId);
      && d.bookings.Keys == db.bookings.Keys
      && d.bookings[id].status == Rescheduled && d.bookings[id].rescheduledTo == Some(newId)
      && d.bookings[id].(status := Confirmed, rescheduledTo := db.bookings[id].rescheduledTo) == db.bookings[id]
      && (forall x :: x in db.bookings && x != id ==> d.bookings[x] == db.bookings[x])
      && (forall c :: c in d.locks <==> c in db.locks && db.locks[c] != id)
      && forall c :: c in d.locks ==> d.locks[c] == db.locks[c]
  {
  }

  /** Some other confirmed booking of one of the hosts has time in this footprint. */
  ghost predicate OtherConflict(db: Db, id: int, b: Booking, footprint: Interval) {
    exists x :: x != id && Conflicts(db, x, b, footprint)
  }

  /** A cancelled booking no longer stands in anybody's way. */
  lemma CancelFreesTheTime(db: Db, id: int, at: int, b: Booking, claims: seq<BucketClaim>, footprint: Interval)
    requires LockIndex(db) && FootprintsAligned(db) && Live(db, id)
    requires ExactClaims(b, claims, footprint) && NoRepeats(claims) && b.id !in db.bookings
    requires AfterCutoff(db, footprint) && Aligned(footprint) && footprint.start < footprint.end
    ensures CanCreate(CancelDb(db, id, at), b, claims) <==> !OtherConflict(db, id, b, footprint)
  {
    hide LockIndex, CanCreate, ExactClaims, AfterCutoff, Overlaps, SharesHost;
    var d := CancelDb(db, id, at);
    CancelKeepsIndex(db, id, at);
    SameCutoff(db, d, footprint);
    CommitIffNoConflict(d, b, claims, footprint);
    forall x ensures Conflicts(d, x, b, footprint) <==> x != id && Conflicts(db, x, b, footprint) {
    }
  }

  lemma SameCutoff(db: Db, d: Db, footprint: Interval)
    requires AfterCutoff(db, footprint) && d.cutoff == db.cutoff
    ensures AfterCutoff(d, footprint)
  {
  }

  /** Pruning: exactly the rows of buckets before the cutoff go, whoever they belong to. */
  lemma PruneMeans(db: Db, cutoff: int)
    ensures var d := PruneDb(db, cutoff);
      && d.bookings == db.bookings
      && (forall c :: c in d.locks <==> c in db.locks && cutoff <= c.bucketStart)
      && forall c :: c in d.locks ==> d.locks[c] == db.locks[c]
  {
  }
}
