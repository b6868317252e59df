/**
 * UID and SEQUENCE over reschedule chains (src/core/ics.ts) and the capped chain
 * loader that feeds them (src/adapters/notify.ts, loadChain).
 */
module IcsChain {
  import opened Common
  import opened Domain

  const CHAIN_ROWS := 20

  ghost predicate KeyedById(chain: map<int, Booking>) {
    forall id :: id in chain ==> chain[id].id == id
  }

  // ---- loadChain ----------------------------------------------------------------

  function LoadFrom(bookings: map<int, Booking>, cursor: Option<int>, rows: nat): map<int, Booking>
    decreases rows
  {
    if cursor.None? || rows == 0 || cursor.value !in bookings then map[]
    else
      var prev := bookings[cursor.value];
      map[cursor.value := prev] + LoadFrom(bookings, prev.rescheduleOf, rows - 1)
  }

  method LoadChain(bookings: map<int, Booking>, b: Booking) returns (chain: map<int, Booking>)
    ensures chain == LoadFrom(bookings, b.rescheduleOf, CHAIN_ROWS)
  {
    chain := map[];
    var cursor := b.rescheduleOf;
    var guard := 0;
    while cursor.Some? && guard < CHAIN_ROWS
      invariant 0 <= guard <= CHAIN_ROWS
      invariant chain + LoadFrom(bookings, cursor, CHAIN_ROWS - guard) == LoadFrom(bookings, b.rescheduleOf, CHAIN_ROWS)
      decreases CHAIN_ROWS - guard
    {
      guard := guard + 1;
      if cursor.value !in bookings {
        return;
      }
      var prev := bookings[cursor.value];
      chain := chain[cursor.value := prev];
      cursor := prev.rescheduleOf;
    }
  }

  // ---- icsRootBookingId and icsSequenceForBooking ----------------------------------

  function RootFrom(current: Booking, chain: map<int, Booking>, seen: set<int>): int
    requires KeyedById(chain)
    decreases chain.Keys - seen
  {
    if current.rescheduleOf.None? then current.id
    else
      var p := current.rescheduleOf.value;
      if p !in chain then p
      else if p in seen then current.id
      else
        assert p in chain.Keys - seen;
        RootFrom(chain[p], chain, seen + {p})
  }

  /** `depth` reschedules have been counted on the way to `current`. */
  function SequenceFrom(current: Booking, chain: map<int, Booking>, seen: set<int>, depth: nat): nat
    requires KeyedById(chain)
    decreases chain.Keys - seen
  {
    if current.rescheduleOf.None? then depth
    else
      var p := current.rescheduleOf.value;
      if p !in chain || p in seen then depth + 1
      else
        assert p in chain.Keys - seen;
        SequenceFrom(chain[p], chain, seen + {p}, depth + 1)
  }

  /** Ends on every chain, cyclic ones included: each round visits a new row. */
  method IcsRootBookingId(b: Booking, chain: map<int, Booking>) returns (root: int)
    requires KeyedById(chain)
    ensures root == RootFrom(b, chain, {b.id})
  {
    var current := b;
    var seen := {current.id};
    while current.rescheduleOf.Some?
      invariant RootFrom(current, chain, seen) == RootFrom(b, chain, {b.id})
      decreases chain.Keys - seen
    {
      if current.rescheduleOf.value !in chain {
        return current.rescheduleOf.value;
      }
      var previous := chain[current.rescheduleOf.value];
      if previous.id in seen {
        return current.id;
      }
      assert previous.id in chain.Keys - seen;
      seen := seen + {previous.id};
      current := previous;
    }
    return current.id;
  }

  method IcsSequenceForBooking(b: Booking, chain: map<int, Booking>, cancelled: bool) returns (sequence: nat)
    requires KeyedById(chain)
    ensures sequence == SequenceFrom(b, chain, {b.id}, 0) + if cancelled then 1 else 0
  {
    var depth := 0;
    var current := b;
    var seen := {current.id};
    while current.rescheduleOf.Some?
      invariant SequenceFrom(current, chain, seen, depth) == SequenceFrom(b, chain, {b.id}, 0)
      decreases chain.Keys - seen
    {
      depth := depth + 1;
      if current.rescheduleOf.value !in chain || chain[current.rescheduleOf.value].id in seen {
        break;
      }
      var previous := chain[current.rescheduleOf.value];
      assert previous.id in chain.Keys - seen;
      seen := seen + {previous.id};
      current := previous;
    }
    return depth + if cancelled then 1 else 0;
  }

  predicate CancelSuppressed(b: Booking) {
    b.rescheduledTo.Some?
  }

  // ---- The true lineage -----------------------------------------------------------------

  /** Where a chain began, and how many reschedules ago. */
  datatype Origin = Origin(root: int, depth: nat)

  ghost predicate LineageOk(bookings: map<int, Booking>, lineage: map<int, Origin>) {
    && lineage.Keys == bookings.Keys && KeyedById(bookings)
    && forall id :: id in bookings ==>
         match bookings[id].rescheduleOf
         case None => lineage[id] == Origin(id, 0)
         case Some(o) => o in bookings && lineage[id] == Origin(lineage[o].root, lineage[o].depth + 1)
  }

  /** The `n`-th predecessor, of the same chain. */
  ghost function Predecessor(bookings: map<int, Booking>, lineage: map<int, Origin>, id: int, n: nat): int
    requires LineageOk(bookings, lineage) && id in bookings && n <= lineage[id].depth
    ensures Predecessor(bookings, lineage, id, n) in bookings
    ensures lineage[Predecessor(bookings, lineage, id, n)] == Origin(lineage[id].root, lineage[id].depth - n)
    decreases n
  {
    if n == 0 then id else Predecessor(bookings, lineage, bookings[id].rescheduleOf.value, n - 1)
  }

  /** The rows below `id` in the chain are exactly the `rows` predecessors loaded. */
  ghost predicate LoadedBelow(
    bookings: map<int, Booking>, lineage: map<int, Origin>, id: int, chain: map<int, Booking>, rows: nat)
    requires LineageOk(bookings, lineage) && id in bookings
  {
    && (forall k :: k in chain ==> k in bookings && chain[k] == bookings[k])
    && (forall k :: k in LoadFrom(bookings, bookings[id].rescheduleOf, rows) ==> k in chain)
    && (forall k :: k in chain && lineage[k].depth < lineage[id].depth ==>
          k in LoadFrom(bookings, bookings[id].rescheduleOf, rows))
  }

  lemma {:induction false} WalkFindsOrigin(
    bookings: map<int, Booking>, lineage: map<int, Origin>, id: int,
    chain: map<int, Booking>, seen: set<int>, rows: nat, depth: nat)
    requires LineageOk(bookings, lineage) && id in bookings && KeyedById(chain)
    requires LoadedBelow(bookings, lineage, id, chain, rows)
    requires forall k :: k in seen && k in bookings ==> lineage[k].depth >= lineage[id].depth
    ensures lineage[id].depth <= rows + 1 ==>
              && RootFrom(bookings[id], chain, seen) == lineage[id].root
              && SequenceFrom(bookings[id], chain, seen, depth) == depth + lineage[id].depth
    ensures lineage[id].depth > rows + 1 ==>
              && RootFrom(bookings[id], chain, seen) == Predecessor(bookings, lineage, id, rows + 1)
              && SequenceFrom(bookings[id], chain, seen, depth) == depth + rows + 1
    decreases rows
  {
    hide LoadedBelow, LoadFrom, LineageOk;
    LinkToPredecessor(bookings, lineage, id);
    if bookings[id].rescheduleOf.Some? {
      var p := bookings[id].rescheduleOf.value;
      PredecessorLoadedIff(bookings, lineage, id, chain, rows);
      if rows > 0 {
        BelowPredecessor(bookings, lineage, id, chain, rows);
        WalkFindsOrigin(bookings, lineage, p, chain, seen + {p}, rows - 1, depth + 1);
      }
    }
  }

  lemma LinkToPredecessor(bookings: map<int, Booking>, lineage: map<int, Origin>, id: int)
    requires LineageOk(bookings, lineage) && id in bookings
    ensures id in lineage && bookings[id].id == id
    ensures bookings[id].rescheduleOf.None? ==> lineage[id] == Origin(id, 0)
    ensures bookings[id].rescheduleOf.Some? ==>
              var p := bookings[id].rescheduleOf.value;
              && p in bookings && p in lineage && bookings[p].id == p
              && lineage[id] == Origin(lineage[p].root, lineage[p].depth + 1)
              && (lineage[p].depth == 0 ==> lineage[p].root == p)
  {
  }

  /** The predecessor was loaded unless the rows had run out. */
  lemma PredecessorLoadedIff(
    bookings: map<int, Booking>, lineage: map<int, Origin>, id: int, chain: map<int, Booking>, rows: nat)
    requires LineageOk(bookings, lineage) && id in bookings && bookings[id].rescheduleOf.Some?
    requires LoadedBelow(bookings, lineage, id, chain, rows)
    ensures bookings[id].rescheduleOf.value in chain <==> rows > 0
    ensures rows > 0 ==> chain[bookings[id].rescheduleOf.value] == bookings[bookings[id].rescheduleOf.value]
  {
    var p := bookings[id].rescheduleOf.value;
    if rows > 0 {
      assert p in LoadFrom(bookings, Some(p), rows);
    } else {
      assert lineage[p].depth < lineage[id].depth;
    }
  }

  lemma BelowPredecessor(
    bookings: map<int, Booking>, lineage: map<int, Origin>, id: int, chain: map<int, Booking>, rows: nat)
    requires LineageOk(bookings, lineage) && id in bookings && 0 < rows
    requires LoadedBelow(bookings, lineage, id, chain, rows) && bookings[id].rescheduleOf.Some?
    ensures LoadedBelow(bookings, lineage, bookings[id].rescheduleOf.value, chain, rows - 1)
  {
    var p := bookings[id].rescheduleOf.value;
    var below := LoadFrom(bookings, bookings[p].rescheduleOf, rows - 1);
    assert LoadFrom(bookings, Some(p), rows) == map[p := bookings[p]] + below;
    forall k | k in below ensures k in chain {
      assert k in LoadFrom(bookings, Some(p), rows);
    }
    forall k | k in chain && lineage[k].depth < lineage[p].depth ensures k in below {
      assert k in LoadFrom(bookings, Some(p), rows);
    }
  }

  lemma {:induction false} LoadIsSubmap(bookings: map<int, Booking>, cursor: Option<int>, rows: nat)
    requires KeyedById(bookings)
    ensures var chain := LoadFrom(bookings, cursor, rows);
      KeyedById(chain) && forall k :: k in chain ==> k in bookings && chain[k] == bookings[k]
    decreases rows
  {
    if !(cursor.None? || rows == 0 || cursor.value !in bookings) {
      LoadIsSubmap(bookings, bookings[cursor.value].rescheduleOf, rows - 1);
    }
  }

  function LoadedRoot(bookings: map<int, Booking>, id: int): int
    requires KeyedById(bookings) && id in bookings
  {
    LoadIsSubmap(bookings, bookings[id].rescheduleOf, CHAIN_ROWS);
    RootFrom(bookings[id], LoadFrom(bookings, bookings[id].rescheduleOf, CHAIN_ROWS), {bookings[id].id})
  }

  function LoadedSequence(bookings: map<int, Booking>, id: int): nat
    requires KeyedById(bookings) && id in bookings
  {
    LoadIsSubmap(bookings, bookings[id].rescheduleOf, CHAIN_ROWS);
    SequenceFrom(bookings[id], LoadFrom(bookings, bookings[id].rescheduleOf, CHAIN_ROWS), {bookings[id].id}, 0)
  }

  /**
   * With twenty rows loaded the UID is the root's and the SEQUENCE the number of
   * reschedules exactly up to the twenty-first hop; from then on the SEQUENCE
   * stays at 21 and the UID is that of the twenty-first predecessor.
   */
  lemma LoadedChainIsExactIff(bookings: map<int, Booking>, lineage: map<int, Origin>, id: int)
    requires LineageOk(bookings, lineage) && id in bookings
    ensures LoadedRoot(bookings, id) == lineage[id].root <==> lineage[id].depth <= 21
    ensures LoadedSequence(bookings, id) == lineage[id].depth <==> lineage[id].depth <= 21
    ensures lineage[id].depth > 21 ==>
              && LoadedRoot(bookings, id) == Predecessor(bookings, lineage, id, 21)
              && LoadedSequence(bookings, id) == 21
  {
    hide RootFrom, SequenceFrom, LoadFrom, Predecessor;
    var chain := LoadFrom(bookings, bookings[id].rescheduleOf, CHAIN_ROWS);
    LoadIsSubmap(bookings, bookings[id].rescheduleOf, CHAIN_ROWS);
    WalkFindsOrigin(bookings, lineage, id, chain, {id}, CHAIN_ROWS, 0);
    RootHasDepthZero(bookings, lineage, id);
  }

  lemma {:induction false} RootHasDepthZero(bookings: map<int, Booking>, lineage: map<int, Origin>, id: int)
    requires LineageOk(bookings, lineage) && id in bookings
    ensures lineage[id].root in bookings && lineage[lineage[id].root] == Origin(lineage[id].root, 0)
    decreases lineage[id].depth
  {
    if bookings[id].rescheduleOf.Some? {
      RootHasDepthZero(bookings, lineage, bookings[id].rescheduleOf.value);
    }
  }
}
