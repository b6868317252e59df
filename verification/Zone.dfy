/**
 * Wall-clock arithmetic (src/core/time/zone.ts).
 *
 * A zone is its offset function from instants to milliseconds east of UTC; a
 * wall clock is the instant it would be if read as UTC, and a local date is a
 * day number counted from 1970-01-01.
 */
module Zone {
  import opened Common
  import opened Intervals

  const SECOND := 1_000
  const MIN_OFFSET := -12 * HOUR
  const MAX_OFFSET := 14 * HOUR

  /** Offsets lie in [-12h, +14h] and are whole seconds. */
  ghost predicate IsZone(z: int -> int) {
    forall t :: MIN_OFFSET <= z(t) <= MAX_OFFSET && z(t) % SECOND == 0
  }

  function FloorSecond(t: int): int {
    t / SECOND * SECOND
  }

  /** `toWallClock`: what a clock in the zone shows at `t`, to the second. */
  function Reading(z: int -> int, t: int): int {
    FloorSecond(t + z(t))
  }

  /** `offsetAt`: the wall clock read back as UTC, minus the instant. */
  function OffsetAt(z: int -> int, t: int): int {
    Reading(z, t) - FloorSecond(t)
  }

  lemma OffsetAtIsOffset(z: int -> int, t: int)
    requires IsZone(z)
    ensures OffsetAt(z, t) == z(t)
    ensures t % SECOND == 0 ==> Reading(z, t) == t + z(t)
  {
    assert z(t) % SECOND == 0;
  }

  /** The instant `t` shows exactly the wall clock `x`. */
  predicate Shows(z: int -> int, x: int, t: int) {
    t + z(t) == x
  }

  datatype Resolution = Unique(instant: int) | Gap(instant: int) | Ambiguous(first: int, second: int)

  // ---- findTransition --------------------------------------------------------

  function Midpoint(low: int, high: int): int {
    low + (high - low) / 2 / MINUTE * MINUTE
  }

  /** The instant the bisection of `[low, high]` stops at. */
  function Bisect(z: int -> int, startOffset: int, low: int, high: int): (r: int)
    ensures low < high ==> low < r <= high
    decreases high - low
  {
    var mid := Midpoint(low, high);
    if high - low <= MINUTE || mid <= low || mid >= high then high
    else if OffsetAt(z, mid) == startOffset then Bisect(z, startOffset, mid, high)
    else Bisect(z, startOffset, low, mid)
  }

  method FindTransition(z: int -> int, lo: int, hi: int) returns (r: int)
    ensures r == Bisect(z, OffsetAt(z, lo), lo, hi)
  {
    hide OffsetAt;
    var startOffset := OffsetAt(z, lo);
    var low, high := lo, hi;
    while high - low > MINUTE
      invariant Bisect(z, startOffset, low, high) == Bisect(z, startOffset, lo, hi)
    {
      var mid := low + (high - low) / 2 / MINUTE * MINUTE;
      if mid <= low || mid >= high {
        break;
      }
      if OffsetAt(z, mid) == startOffset {
        low := mid;
      } else {
        high := mid;
      }
    }
    return high;
  }

  /** On `[lo, hi]` the offset is `z(lo)` before `at` and `z(hi)` from `at` on. */
  ghost predicate StepsAt(z: int -> int, lo: int, hi: int, at: int) {
    forall t :: lo <= t <= hi ==> z(t) == if t < at then z(lo) else z(hi)
  }

  ghost predicate ExactOffsets(z: int -> int) {
    forall t {:trigger OffsetAt(z, t)} :: OffsetAt(z, t) == z(t)
  }

  lemma ZonesHaveExactOffsets(z: int -> int)
    requires IsZone(z)
    ensures ExactOffsets(z)
  {
    forall t ensures OffsetAt(z, t) == z(t) {
      OffsetAtIsOffset(z, t);
    }
  }

  /** One round of the bisection keeps the half that holds the transition. */
  lemma BisectStep(z: int -> int, a: int, low: int, high: int, at: int, n: nat, k: nat)
    requires ExactOffsets(z) && 1 <= k <= n && 1 < n && high == low + n * MINUTE && at == low + k * MINUTE
    requires StepsAt(z, low, high, at) && z(low) == a != z(high)
    ensures
      var mid := low + n / 2 * MINUTE;
      if n / 2 < k
      then Bisect(z, a, low, high) == Bisect(z, a, mid, high) && z(mid) == a && StepsAt(z, mid, high, at)
      else Bisect(z, a, low, high) == Bisect(z, a, low, mid) && z(mid) != a && StepsAt(z, low, mid, at)
  {
    var mid := low + n / 2 * MINUTE;
    assert Midpoint(low, high) == mid;
    assert OffsetAt(z, mid) == z(mid);
  }

  lemma BisectLastMinute(z: int -> int, a: int, low: int)
    ensures Bisect(z, a, low, low + MINUTE) == low + MINUTE
  {
  }

  /** A bisection in whole minutes from the transition ends at the transition itself. */
  lemma {:induction false} BisectFindsTransition(
    z: int -> int, a: int, low: int, high: int, at: int, n: nat, k: nat)
    requires ExactOffsets(z) && 1 <= k <= n && high == low + n * MINUTE && at == low + k * MINUTE
    requires StepsAt(z, low, high, at) && z(low) == a != z(high)
    ensures Bisect(z, a, low, high) == at
    decreases n
  {
    hide Bisect, StepsAt, ExactOffsets;
    if n == 1 {
      BisectLastMinute(z, a, low);
    } else {
      var mid := low + n / 2 * MINUTE;
      BisectStep(z, a, low, high, at, n, k);
      if n / 2 < k {
        BisectFindsTransition(z, a, mid, high, at, n - n / 2, k - n / 2);
      } else {
        BisectFindsTransition(z, a, low, mid, at, n / 2, k);
      }
    }
  }

  // ---- resolveWallClock --------------------------------------------------------

  /** The decision between two candidate instants, `early <= late`. */
  function Classify(z: int -> int, x: int, early: int, late: int): Resolution {
    if Reading(z, early) == x then
      if Reading(z, late) == x && early != late then Ambiguous(early, late) else Unique(early)
    else if Reading(z, late) == x then Unique(late)
    else Gap(Bisect(z, OffsetAt(z, early), early, late))
  }

  /** `resolveWallClock` for the wall clock `x`. */
  function Resolve(z: int -> int, x: int): Resolution {
    var p, q := x - OffsetAt(z, x - DAY), x - OffsetAt(z, x + DAY);
    Classify(z, x, Min(p, q), Max(p, q))
  }

  function Candidates(p: int, q: int): seq<int> {
    if p == q then [p] else [p, q]
  }

  /** The first `n` candidates that read back as `x`. */
  function ValidPrefix(z: int -> int, x: int, candidates: seq<int>, n: nat): seq<int>
    requires n <= |candidates|
  {
    if n == 0 then []
    else
      var before := ValidPrefix(z, x, candidates, n - 1);
      if Reading(z, candidates[n - 1]) == x then before + [candidates[n - 1]] else before
  }

  lemma SortOneOrTwo(p: int, q: int)
    ensures SortInts([]) == [] && SortInts([p]) == [p] && SortInts([q]) == [q]
    ensures SortInts([p, q]) == [Min(p, q), Max(p, q)]
  {
    assert [p, q][1..] == [q] && [q][1..] == [] && [p][1..] == [];
  }

  function Kept(t: int, keep: bool): seq<int> {
    if keep then [t] else []
  }

  /** Sorting the kept ones of two candidates. */
  lemma SortKept(p: int, q: int, keepP: bool, keepQ: bool)
    requires p != q
    ensures SortInts(Kept(p, keepP) + Kept(q, keepQ)) ==
            if p < q then Kept(p, keepP) + Kept(q, keepQ) else Kept(q, keepQ) + Kept(p, keepP)
  {
    hide SortInts;
    SortOneOrTwo(p, q);
    var pq, qp := Kept(p, keepP) + Kept(q, keepQ), Kept(q, keepQ) + Kept(p, keepP);
    if keepP && keepQ {
      assert pq == [p, q] && qp == [q, p];
    } else if keepP {
      assert pq == [p] && qp == [p];
    } else if keepQ {
      assert pq == [q] && qp == [q];
    } else {
      assert pq == [] && qp == [];
    }
  }

  lemma ValidOfTwo(z: int -> int, x: int, p: int, q: int)
    ensures ValidPrefix(z, x, [p], 1) == Kept(p, Reading(z, p) == x)
    ensures ValidPrefix(z, x, [p, q], 2) == Kept(p, Reading(z, p) == x) + Kept(q, Reading(z, q) == x)
  {
    hide Reading;
    assert ValidPrefix(z, x, [p], 0) == [] && ValidPrefix(z, x, [p, q], 0) == [];
    assert ValidPrefix(z, x, [p, q], 1) == Kept(p, Reading(z, p) == x);
  }

  lemma ValidCandidates(z: int -> int, x: int, p: int, q: int)
    ensures
      var c := Candidates(p, q);
      var early, late := Min(p, q), Max(p, q);
      SortInts(ValidPrefix(z, x, c, |c|)) ==
        Kept(early, Reading(z, early) == x) + Kept(late, Reading(z, late) == x && early != late)
  {
    hide SortInts, Reading, ValidPrefix;
    ValidOfTwo(z, x, p, q);
    if p == q {
      SortOneOrTwo(p, q);
    } else {
      SortKept(p, q, Reading(z, p) == x, Reading(z, q) == x);
    }
  }

  method ResolveWallClock(z: int -> int, x: int) returns (r: Resolution)
    ensures r == Resolve(z, x)
  {
    hide OffsetAt, Classify;
    var offBefore := OffsetAt(z, x - DAY);
    var offAfter := OffsetAt(z, x + DAY);
    r := ClassifyCandidates(z, x, x - offBefore, x - offAfter);
  }

  /** Collecting the candidates that round-trip, and bisecting when none does. */
  method ClassifyCandidates(z: int -> int, x: int, p: int, q: int) returns (r: Resolution)
    ensures r == Classify(z, x, Min(p, q), Max(p, q))
  {
    var candidates := Candidates(p, q);
    var valid: seq<int> := [];
    for i := 0 to |candidates|
      invariant valid == ValidPrefix(z, x, candidates, i)
    {
      if Reading(z, candidates[i]) == x {
        valid := valid + [candidates[i]];
      }
    }
    ValidCandidates(z, x, p, q);
    valid := SortInts(valid);
    if |valid| == 0 {
      var instant := FindTransition(z, Min(p, q), Max(p, q));
      return Gap(instant);
    }
    return if |valid| == 1 then Unique(valid[0]) else Ambiguous(valid[0], valid[|valid| - 1]);
  }

  lemma ReadingIsShows(z: int -> int, x: int, off: int)
    requires IsZone(z) && x % SECOND == 0 && off % SECOND == 0
    ensures Reading(z, x - off) == x <==> Shows(z, x, x - off)
    ensures OffsetAt(z, x - off) == z(x - off)
  {
    assert (x - off) % SECOND == 0;
    OffsetAtIsOffset(z, x - off);
  }

  lemma ClassifyByOffsets(z: int -> int, x: int, a: int, b: int)
    requires Reading(z, x - a) == x <==> Shows(z, x, x - a)
    requires Reading(z, x - b) == x <==> Shows(z, x, x - b)
    requires OffsetAt(z, x - a) == z(x - a) && OffsetAt(z, x - b) == z(x - b)
    ensures Classify(z, x, Min(x - a, x - b), Max(x - a, x - b)) == DecideByOffsets(z, x, a, b)
  {
    if a <= b {
      assert Min(x - a, x - b) == x - b;
    } else {
      assert Min(x - a, x - b) == x - a;
    }
  }

  ghost function DecideByOffsets(z: int -> int, x: int, a: int, b: int): Resolution {
    var early, late := x - Max(a, b), x - Min(a, b);
    if Shows(z, x, early) then
      if Shows(z, x, late) && early != late then Ambiguous(early, late) else Unique(early)
    else if Shows(z, x, late) then Unique(late)
    else Gap(Bisect(z, z(early), early, late))
  }

  /** The resolution in terms of the offsets themselves. */
  ghost function ByOffsets(z: int -> int, x: int): Resolution {
    DecideByOffsets(z, x, z(x - DAY), z(x + DAY))
  }

  lemma ResolveIsByOffsets(z: int -> int, x: int)
    requires IsZone(z) && x % SECOND == 0
    ensures Resolve(z, x) == ByOffsets(z, x)
  {
    hide Classify, DecideByOffsets, Reading, OffsetAt;
    var a, b := z(x - DAY), z(x + DAY);
    OffsetAtIsOffset(z, x - DAY);
    OffsetAtIsOffset(z, x + DAY);
    ReadingIsShows(z, x, a);
    ReadingIsShows(z, x, b);
    ClassifyByOffsets(z, x, a, b);
  }

  /** Within a day of `x` the zone has at most one transition, on a whole minute. */
  ghost predicate OneTransition(z: int -> int, x: int) {
    exists at :: at % MINUTE == 0 && StepsAt(z, x - DAY, x + DAY, at)
  }

  /** Whole-minute offsets, and transitions more than two days apart. */
  ghost predicate Regular(z: int -> int) {
    && IsZone(z)
    && (forall t :: z(t) % MINUTE == 0)
    && (forall x :: x % MINUTE == 0 ==> OneTransition(z, x))
  }

  /** Whatever the zone does, a reported occurrence really shows the wall clock. */
  lemma ResolutionIsSound(z: int -> int, x: int)
    requires IsZone(z) && x % SECOND == 0
    ensures
      match Resolve(z, x)
      case Unique(t) => Shows(z, x, t)
      case Ambiguous(s, t) => s < t && Shows(z, x, s) && Shows(z, x, t)
      case Gap(t) => true
  {
    ResolveIsByOffsets(z, x);
  }

  /** The facts about one wall clock that the exactness proofs use. */
  ghost predicate Nearby(z: int -> int, x: int, at: int) {
    && StepsAt(z, x - DAY, x + DAY, at)
    && forall t :: MIN_OFFSET <= z(t) <= MAX_OFFSET
  }

  /** Only the two candidates can show the wall clock. */
  lemma OnlyCandidatesShow(z: int -> int, x: int, at: int, t: int)
    requires Nearby(z, x, at) && Shows(z, x, t)
    ensures t == x - z(x - DAY) || t == x - z(x + DAY)
  {
    assert MIN_OFFSET <= z(t) <= MAX_OFFSET;
  }

  /** In a gap the transition lies between the two candidates. */
  lemma GapBracketsTransition(z: int -> int, x: int, at: int)
    requires Nearby(z, x, at) && ByOffsets(z, x).Gap?
    ensures var a, b := z(x - DAY), z(x + DAY);
      && a < b
      && x - b < at <= x - a
      && StepsAt(z, x - b, x - a, at)
      && z(x - b) == z(at - 1) == a && z(x - a) == z(at) == b
      && ByOffsets(z, x) == Gap(Bisect(z, a, x - b, x - a))
  {
    hide Bisect;
    var a, b := z(x - DAY), z(x + DAY);
    assert MIN_OFFSET <= a <= MAX_OFFSET && MIN_OFFSET <= b <= MAX_OFFSET;
    assert z(x - a) == if x - a < at then a else b;
    assert z(x - b) == if x - b < at then a else b;
  }

  ghost predicate WholeMinutes(z: int -> int, x: int) {
    x % MINUTE == 0 && z(x - DAY) % MINUTE == 0 && z(x + DAY) % MINUTE == 0
  }

  lemma MinutesBetween(lo: int, hi: int, at: int) returns (n: nat, k: nat)
    requires lo % MINUTE == 0 && hi % MINUTE == 0 && at % MINUTE == 0 && lo < at <= hi
    ensures hi == lo + n * MINUTE && at == lo + k * MINUTE && 1 <= k <= n
  {
    n, k := (hi - lo) / MINUTE, (at - lo) / MINUTE;
  }

  lemma CandidateMinutes(x: int, a: int, b: int)
    requires x % MINUTE == 0 && a % MINUTE == 0 && b % MINUTE == 0
    ensures (x - a) % MINUTE == 0 && (x - b) % MINUTE == 0
  {
  }

  lemma GapIsTransition(z: int -> int, x: int, at: int)
    requires ExactOffsets(z) && Nearby(z, x, at) && ByOffsets(z, x).Gap?
    requires WholeMinutes(z, x) && at % MINUTE == 0
    ensures ByOffsets(z, x) == Gap(at)
  {
    hide Bisect, ByOffsets, StepsAt, ExactOffsets, Nearby;
    var a, b := z(x - DAY), z(x + DAY);
    GapBracketsTransition(z, x, at);
    CandidateMinutes(x, a, b);
    var n, k := MinutesBetween(x - b, x - a, at);
    BisectFindsTransition(z, a, x - b, x - a, at, n, k);
  }

  /** `r` lists precisely the instants that show `x`, in order. */
  ghost predicate Lists(z: int -> int, x: int, r: Resolution) {
    match r
    case Unique(i) => forall t :: Shows(z, x, t) <==> t == i
    case Ambiguous(i, j) => i < j && forall t :: Shows(z, x, t) <==> t == i || t == j
    case Gap(_) => forall t :: !Shows(z, x, t)
  }

  lemma ByOffsetsIsComplete(z: int -> int, x: int, at: int)
    requires Nearby(z, x, at)
    ensures Lists(z, x, ByOffsets(z, x))
  {
    forall t | Shows(z, x, t) ensures t == x - z(x - DAY) || t == x - z(x + DAY) {
      OnlyCandidatesShow(z, x, at, t);
    }
  }

  /**
   * Resolution is complete and exact: with at most one transition nearby, the
   * answer lists precisely the instants that show the wall clock, in order; and
   * on a whole minute a gap resolves to the transition that skips it.
   */
  lemma ResolutionIsExact(z: int -> int, x: int)
    requires IsZone(z) && x % SECOND == 0 && OneTransition(z, x)
    ensures Lists(z, x, Resolve(z, x))
    ensures Resolve(z, x).Gap? && WholeMinutes(z, x) ==>
              var i := Resolve(z, x).instant;
              i % MINUTE == 0 && (i - 1) + z(i - 1) < x < i + z(i)
  {
    var at :| at % MINUTE == 0 && StepsAt(z, x - DAY, x + DAY, at);
    ResolveIsByOffsets(z, x);
    ByOffsetsIsComplete(z, x, at);
    if ByOffsets(z, x).Gap? && WholeMinutes(z, x) {
      ZonesHaveExactOffsets(z);
      GapIsTransition(z, x, at);
      GapBracketsTransition(z, x, at);
    }
  }

  // ---- What the project's rule means --------------------------------------------

  /** A gap clamps forward to the transition; a repeated time takes its first occurrence. */
  function Chosen(r: Resolution): int {
    match r
    case Unique(t) => t
    case Gap(t) => t
    case Ambiguous(t, _) => t
  }

  function WallClockToInstant(z: int -> int, x: int): int {
    Chosen(Resolve(z, x))
  }

  /** Every resolution lies within the offset bounds of the wall clock. */
  lemma ResolutionBounds(z: int -> int, x: int)
    requires IsZone(z) && x % SECOND == 0
    ensures x - MAX_OFFSET <= WallClockToInstant(z, x) <= x - MIN_OFFSET
  {
    ResolveIsByOffsets(z, x);
    assert MIN_OFFSET <= z(x - DAY) <= MAX_OFFSET && MIN_OFFSET <= z(x + DAY) <= MAX_OFFSET;
  }

  ghost predicate FirstReach(z: int -> int, x: int, r: int) {
    x <= r + z(r) && forall t :: t < r ==> t + z(t) < x
  }

  lemma FirstReachNearby(z: int -> int, x: int, at: int, r: int, t: int)
    requires Nearby(z, x, at) && r == Chosen(ByOffsets(z, x)) && t < r
    requires ByOffsets(z, x).Gap? ==> r == at
    ensures t + z(t) < x
  {
    var a, b := z(x - DAY), z(x + DAY);
    assert MIN_OFFSET <= a <= MAX_OFFSET && MIN_OFFSET <= b <= MAX_OFFSET;
    assert MIN_OFFSET <= z(t) <= MAX_OFFSET;
    if ByOffsets(z, x).Gap? {
      GapBracketsTransition(z, x, at);
    }
  }

  /** The rule picks the first instant at which the clock shows `x` or later. */
  lemma RuleIsFirstReach(z: int -> int, x: int)
    requires Regular(z) && x % MINUTE == 0
    ensures FirstReach(z, x, WallClockToInstant(z, x))
  {
    hide Resolve, ByOffsets, StepsAt;
    assert OneTransition(z, x);
    var at :| at % MINUTE == 0 && StepsAt(z, x - DAY, x + DAY, at);
    ResolveIsByOffsets(z, x);
    GapIsAt(z, x, at);
    var r := Chosen(ByOffsets(z, x));
    ChosenReaches(z, x, at);
    forall t | t < r ensures t + z(t) < x {
      FirstReachNearby(z, x, at, r, t);
    }
  }

  lemma GapIsAt(z: int -> int, x: int, at: int)
    requires Regular(z) && x % MINUTE == 0 && at % MINUTE == 0 && StepsAt(z, x - DAY, x + DAY, at)
    ensures Nearby(z, x, at)
    ensures ByOffsets(z, x).Gap? ==> ByOffsets(z, x) == Gap(at)
  {
    hide ByOffsets, StepsAt, ExactOffsets;
    if ByOffsets(z, x).Gap? {
      assert z(x - DAY) % MINUTE == 0 && z(x + DAY) % MINUTE == 0;
      ZonesHaveExactOffsets(z);
      GapIsTransition(z, x, at);
    }
  }

  lemma ChosenReaches(z: int -> int, x: int, at: int)
    requires Nearby(z, x, at) && (ByOffsets(z, x).Gap? ==> ByOffsets(z, x) == Gap(at))
    ensures var r := Chosen(ByOffsets(z, x)); x <= r + z(r)
  {
    hide StepsAt, Bisect, Nearby;
    if ByOffsets(z, x).Gap? {
      GapBracketsTransition(z, x, at);
    }
  }

  /** The clock has shown `x` or later at some instant no later than `t`. */
  ghost predicate Reached(z: int -> int, x: int, t: int) {
    exists s :: s <= t && x <= s + z(s)
  }

  lemma ReachedIffAtOrAfter(z: int -> int, x: int, t: int)
    requires Regular(z) && x % MINUTE == 0
    ensures Reached(z, x, t) <==> WallClockToInstant(z, x) <= t
  {
    RuleIsFirstReach(z, x);
    var r := WallClockToInstant(z, x);
    assert r <= t ==> r <= t && x <= r + z(r);
  }

  /** Resolved instants never go backwards, across any transition. */
  lemma ResolutionIsMonotone(z: int -> int, x: int, y: int)
    requires Regular(z) && x % MINUTE == 0 && y % MINUTE == 0 && x <= y
    ensures WallClockToInstant(z, x) <= WallClockToInstant(z, y)
  {
    RuleIsFirstReach(z, x);
    RuleIsFirstReach(z, y);
    var r := WallClockToInstant(z, y);
    assert y <= r + z(r);
  }
}
