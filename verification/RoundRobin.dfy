/**
 * Round-robin host choice (pickRoundRobinHost in
 * src/core/domain/booking-service.ts) and the rotation the coordinator advances
 * after each commit (src/adapters/coordinator.ts).
 */
module RoundRobin {
  import opened Common

  datatype Rotation = Rotation(weights: map<int, int>, last: map<int, int>)

  function Weight(r: Rotation, id: int): int {
    Max(1, if id in r.weights then r.weights[id] else 1)
  }

  function LastAssigned(r: Rotation, id: int): int {
    if id in r.last then r.last[id] else 0
  }

  function Idle(r: Rotation, now: int, id: int): int {
    Max(0, now - LastAssigned(r, id))
  }

  function Score(r: Rotation, now: int, id: int): int {
    Idle(r, now, id) * Weight(r, id)
  }

  /** The first highest score in list order. */
  function Best(r: Rotation, now: int, ids: seq<int>): Option<int> {
    if ids == [] then None
    else
      var n := |ids| - 1;
      match Best(r, now, ids[..n])
      case None => Some(ids[n])
      case Some(best) => if Score(r, now, ids[n]) > Score(r, now, best) then Some(ids[n]) else Some(best)
  }

  function Choice(r: Rotation, now: int, eligible: seq<int>): Option<int> {
    Best(r, now, SortInts(eligible))
  }

  method PickRoundRobinHost(r: Rotation, now: int, eligible: seq<int>) returns (best: Option<int>)
    ensures best == Choice(r, now, eligible)
  {
    if |eligible| == 0 {
      return None;
    }
    var ids := SortInts(eligible);
    best := None;
    var bestScore := -1;
    for i := 0 to |ids|
      invariant best == Best(r, now, ids[..i])
      invariant bestScore == if best.Some? then Score(r, now, best.value) else -1
    {
      assert ids[..i + 1][..i] == ids[..i];
      ScoreIsNonNegative(r, now, ids[i]);
      var score := Score(r, now, ids[i]);
      if score > bestScore {
        bestScore := score;
        best := Some(ids[i]);
      }
    }
    assert ids[..|ids|] == ids;
  }

  lemma ScoreIsNonNegative(r: Rotation, now: int, id: int)
    ensures 0 <= Score(r, now, id)
  {
  }

  lemma {:induction false} BestIsFirstHighest(r: Rotation, now: int, ids: seq<int>)
    requires ids != []
    ensures Best(r, now, ids).Some? && Best(r, now, ids).value in ids
    ensures forall id :: id in ids ==> Score(r, now, id) <= Score(r, now, Best(r, now, ids).value)
    ensures SortedInts(ids) ==>
              forall id :: id in ids && Score(r, now, id) == Score(r, now, Best(r, now, ids).value) ==>
                Best(r, now, ids).value <= id
  {
    var n := |ids| - 1;
    assert ids == ids[..n] + [ids[n]];
    if n > 0 {
      BestIsFirstHighest(r, now, ids[..n]);
      assert Best(r, now, ids[..n]).value in ids;
    }
  }

  /** The chosen host has the highest score, and the least id among equals. */
  lemma ChoiceIsMaximal(r: Rotation, now: int, eligible: seq<int>)
    requires eligible != []
    ensures Choice(r, now, eligible).Some? && Choice(r, now, eligible).value in eligible
    ensures forall id :: id in eligible ==> Score(r, now, id) <= Score(r, now, Choice(r, now, eligible).value)
    ensures forall id :: id in eligible && Score(r, now, id) == Score(r, now, Choice(r, now, eligible).value) ==>
              Choice(r, now, eligible).value <= id
  {
    SameElements(eligible, SortInts(eligible));
    BestIsFirstHighest(r, now, SortInts(eligible));
  }

  // ---- Runs ------------------------------------------------------------------------

  function Chosen(r: Rotation, now: int, eligible: seq<int>): int
    requires eligible != []
  {
    ChoiceIsMaximal(r, now, eligible);
    Choice(r, now, eligible).value
  }

  /** Recording a committed assignment (`recordAssignment`). */
  function Advance(r: Rotation, now: int, eligible: seq<int>): Rotation
    requires eligible != []
  {
    r.(last := r.last[Chosen(r, now, eligible) := now])
  }

  /** The rotation after picks at the first `k` times. */
  ghost function After(r: Rotation, eligible: seq<int>, times: seq<int>, k: nat): Rotation
    requires eligible != [] && k <= |times|
  {
    if k == 0 then r else Advance(After(r, eligible, times, k - 1), times[k - 1], eligible)
  }

  /** The host picked at `times[k]`. */
  ghost function Pick(r: Rotation, eligible: seq<int>, times: seq<int>, k: nat): int
    requires eligible != [] && k < |times|
  {
    Chosen(After(r, eligible, times, k), times[k], eligible)
  }

  ghost predicate Distinct(ids: seq<int>) {
    forall i, j :: 0 <= i < j < |ids| ==> ids[i] != ids[j]
  }

  lemma {:induction false} WeightsStay(r: Rotation, eligible: seq<int>, times: seq<int>, k: nat)
    requires eligible != [] && k <= |times|
    ensures After(r, eligible, times, k).weights == r.weights
  {
    if k > 0 {
      WeightsStay(r, eligible, times, k - 1);
    }
  }

  /** A host picked at step `k` is remembered as assigned no earlier than then. */
  lemma {:induction false} PickIsRemembered(r: Rotation, eligible: seq<int>, times: seq<int>, k: nat, m: nat)
    requires eligible != [] && k < m <= |times| && StrictlySorted(times)
    ensures LastAssigned(After(r, eligible, times, m), Pick(r, eligible, times, k)) >= times[k]
  {
    hide Chosen;
    if k < m - 1 {
      PickIsRemembered(r, eligible, times, k, m - 1);
    }
  }

  /** The picks of steps `k` up to, not including, `m`. */
  ghost function Picks(r: Rotation, eligible: seq<int>, times: seq<int>, k: nat, m: nat): seq<int>
    requires eligible != [] && k <= m <= |times|
  {
    if k == m then [] else Picks(r, eligible, times, k, m - 1) + [Pick(r, eligible, times, m - 1)]
  }

  lemma {:induction false} PicksAt(r: Rotation, eligible: seq<int>, times: seq<int>, k: nat, m: nat)
    requires eligible != [] && k <= m <= |times|
    ensures |Picks(r, eligible, times, k, m)| == m - k
    ensures forall j :: 0 <= j < m - k ==> Picks(r, eligible, times, k, m)[j] == Pick(r, eligible, times, k + j)
    ensures forall x :: x in Picks(r, eligible, times, k, m) ==> x in eligible
  {
    hide After, Choice;
    if k < m {
      PicksAt(r, eligible, times, k, m - 1);
      ChoiceIsMaximal(After(r, eligible, times, m - 1), times[m - 1], eligible);
    }
  }

  /** A host's record is the initial one or the time of one of its picks. */
  lemma {:induction false} RecordIsAPick(r: Rotation, eligible: seq<int>, times: seq<int>, m: nat, h: int)
    returns (k: nat)
    requires eligible != [] && m <= |times|
    ensures k <= m
    ensures k < m ==> Pick(r, eligible, times, k) == h && LastAssigned(After(r, eligible, times, m), h) == times[k]
    ensures k == m ==> LastAssigned(After(r, eligible, times, m), h) == LastAssigned(r, h)
  {
    hide Chosen;
    k := m;
    if m > 0 {
      if Pick(r, eligible, times, m - 1) == h {
        k := m - 1;
      } else {
        k := RecordIsAPick(r, eligible, times, m - 1, h);
        k := if k == m - 1 then m else k;
      }
    }
  }

  lemma {:induction false} DistinctWithin(s: seq<int>, pool: set<int>)
    requires Distinct(s) && forall x :: x in s ==> x in pool
    ensures |s| <= |pool|
  {
    if s != [] {
      var n := |s| - 1;
      assert s[n] in s;
      assert s[n] in pool;
      assert s[n] !in s[..n];
      forall x | x in s[..n] ensures x in pool - {s[n]} {
      }
      DistinctWithin(s[..n], pool - {s[n]});
    }
  }

  lemma {:induction false} SetOfSeq(s: seq<int>)
    ensures |set x | x in s| <= |s|
  {
    if s != [] {
      var n := |s| - 1;
      SetOfSeq(s[..n]);
      assert s == s[..n] + [s[n]];
      assert (set x | x in s) == (set x | x in s[..n]) + {s[n]};
    }
  }

  lemma {:induction false} SetOfDistinct(s: seq<int>)
    requires Distinct(s)
    ensures |set x | x in s| == |s|
  {
    if s != [] {
      var n := |s| - 1;
      SetOfDistinct(s[..n]);
      assert s == s[..n] + [s[n]];
      assert (set x | x in s) == (set x | x in s[..n]) + {s[n]};
      assert s[n] !in s[..n];
    }
  }

  // ---- No starvation --------------------------------------------------------------------

  /** Picks happen once per clock tick, starting just after `t0`. */
  ghost predicate EveryTick(times: seq<int>, t0: int) {
    forall k :: 0 <= k < |times| ==> times[k] == t0 + 1 + k
  }

  lemma ProductBound(idle: int, w: int, top: int, n: int)
    requires 0 <= idle < n && 1 <= w <= top
    ensures idle * w < n * top
  {
    assert idle * w <= idle * top;
    assert idle * top + top == (idle + 1) * top <= n * top;
  }

  lemma ScaleUp(a: int, b: int, w: int)
    requires a <= b && 0 <= w
    ensures a * w <= b * w
  {
  }

  /** While `i` waits past the bound, whoever is picked has been idle for `n` ticks. */
  lemma PickedWasIdle(r: Rotation, eligible: seq<int>, times: seq<int>, t0: int, i: int, top: int, c: nat, k: nat)
    requires eligible != [] && i in eligible && EveryTick(times, t0)
    requires forall id :: id in eligible ==> Weight(r, id) <= top
    requires LastAssigned(r, i) <= t0 && |eligible| * top <= c * Weight(r, i)
    requires c <= k + 1 && k < |times| && 0 < c
    requires forall j :: 0 <= j < k ==> Pick(r, eligible, times, j) != i
    ensures var s := After(r, eligible, times, k);
      LastAssigned(s, Pick(r, eligible, times, k)) + |eligible| <= times[k]
  {
    var s, now, p := After(r, eligible, times, k), times[k], Pick(r, eligible, times, k);
    WeightsStay(r, eligible, times, k);
    ChoiceIsMaximal(s, now, eligible);
    var m := RecordIsAPick(r, eligible, times, k, i);
    assert LastAssigned(s, i) == LastAssigned(r, i);
    assert Idle(s, now, i) >= c;
    ScaleUp(c, Idle(s, now, i), Weight(r, i));
    assert Score(s, now, i) >= |eligible| * top;
    if Idle(s, now, p) < |eligible| {
      ProductBound(Idle(s, now, p), Weight(r, p), top, |eligible|);
    }
  }

  /**
   * Nobody starves: with `n` eligible hosts of weight at most `top`, a host of
   * weight `w` is picked within `c + n - 1` ticks for any `c` with `n * top <= c * w`,
   * so within ceil(n * top / w) + n - 1.
   */
  lemma NobodyStarves(r: Rotation, eligible: seq<int>, times: seq<int>, t0: int, i: int, top: int, c: nat)
    requires Distinct(eligible) && i in eligible && EveryTick(times, t0)
    requires forall id :: id in eligible ==> Weight(r, id) <= top
    requires LastAssigned(r, i) <= t0 && 0 < c && |eligible| * top <= c * Weight(r, i)
    requires |times| == c + |eligible| - 1
    ensures exists k :: 0 <= k < |times| && Pick(r, eligible, times, k) == i
  {
    hide Pick, Picks, Weight, LastAssigned;
    if forall k :: 0 <= k < |times| ==> Pick(r, eligible, times, k) != i {
      var n := |eligible|;
      var window := Picks(r, eligible, times, c - 1, c - 1 + n);
      PicksAt(r, eligible, times, c - 1, c - 1 + n);
      LatePicksDiffer(r, eligible, times, t0, i, top, c);
      var pool := (set x | x in eligible) - {i};
      SetOfDistinct(eligible);
      forall x | x in window ensures x in pool {
        var j :| 0 <= j < n && window[j] == x;
      }
      DistinctWithin(window, pool);
    }
  }

  lemma LatePicksDiffer(r: Rotation, eligible: seq<int>, times: seq<int>, t0: int, i: int, top: int, c: nat)
    requires Distinct(eligible) && i in eligible && EveryTick(times, t0)
    requires forall id :: id in eligible ==> Weight(r, id) <= top
    requires LastAssigned(r, i) <= t0 && 0 < c && |eligible| * top <= c * Weight(r, i)
    requires |times| == c + |eligible| - 1
    requires forall k :: 0 <= k < |times| ==> Pick(r, eligible, times, k) != i
    ensures Distinct(Picks(r, eligible, times, c - 1, |times|))
  {
    hide After, Chosen, Picks, Weight;
    var n := |eligible|;
    var window := Picks(r, eligible, times, c - 1, |times|);
    PicksAt(r, eligible, times, c - 1, |times|);
    forall a, b | 0 <= a < b < n ensures window[a] != window[b] {
      PickedWasIdle(r, eligible, times, t0, i, top, c, c - 1 + b);
      PickIsRemembered(r, eligible, times, c - 1 + a, c - 1 + b);
    }
  }

  // ---- Equal weights ------------------------------------------------------------------------

  /** With equal weights the choice is the host idle longest. */
  lemma EqualWeightsPickOldest(r: Rotation, eligible: seq<int>, now: int, h: int)
    requires eligible != [] && h in eligible
    requires forall a, b :: a in eligible && b in eligible ==> Weight(r, a) == Weight(r, b)
    requires forall a :: a in eligible ==> LastAssigned(r, a) < now
    ensures var p := Choice(r, now, eligible).value;
      Choice(r, now, eligible).Some? && LastAssigned(r, p) <= LastAssigned(r, h)
  {
    ChoiceIsMaximal(r, now, eligible);
    var p := Choice(r, now, eligible).value;
    var w := Weight(r, p);
    if Idle(r, now, p) < Idle(r, now, h) {
      ProductOrder(Idle(r, now, p), Idle(r, now, h), w);
    }
  }

  lemma ProductOrder(a: int, b: int, w: int)
    requires 0 < w && a < b
    ensures a * w < b * w
  {
    assert a * w + w == (a + 1) * w <= b * w;
  }

  lemma {:induction false} RecordsArePast(r: Rotation, eligible: seq<int>, times: seq<int>, m: nat, h: int)
    requires eligible != [] && m < |times| && StrictlySorted(times)
    requires LastAssigned(r, h) < times[0]
    ensures LastAssigned(After(r, eligible, times, m), h) < times[m]
  {
    var k := RecordIsAPick(r, eligible, times, m, h);
  }

  /** With equal weights, when a host is picked again every host was picked since. */
  lemma EveryoneSince(r: Rotation, eligible: seq<int>, times: seq<int>, k: nat, m: nat, h: int)
    requires h in eligible && StrictlySorted(times)
    requires forall a, b :: a in eligible && b in eligible ==> Weight(r, a) == Weight(r, b)
    requires k < m < |times| && forall a :: a in eligible ==> LastAssigned(r, a) < times[0]
    requires Pick(r, eligible, times, k) == Pick(r, eligible, times, m)
    ensures h in Picks(r, eligible, times, k, m)
  {
    var s := After(r, eligible, times, m);
    WeightsStay(r, eligible, times, m);
    PickIsRemembered(r, eligible, times, k, m);
    forall a | a in eligible ensures LastAssigned(s, a) < times[m] {
      RecordsArePast(r, eligible, times, m, a);
    }
    EqualWeightsPickOldest(s, eligible, times[m], h);
    var j := RecordIsAPick(r, eligible, times, m, h);
    assert times[0] <= times[k] <= LastAssigned(s, h);
    PicksAt(r, eligible, times, k, m);
    assert Picks(r, eligible, times, k, m)[j - k] == h;
  }

  lemma SameHostNotSoon(r: Rotation, eligible: seq<int>, times: seq<int>, k: nat, m: nat)
    requires Distinct(eligible) && eligible != [] && StrictlySorted(times)
    requires forall a, b :: a in eligible && b in eligible ==> Weight(r, a) == Weight(r, b)
    requires k < m < |times| && forall a :: a in eligible ==> LastAssigned(r, a) < times[0]
    requires Pick(r, eligible, times, k) == Pick(r, eligible, times, m)
    ensures |eligible| <= m - k
  {
    var between := Picks(r, eligible, times, k, m);
    forall h | h in eligible ensures h in between {
      EveryoneSince(r, eligible, times, k, m, h);
    }
    PicksAt(r, eligible, times, k, m);
    SetOfSeq(between);
    DistinctWithin(eligible, set x | x in between);
  }

  /** With equal weights every `n` consecutive picks are each host exactly once. */
  lemma FairRotation(r: Rotation, eligible: seq<int>, times: seq<int>, s: nat)
    requires Distinct(eligible) && eligible != [] && StrictlySorted(times)
    requires forall a, b :: a in eligible && b in eligible ==> Weight(r, a) == Weight(r, b)
    requires s + |eligible| <= |times| && forall a :: a in eligible ==> LastAssigned(r, a) < times[0]
    ensures multiset(Picks(r, eligible, times, s, s + |eligible|)) == multiset(eligible)
  {
    hide Pick, Picks, Weight, LastAssigned;
    var picks := Picks(r, eligible, times, s, s + |eligible|);
    PicksAt(r, eligible, times, s, s + |eligible|);
    forall a, b | 0 <= a < b < |picks| ensures picks[a] != picks[b] {
      if picks[a] == picks[b] {
        SameHostNotSoon(r, eligible, times, s + a, s + b);
      }
    }
    DistinctAndInside(picks, eligible);
  }

  lemma DistinctAndInside(a: seq<int>, b: seq<int>)
    requires Distinct(a) && Distinct(b) && |a| == |b| && forall x :: x in a ==> x in b
    ensures multiset(a) == multiset(b)
  {
    var A, B := set x | x in a, set x | x in b;
    SetOfDistinct(a);
    SetOfDistinct(b);
    assert A <= B;
    SubsetOfSameSize(A, B);
    forall x ensures multiset(a)[x] == multiset(b)[x] {
      DistinctCount(a, x);
      DistinctCount(b, x);
      assert x in a <==> x in A;
      assert x in b <==> x in B;
    }
  }

  lemma SubsetOfSameSize(a: set<int>, b: set<int>)
    requires a <= b && |a| == |b|
    ensures a == b
  {
    assert |b - a| == |b| - |a|;
  }

  lemma {:induction false} DistinctCount(s: seq<int>, x: int)
    requires Distinct(s)
    ensures multiset(s)[x] == if x in s then 1 else 0
  {
    if s != [] {
      assert s == [s[0]] + s[1..];
      DistinctCount(s[1..], x);
      assert s[0] !in s[1..];
    }
  }
}
