/**
 * What the weights of a rotation buy (pickRoundRobinHost in
 * src/core/domain/booking-service.ts): who is due, and how often over a run.
 */
module RotationShare {
  import opened Common
  import opened RoundRobin

  // ---- One choice -----------------------------------------------------------------------

  /** Milliseconds since the last assignment, none recorded counting from zero, times the weight. */
  function Due(weights: map<int, int>, last: map<int, int>, now: int, id: int): int {
    var since := now - (if id in last then last[id] else 0);
    (if since < 0 then 0 else since) * (if id in weights && weights[id] > 1 then weights[id] else 1)
  }

  /** `id` is due at least as much as everybody else, and comes first among equals. */
  ghost predicate MostDue(r: Rotation, now: int, eligible: seq<int>, id: int) {
    && id in eligible
    && forall other :: other in eligible ==>
         && Due(r.weights, r.last, now, other) <= Due(r.weights, r.last, now, id)
         && (Due(r.weights, r.last, now, other) == Due(r.weights, r.last, now, id) ==> id <= other)
  }

  lemma DueIsScore(r: Rotation, now: int, id: int)
    ensures Due(r.weights, r.last, now, id) == Score(r, now, id)
  {
  }

  /** The choice is the host most due, and nobody else is. */
  lemma ChosenIffMostDue(r: Rotation, now: int, eligible: seq<int>, id: int)
    requires eligible != []
    ensures Choice(r, now, eligible) == Some(id) <==> MostDue(r, now, eligible, id)
  {
    hide Choice, Due, Score;
    ChoiceIsMaximal(r, now, eligible);
    forall x ensures Due(r.weights, r.last, now, x) == Score(r, now, x) {
      DueIsScore(r, now, x);
    }
  }

  // ---- Any number of hosts ------------------------------------------------------------------

  /** The weight a rotation gives a host. */
  function WeightIn(r: Rotation, id: int): int {
    if id in r.weights && r.weights[id] > 1 then r.weights[id] else 1
  }

  lemma ProductGrows(x: int, y: int, v: int, w: int)
    requires 0 <= x < y && 1 <= v <= w
    ensures x * v < y * w
  {
    assert x * v <= x * w;
    assert x * w + w == (x + 1) * w <= y * w;
  }

  /** Between two picks of a host every host of at least its weight is picked. */
  lemma HeavierPickedBetween(r: Rotation, eligible: seq<int>, times: seq<int>, a: int, b: int, k: nat, m: nat)
    returns (j: nat)
    requires a in eligible && b in eligible && a != b && StrictlySorted(times) && k < m < |times|
    requires WeightIn(r, b) <= WeightIn(r, a) && LastAssigned(r, a) < times[0] && LastAssigned(r, b) < times[0]
    requires Pick(r, eligible, times, k) == b && Pick(r, eligible, times, m) == b
    ensures k < j < m && Pick(r, eligible, times, j) == a
  {
    hide Pick, After, Choice;
    var s := After(r, eligible, times, m);
    WeightsStay(r, eligible, times, m);
    PickIsRemembered(r, eligible, times, k, m);
    RecordsArePast(r, eligible, times, m, b);
    j := RecordIsAPick(r, eligible, times, m, a);
    if j <= k || j == m {
      OldRecord(r, eligible, times, a, k, m, j);
      PickedScoresHighest(r, eligible, times, m, a);
      ProductGrows(Idle(s, times[m], b), Idle(s, times[m], a), Weight(s, b), Weight(s, a));
    }
  }

  lemma OldRecord(r: Rotation, eligible: seq<int>, times: seq<int>, a: int, k: nat, m: nat, j: nat)
    requires a in eligible && StrictlySorted(times) && k < m < |times| && j <= m && LastAssigned(r, a) < times[0]
    requires Pick(r, eligible, times, k) != a && (j <= k || j == m)
    requires j < m ==> Pick(r, eligible, times, j) == a && LastAssigned(After(r, eligible, times, m), a) == times[j]
    requires j == m ==> LastAssigned(After(r, eligible, times, m), a) == LastAssigned(r, a)
    ensures LastAssigned(After(r, eligible, times, m), a) < times[k]
  {
    hide Pick, After;
    if j == m {
      assert times[0] <= times[k];
    } else {
      assert j != k;
    }
  }

  lemma PickedScoresHighest(r: Rotation, eligible: seq<int>, times: seq<int>, m: nat, a: int)
    requires a in eligible && m < |times|
    ensures var s := After(r, eligible, times, m);
      Score(s, times[m], a) <= Score(s, times[m], Pick(r, eligible, times, m))
  {
    hide Choice, Score, After;
    ChoiceIsMaximal(After(r, eligible, times, m), times[m], eligible);
  }

  /** How often a host is picked from step `k` up to, not including, step `m`. */
  ghost function Count(r: Rotation, eligible: seq<int>, times: seq<int>, h: int, k: nat, m: nat): nat
    requires eligible != [] && k <= m <= |times|
  {
    if k == m then 0
    else Count(r, eligible, times, h, k, m - 1) + if Pick(r, eligible, times, m - 1) == h then 1 else 0
  }

  /** The last step of the two hosts' picks, or -1, and who is how far ahead by then. */
  lemma {:induction false} LastOfTwo(r: Rotation, eligible: seq<int>, times: seq<int>, a: int, b: int, k: nat, m: nat)
    returns (last: int)
    requires a in eligible && b in eligible && a != b && StrictlySorted(times) && k <= m <= |times| && times != []
    requires WeightIn(r, b) <= WeightIn(r, a) && LastAssigned(r, a) < times[0] && LastAssigned(r, b) < times[0]
    ensures last == -1 || (k <= last < m && Pick(r, eligible, times, last) in {a, b})
    ensures forall j :: k <= j < m && last < j ==> Pick(r, eligible, times, j) !in {a, b}
    ensures Count(r, eligible, times, b, k, m) <= Count(r, eligible, times, a, k, m)
                                                  + if last >= 0 && Pick(r, eligible, times, last) == b then 1 else 0
  {
    hide Pick, LastAssigned, WeightIn;
    if k == m {
      last := -1;
    } else {
      last := LastOfTwo(r, eligible, times, a, b, k, m - 1);
      var p := Pick(r, eligible, times, m - 1);
      if p == b && last >= 0 && Pick(r, eligible, times, last) == b {
        var _ := HeavierPickedBetween(r, eligible, times, a, b, last, m - 1);
      }
      if p == a || p == b {
        last := m - 1;
      }
    }
  }

  /**
   * Among any hosts at any increasing times: from any step to any later one, a host is
   * picked at most once more than one of at least its weight.
   */
  lemma HeavierNeverFarBehind(r: Rotation, eligible: seq<int>, times: seq<int>, a: int, b: int, k: nat, m: nat)
    requires a in eligible && b in eligible && a != b && StrictlySorted(times) && k <= m <= |times| && times != []
    requires WeightIn(r, b) <= WeightIn(r, a) && LastAssigned(r, a) < times[0] && LastAssigned(r, b) < times[0]
    ensures Count(r, eligible, times, b, k, m) <= Count(r, eligible, times, a, k, m) + 1
  {
    var last := LastOfTwo(r, eligible, times, a, b, k, m);
  }

  // ---- Two hosts, one pick a tick --------------------------------------------------------------

  /** After `n` ticks host `b`, of weight `v`, is due before host `a`, of weight `w`, one tick after its pick. */
  predicate Overtakes(a: int, b: int, w: int, v: int, n: int) {
    w < n * v || (n * v == w && b < a)
  }

  ghost predicate OnlyTwo(eligible: seq<int>, a: int, b: int) {
    a != b && a in eligible && b in eligible && forall x :: x in eligible ==> x == a || x == b
  }

  /** Of two hosts the one due more is chosen. */
  lemma ChosenOfTwo(r: Rotation, now: int, eligible: seq<int>, a: int, b: int)
    requires OnlyTwo(eligible, a, b)
    ensures Chosen(r, now, eligible) ==
            if Score(r, now, a) < Score(r, now, b) || (Score(r, now, a) == Score(r, now, b) && b < a) then b else a
  {
    hide Choice, Score;
    ChoiceIsMaximal(r, now, eligible);
  }

  /** Where the two stand before step `j` of the cycle that began with a pick of `b` at step `i`. */
  ghost predicate InCycle(r: Rotation, eligible: seq<int>, times: seq<int>, a: int, b: int, i: nat, j: nat)
    requires eligible != [] && i < j <= |times|
  {
    var s := After(r, eligible, times, j);
    && s.weights == r.weights && LastAssigned(s, b) == times[i]
    && (if j == i + 1 then LastAssigned(s, a) < times[i] else LastAssigned(s, a) == times[j - 1])
  }

  lemma CycleStarts(r: Rotation, eligible: seq<int>, times: seq<int>, a: int, b: int, i: nat)
    requires OnlyTwo(eligible, a, b) && StrictlySorted(times) && i < |times| && LastAssigned(r, a) < times[0]
    requires Pick(r, eligible, times, i) == b
    ensures InCycle(r, eligible, times, a, b, i, i + 1)
  {
    hide Chosen;
    WeightsStay(r, eligible, times, i + 1);
    RecordsArePast(r, eligible, times, i, a);
  }

  lemma CycleGoesOn(r: Rotation, eligible: seq<int>, times: seq<int>, t0: int, a: int, b: int, i: nat, j: nat)
    requires OnlyTwo(eligible, a, b) && EveryTick(times, t0) && i < j < |times|
    requires WeightIn(r, b) <= WeightIn(r, a) && InCycle(r, eligible, times, a, b, i, j)
    ensures Pick(r, eligible, times, j) ==
            if j > i + 1 && Overtakes(a, b, WeightIn(r, a), WeightIn(r, b), j - i) then b else a
    ensures Pick(r, eligible, times, j) == a ==> InCycle(r, eligible, times, a, b, i, j + 1)
  {
    hide Choice, Chosen;
    var s := After(r, eligible, times, j);
    ChosenOfTwo(s, times[j], eligible, a, b);
    WeightsStay(r, eligible, times, j + 1);
    assert Idle(s, times[j], b) == j - i;
    if j == i + 1 {
      ProductGrows(1, Idle(s, times[j], a), Weight(s, b), Weight(s, a));
    } else {
      assert Idle(s, times[j], a) == 1;
    }
  }

  /** The length of a cycle: the first time after the next tick at which `b` overtakes `a`. */
  ghost predicate CycleLength(a: int, b: int, w: int, v: int, c: int) {
    2 <= c && Overtakes(a, b, w, v, c) && forall n :: 2 <= n < c ==> !Overtakes(a, b, w, v, n)
  }

  lemma {:induction false} CycleRuns(
    r: Rotation, eligible: seq<int>, times: seq<int>, t0: int, a: int, b: int, i: nat, j: nat, c: nat)
    requires OnlyTwo(eligible, a, b) && EveryTick(times, t0) && i < j < |times| && j <= i + c
    requires WeightIn(r, b) <= WeightIn(r, a) && CycleLength(a, b, WeightIn(r, a), WeightIn(r, b), c)
    requires LastAssigned(r, a) <= t0 && Pick(r, eligible, times, i) == b
    ensures InCycle(r, eligible, times, a, b, i, j)
    ensures Pick(r, eligible, times, j) == if j == i + c then b else a
    decreases j
  {
    hide Pick, InCycle, Overtakes;
    if j == i + 1 {
      CycleStarts(r, eligible, times, a, b, i);
    } else {
      CycleRuns(r, eligible, times, t0, a, b, i, j - 1, c);
      CycleGoesOn(r, eligible, times, t0, a, b, i, j - 1);
    }
    CycleGoesOn(r, eligible, times, t0, a, b, i, j);
  }

  lemma {:induction false} CountInCycle(
    r: Rotation, eligible: seq<int>, times: seq<int>, t0: int, a: int, b: int, k: nat, i: nat, m: nat, c: nat)
    requires OnlyTwo(eligible, a, b) && EveryTick(times, t0) && k <= i < m <= |times| && m <= i + c
    requires WeightIn(r, b) <= WeightIn(r, a) && CycleLength(a, b, WeightIn(r, a), WeightIn(r, b), c)
    requires LastAssigned(r, a) <= t0 && Pick(r, eligible, times, i) == b
    ensures Count(r, eligible, times, b, k, m) == Count(r, eligible, times, b, k, i) + 1
    ensures Count(r, eligible, times, a, k, m) == Count(r, eligible, times, a, k, i) + m - i - 1
    decreases m
  {
    hide Pick, CycleLength;
    if i + 1 < m {
      CountInCycle(r, eligible, times, t0, a, b, k, i, m - 1, c);
      CycleRuns(r, eligible, times, t0, a, b, i, m - 1, c);
    }
  }

  /** `n` cycles of `c` steps. */
  function Cycles(n: nat, c: nat): nat {
    if n == 0 then 0 else Cycles(n - 1, c) + c
  }

  /**
   * Two hosts with one pick a tick fall into cycles of `c` picks, one of the lighter host
   * and `c - 1` of the heavier one.
   */
  lemma {:induction false} TwoHostsShare(
    r: Rotation, eligible: seq<int>, times: seq<int>, t0: int, a: int, b: int, i: nat, c: nat, n: nat)
    requires OnlyTwo(eligible, a, b) && EveryTick(times, t0) && i + Cycles(n, c) < |times|
    requires WeightIn(r, b) <= WeightIn(r, a) && CycleLength(a, b, WeightIn(r, a), WeightIn(r, b), c)
    requires LastAssigned(r, a) <= t0 && Pick(r, eligible, times, i) == b
    ensures Pick(r, eligible, times, i + Cycles(n, c)) == b
    ensures Count(r, eligible, times, b, i, i + Cycles(n, c)) == n
    ensures Count(r, eligible, times, a, i, i + Cycles(n, c)) == Cycles(n, c) - n
  {
    hide Pick, CycleLength;
    if n > 0 {
      var at := i + Cycles(n - 1, c);
      TwoHostsShare(r, eligible, times, t0, a, b, i, c, n - 1);
      CycleIsLong(a, b, WeightIn(r, a), WeightIn(r, b), c);
      CycleRuns(r, eligible, times, t0, a, b, at, at + c, c);
      CountInCycle(r, eligible, times, t0, a, b, i, at, at + c, c);
    }
  }

  lemma CycleIsLong(a: int, b: int, w: int, v: int, c: int)
    requires CycleLength(a, b, w, v, c)
    ensures 2 <= c
  {
  }

  /** So the heavier host's picks per pick of the lighter one are its share of the weights, rounded. */
  lemma ShareFollowsWeights(a: int, b: int, w: int, v: int, c: int)
    requires 1 <= v <= w && CycleLength(a, b, w, v, c)
    ensures (c - 1) * v <= w <= c * v
  {
    if c > 2 {
      assert !Overtakes(a, b, w, v, c - 1);
    }
  }

  /** There is such a cycle for all weights. */
  lemma CycleExists(a: int, b: int, w: int, v: int) returns (c: nat)
    requires 1 <= v <= w
    ensures CycleLength(a, b, w, v, c)
  {
    c := 2;
    while !Overtakes(a, b, w, v, c)
      invariant 2 <= c && forall n :: 2 <= n < c ==> !Overtakes(a, b, w, v, n)
      decreases w + 1 - c
    {
      StepsPassWeight(c, v, w);
      c := c + 1;
    }
  }

  lemma StepsPassWeight(c: int, v: int, w: int)
    requires 1 <= v && 0 <= c && c * v <= w
    ensures c <= w
  {
    assert c * 1 <= c * v;
  }
}
