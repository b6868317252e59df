/**
 * Idempotency keys: the table (src/adapters/d1/repositories.ts, idempotency) and
 * the way `book()` reserves, settles, repairs and releases them
 * (src/adapters/coordinator.ts).
 */
module Idempotency {
  import opened Common

  const TTL := 24 * HOUR

  datatype Key = Key(key: string, scope: string)

  /** `response` is `None` for the empty placeholder, else the booking recorded. */
  datatype Row = Row(requestHash: int, response: Option<int>, expiresAt: int)

  datatype Claim = Reserved | Existing(row: Row)

  predicate Reservable(rows: map<Key, Row>, k: Key, clock: int) {
    k in rows ==> rows[k].expiresAt <= clock
  }

  class Table {
    var rows: map<Key, Row>

    constructor ()
      ensures rows == map[]
    {
      rows := map[];
    }

    /** Upsert, expiry included. */
    method Put(k: Key, r: Row)
      modifies this
      ensures rows == old(rows)[k := r]
    {
      rows := rows[k := r];
    }

    /** Compare-and-swap: wins only over an absent or expired row. */
    method Reserve(k: Key, r: Row, clock: int) returns (claim: Claim)
      modifies this
      ensures Reservable(old(rows), k, clock) ==> claim == Reserved && rows == old(rows)[k := r]
      ensures !Reservable(old(rows), k, clock) ==>
                k in old(rows) && claim == Existing(old(rows)[k]) && rows == old(rows)
    {
      if k !in rows {
        rows := rows[k := r];
        return Reserved;
      }
      if rows[k].expiresAt <= clock {
        rows := rows[k := r];
        return Reserved;
      }
      return Existing(rows[k]);
    }
  }

  // ---- Attempts -----------------------------------------------------------------------

  datatype Reply = Replayed(booking: int) | InProgress | KeyReused

  datatype Phase =
    | Started
    | Working                    // reservation won, nothing committed yet
    | Failing                    // gave up before committing; release still to come
    | Released(done: bool)
    | Committed(booking: int)    // booking written; response not yet recorded
    | Unsettled(booking: int)    // recording failed once; one repair still to come
    | Finished(booking: int)
    | Refused(reply: Reply)

  /** `now` is captured on entry, `reservedAt` is when the reservation was won. */
  datatype Attempt = Attempt(key: Key, requestHash: int, now: int, reservedAt: int, phase: Phase)

  datatype State = State(rows: map<Key, Row>, clock: int, attempts: map<int, Attempt>)

  predicate HasCommitted(a: Attempt) {
    a.phase.Committed? || a.phase.Unsettled? || a.phase.Finished?
  }

  /** Won its reservation and has not handed it back. */
  predicate Holding(a: Attempt) {
    a.phase.Working? || a.phase.Failing? || HasCommitted(a)
  }

  function BookingOf(a: Attempt): int
    requires HasCommitted(a)
  {
    match a.phase
    case Committed(b) => b
    case Unsettled(b) => b
    case Finished(b) => b
  }

  function With(s: State, a: int, phase: Phase): map<int, Attempt>
    requires a in s.attempts
  {
    s.attempts[a := s.attempts[a].(phase := phase)]
  }

  datatype Action =
    | Tick(clock: int)
    | Begin(a: int, key: Key, requestHash: int)
    | Reserve(a: int)
    | Commit(a: int, booking: int)
    | Fail(a: int)
    | Record(a: int, ok: bool)
    | Repair(a: int, ok: bool)
    | Release(a: int, ok: bool)

  function Answer(row: Row, requestHash: int): Reply {
    if row.requestHash != requestHash then KeyReused
    else if row.response.Some? then Replayed(row.response.value)
    else InProgress
  }

  /** An attempt acts only within a day of its captured clock. */
  predicate InTime(s: State, a: int) {
    a in s.attempts && s.attempts[a].now <= s.clock < s.attempts[a].now + TTL
  }

  predicate Enabled(s: State, action: Action) {
    match action
    case Tick(clock) => s.clock <= clock
    case Begin(a, _, _) => a !in s.attempts
    case Reserve(a) => InTime(s, a) && s.attempts[a].phase.Started?
    case Commit(a, _) => InTime(s, a) && s.attempts[a].phase.Working?
    case Fail(a) => InTime(s, a) && s.attempts[a].phase.Working?
    case Record(a, _) => InTime(s, a) && s.attempts[a].phase.Committed?
    case Repair(a, _) => InTime(s, a) && s.attempts[a].phase.Unsettled?
    case Release(a, _) => InTime(s, a) && s.attempts[a].phase.Failing?
  }

  /** The row written when the booking is recorded: the placeholder's own expiry again. */
  function SettledRow(x: Attempt, booking: int): Row {
    Row(x.requestHash, Some(booking), x.now + TTL)
  }

  function Next(s: State, action: Action): State
    requires Enabled(s, action)
  {
    match action
    case Tick(clock) => s.(clock := clock)
    case Begin(a, key, hash) => s.(attempts := s.attempts[a := Attempt(key, hash, s.clock, s.clock, Started)])
    case Reserve(a) =>
      var x := s.attempts[a];
      if Reservable(s.rows, x.key, s.clock) then
        s.(rows := s.rows[x.key := Row(x.requestHash, None, x.now + TTL)],
           attempts := s.attempts[a := x.(phase := Working, reservedAt := s.clock)])
      else s.(attempts := With(s, a, Refused(Answer(s.rows[x.key], x.requestHash))))
    case Commit(a, booking) => s.(attempts := With(s, a, Phase.Committed(booking)))
    case Fail(a) => s.(attempts := With(s, a, Failing))
    case Record(a, ok) =>
      var x := s.attempts[a];
      if ok then s.(rows := s.rows[x.key := SettledRow(x, x.phase.booking)],
                    attempts := With(s, a, Finished(x.phase.booking)))
      else s.(attempts := With(s, a, Unsettled(x.phase.booking)))
    case Repair(a, ok) =>
      var x := s.attempts[a];
      s.(rows := if ok then s.rows[x.key := SettledRow(x, x.phase.booking)] else s.rows,
         attempts := With(s, a, Finished(x.phase.booking)))
    case Release(a, ok) =>
      var x := s.attempts[a];
      s.(rows := if ok then s.rows[x.key := Row(x.requestHash, None, x.now)] else s.rows,
         attempts := With(s, a, Released(ok)))
  }

  ghost predicate Run(states: seq<State>, actions: seq<Action>) {
    && |states| == |actions| + 1
    && states[0].rows == map[] && states[0].attempts == map[]
    && forall i :: 0 <= i < |actions| ==> Enabled(states[i], actions[i]) && states[i + 1] == Next(states[i], actions[i])
  }

  // ---- The invariant --------------------------------------------------------------------

  /** Still within its own day. */
  predicate Fresh(s: State, a: int) {
    a in s.attempts && Holding(s.attempts[a]) && s.clock < s.attempts[a].now + TTL
  }

  /** The row of a fresh holder is its own. */
  predicate OwnsRow(s: State, a: int)
    requires a in s.attempts
  {
    var x := s.attempts[a];
    && x.key in s.rows
    && s.rows[x.key].expiresAt == x.now + TTL
    && s.rows[x.key].requestHash == x.requestHash
    && (s.rows[x.key].response.Some? ==> HasCommitted(x) && s.rows[x.key].response.value == BookingOf(x))
  }

  /** The later of two holders reserved a day or more after the earlier one began. */
  predicate DayApart(x: Attempt, y: Attempt) {
    x.now + TTL <= y.reservedAt || y.now + TTL <= x.reservedAt
  }

  predicate Rivals(s: State, a: int, b: int) {
    && a in s.attempts && b in s.attempts && a != b
    && Holding(s.attempts[a]) && Holding(s.attempts[b]) && s.attempts[a].key == s.attempts[b].key
  }

  ghost predicate Inv(s: State) {
    && (forall a :: Fresh(s, a) ==> OwnsRow(s, a))
    && (forall a, b :: Rivals(s, a, b) ==> DayApart(s.attempts[a], s.attempts[b]))
    && (forall a :: a in s.attempts ==>
          var x := s.attempts[a];
          x.now <= x.reservedAt <= s.clock && x.reservedAt < x.now + TTL)
  }

  /** Two fresh holders of one key are the same attempt. */
  lemma FreshHolderIsUnique(s: State, a: int, b: int)
    requires Inv(s) && Fresh(s, a) && Fresh(s, b) && s.attempts[a].key == s.attempts[b].key
    ensures a == b
  {
  }

  lemma StepKeepsInv(s: State, action: Action)
    requires Inv(s) && Enabled(s, action)
    ensures Inv(Next(s, action))
  {
    match action
    case Reserve(a) => ReserveKeepsInv(s, a);
    case Record(a, ok) => WriteKeepsInv(s, action, a);
    case Repair(a, ok) => WriteKeepsInv(s, action, a);
    case Release(a, ok) => WriteKeepsInv(s, action, a);
    case _ => QuietKeepsInv(s, action);
  }

  lemma ReserveKeepsInv(s: State, a: int)
    requires Inv(s) && Enabled(s, Reserve(a))
    ensures Inv(Next(s, Reserve(a)))
  {
    var t, x := Next(s, Reserve(a)), s.attempts[a];
    forall b, c | Rivals(t, b, c)
      ensures Rivals(s, b, c) || ((b == a || c == a) && Reservable(s.rows, x.key, s.clock))
    {
    }
    if Reservable(s.rows, x.key, s.clock) {
      forall b | b in s.attempts && Holding(s.attempts[b]) && s.attempts[b].key == x.key
        ensures s.attempts[b].now + TTL <= s.clock
      {
        if s.clock < s.attempts[b].now + TTL {
          assert Fresh(s, b);
        }
      }
      forall b | Fresh(t, b) ensures OwnsRow(t, b) {
        if b != a {
          assert Fresh(s, b);
        }
      }
    } else {
      forall b | Fresh(t, b) ensures OwnsRow(t, b) {
        assert Fresh(s, b);
      }
    }
  }

  /** The writes of a holder touch only its own row. */
  lemma WriteKeepsInv(s: State, action: Action, a: int)
    requires Inv(s) && Enabled(s, action)
    requires (action.Record? || action.Repair? || action.Release?) && action.a == a
    ensures Inv(Next(s, action))
  {
    var t := Next(s, action);
    assert Fresh(s, a);
    forall b, c | Rivals(t, b, c) ensures DayApart(t.attempts[b], t.attempts[c]) {
      assert Rivals(s, b, c);
    }
    forall b | Fresh(t, b) ensures OwnsRow(t, b) {
      assert Fresh(s, b);
      if b != a && s.attempts[b].key == s.attempts[a].key {
        FreshHolderIsUnique(s, a, b);
      }
    }
  }

  lemma QuietKeepsInv(s: State, action: Action)
    requires Inv(s) && Enabled(s, action)
    requires action.Tick? || action.Begin? || action.Commit? || action.Fail?
    ensures Inv(Next(s, action))
  {
    var t := Next(s, action);
    forall b, c | Rivals(t, b, c) ensures DayApart(t.attempts[b], t.attempts[c]) {
      assert Rivals(s, b, c);
    }
    forall b | Fresh(t, b) ensures OwnsRow(t, b) {
      assert Fresh(s, b);
    }
  }

  lemma {:induction false} RunKeepsInv(states: seq<State>, actions: seq<Action>, i: nat)
    requires Run(states, actions) && i < |states|
    ensures Inv(states[i])
  {
    hide Inv, Next, Enabled;
    if i == 0 {
      EmptyKeepsInv(states[0]);
    } else {
      RunKeepsInv(states, actions, i - 1);
      StepKeepsInv(states[i - 1], actions[i - 1]);
    }
  }

  lemma EmptyKeepsInv(s: State)
    requires s.rows == map[] && s.attempts == map[]
    ensures Inv(s)
  {
  }

  // ---- What callers get --------------------------------------------------------------------

  /**
   * Two attempts with one key that both create a booking: the one that reserved later
   * did so at least 24 hours after the other captured its clock.
   */
  lemma CommitsAreADayApart(states: seq<State>, actions: seq<Action>, i: nat, a: int, b: int)
    requires Run(states, actions) && i < |states| && a != b
    requires a in states[i].attempts && b in states[i].attempts
    requires HasCommitted(states[i].attempts[a]) && HasCommitted(states[i].attempts[b])
    requires states[i].attempts[a].key == states[i].attempts[b].key
    requires states[i].attempts[a].reservedAt <= states[i].attempts[b].reservedAt
    ensures states[i].attempts[a].now + 86_400_000 <= states[i].attempts[b].reservedAt
  {
    RunKeepsInv(states, actions, i);
    assert Rivals(states[i], a, b);
  }

  /**
   * While a committed attempt is less than a day old, every other request with its
   * key is refused a reservation: with the same body it gets the original booking
   * or an in-progress answer, with another body a policy error.
   */
  lemma RepliesNameTheOriginal(states: seq<State>, actions: seq<Action>, i: nat, a: int, b: int)
    requires Run(states, actions) && i < |actions| && actions[i] == Reserve(b)
    requires a in states[i].attempts && HasCommitted(states[i].attempts[a])
    requires states[i].clock < states[i].attempts[a].now + 86_400_000
    requires b in states[i].attempts && states[i].attempts[b].key == states[i].attempts[a].key
    ensures b in states[i + 1].attempts && states[i + 1].attempts[b].phase.Refused?
    ensures var reply := states[i + 1].attempts[b].phase.reply;
      if states[i].attempts[b].requestHash == states[i].attempts[a].requestHash
      then reply == InProgress || reply == Replayed(BookingOf(states[i].attempts[a]))
      else reply == KeyReused
  {
    RunKeepsInv(states, actions, i);
    assert Fresh(states[i], a);
    assert Enabled(states[i], actions[i]) && states[i + 1] == Next(states[i], actions[i]);
  }

  /** Two attempts with one key that have both committed, `a` having reserved first. */
  ghost predicate CommittedPair(states: seq<State>, actions: seq<Action>, i: nat, a: int, b: int) {
    && Run(states, actions) && i < |states| && a != b && a in states[i].attempts && b in states[i].attempts
    && HasCommitted(states[i].attempts[a]) && HasCommitted(states[i].attempts[b])
    && states[i].attempts[a].key == states[i].attempts[b].key
    && states[i].attempts[a].reservedAt <= states[i].attempts[b].reservedAt
  }

  /** How long after capturing its clock an attempt won its reservation. */
  function Delay(x: Attempt): int {
    x.reservedAt - x.now
  }

  function Gap(s: State, a: int, b: int): int
    requires a in s.attempts && b in s.attempts
  {
    s.attempts[b].reservedAt - s.attempts[a].reservedAt
  }

  /** With this delay of the first one, the reservations of any two committed attempts are a day apart. */
  ghost predicate AlwaysADayApart(delay: int) {
    forall states: seq<State>, actions: seq<Action>, i: nat, a, b :: CommittedPair(states, actions, i, a, b) ==>
      (Delay(states[i].attempts[a]) == delay ==> Gap(states[i], a, b) >= 86_400_000)
  }

  lemma RunStep(states: seq<State>, actions: seq<Action>, action: Action, t: State)
    requires Run(states, actions) && Enabled(states[|actions|], action) && t == Next(states[|actions|], action)
    ensures Run(states + [t], actions + [action])
  {
    hide Enabled, Next;
  }

  /** Reserve and commit at once, by an attempt that began at `at` and waited `delay`. */
  lemma ReserveAndCommit(states: seq<State>, actions: seq<Action>, a: int, k: Key, at: int, delay: int)
    returns (states': seq<State>, actions': seq<Action>)
    requires Run(states, actions) && 0 <= delay < TTL && a !in states[|actions|].attempts
    requires states[|actions|].clock <= at && Reservable(states[|actions|].rows, k, at)
    ensures Run(states', actions')
    ensures var s, t := states[|actions|], states'[|actions'|];
      && t.clock == at + delay
      && t.attempts == s.attempts[a := Attempt(k, 0, at, at + delay, Phase.Committed(a))]
      && t.rows == s.rows[k := Row(0, None, at + TTL)]
  {
    hide Run;
    RunLength(states, actions);
    var s := states[|actions|];
    var s1 := s.(clock := at);
    RunStep(states, actions, Tick(at), s1);
    var s2 := s1.(attempts := s.attempts[a := Attempt(k, 0, at, at, Started)]);
    RunStep(states + [s1], actions + [Tick(at)], Begin(a, k, 0), s2);
    var s3 := s2.(clock := at + delay);
    RunStep(states + [s1] + [s2], actions + [Tick(at)] + [Begin(a, k, 0)], Tick(at + delay), s3);
    var s4 := s3.(rows := s.rows[k := Row(0, None, at + TTL)],
                  attempts := s.attempts[a := Attempt(k, 0, at, at + delay, Working)]);
    states', actions' := states + [s1] + [s2] + [s3], actions + [Tick(at)] + [Begin(a, k, 0)] + [Tick(at + delay)];
    RunStep(states', actions', Reserve(a), s4);
    states', actions' := states' + [s4], actions' + [Reserve(a)];
    var s5 := s4.(attempts := s.attempts[a := Attempt(k, 0, at, at + delay, Phase.Committed(a))]);
    RunStep(states', actions', Commit(a, a), s5);
    states', actions' := states' + [s5], actions' + [Commit(a, a)];
  }

  /** A run in which the gap is a day less the delay. */
  lemma TightPair(delay: int) returns (states: seq<State>, actions: seq<Action>)
    requires 0 <= delay < 86_400_000
    ensures CommittedPair(states, actions, |actions|, 1, 2)
    ensures Delay(states[|actions|].attempts[1]) == delay && Gap(states[|actions|], 1, 2) == 86_400_000 - delay
  {
    hide Run;
    var k := Key("", "");
    var s0 := State(map[], 0, map[]);
    EmptyRun(s0);
    states, actions := ReserveAndCommit([s0], [], 1, k, 0, delay);
    states, actions := ReserveAndCommit(states, actions, 2, k, TTL, 0);
    RunLength(states, actions);
  }

  lemma EmptyRun(s: State)
    requires s.rows == map[] && s.attempts == map[]
    ensures Run([s], [])
  {
  }

  lemma RunLength(states: seq<State>, actions: seq<Action>)
    requires Run(states, actions)
    ensures |states| == |actions| + 1
  {
  }

  /** So a full day between the reservations is certain exactly when the first was won without delay. */
  lemma ADayApartIff(delay: int)
    requires 0 <= delay < 86_400_000
    ensures AlwaysADayApart(delay) <==> delay == 0
  {
    hide Run, HasCommitted;
    if delay == 0 {
      forall states: seq<State>, actions: seq<Action>, i: nat, a, b | CommittedPair(states, actions, i, a, b)
        ensures Delay(states[i].attempts[a]) == delay ==> Gap(states[i], a, b) >= 86_400_000
      {
        CommitsAreADayApart(states, actions, i, a, b);
      }
    } else {
      var states, actions := TightPair(delay);
      assert Gap(states[|actions|], 1, 2) < 86_400_000;
    }
  }

  // ---- Released keys ---------------------------------------------------------------------------

  /** Nobody within its day owns the key, and its row, if any, has run out. */
  ghost predicate FreeKey(s: State, k: Key) {
    Reservable(s.rows, k, s.clock) && forall x :: Fresh(s, x) ==> s.attempts[x].key != k
  }

  predicate ReservesKey(s: State, action: Action, k: Key) {
    action.Reserve? && action.a in s.attempts && s.attempts[action.a].key == k
  }

  lemma FreeKeyStays(s: State, action: Action, k: Key)
    requires Inv(s) && FreeKey(s, k) && Enabled(s, action) && !ReservesKey(s, action, k)
    ensures FreeKey(Next(s, action), k)
  {
    hide Inv;
    var t := Next(s, action);
    if action.Record? || action.Repair? || action.Release? || action.Commit? || action.Fail? {
      assert Fresh(s, action.a);
    }
    forall x | Fresh(t, x) ensures t.attempts[x].key != k {
      assert Fresh(s, x) || (action == Reserve(x) && s.attempts[x].key == t.attempts[x].key);
    }
  }

  lemma ReleasedIsFree(s: State, a: int)
    requires Inv(s) && Enabled(s, Release(a, true))
    ensures FreeKey(Next(s, Release(a, true)), s.attempts[a].key)
  {
    var t := Next(s, Release(a, true));
    assert Fresh(s, a);
    forall x | Fresh(t, x) ensures t.attempts[x].key != s.attempts[a].key {
      assert Fresh(s, x);
      if s.attempts[x].key == s.attempts[a].key {
        FreshHolderIsUnique(s, a, x);
      }
    }
  }

  lemma {:induction false} FreeUntilReserved(states: seq<State>, actions: seq<Action>, i: nat, j: nat, k: Key)
    requires Run(states, actions) && i <= j < |states| && FreeKey(states[i], k)
    requires forall m :: i <= m < j ==> !ReservesKey(states[m], actions[m], k)
    ensures FreeKey(states[j], k)
    decreases j
  {
    hide FreeKey, ReservesKey, Inv, Next, Enabled;
    if i < j {
      FreeUntilReserved(states, actions, i, j - 1, k);
      RunKeepsInv(states, actions, j - 1);
      FreeKeyStays(states[j - 1], actions[j - 1], k);
    }
  }

  /**
   * A failed attempt whose release succeeds leaves its key reservable, from then on until
   * somebody reserves it; and whoever does wins.
   */
  lemma ReleaseFreesTheKey(states: seq<State>, actions: seq<Action>, i: nat, j: nat, a: int)
    requires Run(states, actions) && i < j < |states| && actions[i] == Release(a, true) && a in states[i].attempts
    requires forall m :: i < m < j ==> !ReservesKey(states[m], actions[m], states[i].attempts[a].key)
    ensures Reservable(states[j].rows, states[i].attempts[a].key, states[j].clock)
    ensures j < |actions| && ReservesKey(states[j], actions[j], states[i].attempts[a].key) ==>
              var b := actions[j].a; b in states[j + 1].attempts && states[j + 1].attempts[b].phase == Working
  {
    hide Inv, ReservesKey;
    RunKeepsInv(states, actions, i);
    assert Enabled(states[i], actions[i]) && states[i + 1] == Next(states[i], actions[i]);
    ReleasedIsFree(states[i], a);
    FreeUntilReserved(states, actions, i + 1, j, states[i].attempts[a].key);
    if j < |actions| {
      assert Enabled(states[j], actions[j]) && states[j + 1] == Next(states[j], actions[j]);
      FreeKeyIsWon(states[j], actions[j], states[i].attempts[a].key);
    }
  }

  lemma FreeKeyIsWon(s: State, action: Action, k: Key)
    requires FreeKey(s, k) && Enabled(s, action)
    ensures ReservesKey(s, action, k) ==>
              action.a in Next(s, action).attempts && Next(s, action).attempts[action.a].phase == Working
  {
  }

  // ---- Recorded bookings are replayed -------------------------------------------------------

  /** The row of `a`'s key names its booking. */
  predicate Recorded(s: State, a: int) {
    && a in s.attempts && HasCommitted(s.attempts[a]) && s.attempts[a].key in s.rows
    && s.rows[s.attempts[a].key].response == Some(BookingOf(s.attempts[a]))
  }

  /** The booking of `a` is written to its row in this step. */
  predicate Records(action: Action, a: int) {
    (action.Record? || action.Repair?) && action.a == a && action.ok
  }

  lemma RecordingRecords(s: State, action: Action, a: int)
    requires Enabled(s, action) && Records(action, a)
    ensures Recorded(Next(s, action), a)
  {
  }

  lemma RecordedStays(s: State, action: Action, a: int)
    requires Inv(s) && Enabled(s, action) && Recorded(s, a) && Fresh(Next(s, action), a)
    ensures Recorded(Next(s, action), a) && BookingOf(Next(s, action).attempts[a]) == BookingOf(s.attempts[a])
  {
    var t := Next(s, action);
    assert Fresh(s, a);
    if (action.Record? || action.Repair? || action.Release?) && action.a != a {
      assert Fresh(s, action.a);
      if s.attempts[action.a].key == s.attempts[a].key {
        FreshHolderIsUnique(s, a, action.a);
      }
    }
  }

  lemma ClockOnly(s: State, action: Action, a: int)
    requires Enabled(s, action) && a in s.attempts
    ensures s.clock <= Next(s, action).clock && a in Next(s, action).attempts
    ensures Next(s, action).attempts[a].now == s.attempts[a].now && Next(s, action).attempts[a].key == s.attempts[a].key
    ensures Next(s, action).attempts[a].requestHash == s.attempts[a].requestHash
    ensures HasCommitted(s.attempts[a]) ==> HasCommitted(Next(s, action).attempts[a])
  {
  }

  lemma {:induction false} RecordedFromThenOn(states: seq<State>, actions: seq<Action>, i: nat, j: nat, a: int)
    requires Run(states, actions) && i < j < |states| && Records(actions[i], a)
    requires a in states[j].attempts && states[j].clock < states[j].attempts[a].now + 86_400_000
    ensures Recorded(states[j], a)
    decreases j
  {
    hide Inv, Next, Enabled, Recorded, HasCommitted;
    assert Enabled(states[j - 1], actions[j - 1]) && states[j] == Next(states[j - 1], actions[j - 1]);
    if i + 1 == j {
      RecordingRecords(states[i], actions[i], a);
    } else {
      KnownSince(states, actions, i, j - 1, a);
      ClockOnly(states[j - 1], actions[j - 1], a);
      RecordedFromThenOn(states, actions, i, j - 1, a);
      RunKeepsInv(states, actions, j - 1);
      StillFresh(states[j - 1], states[j], a);
      RecordedStays(states[j - 1], actions[j - 1], a);
    }
  }

  lemma {:induction false} KnownSince(states: seq<State>, actions: seq<Action>, i: nat, j: nat, a: int)
    requires Run(states, actions) && i < j < |states| && Records(actions[i], a)
    ensures a in states[j].attempts
    decreases j
  {
    assert Enabled(states[j - 1], actions[j - 1]) && states[j] == Next(states[j - 1], actions[j - 1]);
    if i + 1 < j {
      KnownSince(states, actions, i, j - 1, a);
    }
  }

  lemma StillFresh(s: State, t: State, a: int)
    requires Recorded(s, a) && a in t.attempts && (HasCommitted(s.attempts[a]) ==> HasCommitted(t.attempts[a]))
    requires t.clock < t.attempts[a].now + 86_400_000
    ensures Fresh(t, a)
  {
  }

  /**
   * Once a booking has been recorded, every retry with its key and body within 24 hours of
   * the original is answered with that booking, and every other body with key reuse.
   */
  lemma RetriesGetTheBooking(states: seq<State>, actions: seq<Action>, i: nat, j: nat, a: int, b: int)
    requires Run(states, actions) && i < j < |actions| && Records(actions[i], a) && actions[j] == Reserve(b)
    requires a in states[j].attempts && b in states[j].attempts
    requires states[j].attempts[b].key == states[j].attempts[a].key
    requires states[j].clock < states[j].attempts[a].now + 86_400_000
    ensures HasCommitted(states[j].attempts[a])
    ensures b in states[j + 1].attempts
            && states[j + 1].attempts[b].phase
               == Refused(if states[j].attempts[b].requestHash == states[j].attempts[a].requestHash
                          then Replayed(BookingOf(states[j].attempts[a])) else KeyReused)
  {
    hide Inv, HasCommitted;
    RecordedFromThenOn(states, actions, i, j, a);
    RunKeepsInv(states, actions, j);
    RecordedIsOwned(states[j], a);
    assert Enabled(states[j], actions[j]) && states[j + 1] == Next(states[j], actions[j]);
  }

  lemma RecordedIsOwned(s: State, a: int)
    requires Inv(s) && Recorded(s, a) && s.clock < s.attempts[a].now + 86_400_000
    ensures s.rows[s.attempts[a].key].requestHash == s.attempts[a].requestHash
    ensures s.clock < s.rows[s.attempts[a].key].expiresAt
  {
    assert Fresh(s, a);
  }
}
