/** The token bucket (src/do/rate-limiter.ts), with tokens as exact reals. */
module RateLimiter {
  import opened Common

  const SWEEP_AFTER := HOUR

  datatype Row = Row(tokens: real, updatedAt: int, resetAt: int)

  datatype Response = Response(allowed: bool, remaining: int, resetAt: int)

  /** A limit of `limit` requests per `windowSeconds`. */
  datatype Rule = Rule(limit: int, windowSeconds: int)
  {
    ghost predicate Valid() { 0 < limit && 0 < windowSeconds }
    function Window(): real { (windowSeconds * 1000) as real }
    function Rate(): real
      requires 0 < windowSeconds
    {
      limit as real / Window()
    }
  }

  function MinReal(x: real, y: real): real {
    if x < y then x else y
  }

  function Ceil(x: real): int {
    -(-x).Floor
  }

  /** A stored row after the time since its last request. */
  function Refilled(row: Row, rule: Rule, now: int): real
    requires 0 < rule.windowSeconds
  {
    MinReal(rule.limit as real, row.tokens + (now - row.updatedAt) as real * rule.Rate())
  }

  /** Tokens on hand at `now`, before a request takes one. */
  function OnHand(row: Option<Row>, rule: Rule, now: int): real
    requires 0 < rule.windowSeconds
  {
    match row
    case None => rule.limit as real
    case Some(r) => Refilled(r, rule, now)
  }

  function Remaining(row: Option<Row>, rule: Rule, now: int): real
    requires 0 < rule.windowSeconds
  {
    var tokens := OnHand(row, rule, now);
    if tokens >= 1.0 then tokens - 1.0 else tokens
  }

  /** How long the missing tokens take to come in. */
  function Wait(tokens: real, rule: Rule): real
    requires 0 < rule.limit
  {
    (rule.limit as real - tokens) / rule.limit as real * rule.Window()
  }

  function ResetAt(tokens: real, rule: Rule, now: int): int
    requires 0 < rule.limit
  {
    now + Ceil(Wait(tokens, rule))
  }

  function Written(row: Option<Row>, rule: Rule, now: int): Row
    requires 0 < rule.limit && 0 < rule.windowSeconds
  {
    var tokens := Remaining(row, rule, now);
    Row(tokens, now, ResetAt(tokens, rule, now))
  }

  function Answer(row: Option<Row>, rule: Rule, now: int): Response
    requires 0 < rule.limit && 0 < rule.windowSeconds
  {
    var tokens := Remaining(row, rule, now);
    Response(OnHand(row, rule, now) >= 1.0, tokens.Floor, ResetAt(tokens, rule, now))
  }

  function Lookup(buckets: map<int, Row>, key: int): Option<Row> {
    if key in buckets then Some(buckets[key]) else None
  }

  function Swept(buckets: map<int, Row>, now: int): map<int, Row> {
    map k | k in buckets && buckets[k].updatedAt >= now - SWEEP_AFTER :: buckets[k]
  }

  class Limiter {
    var buckets: map<int, Row>
    var alarmAt: Option<int>

    constructor ()
      ensures buckets == map[] && alarmAt == None
    {
      buckets, alarmAt := map[], None;
    }

    method Consume(key: int, rule: Rule, now: int) returns (r: Response)
      requires rule.Valid()
      modifies this
      ensures r == Answer(Lookup(old(buckets), key), rule, now)
      ensures buckets == old(buckets)[key := Written(Lookup(old(buckets), key), rule, now)]
      ensures alarmAt == if old(alarmAt).None? then Some(now + 3_600_000) else old(alarmAt)
    {
      hide Refilled, ResetAt;
      var tokens := rule.limit as real;
      if key in buckets {
        tokens := Refilled(buckets[key], rule, now);
      }
      var allowed := tokens >= 1.0;
      if allowed {
        tokens := tokens - 1.0;
      }
      var resetAt := ResetAt(tokens, rule, now);
      buckets := buckets[key := Row(tokens, now, resetAt)];
      if alarmAt.None? {
        alarmAt := Some(now + SWEEP_AFTER);
      }
      return Response(allowed, tokens.Floor, resetAt);
    }

    method Alarm(now: int)
      modifies this
      ensures buckets == Swept(old(buckets), now) && alarmAt == None
      ensures forall k :: k in buckets <==> k in old(buckets) && now - 3_600_000 <= old(buckets)[k].updatedAt
    {
      buckets := map k | k in buckets && buckets[k].updatedAt >= now - SWEEP_AFTER :: buckets[k];
      alarmAt := None;
    }
  }

  // ---- At most limit + T * limit / window in any span --------------------------------------

  /** The row after the first `k` requests on one key. */
  ghost function After(start: Option<Row>, rule: Rule, times: seq<int>, k: nat): Option<Row>
    requires rule.Valid() && k <= |times|
  {
    if k == 0 then start else Some(Written(After(start, rule, times, k - 1), rule, times[k - 1]))
  }

  ghost function AllowedAt(start: Option<Row>, rule: Rule, times: seq<int>, k: nat): bool
    requires rule.Valid() && k < |times|
  {
    Answer(After(start, rule, times, k), rule, times[k]).allowed
  }

  /** How many of the requests `i` up to, not including, `j` were allowed. */
  ghost function AllowedCount(start: Option<Row>, rule: Rule, times: seq<int>, i: nat, j: nat): nat
    requires rule.Valid() && i <= j <= |times|
  {
    if i == j then 0
    else AllowedCount(start, rule, times, i, j - 1) + if AllowedAt(start, rule, times, j - 1) then 1 else 0
  }

  ghost predicate InRange(row: Option<Row>, rule: Rule) {
    row.Some? ==> 0.0 <= row.value.tokens <= rule.limit as real
  }

  ghost predicate Ascending(times: seq<int>) {
    forall i, j :: 0 <= i < j < |times| ==> times[i] <= times[j]
  }

  lemma ScaleNonNegative(x: real, r: real)
    requires 0.0 <= x && 0.0 <= r
    ensures 0.0 <= x * r
  {
  }

  lemma RateIsPositive(rule: Rule)
    requires rule.Valid()
    ensures 0.0 < rule.Rate() && rule.Rate() * rule.Window() == rule.limit as real
  {
  }

  lemma OnHandInRange(row: Option<Row>, rule: Rule, now: int)
    requires rule.Valid() && InRange(row, rule) && (row.Some? ==> row.value.updatedAt <= now)
    ensures 0.0 <= OnHand(row, rule, now) <= rule.limit as real
    ensures InRange(Some(Written(row, rule, now)), rule)
  {
    hide ResetAt;
    RateIsPositive(rule);
    if row.Some? {
      ScaleNonNegative((now - row.value.updatedAt) as real, rule.Rate());
    }
  }

  lemma {:induction false} RowsInRange(start: Option<Row>, rule: Rule, times: seq<int>, k: nat)
    requires rule.Valid() && k <= |times| && Ascending(times) && InRange(start, rule)
    requires start.Some? && times != [] ==> start.value.updatedAt <= times[0]
    ensures var row := After(start, rule, times, k);
      InRange(row, rule) && (row.Some? && k < |times| ==> row.value.updatedAt <= times[k])
  {
    hide OnHand, Remaining, ResetAt, InRange;
    if k > 0 {
      RowsInRange(start, rule, times, k - 1);
      OnHandInRange(After(start, rule, times, k - 1), rule, times[k - 1]);
    }
  }

  /** What may be spent between the instants `from` and `to`. */
  ghost function Budget(rule: Rule, from: int, to: int): real
    requires rule.Valid()
  {
    rule.limit as real + (to - from) as real * rule.Rate()
  }

  lemma BudgetGrows(rule: Rule, from: int, mid: int, to: int)
    requires rule.Valid()
    ensures Budget(rule, from, to) == Budget(rule, from, mid) + (to - mid) as real * rule.Rate()
    ensures Budget(rule, from, from) == rule.limit as real
  {
    Elapse(from, mid, to, rule.Rate());
  }

  /** One request moves one token from the bucket to the count, or none. */
  lemma OneRequest(start: Option<Row>, rule: Rule, times: seq<int>, i: nat, k: nat)
    requires rule.Valid() && i <= k < |times|
    ensures var row := After(start, rule, times, k); var next := After(start, rule, times, k + 1);
      && next.Some? && next.value.updatedAt == times[k]
      && AllowedCount(start, rule, times, i, k + 1) as real + next.value.tokens
         == AllowedCount(start, rule, times, i, k) as real + OnHand(row, rule, times[k])
    ensures AllowedCount(start, rule, times, i, i) == 0
  {
    hide OnHand, ResetAt;
  }

  /** Tokens on hand plus requests allowed since `i` grow no faster than the refill. */
  lemma {:induction false} SpentPlusOnHand(start: Option<Row>, rule: Rule, times: seq<int>, i: nat, j: nat)
    requires rule.Valid() && i < j <= |times| && Ascending(times) && InRange(start, rule)
    requires start.Some? ==> start.value.updatedAt <= times[0]
    ensures After(start, rule, times, j).Some?
    ensures AllowedCount(start, rule, times, i, j) as real + After(start, rule, times, j).value.tokens
            <= Budget(rule, times[i], times[j - 1])
    decreases j
  {
    hide OnHand, ResetAt, Rule.Rate, InRange, Budget, After, AllowedCount;
    OneRequest(start, rule, times, i, j - 1);
    if j - 1 == i {
      RowsInRange(start, rule, times, i);
      OnHandInRange(After(start, rule, times, i), rule, times[i]);
      BudgetGrows(rule, times[i], times[i], times[i]);
    } else {
      OneRequest(start, rule, times, i, j - 2);
      SpentPlusOnHand(start, rule, times, i, j - 1);
      RefillIsBounded(After(start, rule, times, j - 1).value, rule, times[j - 1]);
      BudgetGrows(rule, times[i], times[j - 2], times[j - 1]);
    }
  }

  lemma RefillIsBounded(row: Row, rule: Rule, now: int)
    requires rule.Valid()
    ensures OnHand(Some(row), rule, now) <= row.tokens + (now - row.updatedAt) as real * rule.Rate()
  {
  }

  lemma Elapse(a: int, b: int, c: int, r: real)
    ensures (b - a) as real * r + (c - b) as real * r == (c - a) as real * r
  {
    assert (c - a) as real == (b - a) as real + (c - b) as real;
  }

  /** In any span from the `i`-th to the `j`-th request, at most limit + T * limit / window pass. */
  lemma AllowedIsBounded(start: Option<Row>, rule: Rule, times: seq<int>, i: nat, j: nat)
    requires rule.Valid() && i < j <= |times| && Ascending(times) && InRange(start, rule)
    requires start.Some? ==> start.value.updatedAt <= times[0]
    ensures AllowedCount(start, rule, times, i, j) as real
            <= rule.limit as real + (times[j - 1] - times[i]) as real * rule.limit as real / rule.Window()
  {
    hide After, AllowedCount;
    SpentPlusOnHand(start, rule, times, i, j);
    RowsInRange(start, rule, times, j);
    Reassociate((times[j - 1] - times[i]) as real, rule.limit as real, rule.Window());
  }

  lemma Reassociate(x: real, a: real, b: real)
    requires b != 0.0
    ensures x * (a / b) == x * a / b
  {
  }

  /** Waiting until `resetAt` refills the bucket completely. */
  lemma ResetMeansFull(row: Option<Row>, rule: Rule, now: int, later: int)
    requires rule.Valid() && Answer(row, rule, now).resetAt <= later
    ensures OnHand(Some(Written(row, rule, now)), rule, later) == rule.limit as real
  {
    hide Ceil, OnHand;
    RefillsInTime(Remaining(row, rule, now), rule, now, later);
    FullOnHand(Written(row, rule, now), rule, later);
  }

  /** By the announced time the missing tokens have come in. */
  lemma RefillsInTime(tokens: real, rule: Rule, now: int, later: int)
    requires rule.Valid() && ResetAt(tokens, rule, now) <= later
    ensures rule.limit as real <= tokens + (later - now) as real * rule.Rate()
  {
    hide Ceil, Wait, Rule.Rate;
    RateIsPositive(rule);
    WaitIsOver(Wait(tokens, rule), now, later);
    WaitIsEnough(tokens, rule);
    MulMono(Wait(tokens, rule), (later - now) as real, rule.Rate());
  }

  lemma WaitIsEnough(tokens: real, rule: Rule)
    requires rule.Valid()
    ensures Wait(tokens, rule) * rule.Rate() == rule.limit as real - tokens
  {
    RefillTime(rule.limit as real - tokens, rule.limit as real, rule.Window());
  }

  lemma FullOnHand(row: Row, rule: Rule, now: int)
    requires rule.Valid() && rule.limit as real <= row.tokens + (now - row.updatedAt) as real * rule.Rate()
    ensures OnHand(Some(row), rule, now) == rule.limit as real
  {
    hide Rule.Rate;
  }

  lemma WaitIsOver(wait: real, now: int, later: int)
    requires now + Ceil(wait) <= later
    ensures wait <= (later - now) as real
  {
    assert (later - now) as real >= Ceil(wait) as real >= wait;
  }

  lemma RefillTime(missing: real, limit: real, window: real)
    requires 0.0 < limit && 0.0 < window
    ensures missing / limit * window * (limit / window) == missing
  {
    assert missing / limit * window == missing * (window / limit);
    assert (window / limit) * (limit / window) == 1.0;
  }

  lemma MulMono(x: real, y: real, r: real)
    requires x <= y && 0.0 <= r
    ensures x * r <= y * r
  {
  }

  /** And not a millisecond before: from the request on, the bucket is full exactly from `resetAt`. */
  lemma FullIffReset(row: Option<Row>, rule: Rule, now: int, later: int)
    requires rule.Valid() && InRange(row, rule) && (row.Some? ==> row.value.updatedAt <= now) && now <= later
    ensures OnHand(Some(Written(row, rule, now)), rule, later) == rule.limit as real
            <==> Answer(row, rule, now).resetAt <= later
  {
    hide Ceil, Rule.Rate, Wait, Refilled;
    OnHandInRange(row, rule, now);
    var tokens := Remaining(row, rule, now);
    if Answer(row, rule, now).resetAt <= later {
      ResetMeansFull(row, rule, now, later);
    } else {
      RateIsPositive(rule);
      TooEarly(Wait(tokens, rule), now, later);
      WaitIsEnough(tokens, rule);
      StrictScale((later - now) as real, Wait(tokens, rule), rule.Rate());
      NotFullYet(Written(row, rule, now), rule, later);
    }
  }

  lemma TooEarly(wait: real, now: int, later: int)
    requires later < now + Ceil(wait)
    ensures (later - now) as real < wait
  {
    assert Ceil(wait) as real < wait + 1.0;
    assert (later - now + 1) as real <= Ceil(wait) as real;
  }

  lemma NotFullYet(row: Row, rule: Rule, now: int)
    requires rule.Valid() && row.tokens + (now - row.updatedAt) as real * rule.Rate() < rule.limit as real
    ensures OnHand(Some(row), rule, now) < rule.limit as real
  {
  }

  /** A bucket refills at the limit per window, and no further than the limit. */
  lemma RefillsAtRate(row: Row, rule: Rule, now: int)
    requires rule.Valid()
    ensures var refilled := row.tokens + (now - row.updatedAt) as real * rule.limit as real
                                         / (rule.windowSeconds * 1000) as real;
      OnHand(Some(row), rule, now) == if refilled < rule.limit as real then refilled else rule.limit as real
  {
    Reassociate((now - row.updatedAt) as real, rule.limit as real, rule.Window());
  }

  // ---- What `remaining` promises -------------------------------------------------------------

  /** So many requests in one instant. */
  function AtOnce(now: int, n: nat): seq<int> {
    seq(n, i => now)
  }

  /** After `k` more of them, as long as they are allowed, `k` tokens fewer are left. */
  lemma {:induction false} TokensGoOneByOne(row: Row, rule: Rule, now: int, n: nat, k: nat)
    requires rule.Valid() && k <= n && 0.0 <= row.tokens <= rule.limit as real && row.updatedAt == now
    ensures var times, left := AtOnce(now, n), row.tokens.Floor;
      && After(Some(row), rule, times, k).Some?
      && var after := After(Some(row), rule, times, k).value;
         && after.updatedAt == now
         && after.tokens == row.tokens - (if k <= left then k else left) as real
  {
    hide Written, Rule.Rate;
    if k > 0 {
      TokensGoOneByOne(row, rule, now, n, k - 1);
      TakesIfWhole(After(Some(row), rule, AtOnce(now, n), k - 1).value, rule, now);
      FloorOfLess(row.tokens, if k - 1 <= row.tokens.Floor then k - 1 else row.tokens.Floor);
    }
  }

  /** At the same instant a request takes a token if there is a whole one. */
  lemma TakesIfWhole(row: Row, rule: Rule, now: int)
    requires rule.Valid() && row.updatedAt == now && row.tokens <= rule.limit as real
    ensures Written(Some(row), rule, now).updatedAt == now
    ensures Written(Some(row), rule, now).tokens == if row.tokens >= 1.0 then row.tokens - 1.0 else row.tokens
  {
    hide ResetAt, Refilled;
    SameInstant(row, rule, now);
  }

  lemma FloorOfLess(x: real, k: int)
    requires 0.0 <= x && 0 <= k <= x.Floor
    ensures x - k as real >= 1.0 <==> k + 1 <= x.Floor
  {
  }

  /**
   * What an answer calls remaining is how many more requests would be allowed at that very
   * instant: the next ones are allowed exactly up to that number.
   */
  lemma RemainingAreAllowed(row: Option<Row>, rule: Rule, now: int, n: nat, k: nat)
    requires rule.Valid() && InRange(row, rule) && (row.Some? ==> row.value.updatedAt <= now) && k < n
    ensures AllowedAt(Some(Written(row, rule, now)), rule, AtOnce(now, n), k) <==> k < Answer(row, rule, now).remaining
  {
    hide ResetAt, Rule.Rate, After, Refilled;
    OnHandInRange(row, rule, now);
    TokensGoOneByOne(Written(row, rule, now), rule, now, n, k);
    SameInstant(After(Some(Written(row, rule, now)), rule, AtOnce(now, n), k).value, rule, now);
    var left := Written(row, rule, now).tokens;
    FloorOfLess(left, if k <= left.Floor then k else left.Floor);
  }

  lemma SameInstant(row: Row, rule: Rule, now: int)
    requires rule.Valid() && row.updatedAt == now && row.tokens <= rule.limit as real
    ensures OnHand(Some(row), rule, now) == row.tokens
  {
    hide Rule.Rate;
  }

  /** A new bucket allows the whole limit at once and tells how much of it is left. */
  lemma NewBucketCounts(rule: Rule, now: int)
    requires rule.Valid()
    ensures Answer(None, rule, now).allowed && Answer(None, rule, now).remaining == rule.limit - 1
  {
    hide ResetAt;
  }

  // ---- The hourly sweep is invisible -------------------------------------------------------

  datatype Event = Request(key: int, rule: Rule, at: int) | Sweep(at: int)

  ghost predicate Timeline(events: seq<Event>) {
    && (forall i, j :: 0 <= i < j < |events| ==> events[i].at <= events[j].at)
    && (forall i :: 0 <= i < |events| && events[i].Request? ==> events[i].rule.Valid())
  }

  ghost predicate WithinTheHour(events: seq<Event>) {
    forall i :: 0 <= i < |events| && events[i].Request? ==> events[i].rule.windowSeconds <= 3600
  }

  /** The stored rows after `k` events, with the sweeps carried out or skipped. */
  ghost function Stored(events: seq<Event>, k: nat, sweeping: bool): map<int, Row>
    requires Timeline(events) && k <= |events|
  {
    if k == 0 then map[]
    else
      var before := Stored(events, k - 1, sweeping);
      match events[k - 1]
      case Request(key, rule, at) => before[key := Written(Lookup(before, key), rule, at)]
      case Sweep(at) => if sweeping then Swept(before, at) else before
  }

  /** The answer to the `k`-th event, a request. */
  ghost function AnswerTo(events: seq<Event>, k: nat, sweeping: bool): Response
    requires Timeline(events) && k < |events| && events[k].Request?
  {
    Answer(Lookup(Stored(events, k, sweeping), events[k].key), events[k].rule, events[k].at)
  }

  /** Swept rows were last touched more than an hour before `now`; the others agree. */
  ghost predicate Agree(swept: map<int, Row>, full: map<int, Row>, now: int) {
    && (forall k :: k in full ==> 0.0 <= full[k].tokens && full[k].updatedAt <= now)
    && (forall k :: k in swept ==> k in full && swept[k] == full[k])
    && (forall k :: k in full && k !in swept ==> full[k].updatedAt < now - SWEEP_AFTER)
  }

  /** A row untouched for an hour is as good as no row, for windows up to an hour. */
  lemma IdleRowIsFull(row: Row, rule: Rule, now: int)
    requires rule.Valid() && rule.windowSeconds <= 3600
    requires 0.0 <= row.tokens && row.updatedAt <= now - SWEEP_AFTER
    ensures OnHand(Some(row), rule, now) == OnHand(None, rule, now)
  {
    RateIsPositive(rule);
    MulMono(rule.Window(), (now - row.updatedAt) as real, rule.Rate());
  }

  lemma SameAnswers(swept: map<int, Row>, full: map<int, Row>, key: int, rule: Rule, now: int)
    requires rule.Valid() && rule.windowSeconds <= 3600 && Agree(swept, full, now)
    ensures OnHand(Lookup(swept, key), rule, now) == OnHand(Lookup(full, key), rule, now)
    ensures 0.0 <= OnHand(Lookup(full, key), rule, now)
  {
    RateIsPositive(rule);
    if key in full {
      ScaleNonNegative((now - full[key].updatedAt) as real, rule.Rate());
      if key !in swept {
        IdleRowIsFull(full[key], rule, now);
      }
    }
  }

  lemma {:induction false} StoredAgree(events: seq<Event>, k: nat, now: int)
    requires Timeline(events) && WithinTheHour(events) && k <= |events|
    requires forall i :: 0 <= i < k ==> events[i].at <= now
    ensures Agree(Stored(events, k, true), Stored(events, k, false), now)
    decreases k
  {
    if k > 0 {
      var e := events[k - 1];
      StoredAgree(events, k - 1, e.at);
      var swept, full := Stored(events, k - 1, true), Stored(events, k - 1, false);
      if e.Request? {
        SameAnswers(swept, full, e.key, e.rule, e.at);
        WrittenFrom(Lookup(swept, e.key), Lookup(full, e.key), e.rule, e.at);
      }
    }
  }

  lemma WrittenFrom(a: Option<Row>, b: Option<Row>, rule: Rule, now: int)
    requires rule.Valid() && OnHand(a, rule, now) == OnHand(b, rule, now) && 0.0 <= OnHand(b, rule, now)
    ensures Written(a, rule, now) == Written(b, rule, now) && Answer(a, rule, now) == Answer(b, rule, now)
    ensures 0.0 <= Written(b, rule, now).tokens && Written(b, rule, now).updatedAt == now
  {
  }

  /** For windows up to an hour every answer is the same with the sweeps as without. */
  lemma SweepsAreInvisible(events: seq<Event>, k: nat)
    requires Timeline(events) && WithinTheHour(events) && k < |events| && events[k].Request?
    ensures AnswerTo(events, k, true) == AnswerTo(events, k, false)
  {
    var e := events[k];
    StoredAgree(events, k, e.at);
    var swept, full := Stored(events, k, true), Stored(events, k, false);
    SameAnswers(swept, full, e.key, e.rule, e.at);
    WrittenFrom(Lookup(swept, e.key), Lookup(full, e.key), e.rule, e.at);
  }

  // ---- And visible for every longer window ----------------------------------------------------

  ghost predicate OnlyRule(events: seq<Event>, rule: Rule) {
    forall i :: 0 <= i < |events| && events[i].Request? ==> events[i].rule == rule
  }

  /** No sweep changes any answer given under this rule. */
  ghost predicate NeverShows(rule: Rule) {
    forall events: seq<Event>, k: nat :: Timeline(events) && OnlyRule(events, rule) && k < |events| ==>
      (events[k].Request? ==> AnswerTo(events, k, true) == AnswerTo(events, k, false))
  }

  const LATE := SWEEP_AFTER + 1

  /** The whole limit at once, then a sweep just over an hour later, then one more request. */
  function Exhausting(rule: Rule): seq<Event>
    requires 0 < rule.limit
  {
    seq(rule.limit + 2, i => if i < rule.limit then Request(7, rule, 0)
                             else if i == rule.limit then Sweep(LATE) else Request(7, rule, LATE))
  }

  lemma ExhaustingIsOrdered(rule: Rule)
    requires rule.Valid()
    ensures Timeline(Exhausting(rule)) && OnlyRule(Exhausting(rule), rule)
  {
  }

  /** The bucket of a key holds this many tokens, written at `at`; a full one may be missing. */
  ghost predicate Holding(row: Option<Row>, rule: Rule, tokens: int, at: int) {
    match row
    case None => tokens == rule.limit
    case Some(r) => r.tokens == tokens as real && r.updatedAt == at
  }

  lemma NewBucketIsFull(rule: Rule, at: int)
    ensures Holding(None, rule, rule.limit, at)
  {
  }

  /** One request at the same instant takes one token. */
  lemma TakesOne(row: Option<Row>, rule: Rule, tokens: int, at: int)
    requires rule.Valid() && 1 <= tokens <= rule.limit && Holding(row, rule, tokens, at)
    ensures Holding(Some(Written(row, rule, at)), rule, tokens - 1, at) && Answer(row, rule, at).allowed
  {
    hide Rule.Rate, ResetAt;
  }

  /** The whole limit in one instant, all of key 7, from the event `base` on. */
  ghost predicate Burst(events: seq<Event>, rule: Rule, base: nat, at: int) {
    && 0 < rule.limit && base + rule.limit <= |events|
    && forall x :: base <= x < base + rule.limit ==> events[x] == Request(7, rule, at)
  }

  /** A burst on a new bucket drains it, and every request of it is allowed. */
  lemma {:induction false} Drained(events: seq<Event>, rule: Rule, base: nat, at: int, k: nat, sweeping: bool)
    requires rule.Valid() && k <= rule.limit && Timeline(events) && Burst(events, rule, base, at)
    requires Lookup(Stored(events, base, sweeping), 7) == None
    ensures Holding(Lookup(Stored(events, base + k, sweeping), 7), rule, rule.limit - k, at)
    ensures 0 < k ==> Lookup(Stored(events, base + k, sweeping), 7).Some?
    ensures k < rule.limit ==> AnswerTo(events, base + k, sweeping).allowed
  {
    hide Written, Timeline, Answer, Holding;
    if k == 0 {
      NewBucketIsFull(rule, at);
    } else {
      Drained(events, rule, base, at, k - 1, sweeping);
      assert events[base + k - 1] == Request(7, rule, at);
      TakesOne(Lookup(Stored(events, base + k - 1, sweeping), 7), rule, rule.limit - k + 1, at);
    }
    if k < rule.limit {
      TakesOne(Lookup(Stored(events, base + k, sweeping), 7), rule, rule.limit - k, at);
    }
  }

  /** What the last request finds: a full bucket after the sweep, less than a full one without. */
  lemma LastFinds(rule: Rule)
    requires rule.Valid()
    ensures Timeline(Exhausting(rule)) && OnlyRule(Exhausting(rule), rule)
    ensures var n := rule.limit + 1;
      && Exhausting(rule)[n] == Request(7, rule, LATE)
      && Lookup(Stored(Exhausting(rule), n, true), 7) == None
      && Lookup(Stored(Exhausting(rule), n, false), 7).Some?
      && var row := Lookup(Stored(Exhausting(rule), n, false), 7).value;
         row.tokens == 0.0 && row.updatedAt == 0
  {
    hide Written;
    ExhaustingIsOrdered(rule);
    Drained(Exhausting(rule), rule, 0, 0, rule.limit, true);
    Drained(Exhausting(rule), rule, 0, 0, rule.limit, false);
    assert Exhausting(rule)[rule.limit] == Sweep(LATE);
  }

  lemma CancelRate(a: real, b: real, c: real, r: real)
    requires 0.0 < r && a * r - b * r == c * r
    ensures a - b == c
  {
    if a - b < c {
      StrictScale(a - b, c, r);
    } else if c < a - b {
      StrictScale(c, a - b, r);
    }
  }

  lemma StrictScale(x: real, y: real, r: real)
    requires x < y && 0.0 < r
    ensures x * r < y * r
  {
  }

  lemma LimitIsWindowTimesRate(rule: Rule)
    requires rule.Valid()
    ensures rule.Window() * rule.Rate() == rule.limit as real
  {
  }

  /** A bucket that was emptied an hour and a millisecond ago announces another reset than a new one. */
  lemma ResetsDiffer(rule: Rule, row: Row)
    requires rule.Valid() && rule.windowSeconds > 3600 && row.tokens == 0.0 && row.updatedAt == 0
    ensures Answer(None, rule, LATE) != Answer(Some(row), rule, LATE)
  {
    hide Rule.Rate, Wait, Ceil;
    var found := LATE as real * rule.Rate();
    RateIsPositive(rule);
    LimitIsWindowTimesRate(rule);
    assert LATE as real + 1.0 <= rule.Window();
    StrictScale(LATE as real, rule.Window(), rule.Rate());
    assert OnHand(Some(row), rule, LATE) == found < rule.limit as real;
    if found >= 1.0 {
      var a, b := Wait(found - 1.0, rule), Wait(rule.limit as real - 1.0, rule);
      WaitIsEnough(found - 1.0, rule);
      WaitIsEnough(rule.limit as real - 1.0, rule);
      assert rule.Window() * rule.Rate() - LATE as real * rule.Rate() == (rule.Window() - LATE as real) * rule.Rate();
      CancelRate(a, b, rule.Window() - LATE as real, rule.Rate());
      CeilsDiffer(a, b);
    }
  }

  lemma CeilsDiffer(a: real, b: real)
    requires b + 1.0 <= a
    ensures Ceil(b) < Ceil(a)
  {
  }

  /** For every rule: the sweep is invisible if and only if the window is at most an hour. */
  lemma SweepsAreInvisibleIff(rule: Rule)
    requires rule.Valid()
    ensures NeverShows(rule) <==> rule.windowSeconds <= 3600
  {
    hide Timeline, Stored, AnswerTo, Exhausting;
    if rule.windowSeconds <= 3600 {
      forall events: seq<Event>, k: nat | Timeline(events) && OnlyRule(events, rule) && k < |events|
        ensures events[k].Request? ==> AnswerTo(events, k, true) == AnswerTo(events, k, false)
      {
        if events[k].Request? {
          SweepsAreInvisible(events, k);
        }
      }
    } else {
      LongWindowsShowSweeps(rule);
      assert OnlyRule(Exhausting(rule), rule);
    }
  }

  lemma LongWindowsShowSweeps(rule: Rule)
    requires rule.Valid() && rule.windowSeconds > 3600
    ensures Timeline(Exhausting(rule)) && OnlyRule(Exhausting(rule), rule) && |Exhausting(rule)| == rule.limit + 2
    ensures Exhausting(rule)[rule.limit + 1].Request?
    ensures AnswerTo(Exhausting(rule), rule.limit + 1, true) != AnswerTo(Exhausting(rule), rule.limit + 1, false)
  {
    hide Stored, Answer;
    LastFinds(rule);
    ResetsDiffer(rule, Lookup(Stored(Exhausting(rule), rule.limit + 1, false), 7).value);
  }

  // ---- The rate with the sweep in it ---------------------------------------------------------

  /** The requests of one key all come under one rule; other keys may have any. */
  ghost predicate KeyHasRule(events: seq<Event>, key: int, rule: Rule) {
    forall i :: 0 <= i < |events| && events[i].Request? && events[i].key == key ==> events[i].rule == rule
  }

  /** How many of the events `i` up to, not including, `j` are allowed requests of this key. */
  ghost function AllowedIn(events: seq<Event>, key: int, i: nat, j: nat): nat
    requires Timeline(events) && i <= j <= |events|
  {
    if i == j then 0
    else
      var e := events[j - 1];
      AllowedIn(events, key, i, j - 1)
      + if e.Request? && e.key == key && AnswerTo(events, j - 1, true).allowed then 1 else 0
  }

  /** From the `i`-th event to the one before the `j`-th, at most limit + T * limit / window. */
  ghost predicate RateKept(events: seq<Event>, key: int, rule: Rule, i: nat, j: nat)
    requires rule.Valid() && Timeline(events) && i < j <= |events|
  {
    AllowedIn(events, key, i, j) as real
    <= rule.limit as real + (events[j - 1].at - events[i].at) as real * rule.limit as real / rule.Window()
  }

  ghost predicate RateHolds(rule: Rule)
    requires rule.Valid()
  {
    forall events: seq<Event>, key: int, i: nat, j: nat ::
      Timeline(events) && KeyHasRule(events, key, rule) && i < j <= |events| ==> RateKept(events, key, rule, i, j)
  }

  ghost predicate RowFits(row: Option<Row>, rule: Rule, now: int) {
    InRange(row, rule) && (row.Some? ==> row.value.updatedAt <= now)
  }

  /** Time alone brings in no more than the refill. */
  lemma Waits(row: Option<Row>, rule: Rule, now: int, later: int)
    requires rule.Valid() && now <= later
    ensures OnHand(row, rule, later) <= OnHand(row, rule, now) + (later - now) as real * rule.Rate()
  {
    RateIsPositive(rule);
    ScaleNonNegative((later - now) as real, rule.Rate());
    if row.Some? {
      Elapse(row.value.updatedAt, now, later, rule.Rate());
    }
  }

  /** One event and the bucket of one key: what is on hand right after it, and what it took. */
  lemma OneEvent(events: seq<Event>, key: int, rule: Rule, j: nat)
    requires rule.Valid() && rule.windowSeconds <= 3600 && Timeline(events) && KeyHasRule(events, key, rule)
    requires j < |events| && RowFits(Lookup(Stored(events, j, true), key), rule, events[j].at)
    ensures var before, after := Lookup(Stored(events, j, true), key), Lookup(Stored(events, j + 1, true), key);
      && RowFits(after, rule, events[j].at)
      && 0.0 <= OnHand(after, rule, events[j].at)
      && AllowedIn(events, key, j, j + 1) as real + OnHand(after, rule, events[j].at)
         == OnHand(before, rule, events[j].at)
  {
    hide ResetAt, Rule.Rate, Refilled;
    var e, before := events[j], Lookup(Stored(events, j, true), key);
    OnHandInRange(before, rule, e.at);
    assert AllowedIn(events, key, j, j) == 0;
    if e.Request? && e.key == key {
      assert e.rule == rule;
      JustWritten(before, rule, e.at);
    } else if e.Sweep? && before.Some? && before.value.updatedAt < e.at - SWEEP_AFTER {
      IdleRowIsFull(before.value, rule, e.at);
    }
  }

  lemma JustWritten(row: Option<Row>, rule: Rule, now: int)
    requires rule.Valid() && 0.0 <= OnHand(row, rule, now) <= rule.limit as real
    ensures OnHand(Some(Written(row, rule, now)), rule, now) == Remaining(row, rule, now)
    ensures 0.0 <= Remaining(row, rule, now) <= rule.limit as real && Written(row, rule, now).updatedAt == now
    ensures Remaining(row, rule, now) == OnHand(row, rule, now) - if Answer(row, rule, now).allowed then 1.0 else 0.0
  {
    hide ResetAt, Rule.Rate;
  }

  lemma {:induction false} AllowedSplits(events: seq<Event>, key: int, i: nat, j: nat)
    requires Timeline(events) && i <= j < |events|
    ensures AllowedIn(events, key, i, j + 1) == AllowedIn(events, key, i, j) + AllowedIn(events, key, j, j + 1)
  {
    assert AllowedIn(events, key, j, j) == 0;
  }

  /** Tokens on hand plus requests allowed since `i` grow no faster than the refill, sweeps and all. */
  lemma {:induction false} SpentThroughSweeps(events: seq<Event>, key: int, rule: Rule, i: nat, j: nat)
    requires rule.Valid() && rule.windowSeconds <= 3600 && Timeline(events) && KeyHasRule(events, key, rule)
    requires i < j <= |events|
    ensures var row, now := Lookup(Stored(events, j, true), key), events[j - 1].at;
      && RowFits(row, rule, now) && 0.0 <= OnHand(row, rule, now)
      && AllowedIn(events, key, i, j) as real + OnHand(row, rule, now) <= Budget(rule, events[i].at, now)
    decreases j
  {
    hide OnHand, AllowedIn, Stored, Rule.Rate, Budget, RowFits, Timeline, KeyHasRule;
    var row, now := Lookup(Stored(events, j - 1, true), key), events[j - 1].at;
    RowsFit(events, key, rule, j - 1);
    OneEvent(events, key, rule, j - 1);
    AllowedSplits(events, key, i, j - 1);
    BudgetGrows(rule, events[i].at, events[i].at, now);
    if j - 1 == i {
      AtMostFull(row, rule, now);
      NoneYet(events, key, i);
      BudgetGrows(rule, now, now, now);
    } else {
      TimesAscend(events, j - 2, j - 1);
      SpentThroughSweeps(events, key, rule, i, j - 1);
      Waits(row, rule, events[j - 2].at, now);
      BudgetGrows(rule, events[i].at, events[j - 2].at, now);
    }
  }

  lemma NoneYet(events: seq<Event>, key: int, i: nat)
    requires Timeline(events) && i <= |events|
    ensures AllowedIn(events, key, i, i) == 0
  {
  }

  lemma TimesAscend(events: seq<Event>, i: nat, j: nat)
    requires Timeline(events) && i <= j < |events|
    ensures events[i].at <= events[j].at
  {
  }

  lemma AtMostFull(row: Option<Row>, rule: Rule, now: int)
    requires rule.Valid()
    ensures OnHand(row, rule, now) <= rule.limit as real
  {
  }

  lemma {:induction false} RowsFit(events: seq<Event>, key: int, rule: Rule, j: nat)
    requires rule.Valid() && rule.windowSeconds <= 3600 && Timeline(events) && KeyHasRule(events, key, rule)
    requires j < |events|
    ensures RowFits(Lookup(Stored(events, j, true), key), rule, events[j].at)
  {
    hide Written, Answer, KeyHasRule;
    if j > 0 {
      RowsFit(events, key, rule, j - 1);
      OneEvent(events, key, rule, j - 1);
    }
  }

  /** The whole limit, a sweep just over an hour later, and the whole limit again. */
  function TwoBursts(rule: Rule): seq<Event>
    requires 0 < rule.limit
  {
    seq(2 * rule.limit + 1, i => if i < rule.limit then Request(7, rule, 0)
                                 else if i == rule.limit then Sweep(LATE) else Request(7, rule, LATE))
  }

  lemma {:induction false} BurstIsAllowed(events: seq<Event>, rule: Rule, base: nat, at: int, k: nat, i: nat)
    requires rule.Valid() && k <= rule.limit && Timeline(events) && Burst(events, rule, base, at) && i <= base
    requires Lookup(Stored(events, base, true), 7) == None
    ensures AllowedIn(events, 7, i, base + k) == AllowedIn(events, 7, i, base) + k
    decreases k
  {
    hide AnswerTo, Timeline;
    if k > 0 {
      BurstIsAllowed(events, rule, base, at, k - 1, i);
      Drained(events, rule, base, at, k - 1, true);
      assert events[base + k - 1] == Request(7, rule, at);
    }
  }

  /** Twice the limit within an hour and a millisecond. */
  lemma TwiceTheLimit(rule: Rule)
    requires rule.Valid()
    ensures Timeline(TwoBursts(rule)) && KeyHasRule(TwoBursts(rule), 7, rule) && |TwoBursts(rule)| == 2 * rule.limit + 1
    ensures TwoBursts(rule)[0].at == 0 && TwoBursts(rule)[2 * rule.limit].at == LATE
    ensures AllowedIn(TwoBursts(rule), 7, 0, 2 * rule.limit + 1) == 2 * rule.limit
  {
    hide AnswerTo, Written;
    var events, n := TwoBursts(rule), rule.limit;
    BurstIsAllowed(events, rule, 0, 0, n, 0);
    Drained(events, rule, 0, 0, n, true);
    assert events[n] == Sweep(LATE);
    assert Lookup(Stored(events, n + 1, true), 7) == None;
    assert AllowedIn(events, 7, 0, n + 1) == AllowedIn(events, 7, 0, n);
    BurstIsAllowed(events, rule, n + 1, LATE, n, 0);
  }

  lemma LongWindowsBreakTheRate(rule: Rule)
    requires rule.Valid() && rule.windowSeconds > 3600
    ensures Timeline(TwoBursts(rule)) && KeyHasRule(TwoBursts(rule), 7, rule) && |TwoBursts(rule)| == 2 * rule.limit + 1
    ensures !RateKept(TwoBursts(rule), 7, rule, 0, 2 * rule.limit + 1)
  {
    hide Timeline, KeyHasRule, AllowedIn, TwoBursts;
    TwiceTheLimit(rule);
    LateRefill(rule);
  }

  /** What comes in until the sweep is less than the limit. */
  lemma LateRefill(rule: Rule)
    requires rule.Valid() && rule.windowSeconds > 3600
    ensures LATE as real * rule.limit as real / rule.Window() < rule.limit as real
  {
    hide Rule.Window;
    LateWindow(rule);
    RateIsPositive(rule);
    Reassociate(LATE as real, rule.limit as real, rule.Window());
    StrictScale(LATE as real, rule.Window(), rule.Rate());
  }

  lemma LateWindow(rule: Rule)
    requires rule.windowSeconds > 3600
    ensures (LATE as real) < rule.Window()
  {
  }

  /**
   * The limiter as it runs, sweeps included, keeps to its rate in every span of every
   * timeline, whatever other keys do, if and only if the window is at most an hour.
   */
  lemma RateHoldsIff(rule: Rule)
    requires rule.Valid()
    ensures RateHolds(rule) <==> rule.windowSeconds <= 3600
  {
    hide Timeline, KeyHasRule, RateKept, TwoBursts;
    if rule.windowSeconds <= 3600 {
      forall events: seq<Event>, key: int, i: nat, j: nat
        | Timeline(events) && KeyHasRule(events, key, rule) && i < j <= |events|
        ensures RateKept(events, key, rule, i, j)
      {
        RateThroughSweeps(events, key, rule, i, j);
      }
    } else {
      LongWindowsBreakTheRate(rule);
    }
  }

  lemma RateThroughSweeps(events: seq<Event>, key: int, rule: Rule, i: nat, j: nat)
    requires rule.Valid() && rule.windowSeconds <= 3600 && Timeline(events) && KeyHasRule(events, key, rule)
    requires i < j <= |events|
    ensures RateKept(events, key, rule, i, j)
  {
    hide Timeline, KeyHasRule, AllowedIn, OnHand, Stored;
    SpentThroughSweeps(events, key, rule, i, j);
    Reassociate((events[j - 1].at - events[i].at) as real, rule.limit as real, rule.Window());
  }
}
