/**
 * Ordered leases for collective bookings (src/adapters/coordinator.ts, book and
 * lease): every attempt walks its hosts in ascending id order, one lease per host.
 */
module Leases {
  import opened Common
  import opened HostCalendar

  /**
   * An attempt: its hosts in ascending order, how many it has acquired, and the
   * leases it still relies on with the expiry each was granted.
   */
  datatype Party = Party(hosts: seq<int>, acquired: nat, held: map<int, int>, refused: bool)

  /** Party ids double as lease ids; `leases` is the lease row of each host's object. */
  datatype State = State(leases: map<int, Lease>, clock: int, parties: map<int, Party>)

  function LeaseOf(s: State, host: int): Option<Lease> {
    if host in s.leases then Some(s.leases[host]) else None
  }

  predicate HasAll(p: Party) {
    p.acquired == |p.hosts|
  }

  predicate Climbing(s: State, p: int) {
    p in s.parties && !s.parties[p].refused && s.parties[p].acquired < |s.parties[p].hosts|
  }

  function NextHost(s: State, p: int): int
    requires Climbing(s, p)
  {
    s.parties[p].hosts[s.parties[p].acquired]
  }

  datatype Action =
    | Tick(clock: int)
    | Start(p: int, hosts: seq<int>)
    | Acquire(p: int, ttl: int)
    | Release(p: int, host: int, delivered: bool)
    | Expire(host: int)

  ghost predicate Enabled(s: State, action: Action) {
    match action
    case Tick(clock) => s.clock <= clock
    case Start(p, hosts) => p !in s.parties && hosts != [] && StrictlySorted(hosts)
    case Acquire(p, _) => Climbing(s, p)
    case Release(p, host, _) => p in s.parties && host in s.parties[p].held
    case Expire(host) => host in s.leases && s.leases[host].expiresAt <= s.clock
  }

  /** A refused attempt stops; a lost release call leaves the row to expire. */
  ghost function Next(s: State, action: Action): State
    requires Enabled(s, action)
  {
    match action
    case Tick(clock) => s.(clock := clock)
    case Start(p, hosts) => s.(parties := s.parties[p := Party(hosts, 0, map[], false)])
    case Acquire(p, ttl) =>
      var x, host := s.parties[p], NextHost(s, p);
      if LeasedToOther(LeaseOf(s, host), p, s.clock) then s.(parties := s.parties[p := x.(refused := true)])
      else
        var lease := LeaseFor(p, s.clock, ttl);
        s.(leases := s.leases[host := lease],
           parties := s.parties[p := x.(acquired := x.acquired + 1, held := x.held[host := lease.expiresAt])])
    case Release(p, host, delivered) =>
      var x := s.parties[p];
      s.(leases := if delivered && LeaseWithout(LeaseOf(s, host), p).None? then s.leases - {host} else s.leases,
         parties := s.parties[p := x.(held := x.held - {host})])
    case Expire(host) => s.(leases := s.leases - {host})
  }

  ghost predicate Run(states: seq<State>, actions: seq<Action>) {
    && |states| == |actions| + 1
    && states[0].leases == map[] && states[0].parties == map[]
    && forall i :: 0 <= i < |actions| ==> Enabled(states[i], actions[i]) && states[i + 1] == Next(states[i], actions[i])
  }

  // ---- The invariant ---------------------------------------------------------------------

  /** Attempt `p` relies on a lease on `host` that has not run out. */
  predicate Relies(s: State, p: int, host: int) {
    p in s.parties && host in s.parties[p].held && s.clock < s.parties[p].held[host]
  }

  /** Attempt `p` acquired `host` at some point. */
  ghost predicate Passed(s: State, p: int, host: int) {
    && p in s.parties && s.parties[p].acquired <= |s.parties[p].hosts|
    && exists i :: 0 <= i < s.parties[p].acquired && s.parties[p].hosts[i] == host
  }

  ghost predicate WellFormed(s: State) {
    forall p :: p in s.parties ==>
      && s.parties[p].acquired <= |s.parties[p].hosts| && StrictlySorted(s.parties[p].hosts)
      && s.parties[p].hosts != []
      && (s.parties[p].refused ==> s.parties[p].acquired < |s.parties[p].hosts|)
  }

  predicate RefusedAt(s: State, p: int, host: int) {
    && p in s.parties && s.parties[p].refused && s.parties[p].acquired < |s.parties[p].hosts|
    && s.parties[p].hosts[s.parties[p].acquired] == host
  }

  ghost predicate Inv(s: State) {
    && WellFormed(s)
    && (forall p, host :: Relies(s, p, host) ==>
          host in s.leases && s.leases[host] == Lease(p, s.parties[p].held[host]))
    && (forall p, host :: p in s.parties && host in s.parties[p].held ==> Passed(s, p, host))
    && (forall host :: host in s.leases ==> Passed(s, s.leases[host].leaseId, host))
    && (forall p, host :: RefusedAt(s, p, host) ==> SomeonePassed(s, host))
  }

  ghost predicate SomeonePassed(s: State, host: int) {
    exists q :: Passed(s, q, host)
  }

  /** Acquired hosts stay acquired. */
  lemma PassedStays(s: State, action: Action)
    requires WellFormed(s) && Enabled(s, action)
    ensures forall p, host :: Passed(s, p, host) ==> Passed(Next(s, action), p, host)
    ensures forall host :: SomeonePassed(s, host) ==> SomeonePassed(Next(s, action), host)
  {
    var t := Next(s, action);
    forall p, host | Passed(s, p, host) ensures Passed(t, p, host) {
      var i :| 0 <= i < s.parties[p].acquired && s.parties[p].hosts[i] == host;
      assert t.parties[p].hosts[i] == host;
    }
  }

  lemma StepKeepsInv(s: State, action: Action)
    requires Inv(s) && Enabled(s, action)
    ensures Inv(Next(s, action))
  {
    PassedStays(s, action);
    match action
    case Acquire(p, ttl) =>
      if LeasedToOther(LeaseOf(s, NextHost(s, p)), p, s.clock) {
        RefusalKeepsInv(s, p, ttl);
      } else {
        GrantKeepsInv(s, p, ttl);
      }
    case Release(p, host, delivered) => ReleaseKeepsInv(s, p, host, delivered);
    case Tick(clock) => SameTablesKeepInv(s, action);
    case Expire(host) => SameTablesKeepInv(s, action);
    case Start(p, hosts) => StartKeepsInv(s, p, hosts);
  }

  lemma SameTablesKeepInv(s: State, action: Action)
    requires Inv(s) && Enabled(s, action) && (action.Tick? || action.Expire?)
    ensures Inv(Next(s, action))
  {
    hide Passed;
    PassedStays(s, action);
    var t := Next(s, action);
    forall p, host | Relies(t, p, host)
      ensures host in t.leases && t.leases[host] == Lease(p, t.parties[p].held[host])
    {
      assert Relies(s, p, host);
    }
    forall p, host | RefusedAt(t, p, host) ensures SomeonePassed(t, host) {
      assert RefusedAt(s, p, host);
    }
  }

  lemma StartKeepsInv(s: State, p: int, hosts: seq<int>)
    requires Inv(s) && Enabled(s, Start(p, hosts))
    ensures Inv(Next(s, Start(p, hosts)))
  {
    hide Passed;
    var t := Next(s, Start(p, hosts));
    PassedStays(s, Start(p, hosts));
    forall q, host | Relies(t, q, host)
      ensures host in t.leases && t.leases[host] == Lease(q, t.parties[q].held[host])
    {
      assert Relies(s, q, host);
    }
    forall q, host | RefusedAt(t, q, host) ensures SomeonePassed(t, host) {
      assert RefusedAt(s, q, host);
    }
  }

  lemma RefusalKeepsInv(s: State, p: int, ttl: int)
    requires Inv(s) && Enabled(s, Acquire(p, ttl)) && LeasedToOther(LeaseOf(s, NextHost(s, p)), p, s.clock)
    ensures Inv(Next(s, Acquire(p, ttl)))
  {
    hide Passed;
    var t, r := Next(s, Acquire(p, ttl)), NextHost(s, p);
    PassedStays(s, Acquire(p, ttl));
    assert Passed(s, s.leases[r].leaseId, r);
    forall q, host | Relies(t, q, host)
      ensures host in t.leases && t.leases[host] == Lease(q, t.parties[q].held[host])
    {
      assert Relies(s, q, host);
    }
    forall q, host | RefusedAt(t, q, host) ensures SomeonePassed(t, host) {
      if q == p {
        assert host == r;
      } else {
        assert RefusedAt(s, q, host);
      }
    }
  }

  lemma GrantKeepsInv(s: State, p: int, ttl: int)
    requires Inv(s) && Enabled(s, Acquire(p, ttl)) && !LeasedToOther(LeaseOf(s, NextHost(s, p)), p, s.clock)
    ensures Inv(Next(s, Acquire(p, ttl)))
  {
    var t, r := Next(s, Acquire(p, ttl)), NextHost(s, p);
    PassedStays(s, Acquire(p, ttl));
    assert t.parties[p].hosts[s.parties[p].acquired] == r;
    assert Passed(t, p, r);
    hide Passed;
    forall q, host | Relies(t, q, host)
      ensures host in t.leases && t.leases[host] == Lease(q, t.parties[q].held[host])
    {
      if host != r || q != p {
        assert Relies(s, q, host);
      }
    }
    forall q, host | q in t.parties && host in t.parties[q].held ensures Passed(t, q, host) {
      if host != r || q != p {
        assert Passed(s, q, host);
      }
    }
    forall host | host in t.leases ensures Passed(t, t.leases[host].leaseId, host) {
      if host != r {
        assert Passed(s, s.leases[host].leaseId, host);
      }
    }
    forall q, host | RefusedAt(t, q, host) ensures SomeonePassed(t, host) {
      assert RefusedAt(s, q, host);
    }
  }

  lemma ReleaseKeepsInv(s: State, p: int, host: int, delivered: bool)
    requires Inv(s) && Enabled(s, Release(p, host, delivered))
    ensures Inv(Next(s, Release(p, host, delivered)))
  {
    hide Passed;
    var t := Next(s, Release(p, host, delivered));
    PassedStays(s, Release(p, host, delivered));
    forall q, h | Relies(t, q, h) ensures h in t.leases && t.leases[h] == Lease(q, t.parties[q].held[h]) {
      assert Relies(s, q, h);
    }
    forall q, h | RefusedAt(t, q, h) ensures SomeonePassed(t, h) {
      assert RefusedAt(s, q, h);
    }
  }

  lemma {:induction false} RunKeepsInv(states: seq<State>, actions: seq<Action>, i: nat)
    requires Run(states, actions) && i < |states|
    ensures Inv(states[i])
  {
    hide Next, Enabled;
    if i > 0 {
      hide Inv;
      RunKeepsInv(states, actions, i - 1);
      StepKeepsInv(states[i - 1], actions[i - 1]);
    }
  }

  // ---- Exclusion and progress ------------------------------------------------------------

  /** Two attempts never both rely on an unexpired lease on one host. */
  lemma LeasesExclude(states: seq<State>, actions: seq<Action>, i: nat, p: int, q: int, host: int)
    requires Run(states, actions) && i < |states|
    requires Relies(states[i], p, host) && Relies(states[i], q, host)
    ensures p == q
  {
    RunKeepsInv(states, actions, i);
  }

  /** The attempt that holds the highest leased host is never refused its next one. */
  lemma HighestHolderAdvances(s: State, p: int, ttl: int)
    requires Inv(s) && Climbing(s, p) && 0 < s.parties[p].acquired
    requires forall h :: h in s.leases && s.clock < s.leases[h].expiresAt ==>
               h <= s.parties[p].hosts[s.parties[p].acquired - 1]
    ensures !Next(s, Acquire(p, ttl)).parties[p].refused
    ensures Next(s, Acquire(p, ttl)).parties[p].acquired == s.parties[p].acquired + 1
  {
  }

  /** From a refused attempt, whoever passed that host was refused higher up or has everything. */
  lemma {:induction false} FollowTheBlocker(s: State, p: int, host: int) returns (winner: int)
    requires Inv(s) && (forall q :: !Climbing(s, q)) && RefusedAt(s, p, host)
    ensures winner in s.parties && HasAll(s.parties[winner])
    decreases set q, h | q in s.parties && h in s.parties[q].hosts && RefusedAt(s, q, h) && h > host :: (q, h)
  {
    assert SomeonePassed(s, host);
    var q :| Passed(s, q, host);
    if HasAll(s.parties[q]) {
      winner := q;
    } else {
      var x := s.parties[q];
      assert !Climbing(s, q);
      var next := x.hosts[x.acquired];
      assert RefusedAt(s, q, next) && next > host;
      var above := set q, h | q in s.parties && h in s.parties[q].hosts && RefusedAt(s, q, h) && h > host :: (q, h);
      var higher := set q, h | q in s.parties && h in s.parties[q].hosts && RefusedAt(s, q, h) && h > next :: (q, h);
      assert (q, next) in above && (q, next) !in higher && higher <= above;
      winner := FollowTheBlocker(s, q, next);
    }
  }

  /** No deadlock: when every attempt has stopped, at least one acquired all its hosts. */
  lemma SomeoneAcquiresEverything(states: seq<State>, actions: seq<Action>, i: nat) returns (winner: int)
    requires Run(states, actions) && i < |states|
    requires states[i].parties != map[] && forall p :: !Climbing(states[i], p)
    ensures winner in states[i].parties && HasAll(states[i].parties[winner])
  {
    RunKeepsInv(states, actions, i);
    var s := states[i];
    assert s.parties.Keys != {};
    EmptyOrMember(s.parties.Keys);
    var p :| p in s.parties;
    if HasAll(s.parties[p]) {
      winner := p;
    } else {
      assert !Climbing(s, p);
      winner := FollowTheBlocker(s, p, s.parties[p].hosts[s.parties[p].acquired]);
    }
  }

  // ---- How long an attempt can rely on a lease ------------------------------------------------

  /** After a grant: the attempt remembers the lease and has gone past that host. */
  ghost predicate HeldSince(s: State, p: int, host: int, until: int) {
    && p in s.parties && host in s.parties[p].held && s.parties[p].held[host] == until
    && exists i :: 0 <= i < s.parties[p].acquired <= |s.parties[p].hosts| && s.parties[p].hosts[i] == host
  }

  lemma StepKeepsHeld(s: State, action: Action, p: int, host: int, until: int)
    requires WellFormed(s) && Enabled(s, action) && HeldSince(s, p, host, until)
    requires !(action.Release? && action.p == p && action.host == host)
    ensures HeldSince(Next(s, action), p, host, until)
  {
    var t := Next(s, action);
    var i :| 0 <= i < s.parties[p].acquired && s.parties[p].hosts[i] == host;
    assert t.parties[p].hosts[i] == host;
  }

  lemma {:induction false} HeldUntilReleased(
    states: seq<State>, actions: seq<Action>, i: nat, j: nat, p: int, host: int, until: int)
    requires Run(states, actions) && i <= j < |states| && HeldSince(states[i], p, host, until)
    requires forall m :: i <= m < j ==> !(actions[m].Release? && actions[m].p == p && actions[m].host == host)
    ensures HeldSince(states[j], p, host, until)
    decreases j
  {
    hide Next, Enabled, HeldSince, Inv;
    if i < j {
      HeldUntilReleased(states, actions, i, j - 1, p, host, until);
      RunKeepsInv(states, actions, j - 1);
      InvIsWellFormed(states[j - 1]);
      StepKeepsHeld(states[j - 1], actions[j - 1], p, host, until);
    }
  }

  lemma InvIsWellFormed(s: State)
    requires Inv(s)
    ensures WellFormed(s)
  {
  }

  /** The `i`-th step grants `p` the lease on its next host. */
  ghost predicate Grants(states: seq<State>, actions: seq<Action>, i: nat, p: int, host: int)
    requires Run(states, actions) && i < |actions|
  {
    && actions[i].Acquire? && actions[i].p == p && Climbing(states[i], p) && NextHost(states[i], p) == host
    && p in states[i + 1].parties && !states[i + 1].parties[p].refused
  }

  /** Its own lifetime from the grant, at most a minute. */
  function Lifetime(action: Action): int
    requires action.Acquire?
  {
    if action.ttl < 60_000 then action.ttl else 60_000
  }

  lemma GrantHolds(states: seq<State>, actions: seq<Action>, i: nat, p: int, host: int)
    requires Run(states, actions) && i < |actions| && Grants(states, actions, i, p, host)
    ensures HeldSince(states[i + 1], p, host, states[i].clock + Lifetime(actions[i]))
  {
    RunKeepsInv(states, actions, i);
    assert Enabled(states[i], actions[i]) && states[i + 1] == Next(states[i], actions[i]);
    var x := states[i + 1].parties[p];
    assert x.hosts[states[i].parties[p].acquired] == host;
  }

  /**
   * A lease that was granted is in force for its whole lifetime, unless it is given back:
   * the attempt relies on it, the row is its own, and everybody else who comes to that host
   * is refused.
   */
  lemma GrantedLeaseIsInForce(
    states: seq<State>, actions: seq<Action>, i: nat, j: nat, p: int, host: int, q: int, ttl: int)
    requires Run(states, actions) && i < j < |states| && Grants(states, actions, i, p, host)
    requires forall m :: i < m < j ==> !(actions[m].Release? && actions[m].p == p && actions[m].host == host)
    requires states[j].clock < states[i].clock + Lifetime(actions[i])
    ensures Relies(states[j], p, host)
    ensures host in states[j].leases && states[j].leases[host].leaseId == p
    ensures q != p && Climbing(states[j], q) && NextHost(states[j], q) == host ==>
              Next(states[j], Acquire(q, ttl)).parties[q].refused
  {
    hide HeldSince, Enabled, Next, Inv, Relies;
    GrantHolds(states, actions, i, p, host);
    HeldUntilReleased(states, actions, i + 1, j, p, host, states[i].clock + Lifetime(actions[i]));
    RunKeepsInv(states, actions, j);
    HeldIsRelied(states[j], p, host, states[i].clock + Lifetime(actions[i]), q, ttl);
  }

  lemma HeldIsRelied(s: State, p: int, host: int, until: int, q: int, ttl: int)
    requires Inv(s) && HeldSince(s, p, host, until) && s.clock < until
    ensures Relies(s, p, host) && host in s.leases && s.leases[host].leaseId == p
    ensures q != p && Climbing(s, q) && NextHost(s, q) == host ==> Next(s, Acquire(q, ttl)).parties[q].refused
  {
  }
}
