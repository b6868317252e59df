/**
 * The leases one request takes and gives back (`Desk.AcquireAll` and `Desk.ReleaseAll`)
 * are steps of the lease machine, so what is proved of its runs holds of requests.
 */
module LeaseWalk {
  import opened Common
  import opened HostCalendar
  import opened Leases
  import opened Coordinator
  import opened Domain
  import opened SlotEngine

  /** The lease rows of these hosts, as the calendars hold them. */
  function RowsOf(s: Leases.State, hosts: set<int>): map<int, Option<Lease>> {
    map h | h in hosts :: LeaseOf(s, h)
  }

  /** Consecutive steps from `states[0]` to the last state. */
  ghost predicate Steps(states: seq<Leases.State>, actions: seq<Leases.Action>) {
    && |states| == |actions| + 1
    && forall i :: 0 <= i < |actions| ==>
         Leases.Enabled(states[i], actions[i]) && states[i + 1] == Leases.Next(states[i], actions[i])
  }

  lemma OneMoreStep(states: seq<Leases.State>, actions: seq<Leases.Action>, action: Leases.Action)
    requires Steps(states, actions) && Leases.Enabled(states[|actions|], action)
    ensures Steps(states + [Leases.Next(states[|actions|], action)], actions + [action])
  {
    hide Leases.Enabled, Leases.Next;
  }

  /** The machine's runs go on with such steps. */
  lemma RunGoesOn(
    before: seq<Leases.State>, done: seq<Leases.Action>, states: seq<Leases.State>, actions: seq<Leases.Action>)
    requires Leases.Run(before, done) && Steps(states, actions) && states[0] == before[|done|]
    ensures Leases.Run(before[..|done|] + states, done + actions)
  {
    hide Leases.Enabled, Leases.Next;
    var all, acts := before[..|done|] + states, done + actions;
    forall i | 0 <= i < |acts| ensures Leases.Enabled(all[i], acts[i]) && all[i + 1] == Leases.Next(all[i], acts[i]) {
      if i < |done| {
        assert all[i] == before[i] && all[i + 1] == before[i + 1];
      } else {
        assert all[i] == states[i - |done|] && all[i + 1] == states[i - |done| + 1];
      }
    }
  }

  /** After `n` leases: what the party holds and what the rows are. */
  ghost predicate Climbed(s: Leases.State, t: Leases.State, p: int, ordered: seq<int>, n: nat, hosts: set<int>)
    requires n <= |ordered|
  {
    && t.clock == s.clock && p in t.parties
    && t.parties[p].hosts == ordered && t.parties[p].acquired == n && !t.parties[p].refused
    && (forall h :: h in t.parties[p].held <==> h in ordered[..n])
    && RowsOf(t, hosts) == LeasesTaken(RowsOf(s, hosts), ordered[..n], p, s.clock)
  }

  lemma {:induction false} Climb(s: Leases.State, p: int, ordered: seq<int>, n: nat, hosts: set<int>)
    returns (states: seq<Leases.State>, actions: seq<Leases.Action>)
    requires p !in s.parties && ordered != [] && StrictlySorted(ordered) && n <= |ordered|
    requires forall h :: h in ordered ==> h in hosts
    requires forall i :: 0 <= i < n ==> !LeasedToOther(LeaseOf(s, ordered[i]), p, s.clock)
    ensures Steps(states, actions) && states[0] == s && Climbed(s, states[|actions|], p, ordered, n, hosts)
  {
    hide Climbed;
    if n == 0 {
      var t := Leases.Next(s, Leases.Start(p, ordered));
      states, actions := [s, t], [Leases.Start(p, ordered)];
      Started(s, p, ordered, hosts);
    } else {
      states, actions := Climb(s, p, ordered, n - 1, hosts);
      var t := states[|actions|];
      OneLeaseMore(s, t, p, ordered, n - 1, hosts);
      OneMoreStep(states, actions, Leases.Acquire(p, LEASE_TTL_MS));
      states, actions := states + [Leases.Next(t, Leases.Acquire(p, LEASE_TTL_MS))],
                         actions + [Leases.Acquire(p, LEASE_TTL_MS)];
    }
  }

  lemma Started(s: Leases.State, p: int, ordered: seq<int>, hosts: set<int>)
    requires p !in s.parties && ordered != [] && StrictlySorted(ordered)
    ensures Climbed(s, Leases.Next(s, Leases.Start(p, ordered)), p, ordered, 0, hosts)
  {
  }

  lemma OneLeaseMore(s: Leases.State, t: Leases.State, p: int, ordered: seq<int>, n: nat, hosts: set<int>)
    requires StrictlySorted(ordered) && n < |ordered| && Climbed(s, t, p, ordered, n, hosts)
    requires forall h :: h in ordered ==> h in hosts
    ensures Leases.Enabled(t, Leases.Acquire(p, LEASE_TTL_MS))
    ensures LeaseOf(t, ordered[n]) == LeaseOf(s, ordered[n])
    ensures !LeasedToOther(LeaseOf(s, ordered[n]), p, s.clock) ==>
              Climbed(s, Leases.Next(t, Leases.Acquire(p, LEASE_TTL_MS)), p, ordered, n + 1, hosts)
  {
    hide LeasedToOther, LeaseFor;
    var host := ordered[n];
    var rows := RowsOf(s, hosts);
    assert host in ordered && host !in ordered[..n];
    assert ordered[..n + 1] == ordered[..n] + [host];
    TakeOneMore(rows, ordered[..n], host, p, s.clock);
    assert RowsOf(t, hosts)[host] == rows[host];
    if !LeasedToOther(LeaseOf(s, host), p, s.clock) {
      var u := Leases.Next(t, Leases.Acquire(p, LEASE_TTL_MS));
      assert RowsOf(u, hosts) == RowsOf(t, hosts)[host := Some(LeaseFor(p, s.clock, LEASE_TTL_MS))];
    }
  }

  /** Giving back, one lease after the other. */
  ghost predicate GivenBack(
    s: Leases.State, t: Leases.State, p: int, acquired: seq<int>, n: nat, lost: set<int>, hosts: set<int>)
    requires n <= |acquired| && p in s.parties
  {
    && p in t.parties && t.parties[p].hosts == s.parties[p].hosts
    && t.parties[p].acquired == s.parties[p].acquired && t.parties[p].refused == s.parties[p].refused
    && (forall h :: h in t.parties[p].held <==> h in s.parties[p].held && h !in acquired[..n])
    && RowsOf(t, hosts) == LeasesGiven(RowsOf(s, hosts), acquired[..n], p, lost)
  }

  lemma {:induction false} GiveBack(
    s: Leases.State, p: int, acquired: seq<int>, n: nat, lost: set<int>, hosts: set<int>)
    returns (states: seq<Leases.State>, actions: seq<Leases.Action>)
    requires p in s.parties && StrictlySorted(acquired) && n <= |acquired|
    requires forall h :: h in acquired ==> h in hosts && h in s.parties[p].held
    ensures Steps(states, actions) && states[0] == s && GivenBack(s, states[|actions|], p, acquired, n, lost, hosts)
  {
    hide GivenBack;
    if n == 0 {
      states, actions := [s], [];
      NothingGiven(s, p, acquired, lost, hosts);
    } else {
      states, actions := GiveBack(s, p, acquired, n - 1, lost, hosts);
      var t, host := states[|actions|], acquired[n - 1];
      var action := Leases.Release(p, host, host !in lost);
      OneLeaseBack(s, t, p, acquired, n - 1, lost, hosts);
      OneMoreStep(states, actions, action);
      states, actions := states + [Leases.Next(t, action)], actions + [action];
    }
  }

  lemma NothingGiven(s: Leases.State, p: int, acquired: seq<int>, lost: set<int>, hosts: set<int>)
    requires p in s.parties
    ensures GivenBack(s, s, p, acquired, 0, lost, hosts)
  {
  }

  lemma OneLeaseBack(
    s: Leases.State, t: Leases.State, p: int, acquired: seq<int>, n: nat, lost: set<int>, hosts: set<int>)
    requires StrictlySorted(acquired) && n < |acquired| && p in s.parties
    requires GivenBack(s, t, p, acquired, n, lost, hosts)
    requires forall h :: h in acquired ==> h in hosts && h in s.parties[p].held
    ensures var action := Leases.Release(p, acquired[n], acquired[n] !in lost);
      Leases.Enabled(t, action) && GivenBack(s, Leases.Next(t, action), p, acquired, n + 1, lost, hosts)
  {
    hide LeasesGiven, LeaseWithout, RowsOf;
    var host := acquired[n];
    assert host in acquired && host !in acquired[..n];
    assert acquired[..n + 1] == acquired[..n] + [host];
    RowIn(s, host, hosts);
    RowIn(t, host, hosts);
    GiveOneMore(RowsOf(s, hosts), acquired[..n], host, p, lost);
    RowsAfterRelease(t, p, host, host !in lost, hosts);
  }

  lemma RowIn(s: Leases.State, host: int, hosts: set<int>)
    requires host in hosts
    ensures host in RowsOf(s, hosts) && RowsOf(s, hosts)[host] == LeaseOf(s, host)
  {
  }

  lemma RowsAfterRelease(t: Leases.State, p: int, host: int, delivered: bool, hosts: set<int>)
    requires host in hosts && Leases.Enabled(t, Leases.Release(p, host, delivered))
    ensures RowsOf(Leases.Next(t, Leases.Release(p, host, delivered)), hosts) ==
            if delivered then RowsOf(t, hosts)[host := LeaseWithout(LeaseOf(t, host), p)] else RowsOf(t, hosts)
  {
  }

  lemma {:induction false} StepsJoin(
    a: seq<Leases.State>, x: seq<Leases.Action>, b: seq<Leases.State>, y: seq<Leases.Action>)
    requires Steps(a, x) && Steps(b, y) && b[0] == a[|x|]
    ensures Steps(a + b[1..], x + y)
  {
    hide Leases.Enabled, Leases.Next;
    var all, acts := a + b[1..], x + y;
    forall i | 0 <= i < |acts| ensures Leases.Enabled(all[i], acts[i]) && all[i + 1] == Leases.Next(all[i], acts[i]) {
      if i >= |x| {
        assert acts[i] == y[i - |x|] && all[i] == b[i - |x|] && all[i + 1] == b[i - |x| + 1];
      } else {
        assert all[i] == a[i] && all[i + 1] == a[i + 1];
      }
    }
  }

  /**
   * A request that walks its hosts as `AcquireAll` does and ends as `ReleaseAll` does is
   * a start, one acquisition per lease and the refused one, and one release per lease:
   * the rows end as the two methods leave them, the machine's party has everything
   * exactly when the walk was granted, and it is refused exactly when it was denied.
   */
  lemma RequestRunsTheLeaseMachine(
    s: Leases.State, p: int, ordered: seq<int>, acquired: seq<int>, end: Walk, lost: set<int>, hosts: set<int>)
    returns (states: seq<Leases.State>, actions: seq<Leases.Action>)
    requires p !in s.parties && ordered != [] && StrictlySorted(ordered) && forall h :: h in ordered ==> h in hosts
    requires acquired <= ordered && (end.Granted? <==> acquired == ordered)
    requires forall h :: h in acquired ==> !LeasedToOther(LeaseOf(s, h), p, s.clock)
    requires end.Denied? ==> LeasedToOther(LeaseOf(s, ordered[|acquired|]), p, s.clock)
    ensures Steps(states, actions) && states[0] == s
    ensures var t := states[|actions|];
      && RowsOf(t, hosts) == LeasesGiven(LeasesTaken(RowsOf(s, hosts), acquired, p, s.clock), acquired, p, lost)
      && p in t.parties && t.parties[p].held == map[]
      && (HasAll(t.parties[p]) <==> end.Granted?) && (t.parties[p].refused <==> end.Denied?)
  {
    hide Steps, LeasesTaken, LeasesGiven, LeasedToOther, RowsOf;
    var n := |acquired|;
    assert acquired == ordered[..n];
    forall i | 0 <= i < n ensures !LeasedToOther(LeaseOf(s, ordered[i]), p, s.clock) {
      assert acquired[i] in acquired;
    }
    states, actions := Climb(s, p, ordered, n, hosts);
    StepsLength(states, actions);
    var t := states[|actions|];
    if end.Denied? {
      OneLeaseMore(s, t, p, ordered, n, hosts);
      OneMoreStep(states, actions, Leases.Acquire(p, LEASE_TTL_MS));
      var u := Leases.Next(t, Leases.Acquire(p, LEASE_TTL_MS));
      RefusedKeepsRows(t, p, hosts);
      states, actions := states + [u], actions + [Leases.Acquire(p, LEASE_TTL_MS)];
    }
    var v := states[|actions|];
    var back, given := GiveBack(v, p, acquired, n, lost, hosts);
    StepsLength(back, given);
    assert acquired[..n] == acquired;
    StepsJoin(states, actions, back, given);
    EndOfJoin(states, actions, back, given);
    assert forall h :: h !in back[|given|].parties[p].held;
    states, actions := states + back[1..], actions + given;
  }

  /**
   * A collective request as `Desk.Book` carries it out is such a walk, whoever holds
   * leases beforehand and whichever calls fail: the machine's rows end as `Book` leaves
   * the calendars, and its party has everything or is refused as the walk ended.
   */
  lemma BookRunsTheLeaseMachine(s: Leases.State, r: Request, faults: Faults, hosts: set<int>)
    returns (states: seq<Leases.State>, actions: seq<Leases.Action>)
    requires r.leaseId !in s.parties && NoRepeats(r.hostIds) && forall h :: h in r.hostIds ==> h in hosts
    requires NeedsLease(r) && !faults.lookupThrows && r.eventTypeKnown
    ensures Steps(states, actions) && states[0] == s
    ensures var t, p, end := states[|actions|], r.leaseId, WalkEnd(r, faults, RowsOf(s, hosts), s.clock);
      && RowsOf(t, hosts) == LeasesLeft(RowsOf(s, hosts), r, faults, s.clock)
      && p in t.parties && t.parties[p].held == map[]
      && (HasAll(t.parties[p]) <==> end.Granted?) && (t.parties[p].refused <==> end.Denied?)
  {
    hide Steps, LeasesTaken, LeasesGiven, LeasedToOther, HowFar, SortInts, HasAll;
    var ordered, rows := SortInts(r.hostIds), RowsOf(s, hosts);
    SortedOnce(r.hostIds);
    var n := HowFar(rows, ordered, 0, r.leaseId, faults.leaseThrowsAt, s.clock);
    var acquired, end := ordered[..n], EndAt(ordered, n, faults.leaseThrowsAt);
    forall j | 0 <= j < |ordered| ensures ordered[j] in hosts && RowOf(rows, ordered[j]) == LeaseOf(s, ordered[j]) {
      assert ordered[j] in ordered;
      RowIn(s, ordered[j], hosts);
    }
    states, actions := RequestRunsTheLeaseMachine(s, r.leaseId, ordered, acquired, end, faults.lostReleases, hosts);
  }

  lemma StepsLength(states: seq<Leases.State>, actions: seq<Leases.Action>)
    requires Steps(states, actions)
    ensures |states| == |actions| + 1
  {
  }

  lemma EndOfJoin(a: seq<Leases.State>, x: seq<Leases.Action>, b: seq<Leases.State>, y: seq<Leases.Action>)
    requires |a| == |x| + 1 && |b| == |y| + 1 && b[0] == a[|x|]
    ensures |a + b[1..]| == |x + y| + 1 && (a + b[1..])[|x + y|] == b[|y|] && (a + b[1..])[0] == a[0]
  {
  }

  lemma RefusedKeepsRows(t: Leases.State, p: int, hosts: set<int>)
    requires Climbing(t, p) && LeasedToOther(LeaseOf(t, NextHost(t, p)), p, t.clock)
    ensures var u := Leases.Next(t, Leases.Acquire(p, LEASE_TTL_MS));
      && RowsOf(u, hosts) == RowsOf(t, hosts) && u.clock == t.clock && p in u.parties
      && u.parties[p] == t.parties[p].(refused := true)
  {
  }
}
