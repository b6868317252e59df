/**
 * The run of `ReplayRun` with its messages: a cancellation the guest is never told of,
 * reached from an empty database.
 */
module UntoldRun {
  import opened Common
  import opened Store
  import opened Protocol
  import opened Rescheduling
  import opened Replays
  import opened ReplayRun
  import opened IcsChain
  import opened Invitations
  import opened InviteReplays

  ghost function MailAfter(m: Mail, t: State, action: Action): Mail {
    Mail(t, LineageAfter(m, action), m.due + Owed(m.routes, action), m.sent)
  }

  /** A run with messages goes on with any step that is allowed in it. */
  lemma OneMoreAct(mails: seq<Mail>, acts: seq<Act>, t: State, action: Action)
    requires MatchedMail(mails, acts) && MatchedStep(mails[|acts|].routes, t, action)
    ensures MatchedMail(mails + [MailAfter(mails[|acts|], t, action)], acts + [Route(action)])
  {
    hide MatchedStep, SendStep, Owed, LineageAfter;
    var m := mails[|acts|];
    assert Acts(m, MailAfter(m, t, action), Route(action));
  }

  /** Every run that only books is one with messages. */
  lemma {:induction false} WithMessages(states: seq<State>, actions: seq<Action>)
    returns (mails: seq<Mail>, acts: seq<Act>)
    requires Run(states, actions) && OnlyBooks(actions)
    ensures MatchedMail(mails, acts) && |acts| == |actions| && mails[|acts|].routes == states[|actions|]
    decreases |actions|
  {
    hide Step;
    if actions == [] {
      mails, acts := [Mail(states[0], map[], {}, [])], [];
    } else {
      var n := |actions| - 1;
      mails, acts := WithMessages(states[..n + 1], actions[..n]);
      assert Step(states[n], states[n + 1], actions[n]);
      OneMoreAct(mails, acts, states[n + 1], actions[n]);
      mails, acts := mails + [MailAfter(mails[n], states[n + 1], actions[n])], acts + [Route(actions[n])];
    }
  }

  /** A first booking is never in flight. */
  lemma FirstNotHeld(s: State, o: int)
    requires Traced(s) && o in s.db.bookings && s.db.bookings[o].rescheduleOf == None
    ensures !InFlight(s, o)
  {
    hide Settled, Accounted, InOrder, LostFirst, MovesPublic;
  }

  /** So marking it is always allowed. */
  lemma MarkOfFirst(s: State, t: State, a: int, o: int)
    requires Inv(s) && Traced(s) && Step(s, t, DoMark(a)) && s.attempts[a].original == Some(o)
    requires o in s.db.bookings && s.db.bookings[o].rescheduleOf == None
    ensures MatchedStep(s, t, DoMark(a)) && o in t.db.bookings && t.db.bookings[o].rescheduleOf == None
  {
    hide Traced, Inv;
    FirstNotHeld(s, o);
    StepKeepsOrigins(s, t, DoMark(a));
  }

  /** A mark changes one attempt, which ends or has to roll back. */
  lemma MarkOutcome(s: State, t: State, a: int)
    requires Step(s, t, DoMark(a))
    ensures a in t.attempts && t.attempts.Keys == s.attempts.Keys
    ensures forall b :: b in s.attempts && b != a ==> t.attempts[b] == s.attempts[b]
    ensures t.attempts[a].original == s.attempts[a].original && s.attempts[a].phase.Marking?
    ensures t.attempts[a].phase.RollingBack? ==> t.attempts[a].phase.newId == s.attempts[a].phase.newId
  {
  }

  lemma ReplayMatches(s: State, t: State, a: int, n: int)
    requires Step(s, t, DoReplay(a, n)) && a in s.attempts && n in s.db.bookings
    requires s.db.bookings[n].rescheduleOf == s.attempts[a].original
    ensures MatchedStep(s, t, DoReplay(a, n))
  {
  }

  lemma RollBackMatches(s: State, t: State, a: int)
    requires Step(s, t, DoRollBack(a))
    ensures MatchedStep(s, t, DoRollBack(a)) && a in s.attempts && s.attempts[a].phase.RollingBack?
  {
  }

  /** The run so far, with what it keeps. */
  ghost predicate Reached(mails: seq<Mail>, acts: seq<Act>, s: State) {
    MatchedMail(mails, acts) && mails[|acts|].routes == s && Inv(s) && Traced(s)
  }

  lemma Reaches(mails: seq<Mail>, acts: seq<Act>)
    requires MatchedMail(mails, acts)
    ensures Reached(mails, acts, mails[|acts|].routes)
  {
    hide MatchedMail, Inv, Traced, MailCore;
    MailLength(mails, acts);
    RunKeepsReplayMail(mails, acts, |acts|);
  }

  lemma MailLength(mails: seq<Mail>, acts: seq<Act>)
    requires MatchedMail(mails, acts)
    ensures |mails| == |acts| + 1
  {
  }

  lemma Goes(mails: seq<Mail>, acts: seq<Act>, s: State, t: State, action: Action)
    returns (mails': seq<Mail>, acts': seq<Act>)
    requires Reached(mails, acts, s) && MatchedStep(s, t, action)
    ensures Reached(mails', acts', t)
    ensures |mails| == |acts| + 1 && |mails'| == |acts'| + 1
    ensures acts' == acts + [Route(action)] && mails'[|acts|] == mails[|acts|]
  {
    hide MatchedMail, MatchedStep, Inv, Traced, Owed, MailAfter;
    MailLength(mails, acts);
    OneMoreAct(mails, acts, t, action);
    mails', acts' := mails + [MailAfter(mails[|acts|], t, action)], acts + [Route(action)];
    MailLength(mails', acts');
    Reaches(mails', acts');
    AfterIsThere(mails[|acts|], t, action);
  }

  lemma AfterIsThere(m: Mail, t: State, action: Action)
    ensures MailAfter(m, t, action).routes == t
  {
  }

  /**
   * Two requests to move one booking, one answered by a replay, in either order of their
   * marks: at the end booking 2, announced as the new time, is cancelled, and the
   * cancellation the state calls for is neither owed nor sent.
   */
  lemma CancellationIsUntold(first: int, second: int) returns (mails: seq<Mail>, acts: seq<Act>)
    requires (first == 2 && second == 3) || (first == 3 && second == 2)
    ensures MatchedMail(mails, acts) && |acts| >= 4
    ensures acts[|acts| - 4..] ==
            [Route(DoReplay(3, 2)), Route(DoMark(first)), Route(DoMark(second)), Route(DoRollBack(second))]
    ensures HarmfulAct(mails[|acts| - 1], mails[|acts|], Route(DoRollBack(second))) && !AllWarranted(mails[|acts|])
  {
    hide Step, MatchedMail, MatchedStep, Run, Inv, Traced, MatchingReplay, Harms, AllWarranted;
    var states, actions := TwoInFlight();
    mails, acts := WithMessages(states, actions);
    RunLength(states, actions);
    MailLength(mails, acts);
    var s := mails[|acts|].routes;
    Reaches(mails, acts);
    var t := ReplayMakesTwoHolders(s, 2, 3, 1, 2);
    var run := EitherOrderCancels(t, first, second, 1, 2);
    ReplayMatches(s, t, 3, 2);
    mails, acts := Goes(mails, acts, s, t, DoReplay(3, 2));
    MarkOfFirst(t, run[1], first, 1);
    MarkOutcome(t, run[1], first);
    mails, acts := Goes(mails, acts, t, run[1], DoMark(first));
    MarkOfFirst(run[1], run[2], second, 1);
    MarkOutcome(run[1], run[2], second);
    mails, acts := Goes(mails, acts, run[1], run[2], DoMark(second));
    RollBackMatches(run[2], run[3], second);
    mails, acts := Goes(mails, acts, run[2], run[3], DoRollBack(second));
    EverythingToldIff(mails, acts, |acts|);
  }
}
