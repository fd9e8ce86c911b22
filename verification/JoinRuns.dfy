/** Concrete runs of joins: one that nobody disturbs, and two that outgrow the room. */
module JoinRuns {
  import opened PlaybackModel
  import opened JoinAdmission

  // ---- A join that nobody disturbs ----

  function JoinActions(t: Ticket, sessionId: MemberId, token: Option<MemberId>): seq<Action> {
    [Arrive(t.process, sessionId, token), Enter(t), TryAcquire(t), Count(t), Add(t), Confirm(t), Finish(t)]
  }

  function StepAll(s: System, actions: seq<Action>): System
    decreases |actions|
  {
    if actions == [] then s else StepAll(Step(s, actions[0]), actions[1..])
  }

  lemma {:induction false} StepAllContinues(capacity: nat, now: int, earlier: seq<Action>, actions: seq<Action>)
    ensures StepAll(Run(capacity, now, earlier), actions) == Run(capacity, now, earlier + actions)
    decreases |actions|
  {
    if actions == [] {
      assert earlier + actions == earlier;
    } else {
      var next := earlier + [actions[0]];
      assert next[..|next| - 1] == earlier;
      assert next + actions[1..] == earlier + actions;
      StepAllContinues(capacity, now, next, actions[1..]);
    }
  }

  lemma NoSteps(s: System)
    ensures StepAll(s, []) == s
  {
  }

  lemma StepAllTail(s: System, actions: seq<Action>, k: nat)
    requires k < |actions|
    ensures StepAll(s, actions[k..]) == StepAll(Step(s, actions[k]), actions[k + 1..])
    ensures actions[0..] == actions
  {
    assert actions[k..][1..] == actions[k + 1..];
  }

  lemma SevenSteps(s: System, actions: seq<Action>)
    requires |actions| == 7
    ensures StepAll(s, actions) ==
            Step(Step(Step(Step(Step(Step(Step(s, actions[0]), actions[1]), actions[2]), actions[3]), actions[4]), actions[5]), actions[6])
  {
    hide Step, StepAll;
    StepAllTail(s, actions, 0);
    var s1 := Step(s, actions[0]);
    StepAllTail(s1, actions, 1);
    var s2 := Step(s1, actions[1]);
    StepAllTail(s2, actions, 2);
    var s3 := Step(s2, actions[2]);
    StepAllTail(s3, actions, 3);
    var s4 := Step(s3, actions[3]);
    StepAllTail(s4, actions, 4);
    var s5 := Step(s4, actions[4]);
    StepAllTail(s5, actions, 5);
    StepAllTail(Step(s5, actions[5]), actions, 6);
    assert actions[7..] == [];
    NoSteps(Step(Step(s5, actions[5]), actions[6]));
  }

  // The last join of its process, in the given phase.
  function Last(s: System, p: ProcessId, joins: seq<Join>, join: Join, phase: Phase): System {
    s.(chains := s.chains[p := Chain(joins + [join.(phase := phase)], Some(|joins|))])
  }

  lemma LastAdvances(s: System, p: ProcessId, joins: seq<Join>, join: Join, phase: Phase, next: Phase)
    ensures var last, t := Last(s, p, joins, join, phase), Ticket(p, |joins|);
            && Known(last, t) && JoinOf(last, t) == join.(phase := phase)
            && SetPhase(last, t, next) == Last(s, p, joins, join, next)
  {
    var last := Last(s, p, joins, join, phase);
    assert last.chains[p].joins[|joins| := join.(phase := next)] == joins + [join.(phase := next)];
    assert SetPhase(last, Ticket(p, |joins|), next).chains == Last(s, p, joins, join, next).chains;
  }

  lemma LastFinishes(s: System, p: ProcessId, joins: seq<Join>, join: Join, expiresAt: int)
    requires s.lease == Some(Lease(Ticket(p, |joins|), expiresAt)) && s.now < expiresAt
    ensures var last, t := Last(s, p, joins, join, Confirmed(expiresAt)), Ticket(p, |joins|);
            && Known(last, t) && JoinOf(last, t).phase.Confirmed?
            && Release(last, t) ==
               s.(lease := None, chains := s.chains[p := Chain(joins + [join.(phase := Done)], None)])
  {
    hide SetPhase;
    LastAdvances(s, p, joins, join, Confirmed(expiresAt), Done);
    LastAdvances(s.(lease := None), p, joins, join, Confirmed(expiresAt), Done);
  }

  // The first three steps of an undisturbed join, the next two, and the last two.
  lemma LastIsAdmitted(s: System, t: Ticket, join: Join)
    requires ChainOf(s, t.process).tail.None? && t.index == |ChainOf(s, t.process).joins| && LeaseFree(s)
    requires join == Join(join.sessionId, join.token, None, Queued)
    ensures var expiresAt := s.now + LOCK_TTL_MS;
            Step(Step(Step(s, Arrive(t.process, join.sessionId, join.token)), Enter(t)), TryAcquire(t)) ==
            Last(s.(lease := Some(Lease(t, expiresAt))), t.process, ChainOf(s, t.process).joins, join, Admitted(expiresAt))
  {
    hide SetPhase, Release;
    var p, joins, polling := t.process, ChainOf(s, t.process).joins, Polling(s.now + LOCK_MAX_WAIT_MS);
    LastAdvances(s, p, joins, join, Queued, polling);
    LastAdvances(s, p, joins, join, polling, Admitted(s.now + LOCK_TTL_MS));
    assert Step(s, Arrive(p, join.sessionId, join.token)) == Last(s, p, joins, join, Queued);
    assert Step(Last(s, p, joins, join, Queued), Enter(t)) == Last(s, p, joins, join, polling);
  }

  function Identity(s: System, join: Join): MemberId {
    if Reconnects(s, join).Some? then join.token.value else join.sessionId
  }

  function Replaced(s: System, join: Join): Option<Ticket> {
    if Reconnects(s, join).Some? && Identity(s, join) in s.members then Some(s.members[Identity(s, join)]) else None
  }

  function Seating(s: System, t: Ticket, memberId: MemberId): System {
    s.(members := s.members[memberId := t], tokens := s.tokens + {memberId})
  }

  lemma LastIsCounted(s: System, t: Ticket, joins: seq<Join>, join: Join, expiresAt: int)
    requires t.index == |joins| && join.phase.Queued?
    requires |s.members| < s.capacity || Reconnects(s, join).Some?
    ensures Step(Last(s, t.process, joins, join, Admitted(expiresAt)), Count(t)) ==
            Last(s, t.process, joins, join, Counted(expiresAt, Identity(s, join), Reconnects(s, join).None?, s.restored))
  {
    hide SetPhase, Release;
    var counted := Counted(expiresAt, Identity(s, join), Reconnects(s, join).None?, s.restored);
    LastAdvances(s, t.process, joins, join, Admitted(expiresAt), counted);
  }

  lemma LastIsAdded(s: System, t: Ticket, joins: seq<Join>, join: Join, expiresAt: int)
    requires t.index == |joins| && s.now < expiresAt && join.phase.Queued?
    requires |s.members| < s.capacity || Reconnects(s, join).Some?
    ensures Step(Step(Last(s, t.process, joins, join, Admitted(expiresAt)), Count(t)), Add(t)) ==
            Last(Seating(s, t, Identity(s, join)), t.process, joins, join, Added(expiresAt, Identity(s, join), Replaced(s, join)))
  {
    hide SetPhase, Release;
    var counted := Counted(expiresAt, Identity(s, join), Reconnects(s, join).None?, s.restored);
    LastIsCounted(s, t, joins, join, expiresAt);
    LastAdvances(s, t.process, joins, join, counted, Added(expiresAt, Identity(s, join), Replaced(s, join)));
  }

  lemma LastIsSeated(s: System, t: Ticket, joins: seq<Join>, join: Join, expiresAt: int)
    requires t.index == |joins| && s.now < expiresAt && join.phase.Queued?
    requires |s.members| < s.capacity || Reconnects(s, join).Some?
    ensures Step(Step(Step(Last(s, t.process, joins, join, Admitted(expiresAt)), Count(t)), Add(t)), Confirm(t)) ==
            Last(Seating(s, t, Identity(s, join)), t.process, joins, join, Confirmed(expiresAt))
  {
    hide SetPhase, Release;
    LastIsAdded(s, t, joins, join, expiresAt);
    LastAdvances(Seating(s, t, Identity(s, join)), t.process, joins, join,
                 Added(expiresAt, Identity(s, join), Replaced(s, join)), Confirmed(expiresAt));
  }

  lemma FinishReleases(s: System, t: Ticket)
    requires Known(s, t) && JoinOf(s, t).phase.Confirmed?
    ensures Step(s, Finish(t)) == Release(s, t)
  {
  }

  /** With nobody else in its process's chain, the lease free and either a free seat or a known token,
      a join goes through, takes the seat, and leaves the chain empty and the lease free behind it. */
  lemma UndisturbedJoin(s: System, t: Ticket, sessionId: MemberId, token: Option<MemberId>)
    requires ChainOf(s, t.process).tail.None? && t.index == |ChainOf(s, t.process).joins| && s.lease.None?
    requires |s.members| < s.capacity || (token.Some? && token.value in s.tokens)
    ensures var after := StepAll(s, JoinActions(t, sessionId, token));
            var memberId := if token.Some? && token.value in s.tokens then token.value else sessionId;
            && after.members == s.members[memberId := t] && after.tokens == s.tokens + {memberId}
            && after.lease.None? && after.capacity == s.capacity && after.restored == s.restored && after.now == s.now
            && ChainOf(after, t.process).tail.None? && |ChainOf(after, t.process).joins| == t.index + 1
            && forall p :: p != t.process ==> ChainOf(after, p) == ChainOf(s, p)
  {
    hide StepAll, Step, SetPhase, Release, Last;
    var p, joins := t.process, ChainOf(s, t.process).joins;
    var join, expiresAt := Join(sessionId, token, None, Queued), s.now + LOCK_TTL_MS;
    var leased := s.(lease := Some(Lease(t, expiresAt)));
    var seated := Seating(leased, t, Identity(s, join));
    LastIsAdmitted(s, t, join);
    LastIsSeated(leased, t, joins, join, expiresAt);
    LastFinishes(seated, p, joins, join, expiresAt);
    FinishReleases(Last(seated, p, joins, join, Confirmed(expiresAt)), t);
    SevenSteps(s, JoinActions(t, sessionId, token));
  }

  lemma RunThen(capacity: nat, now: int, actions: seq<Action>, a: Action)
    ensures Run(capacity, now, actions + [a]) == Step(Run(capacity, now, actions), a)
  {
    hide Step;
    assert (actions + [a])[..|actions|] == actions;
  }

  lemma RunThenThree(capacity: nat, now: int, actions: seq<Action>, a: Action, b: Action, c: Action)
    ensures Run(capacity, now, actions + [a, b, c]) == Step(Step(Step(Run(capacity, now, actions), a), b), c)
  {
    hide Step, Run;
    RunThen(capacity, now, actions, a);
    RunThen(capacity, now, actions + [a], b);
    RunThen(capacity, now, actions + [a] + [b], c);
    assert actions + [a] + [b] + [c] == actions + [a, b, c];
  }

  lemma LeaveStep(s: System, memberId: MemberId)
    ensures Step(s, Leave(memberId, false)) == s.(members := s.members - {memberId})
  {
  }

  // The first member of a room for one.
  function First(): seq<Action> {
    JoinActions(Ticket(0, 0), "a", None)
  }

  lemma FirstIsSeated()
    ensures var s := Run(1, 0, First());
            && s.members == map["a" := Ticket(0, 0)] && s.tokens == {"a"} && s.lease.None?
            && s.capacity == 1 && s.restored == 0 && s.now == 0
            && ChainOf(s, 0).tail.None? && |ChainOf(s, 0).joins| == 1 && ChainOf(s, 1) == Chain([], None)
  {
    hide Step, StepAll;
    assert Run(1, 0, []) == Initial(1, 0);
    UndisturbedJoin(Run(1, 0, []), Ticket(0, 0), "a", None);
    StepAllContinues(1, 0, [], First());
    assert [] + First() == First();
  }

  /** The capacity is no bound on the room: in a room for one, the first member drops out, another
      takes the seat, and the first comes back with the token it kept. */
  lemma ReconnectOutgrows()
    ensures exists actions: seq<Action> :: |Run(1, 0, actions).members| == 2
  {
    hide Step, Run, StepAll;
    var second := JoinActions(Ticket(0, 1), "b", None);
    var third := JoinActions(Ticket(0, 2), "c", Some("a"));
    FirstIsSeated();
    var away := First() + [Leave("a", false)];
    RunThen(1, 0, First(), Leave("a", false));
    LeaveStep(Run(1, 0, First()), "a");
    UndisturbedJoin(Run(1, 0, away), Ticket(0, 1), "b", None);
    StepAllContinues(1, 0, away, second);
    UndisturbedJoin(Run(1, 0, away + second), Ticket(0, 2), "c", Some("a"));
    StepAllContinues(1, 0, away + second, third);
    assert Run(1, 0, away + second + third).members.Keys == {"a", "b"};
  }

  // ---- A rollback behind a newcomer's count ----

  const OLD := Ticket(0, 1)
  const NEW := Ticket(1, 0)

  // The member reconnects, and its lease runs out while the addition is being flushed.
  function Overdue(): seq<Action> {
    First() + [Arrive(0, "x", Some("a")), Enter(OLD), TryAcquire(OLD)] + [Count(OLD), Add(OLD), Tick(LOCK_TTL_MS)]
  }

  // It is unseated; before it gets its seat back, a newcomer is counted in the empty room.
  function CountedMeanwhile(): seq<Action> {
    Overdue() + [Confirm(OLD)] + [Arrive(1, "c", None), Enter(NEW), TryAcquire(NEW)] + [Count(NEW)]
  }

  lemma LastTicks(s: System, p: ProcessId, joins: seq<Join>, join: Join, phase: Phase, at: int)
    requires s.now <= at
    ensures var after := Step(Last(s, p, joins, join, phase), Tick(at));
            && after == s.(now := at, chains := after.chains)
            && Known(after, Ticket(p, |joins|)) && JoinOf(after, Ticket(p, |joins|)).phase == phase
            && forall q :: q != p ==> ChainOf(after, q) == ChainOf(s, q)
  {
    LastAdvances(s.(now := at), p, joins, join, phase, phase);
  }

  lemma ReconnectIsOverdue()
    ensures var s := Run(1, 0, Overdue());
            && Known(s, OLD) && JoinOf(s, OLD).phase == Added(LOCK_TTL_MS, "a", Some(Ticket(0, 0)))
            && s.members == map["a" := OLD] && s.capacity == 1 && s.restored == 0 && s.now == LOCK_TTL_MS
            && ChainOf(s, 1) == Chain([], None) && s.lease == Some(Lease(OLD, LOCK_TTL_MS)) && s.tokens == {"a"}
  {
    hide Step, Run, Last;
    var s := Run(1, 0, First());
    var join, joins := Join("x", Some("a"), None, Queued), ChainOf(s, 0).joins;
    var leased := s.(lease := Some(Lease(OLD, LOCK_TTL_MS)));
    FirstIsSeated();
    var admitted := First() + [Arrive(0, "x", Some("a")), Enter(OLD), TryAcquire(OLD)];
    RunThenThree(1, 0, First(), Arrive(0, "x", Some("a")), Enter(OLD), TryAcquire(OLD));
    LastIsAdmitted(s, OLD, join);
    RunThenThree(1, 0, admitted, Count(OLD), Add(OLD), Tick(LOCK_TTL_MS));
    LastIsAdded(leased, OLD, joins, join, LOCK_TTL_MS);
    var added := Added(LOCK_TTL_MS, "a", Some(Ticket(0, 0)));
    LastTicks(Seating(leased, OLD, "a"), 0, joins, join, added, LOCK_TTL_MS);
  }

  lemma RolledBack(s: System, t: Ticket)
    requires Known(s, t) && JoinOf(s, t).phase.Added? && JoinOf(s, t).phase.expiresAt <= s.now
    requires s.members == map[JoinOf(s, t).phase.memberId := t]
    ensures var phase, after := JoinOf(s, t).phase, Step(s, Confirm(t));
            && after == s.(members := map[], chains := after.chains)
            && Known(after, t) && JoinOf(after, t).phase == RollingBack(phase.expiresAt, phase.memberId, phase.previous)
            && forall q :: q != t.process ==> ChainOf(after, q) == ChainOf(s, q)
  {
  }

  lemma NewcomerIsCounted()
    ensures var s := Run(1, 0, CountedMeanwhile());
            && Known(s, OLD) && JoinOf(s, OLD).phase == RollingBack(LOCK_TTL_MS, "a", Some(Ticket(0, 0)))
            && Known(s, NEW) && JoinOf(s, NEW).phase == Counted(2 * LOCK_TTL_MS, "c", true, 0)
            && s.members == map[] && s.now == LOCK_TTL_MS
  {
    hide Step, Run;
    var before := Run(1, 0, Overdue());
    ReconnectIsOverdue();
    RolledBack(before, OLD);
    RunThen(1, 0, Overdue(), Confirm(OLD));
    var unseated := Overdue() + [Confirm(OLD)];
    var s := Run(1, 0, unseated);
    var join := Join("c", None, None, Queued);
    RunThenThree(1, 0, unseated, Arrive(1, "c", None), Enter(NEW), TryAcquire(NEW));
    LastIsAdmitted(s, NEW, join);
    var leased := s.(lease := Some(Lease(NEW, 2 * LOCK_TTL_MS)));
    RunThen(1, 0, unseated + [Arrive(1, "c", None), Enter(NEW), TryAcquire(NEW)], Count(NEW));
    LastIsCounted(leased, NEW, [], join, 2 * LOCK_TTL_MS);
    LastAdvances(leased, 1, [], join, Counted(2 * LOCK_TTL_MS, "c", true, 0), Done);
  }

  lemma SeatRestored(s: System, t: Ticket, u: Ticket)
    requires Known(s, t) && Known(s, u) && t.process != u.process
    requires JoinOf(s, t).phase.RollingBack? && JoinOf(s, t).phase.previous.Some? && s.members == map[]
    ensures var after := Step(s, Restore(t));
            && after.members == map[JoinOf(s, t).phase.memberId := JoinOf(s, t).phase.previous.value]
            && after.now == s.now && Known(after, u) && JoinOf(after, u) == JoinOf(s, u)
  {
  }

  lemma NewcomerTakesSeat(s: System, t: Ticket)
    requires Known(s, t) && JoinOf(s, t).phase.Counted? && s.now < JoinOf(s, t).phase.expiresAt
    ensures Step(s, Add(t)).members == s.members[JoinOf(s, t).phase.memberId := t]
  {
  }

  /** Nor does the count protect a newcomer: counted in an empty room for one between a rollback and the
      restoring of the seat, it is the second member. */
  lemma RollbackOutgrows()
    ensures exists actions, t :: var s := Run(1, 0, actions);
              && Known(s, t) && JoinOf(s, t).phase.Counted? && JoinOf(s, t).phase.newcomer
              && |Step(s, Add(t)).members| == 2
  {
    hide Step, Run;
    NewcomerIsCounted();
    RunThen(1, 0, CountedMeanwhile(), Restore(OLD));
    SeatRestored(Run(1, 0, CountedMeanwhile()), OLD, NEW);
    var actions := CountedMeanwhile() + [Restore(OLD)];
    NewcomerTakesSeat(Run(1, 0, actions), NEW);
    assert Step(Run(1, 0, actions), Add(NEW)).members.Keys == {"a", "c"};
  }
}
