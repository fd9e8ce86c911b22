/** Publishing room events under a cap on pending publishes: callers beyond the cap wait for a slot
    until an absolute deadline, then drop their event. */
module PublishBackpressure {
  import opened PlaybackModel

  type CallId = nat

  // A waiting call raced the publishes pending when it last looked against its deadline.
  datatype Phase =
    | Waiting(deadline: int, awaited: set<CallId>)
    | Pending
    | Settled
    | Dropped

  datatype System = System(
    cap: nat,
    waitMs: nat,
    now: int,
    pending: set<CallId>,
    calls: map<CallId, Phase>)

  datatype Action =
    | Call(id: CallId)
    | Wake(id: CallId)
    | TimeOut(id: CallId)
    | Settle(id: CallId)
    | Tick(at: int)

  predicate Wakeable(s: System, id: CallId) {
    id in s.calls && s.calls[id].Waiting? && !(s.calls[id].awaited <= s.pending)
  }

  predicate TimesOut(s: System, id: CallId) {
    id in s.calls && s.calls[id].Waiting? && s.calls[id].deadline <= s.now
  }

  predicate Enabled(s: System, a: Action) {
    match a
    case Call(id) => id !in s.calls
    case Wake(id) => Wakeable(s, id)
    case TimeOut(id) => TimesOut(s, id)
    case Settle(id) => id in s.pending
    case Tick(at) => s.now <= at
  }

  // Checking the size and taking the slot happen without an interruption in between.
  function Attempt(s: System, id: CallId, deadline: int): System {
    if |s.pending| < s.cap then s.(pending := s.pending + {id}, calls := s.calls[id := Pending])
    else if deadline <= s.now then s.(calls := s.calls[id := Dropped])
    else s.(calls := s.calls[id := Waiting(deadline, s.pending)])
  }

  function Take(s: System, a: Action): System
    requires Enabled(s, a)
  {
    match a
    case Call(id) => Attempt(s, id, s.now + s.waitMs)
    case Wake(id) => Attempt(s, id, s.calls[id].deadline)
    case TimeOut(id) => s.(calls := s.calls[id := Dropped])
    case Settle(id) => s.(pending := s.pending - {id}, calls := s.calls[id := Settled])
    case Tick(at) => s.(now := at)
  }

  function Run(cap: nat, waitMs: nat, now: int, actions: seq<Action>): System
    decreases |actions|
  {
    if actions == [] then System(cap, waitMs, now, {}, map[])
    else
      var before, a := Run(cap, waitMs, now, actions[..|actions| - 1]), actions[|actions| - 1];
      if Enabled(before, a) then Take(before, a) else before
  }

  ghost predicate Inv(s: System) {
    && |s.pending| <= s.cap
    && (forall id :: id in s.pending <==> id in s.calls && s.calls[id] == Pending)
    && (forall id :: id in s.calls && s.calls[id].Waiting? ==>
          s.calls[id].deadline <= s.now + s.waitMs && |s.calls[id].awaited| >= s.cap)
  }

  lemma AttemptKeepsInv(s: System, id: CallId, deadline: int)
    requires Inv(s) && deadline <= s.now + s.waitMs
    requires id in s.calls ==> s.calls[id].Waiting?
    ensures Inv(Attempt(s, id, deadline))
  {
  }

  lemma SettleKeepsInv(s: System, id: CallId)
    requires Inv(s) && id in s.pending
    ensures Inv(Take(s, Settle(id)))
  {
    SubsetSize(s.pending - {id}, s.pending);
  }

  lemma TakeKeepsInv(s: System, a: Action)
    requires Inv(s) && Enabled(s, a)
    ensures Inv(Take(s, a))
  {
    hide Attempt;
    match a
    case Settle(id) => SettleKeepsInv(s, id);
    case Call(id) => AttemptKeepsInv(s, id, s.now + s.waitMs);
    case Wake(id) => AttemptKeepsInv(s, id, s.calls[id].deadline);
    case _ =>
  }

  lemma {:induction false} RunInv(cap: nat, waitMs: nat, now: int, actions: seq<Action>)
    ensures var s := Run(cap, waitMs, now, actions); Inv(s) && s.cap == cap && s.waitMs == waitMs
    decreases |actions|
  {
    if actions == [] {
    } else {
      var front, a := actions[..|actions| - 1], actions[|actions| - 1];
      RunInv(cap, waitMs, now, front);
      if Enabled(Run(cap, waitMs, now, front), a) {
        TakeKeepsInv(Run(cap, waitMs, now, front), a);
      }
    }
  }

  /** However many callers race, the pending publishes never exceed the cap. */
  lemma CapHolds(cap: nat, waitMs: nat, now: int, actions: seq<Action>)
    ensures |Run(cap, waitMs, now, actions).pending| <= cap
  {
    RunInv(cap, waitMs, now, actions);
  }

  predicate Started(phase: Phase) {
    phase.Pending? || phase.Settled?
  }

  lemma StepFate(s: System, a: Action, id: CallId)
    requires Inv(s) && Enabled(s, a) && id in s.calls
    ensures var after := Take(s, a);
            && id in after.calls
            && (Started(s.calls[id]) ==> Started(after.calls[id]))
            && (s.calls[id].Dropped? ==> after.calls[id].Dropped?)
            && (after.calls[id].Waiting? ==> s.calls[id].Waiting? && s.calls[id].deadline == after.calls[id].deadline)
  {
  }

  /** A call that started or was dropped stays so: every call ends as at most one of the two. */
  lemma {:induction false} FateIsFinal(cap: nat, waitMs: nat, now: int, before: seq<Action>, later: seq<Action>, id: CallId)
    requires id in Run(cap, waitMs, now, before).calls
    ensures id in Run(cap, waitMs, now, before + later).calls
    ensures Started(Run(cap, waitMs, now, before).calls[id]) ==> Started(Run(cap, waitMs, now, before + later).calls[id])
    ensures Run(cap, waitMs, now, before).calls[id].Dropped? ==> Run(cap, waitMs, now, before + later).calls[id].Dropped?
    decreases |later|
  {
    hide Take, Inv, Enabled;
    if later == [] {
      assert before + later == before;
    } else {
      var front, a := later[..|later| - 1], later[|later| - 1];
      var all := before + later;
      assert all[..|all| - 1] == before + front && all[|all| - 1] == a;
      FateIsFinal(cap, waitMs, now, before, front, id);
      RunInv(cap, waitMs, now, before + front);
      if Enabled(Run(cap, waitMs, now, before + front), a) {
        StepFate(Run(cap, waitMs, now, before + front), a, id);
      }
    }
  }

  /** However late its wake-up or its timer comes: a call that moves at or past its deadline ends there
      and then, and from its deadline on its timer may fire. */
  lemma LateMoveEnds(s: System, a: Action, id: CallId)
    requires id in s.calls && s.calls[id].Waiting? && s.calls[id].deadline <= s.now
    ensures Enabled(s, TimeOut(id))
    ensures (a == Wake(id) || a == TimeOut(id)) && Enabled(s, a) ==> !Take(s, a).calls[id].Waiting?
  {
  }

  predicate PunctualStep(s: System, a: Action) {
    a.Tick? ==> forall id :: id in s.calls && s.calls[id].Waiting? ==> a.at <= s.calls[id].deadline
  }

  // Timers are punctual: time does not pass the deadline of a call that still waits.
  ghost predicate Punctual(cap: nat, waitMs: nat, now: int, actions: seq<Action>) {
    forall k :: 0 <= k < |actions| ==> PunctualStep(Run(cap, waitMs, now, actions[..k]), actions[k])
  }

  lemma NobodyOverdueNext(s: System, a: Action)
    requires Enabled(s, a) && PunctualStep(s, a)
    requires forall id :: id in s.calls && s.calls[id].Waiting? ==> s.now <= s.calls[id].deadline
    ensures var after := Take(s, a);
            forall id :: id in after.calls && after.calls[id].Waiting? ==> after.now <= after.calls[id].deadline
  {
  }

  lemma {:induction false} NobodyOverdue(cap: nat, waitMs: nat, now: int, actions: seq<Action>)
    requires Punctual(cap, waitMs, now, actions)
    ensures var s := Run(cap, waitMs, now, actions);
            forall id :: id in s.calls && s.calls[id].Waiting? ==> s.now <= s.calls[id].deadline
    decreases |actions|
  {
    if actions == [] {
    } else {
      var front := actions[..|actions| - 1];
      forall k | 0 <= k < |front| ensures PunctualStep(Run(cap, waitMs, now, front[..k]), front[k]) {
        assert front[..k] == actions[..k];
      }
      hide Take, Enabled, PunctualStep;
      NobodyOverdue(cap, waitMs, now, front);
      RunInv(cap, waitMs, now, front);
      assert PunctualStep(Run(cap, waitMs, now, actions[..|front|]), actions[|front|]);
      if Enabled(Run(cap, waitMs, now, front), actions[|front|]) {
        NobodyOverdueNext(Run(cap, waitMs, now, front), actions[|front|]);
      }
    }
  }

  lemma {:induction false} DeadlineFixed(cap: nat, waitMs: nat, now: int, before: seq<Action>, later: seq<Action>, id: CallId)
    requires id in Run(cap, waitMs, now, before).calls
    ensures id in Run(cap, waitMs, now, before + later).calls
    ensures Run(cap, waitMs, now, before + later).calls[id].Waiting? ==>
              && Run(cap, waitMs, now, before).calls[id].Waiting?
              && Run(cap, waitMs, now, before).calls[id].deadline == Run(cap, waitMs, now, before + later).calls[id].deadline
    decreases |later|
  {
    hide Take, Inv, Enabled;
    if later == [] {
      assert before + later == before;
    } else {
      var front, a := later[..|later| - 1], later[|later| - 1];
      var all := before + later;
      assert all[..|all| - 1] == before + front && all[|all| - 1] == a;
      DeadlineFixed(cap, waitMs, now, before, front, id);
      RunInv(cap, waitMs, now, before + front);
      if Enabled(Run(cap, waitMs, now, before + front), a) {
        StepFate(Run(cap, waitMs, now, before + front), a, id);
      }
    }
  }

  /** With punctual timers the wait ends by its deadline: a call known at some point has started or been
      dropped once the clock is past that point plus the wait. */
  lemma {:induction false} EndsByDeadline(cap: nat, waitMs: nat, now: int, before: seq<Action>, later: seq<Action>, id: CallId)
    requires id in Run(cap, waitMs, now, before).calls
    requires Punctual(cap, waitMs, now, before + later)
    requires Run(cap, waitMs, now, before + later).now > Run(cap, waitMs, now, before).now + waitMs
    ensures id in Run(cap, waitMs, now, before + later).calls
    ensures var phase := Run(cap, waitMs, now, before + later).calls[id];
            Started(phase) || phase.Dropped?
  {
    FateIsFinal(cap, waitMs, now, before, later, id);
    DeadlineFixed(cap, waitMs, now, before, later, id);
    NobodyOverdue(cap, waitMs, now, before + later);
    RunInv(cap, waitMs, now, before);
  }

  /** A new call takes a free slot at once; with none free it waits, for the whole configured time. */
  lemma CallStartsOrWaits(s: System, id: CallId)
    requires Enabled(s, Call(id))
    ensures var after := Take(s, Call(id));
            && (|s.pending| < s.cap ==> after.calls[id] == Pending && after.pending == s.pending + {id})
            && (|s.pending| >= s.cap && s.waitMs > 0 ==> after.calls[id] == Waiting(s.now + s.waitMs, s.pending))
            && (|s.pending| >= s.cap && s.waitMs == 0 ==> after.calls[id].Dropped?)
            && (|s.pending| >= s.cap ==> after.pending == s.pending)
  {
  }

  lemma StepNeverDropsEarly(s: System, a: Action, id: CallId, due: int)
    requires Enabled(s, a) && id in s.calls
    requires s.calls[id].Waiting? ==> s.calls[id].deadline == due
    requires s.calls[id].Dropped? ==> due <= s.now
    ensures var after := Take(s, a);
            && (after.calls[id].Waiting? ==> after.calls[id].deadline == due)
            && (after.calls[id].Dropped? ==> due <= after.now)
  {
  }

  lemma CanCall(s: System, id: CallId)
    requires id !in s.calls
    ensures Enabled(s, Call(id))
  {
  }

  lemma ClockUnmoved(s: System, id: CallId)
    requires Enabled(s, Call(id))
    ensures Take(s, Call(id)).now == s.now && id in Take(s, Call(id)).calls
  {
  }

  /** Over any run: a call is not dropped before it has waited for the whole configured time. */
  lemma {:induction false} NeverDroppedEarly(cap: nat, waitMs: nat, now: int, before: seq<Action>, id: CallId, later: seq<Action>)
    requires id !in Run(cap, waitMs, now, before).calls
    ensures var s, after := Run(cap, waitMs, now, before), Run(cap, waitMs, now, before + [Call(id)] + later);
            && id in after.calls
            && (after.calls[id].Waiting? ==> after.calls[id].deadline == s.now + waitMs)
            && (after.calls[id].Dropped? ==> s.now + waitMs <= after.now)
    decreases |later|
  {
    hide Take, Enabled, Inv;
    var s := Run(cap, waitMs, now, before);
    RunInv(cap, waitMs, now, before);
    if later == [] {
      var all := before + [Call(id)] + later;
      assert all[..|all| - 1] == before && all[|all| - 1] == Call(id);
      assert Enabled(s, Call(id)) by { CanCall(s, id); }
      CallStartsOrWaits(s, id);
      ClockUnmoved(s, id);
    } else {
      var front, a := later[..|later| - 1], later[|later| - 1];
      var all := before + [Call(id)] + later;
      assert all[..|all| - 1] == before + [Call(id)] + front && all[|all| - 1] == a;
      NeverDroppedEarly(cap, waitMs, now, before, id, front);
      var middle := Run(cap, waitMs, now, before + [Call(id)] + front);
      RunInv(cap, waitMs, now, before + [Call(id)] + front);
      if Enabled(middle, a) {
        StepNeverDropsEarly(middle, a, id, s.now + waitMs);
        StepFate(middle, a, id);
      }
    }
  }

  /** No wake-up is lost: whenever a slot is free, every waiting call is about to look again, and when
      its deadline has come it can time out. So a waiting call never blocks time for good. */
  lemma NoLostWakeUp(cap: nat, waitMs: nat, now: int, actions: seq<Action>, id: CallId)
    requires id in Run(cap, waitMs, now, actions).calls && Run(cap, waitMs, now, actions).calls[id].Waiting?
    ensures var s := Run(cap, waitMs, now, actions);
            && (|s.pending| < cap ==> Enabled(s, Wake(id)))
            && (|s.pending| < cap ==> Take(s, Wake(id)).calls[id] == Pending)
            && (s.calls[id].deadline <= s.now ==> Enabled(s, TimeOut(id)))
  {
    RunInv(cap, waitMs, now, actions);
    var s := Run(cap, waitMs, now, actions);
    if |s.pending| < cap && s.calls[id].awaited <= s.pending {
      SubsetSize(s.calls[id].awaited, s.pending);
      assert false;
    }
  }

  /** An event is dropped only at its deadline, with every slot taken or the timer run out. */
  lemma DropsOnlyWhenDue(s: System, a: Action, id: CallId)
    requires Inv(s) && Enabled(s, a) && id in Take(s, a).calls
    requires Take(s, a).calls[id].Dropped? && !(id in s.calls && s.calls[id].Dropped?)
    ensures if id in s.calls then s.calls[id].Waiting? && s.calls[id].deadline <= s.now
            else s.waitMs == 0 && |s.pending| >= s.cap
  {
  }
}
