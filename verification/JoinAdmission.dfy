/** Joins of one room over several server processes: a promise chain inside each process, a lease
    with a time limit between them, a capacity check before the member is added, and a rollback if
    flushing the addition fails or outlasts the lease. */
module JoinAdmission {
  import opened PlaybackModel

  const LOCK_TTL_MS := 30_000
  const LOCK_MAX_WAIT_MS := 5_000

  type ProcessId = nat

  datatype Ticket = Ticket(process: ProcessId, index: nat)

  datatype Phase =
    | Queued
    | Polling(deadline: int)
    | Admitted(expiresAt: int)
    | Counted(expiresAt: int, memberId: MemberId, newcomer: bool, restoredAt: nat)
    | Added(expiresAt: int, memberId: MemberId, previous: Option<Ticket>)
    | Confirmed(expiresAt: int)
    | RollingBack(expiresAt: int, memberId: MemberId, previous: Option<Ticket>)
    | Done
  {
    predicate HasLease() {
      !Queued? && !Polling? && !Done?
    }
  }

  // `previous` is the chain's tail when the join arrived, none if the chain was empty then.
  datatype Join = Join(sessionId: MemberId, token: Option<MemberId>, previous: Option<nat>, phase: Phase)

  datatype Chain = Chain(joins: seq<Join>, tail: Option<nat>)

  datatype Lease = Lease(owner: Ticket, expiresAt: int)

  // Each seat names the join whose session holds it. `restored` counts the seats that rollbacks
  // have given back to an absent member.
  datatype System = System(
    capacity: nat,
    now: int,
    lease: Option<Lease>,
    members: map<MemberId, Ticket>,
    tokens: set<MemberId>,
    restored: nat,
    chains: map<ProcessId, Chain>)

  datatype Action =
    | Arrive(process: ProcessId, sessionId: MemberId, token: Option<MemberId>)
    | Enter(t: Ticket)
    | TryAcquire(t: Ticket)
    | Count(t: Ticket)
    | Add(t: Ticket)
    | Confirm(t: Ticket)
    | FailFlush(t: Ticket)
    | Restore(t: Ticket)
    | Finish(t: Ticket)
    | Leave(memberId: MemberId, explicit: bool)
    | Tick(at: int)

  function ChainOf(s: System, p: ProcessId): Chain {
    if p in s.chains then s.chains[p] else Chain([], None)
  }

  predicate Known(s: System, t: Ticket) {
    t.process in s.chains && t.index < |s.chains[t.process].joins|
  }

  function JoinOf(s: System, t: Ticket): Join
    requires Known(s, t)
  {
    s.chains[t.process].joins[t.index]
  }

  /** The promise a later join waits on: everything up to and including join i has finished. */
  predicate Resolved(joins: seq<Join>, i: nat)
    requires i < |joins|
  {
    && joins[i].phase.Done?
    && (joins[i].previous.Some? ==> joins[i].previous.value < i && Resolved(joins, joins[i].previous.value))
  }

  predicate MayEnter(joins: seq<Join>, i: nat)
    requires i < |joins|
  {
    && joins[i].phase.Queued?
    && (joins[i].previous.Some? ==> joins[i].previous.value < i && Resolved(joins, joins[i].previous.value))
  }

  function SetPhase(s: System, t: Ticket, phase: Phase): System
    requires Known(s, t)
  {
    var chain := s.chains[t.process];
    s.(chains := s.chains[t.process := chain.(joins := chain.joins[t.index := chain.joins[t.index].(phase := phase)])])
  }

  predicate LeaseFree(s: System) {
    s.lease.None? || s.lease.value.expiresAt <= s.now
  }

  // Leaving the critical section: a still-live own lease is returned, then the chain moves on and
  // forgets its tail if this join was the last to arrive.
  function Release(s: System, t: Ticket): System
    requires Known(s, t)
  {
    var phase := JoinOf(s, t).phase;
    var returned :=
      if phase.HasLease() && s.now < phase.expiresAt && s.lease.Some? && s.lease.value.owner == t
      then s.(lease := None) else s;
    var done := SetPhase(returned, t, Done);
    if done.chains[t.process].tail == Some(t.index)
    then done.(chains := done.chains[t.process := done.chains[t.process].(tail := None)])
    else done
  }

  function Reconnects(s: System, join: Join): Option<MemberId> {
    if join.token.Some? && join.token.value in s.tokens then join.token else None
  }

  // A rolled-back join gives up the seat only if it still holds it...
  function Unseat(s: System, memberId: MemberId, t: Ticket): System {
    if memberId in s.members && s.members[memberId] == t then s.(members := s.members - {memberId}) else s
  }

  // ...and returns it to the session it had replaced unless somebody else took it meanwhile.
  function Reseat(s: System, memberId: MemberId, previous: Option<Ticket>, t: Ticket): System {
    if previous.None? || (memberId in s.members && s.members[memberId] != t) then s
    else s.(members := s.members[memberId := previous.value],
            restored := if memberId in s.members then s.restored else s.restored + 1)
  }

  function RollBack(s: System, t: Ticket): System
    requires Known(s, t) && JoinOf(s, t).phase.Added?
  {
    var phase := JoinOf(s, t).phase;
    SetPhase(Unseat(s, phase.memberId, t), t, RollingBack(phase.expiresAt, phase.memberId, phase.previous))
  }

  // A join may also fail where it stands: on a refused token, or when the flush of its rollback fails.
  predicate Enabled(s: System, a: Action) {
    match a
    case Arrive(_, _, _) => true
    case Enter(t) => Known(s, t) && MayEnter(s.chains[t.process].joins, t.index)
    case TryAcquire(t) => Known(s, t) && JoinOf(s, t).phase.Polling?
    case Count(t) => Known(s, t) && (JoinOf(s, t).phase.Admitted? || JoinOf(s, t).phase.Counted?)
    case Add(t) => Known(s, t) && JoinOf(s, t).phase.Counted?
    case Confirm(t) => Known(s, t) && JoinOf(s, t).phase.Added?
    case FailFlush(t) => Known(s, t) && JoinOf(s, t).phase.Added?
    case Restore(t) => Known(s, t) && JoinOf(s, t).phase.RollingBack?
    case Finish(t) =>
      && Known(s, t)
      && var phase := JoinOf(s, t).phase;
         phase.Admitted? || phase.Counted? || phase.Confirmed? || phase.RollingBack?
    case Leave(_, _) => true
    case Tick(at) => s.now <= at
  }

  function Take(s: System, a: Action): System
    requires Enabled(s, a)
  {
    match a
    case Arrive(p, sessionId, token) =>
      var chain := ChainOf(s, p);
      s.(chains := s.chains[p := Chain(chain.joins + [Join(sessionId, token, chain.tail, Queued)], Some(|chain.joins|))])
    case Enter(t) => SetPhase(s, t, Polling(s.now + LOCK_MAX_WAIT_MS))
    case TryAcquire(t) =>
      if LeaseFree(s) then
        SetPhase(s, t, Admitted(s.now + LOCK_TTL_MS)).(lease := Some(Lease(t, s.now + LOCK_TTL_MS)))
      else if JoinOf(s, t).phase.deadline <= s.now then Release(s, t)
      else s
    case Count(t) =>
      var reconnect := Reconnects(s, JoinOf(s, t));
      if |s.members| >= s.capacity && reconnect.None? then Release(s, t)
      else
        var memberId := if reconnect.Some? then reconnect.value else JoinOf(s, t).sessionId;
        SetPhase(s, t, Counted(JoinOf(s, t).phase.expiresAt, memberId, reconnect.None?, s.restored))
    case Add(t) =>
      var phase := JoinOf(s, t).phase;
      if phase.expiresAt <= s.now then Release(s, t)
      else
        var previous := if !phase.newcomer && phase.memberId in s.members then Some(s.members[phase.memberId]) else None;
        SetPhase(s, t, Added(phase.expiresAt, phase.memberId, previous)).(
          members := s.members[phase.memberId := t],
          tokens := s.tokens + {phase.memberId})
    case Confirm(t) =>
      var phase := JoinOf(s, t).phase;
      if s.now < phase.expiresAt then SetPhase(s, t, Confirmed(phase.expiresAt))
      else RollBack(s, t)
    case FailFlush(t) => RollBack(s, t)
    case Restore(t) => Release(Reseat(s, JoinOf(s, t).phase.memberId, JoinOf(s, t).phase.previous, t), t)
    case Finish(t) => Release(s, t)
    case Leave(memberId, explicit) =>
      s.(members := s.members - {memberId}, tokens := if explicit then s.tokens - {memberId} else s.tokens)
    case Tick(at) => s.(now := at)
  }

  function Step(s: System, a: Action): System {
    if Enabled(s, a) then Take(s, a) else s
  }

  function Initial(capacity: nat, now: int): System {
    System(capacity, now, None, map[], {}, 0, map[])
  }

  function Run(capacity: nat, now: int, actions: seq<Action>): System
    decreases |actions|
  {
    if actions == [] then Initial(capacity, now)
    else Step(Run(capacity, now, actions[..|actions| - 1]), actions[|actions| - 1])
  }

  // ---- The chain is a queue ----

  predicate AllDone(joins: seq<Join>, n: nat) {
    forall j :: 0 <= j < n && j < |joins| ==> joins[j].phase.Done?
  }

  predicate LinkInv(joins: seq<Join>) {
    forall i :: 0 <= i < |joins| ==>
      if joins[i].previous.Some? then joins[i].previous.value == i - 1
      else AllDone(joins, i)
  }

  predicate ChainInv(chain: Chain) {
    && LinkInv(chain.joins)
    && (if chain.tail.Some? then chain.tail.value == |chain.joins| - 1 else AllDone(chain.joins, |chain.joins|))
    && (forall i :: 0 <= i < |chain.joins| && !chain.joins[i].phase.Queued? ==> AllDone(chain.joins, i))
  }

  /** The linked promises resolve exactly when the whole prefix has finished. */
  lemma {:induction false} ResolvedIff(joins: seq<Join>, i: nat)
    requires LinkInv(joins) && i < |joins|
    ensures Resolved(joins, i) <==> AllDone(joins, i + 1)
  {
    if joins[i].previous.Some? {
      ResolvedIff(joins, i - 1);
    }
  }

  lemma MayEnterIff(joins: seq<Join>, i: nat)
    requires LinkInv(joins) && i < |joins|
    ensures MayEnter(joins, i) <==> joins[i].phase.Queued? && AllDone(joins, i)
  {
    if joins[i].previous.Some? {
      ResolvedIff(joins, i - 1);
    }
  }

  // ---- The system invariant ----

  predicate TicketInv(s: System, t: Ticket)
    requires Known(s, t)
  {
    var phase := JoinOf(s, t).phase;
    && (phase.HasLease() && s.now < phase.expiresAt ==> s.lease == Some(Lease(t, phase.expiresAt)))
    && (phase.Counted? ==> phase.restoredAt <= s.restored)
    && (phase.Counted? && phase.newcomer && s.now < phase.expiresAt ==>
          |s.members| < s.capacity + (s.restored - phase.restoredAt))
  }

  ghost predicate Inv(s: System) {
    && (forall p :: p in s.chains ==> ChainInv(s.chains[p]))
    && (forall t :: Known(s, t) ==> TicketInv(s, t))
  }

  lemma SetPhaseKeepsChain(chain: Chain, i: nat, phase: Phase)
    requires ChainInv(chain) && i < |chain.joins|
    requires !phase.Queued? && AllDone(chain.joins, i)
    requires chain.joins[i].phase.Done? ==> phase.Done?
    ensures var joins := chain.joins[i := chain.joins[i].(phase := phase)];
            && ChainInv(Chain(joins, chain.tail))
            && (chain.tail == Some(i) && phase.Done? ==> ChainInv(Chain(joins, None)))
  {
    var joins := chain.joins[i := chain.joins[i].(phase := phase)];
    assert forall n: nat :: AllDone(chain.joins, n) ==> AllDone(joins, n);
    if chain.joins[i].phase.Done? {
      assert joins == chain.joins;
    } else {
      assert forall k: nat :: i < k < |joins| ==> !AllDone(chain.joins, k);
      assert forall j: nat :: j < |joins| && !joins[j].phase.Queued? ==> j <= i;
    }
  }

  lemma ActiveIsFirst(s: System, t: Ticket)
    requires Inv(s) && Known(s, t) && !JoinOf(s, t).phase.Queued?
    ensures AllDone(s.chains[t.process].joins, t.index)
  {
    assert ChainInv(s.chains[t.process]);
  }

  lemma ReleaseKeepsInv(s: System, t: Ticket)
    requires Inv(s) && Known(s, t) && !JoinOf(s, t).phase.Queued?
    ensures Inv(Release(s, t))
  {
    hide ChainInv;
    ActiveIsFirst(s, t);
    assert ChainInv(s.chains[t.process]);
    SetPhaseKeepsChain(s.chains[t.process], t.index, Done);
    var after := Release(s, t);
    forall u | Known(after, u) ensures TicketInv(after, u) {
      assert Known(s, u) && TicketInv(s, u);
    }
  }

  lemma AdvanceKeepsChains(s: System, t: Ticket, phase: Phase)
    requires Inv(s) && Known(s, t) && !phase.Queued? && !phase.Done?
    requires !JoinOf(s, t).phase.Done? && AllDone(s.chains[t.process].joins, t.index)
    ensures forall p :: p in SetPhase(s, t, phase).chains ==> ChainInv(SetPhase(s, t, phase).chains[p])
  {
    hide ChainInv;
    assert ChainInv(s.chains[t.process]);
    SetPhaseKeepsChain(s.chains[t.process], t.index, phase);
  }

  lemma ArriveKeepsInv(s: System, p: ProcessId, sessionId: MemberId, token: Option<MemberId>)
    requires Inv(s)
    ensures Inv(Take(s, Arrive(p, sessionId, token)))
  {
    var chain := ChainOf(s, p);
    assert ChainInv(chain);
    var joins := chain.joins + [Join(sessionId, token, chain.tail, Queued)];
    assert forall j :: 0 <= j < |chain.joins| ==> joins[j] == chain.joins[j];
    forall n: nat | n <= |chain.joins| ensures AllDone(joins, n) <==> AllDone(chain.joins, n) {
      if AllDone(joins, n) {
        assert forall j :: 0 <= j < n ==> chain.joins[j] == joins[j];
      }
    }
    var after := Take(s, Arrive(p, sessionId, token));
    assert ChainInv(after.chains[p]);
    forall u | Known(after, u) ensures TicketInv(after, u) {
      assert Known(s, u) ==> TicketInv(s, u);
    }
  }

  /** Members may go, and each one a rollback brings back is counted. */
  lemma MembersKeepInv(s: System, after: System)
    requires Inv(s)
    requires after == s.(members := after.members, tokens := after.tokens, restored := after.restored)
    requires s.restored <= after.restored && |after.members| - |s.members| <= after.restored - s.restored
    ensures Inv(after)
  {
    hide ChainInv;
    forall u | Known(after, u) ensures TicketInv(after, u) {
      assert Known(s, u) && TicketInv(s, u);
    }
  }

  lemma WithoutSize(members: map<MemberId, Ticket>, memberId: MemberId)
    ensures |members - {memberId}| <= |members|
  {
    assert (members - {memberId}).Keys == members.Keys - {memberId};
    assert |members.Keys - {memberId}| <= |members.Keys|;
  }

  lemma WithSize(members: map<MemberId, Ticket>, memberId: MemberId, t: Ticket)
    ensures |members[memberId := t]| == if memberId in members then |members| else |members| + 1
  {
    assert members[memberId := t].Keys == members.Keys + {memberId};
  }

  lemma EnterIsFirst(s: System, t: Ticket)
    requires Inv(s) && Enabled(s, Enter(t))
    ensures AllDone(s.chains[t.process].joins, t.index)
  {
    assert ChainInv(s.chains[t.process]);
    MayEnterIff(s.chains[t.process].joins, t.index);
  }

  /** One join moves on: everybody else keeps what they knew, because whoever holds a live lease is
      the only one who can change the lease or add a member. */
  lemma AdvanceKeepsInv(s: System, t: Ticket, after: System)
    requires Inv(s) && Known(s, t) && AllDone(s.chains[t.process].joins, t.index)
    requires !JoinOf(s, t).phase.Done?
    requires exists phase ::
               && after == SetPhase(s, t, phase).(lease := after.lease, members := after.members, tokens := after.tokens)
               && !phase.Queued? && !phase.Done?
    requires Known(after, t) && TicketInv(after, t)
    requires after.lease == s.lease || LeaseFree(s)
    requires after.members == s.members || (JoinOf(s, t).phase.HasLease() && s.now < JoinOf(s, t).phase.expiresAt)
    ensures Inv(after)
  {
    hide ChainInv, AllDone;
    var phase :| && after == SetPhase(s, t, phase).(lease := after.lease, members := after.members, tokens := after.tokens)
                 && !phase.Queued? && !phase.Done?;
    AdvanceKeepsChains(s, t, phase);
    forall u | Known(after, u) ensures TicketInv(after, u) {
      assert Known(s, u) && TicketInv(s, u) && TicketInv(s, t);
      if u != t {
        assert JoinOf(after, u) == JoinOf(s, u);
      }
    }
  }

  lemma EnterKeepsInv(s: System, t: Ticket)
    requires Inv(s) && Enabled(s, Enter(t))
    ensures Inv(Take(s, Enter(t)))
  {
    hide ChainInv, AllDone;
    EnterIsFirst(s, t);
    AdvanceKeepsInv(s, t, Take(s, Enter(t)));
  }

  lemma AcquireKeepsInv(s: System, t: Ticket)
    requires Inv(s) && Enabled(s, TryAcquire(t))
    ensures Inv(Take(s, TryAcquire(t)))
  {
    hide ChainInv, AllDone, Release;
    ActiveIsFirst(s, t);
    if LeaseFree(s) {
      AdvanceKeepsInv(s, t, Take(s, TryAcquire(t)));
    } else if JoinOf(s, t).phase.deadline <= s.now {
      ReleaseKeepsInv(s, t);
    }
  }

  lemma CountKeepsInv(s: System, t: Ticket)
    requires Inv(s) && Enabled(s, Count(t))
    ensures Inv(Take(s, Count(t)))
  {
    hide ChainInv, AllDone, Release;
    ActiveIsFirst(s, t);
    if |s.members| >= s.capacity && Reconnects(s, JoinOf(s, t)).None? {
      ReleaseKeepsInv(s, t);
    } else {
      assert TicketInv(s, t);
      AdvanceKeepsInv(s, t, Take(s, Count(t)));
    }
  }

  lemma AddKeepsInv(s: System, t: Ticket)
    requires Inv(s) && Enabled(s, Add(t))
    ensures Inv(Take(s, Add(t)))
  {
    hide ChainInv, AllDone, Release;
    ActiveIsFirst(s, t);
    if JoinOf(s, t).phase.expiresAt <= s.now {
      ReleaseKeepsInv(s, t);
    } else {
      assert TicketInv(s, t);
      WithSize(s.members, JoinOf(s, t).phase.memberId, t);
      AdvanceKeepsInv(s, t, Take(s, Add(t)));
    }
  }

  lemma UnseatShrinks(s: System, memberId: MemberId, t: Ticket)
    ensures Unseat(s, memberId, t) == s.(members := Unseat(s, memberId, t).members)
    ensures |Unseat(s, memberId, t).members| <= |s.members|
    ensures Unseat(s, memberId, t).members.Keys <= s.members.Keys
  {
    WithoutSize(s.members, memberId);
  }

  lemma RollBackKeepsInv(s: System, t: Ticket)
    requires Inv(s) && Known(s, t) && JoinOf(s, t).phase.Added?
    ensures Inv(RollBack(s, t))
  {
    hide ChainInv, AllDone, Unseat;
    var phase := JoinOf(s, t).phase;
    var unseated := Unseat(s, phase.memberId, t);
    UnseatShrinks(s, phase.memberId, t);
    MembersKeepInv(s, unseated);
    ActiveIsFirst(unseated, t);
    assert TicketInv(s, t);
    AdvanceKeepsInv(unseated, t, RollBack(s, t));
  }

  lemma ConfirmKeepsInv(s: System, t: Ticket)
    requires Inv(s) && Enabled(s, Confirm(t))
    ensures Inv(Take(s, Confirm(t)))
  {
    hide ChainInv, AllDone, RollBack;
    ActiveIsFirst(s, t);
    if s.now < JoinOf(s, t).phase.expiresAt {
      assert TicketInv(s, t);
      AdvanceKeepsInv(s, t, Take(s, Confirm(t)));
    } else {
      RollBackKeepsInv(s, t);
    }
  }

  lemma ReseatCounts(s: System, memberId: MemberId, previous: Option<Ticket>, t: Ticket)
    ensures var after := Reseat(s, memberId, previous, t);
            && after == s.(members := after.members, restored := after.restored)
            && s.restored <= after.restored
            && |after.members| == |s.members| + (after.restored - s.restored)
            && after.members.Keys == if after.restored > s.restored then s.members.Keys + {memberId} else s.members.Keys
  {
    if previous.Some? {
      WithSize(s.members, memberId, previous.value);
    }
  }

  lemma RestoreKeepsInv(s: System, t: Ticket)
    requires Inv(s) && Enabled(s, Restore(t))
    ensures Inv(Take(s, Restore(t)))
  {
    hide Inv, Release, Reseat;
    var phase := JoinOf(s, t).phase;
    ReseatCounts(s, phase.memberId, phase.previous, t);
    var reseated := Reseat(s, phase.memberId, phase.previous, t);
    MembersKeepInv(s, reseated);
    ReleaseKeepsInv(reseated, t);
  }

  lemma TickKeepsInv(s: System, at: int)
    requires Inv(s) && s.now <= at
    ensures Inv(s.(now := at))
  {
    hide ChainInv;
    forall u | Known(s, u) ensures TicketInv(s.(now := at), u) {
      assert TicketInv(s, u);
    }
  }

  lemma TakeKeepsInv(s: System, a: Action)
    requires Inv(s) && Enabled(s, a)
    ensures Inv(Take(s, a))
  {
    hide Inv;
    match a
    case Arrive(p, sessionId, token) => ArriveKeepsInv(s, p, sessionId, token);
    case Enter(t) => EnterKeepsInv(s, t);
    case TryAcquire(t) => AcquireKeepsInv(s, t);
    case Count(t) => CountKeepsInv(s, t);
    case Add(t) => AddKeepsInv(s, t);
    case Confirm(t) => ConfirmKeepsInv(s, t);
    case FailFlush(t) => RollBackKeepsInv(s, t);
    case Restore(t) => RestoreKeepsInv(s, t);
    case Finish(t) => ReleaseKeepsInv(s, t);
    case Leave(memberId, explicit) =>
      WithoutSize(s.members, memberId);
      MembersKeepInv(s, Take(s, a));
    case Tick(at) => TickKeepsInv(s, at);
  }

  lemma InitialInv(capacity: nat, now: int)
    ensures Inv(Initial(capacity, now))
  {
  }

  lemma {:induction false} RunInv(capacity: nat, now: int, actions: seq<Action>)
    ensures Inv(Run(capacity, now, actions))
    decreases |actions|
  {
    hide Take, Inv;
    if actions == [] {
      assert Inv(Initial(capacity, now)) by { InitialInv(capacity, now); }
    } else {
      var before, a := Run(capacity, now, actions[..|actions| - 1]), actions[|actions| - 1];
      RunInv(capacity, now, actions[..|actions| - 1]);
      if Enabled(before, a) {
        TakeKeepsInv(before, a);
      }
    }
  }

  // ---- One step of one join ----

  /** A waiting join asks for the lease for five seconds, from the moment it enters. Each time it gets a
      lease of thirty seconds iff none is live, gives up iff the five seconds are over, and otherwise
      waits on. */
  lemma PollOutcome(s: System, t: Ticket)
    requires Known(s, t)
    ensures Enabled(s, Enter(t)) ==> JoinOf(Take(s, Enter(t)), t).phase == Polling(s.now + 5_000)
    ensures Enabled(s, TryAcquire(t)) ==>
              var after, live := Take(s, TryAcquire(t)), s.lease.Some? && s.now < s.lease.value.expiresAt;
              && Known(after, t)
              && (if !live then JoinOf(after, t).phase == Admitted(s.now + 30_000) && after.lease == Some(Lease(t, s.now + 30_000))
                  else after.lease == s.lease
                       && JoinOf(after, t).phase == if JoinOf(s, t).phase.deadline <= s.now then Done else JoinOf(s, t).phase)
  {
  }

  /** A join passes the count iff it comes back with a token the room knows or finds a seat free; it is
      then that member, and otherwise a newcomer under its session's id. */
  lemma CountOutcome(s: System, t: Ticket)
    requires Enabled(s, Count(t))
    ensures var join, after := JoinOf(s, t), Take(s, Count(t));
            var known := join.token.Some? && join.token.value in s.tokens;
            && Known(after, t) && after.members == s.members && after.tokens == s.tokens
            && JoinOf(after, t).phase ==
               if known || |s.members| < s.capacity then
                 Counted(join.phase.expiresAt, if known then join.token.value else join.sessionId, !known, s.restored)
               else Done
  {
  }

  /** A rollback takes away the seat only where the join still holds it, and gives it back to the session it
      had replaced unless somebody else holds it by then. Nobody else's seat is touched. */
  lemma RollbackOutcome(s: System, t: Ticket)
    requires Known(s, t)
    ensures JoinOf(s, t).phase.Added? ==>
              var memberId, after := JoinOf(s, t).phase.memberId, Take(s, FailFlush(t));
              after.members == if memberId in s.members && s.members[memberId] == t then s.members - {memberId} else s.members
    ensures JoinOf(s, t).phase.RollingBack? ==>
              var phase, after := JoinOf(s, t).phase, Take(s, Restore(t));
              after.members == if phase.previous.Some? && (phase.memberId in s.members ==> s.members[phase.memberId] == t)
                               then s.members[phase.memberId := phase.previous.value] else s.members
  {
  }

  // ---- Which tokens a room knows ----

  predicate TokenGiven(s: System, a: Action, memberId: MemberId) {
    && a.Add? && Enabled(s, a)
    && JoinOf(s, a.t).phase.memberId == memberId && s.now < JoinOf(s, a.t).phase.expiresAt
  }

  ghost predicate TokenGivenAt(capacity: nat, now: int, actions: seq<Action>, i: nat, memberId: MemberId)
    requires i < |actions|
  {
    && TokenGiven(Run(capacity, now, actions[..i]), actions[i], memberId)
    && forall j :: i < j < |actions| ==> actions[j] != Leave(memberId, true)
  }

  lemma TokenStep(s: System, a: Action, memberId: MemberId)
    ensures memberId in Step(s, a).tokens <==>
            TokenGiven(s, a, memberId) || (memberId in s.tokens && a != Leave(memberId, true))
  {
    hide MayEnter, Resolved;
  }

  /** A member's token is known iff the member was added and has since not left for good: dropping out, being
      rolled back or replaced keeps it. */
  lemma {:induction false} TokenKnownIff(capacity: nat, now: int, actions: seq<Action>, memberId: MemberId)
    ensures memberId in Run(capacity, now, actions).tokens <==>
            exists i: nat :: i < |actions| && TokenGivenAt(capacity, now, actions, i, memberId)
    decreases |actions|
  {
    hide Step, TokenGiven;
    if actions == [] {
    } else {
      var last := |actions| - 1;
      var front, a := actions[..last], actions[last];
      TokenKnownIff(capacity, now, front, memberId);
      TokenStep(Run(capacity, now, front), a, memberId);
      assert forall j :: 0 <= j <= last ==> front[..j] == actions[..j];
      if exists i: nat :: i < |actions| && TokenGivenAt(capacity, now, actions, i, memberId) {
        var i: nat :| i < |actions| && TokenGivenAt(capacity, now, actions, i, memberId);
        if i < last {
          assert TokenGivenAt(capacity, now, front, i, memberId);
        }
      }
      if TokenGiven(Run(capacity, now, front), a, memberId) {
        assert TokenGivenAt(capacity, now, actions, last, memberId);
      }
      if memberId in Run(capacity, now, front).tokens && a != Leave(memberId, true) {
        var i: nat :| i < last && TokenGivenAt(capacity, now, front, i, memberId);
        assert TokenGivenAt(capacity, now, actions, i, memberId);
      }
    }
  }

  // ---- Main results ----

  /** In every interleaving, joins of one process pass through one at a time, in arrival order. */
  lemma OneAtATimeInOrder(capacity: nat, now: int, actions: seq<Action>, s: System, p: ProcessId, i: nat, j: nat)
    requires s == Run(capacity, now, actions) && Known(s, Ticket(p, i)) && Known(s, Ticket(p, j)) && i < j
    requires !JoinOf(s, Ticket(p, j)).phase.Queued?
    ensures JoinOf(s, Ticket(p, i)).phase.Done?
  {
    hide Take;
    RunInv(capacity, now, actions);
    assert ChainInv(s.chains[p]);
    assert AllDone(s.chains[p].joins, j);
  }

  /** A waiting join may enter exactly when everybody who arrived before it in its process is through,
      so nobody waits for nothing. */
  lemma EntersIffEarlierFinished(capacity: nat, now: int, actions: seq<Action>, s: System, t: Ticket)
    requires s == Run(capacity, now, actions) && Known(s, t) && JoinOf(s, t).phase.Queued?
    ensures Enabled(s, Enter(t)) <==>
            forall i :: 0 <= i < t.index ==> JoinOf(s, Ticket(t.process, i)).phase.Done?
  {
    hide Take;
    RunInv(capacity, now, actions);
    assert ChainInv(s.chains[t.process]);
    MayEnterIff(s.chains[t.process].joins, t.index);
    assert forall i: nat :: i < t.index ==> JoinOf(s, Ticket(t.process, i)) == s.chains[t.process].joins[i];
  }

  /** Over all processes at most one join holds a lease that is still live. */
  lemma OneLiveLease(capacity: nat, now: int, actions: seq<Action>, s: System, t: Ticket, u: Ticket)
    requires s == Run(capacity, now, actions) && Known(s, t) && Known(s, u)
    requires JoinOf(s, t).phase.HasLease() && s.now < JoinOf(s, t).phase.expiresAt
    requires JoinOf(s, u).phase.HasLease() && s.now < JoinOf(s, u).phase.expiresAt
    ensures t == u
  {
    hide Take;
    RunInv(capacity, now, actions);
    assert TicketInv(s, t) && TicketInv(s, u);
  }

  lemma ReleaseKeepsMembers(s: System, t: Ticket)
    requires Known(s, t)
    ensures Release(s, t).members == s.members && Release(s, t).restored == s.restored
  {
  }

  lemma OnlyAddAndRestoreGrow(s: System, a: Action)
    requires !(Step(s, a).members.Keys <= s.members.Keys)
    ensures Enabled(s, a) && (a.Add? || a.Restore?)
    ensures a.Add? ==>
              && s.now < JoinOf(s, a.t).phase.expiresAt
              && Step(s, a).members.Keys == s.members.Keys + {JoinOf(s, a.t).phase.memberId}
    ensures a.Restore? ==>
              var phase := JoinOf(s, a.t).phase;
              && Step(s, a).members.Keys == Reseat(s, phase.memberId, phase.previous, a.t).members.Keys
              && Step(s, a).restored == Reseat(s, phase.memberId, phase.previous, a.t).restored
  {
    hide Release, Unseat, Reseat, MayEnter;
    match a
    case Confirm(t) => UnseatShrinks(s, JoinOf(s, t).phase.memberId, t);
    case FailFlush(t) => UnseatShrinks(s, JoinOf(s, t).phase.memberId, t);
    case Add(t) => ReleaseKeepsMembers(s, t);
    case Restore(t) =>
      ReseatCounts(s, JoinOf(s, t).phase.memberId, JoinOf(s, t).phase.previous, t);
      ReleaseKeepsMembers(Reseat(s, JoinOf(s, t).phase.memberId, JoinOf(s, t).phase.previous, t), t);
    case TryAcquire(t) => ReleaseKeepsMembers(s, t);
    case Count(t) => ReleaseKeepsMembers(s, t);
    case Finish(t) => ReleaseKeepsMembers(s, t);
    case _ =>
  }

  /** A member appears only by the holder of the live lease adding it, or by a rollback returning the
      seat it had taken over. */
  lemma GrowthIsAddOrRestore(capacity: nat, now: int, actions: seq<Action>, s: System, a: Action)
    requires s == Run(capacity, now, actions)
    requires !(Step(s, a).members.Keys <= s.members.Keys)
    ensures (a.Add? || a.Restore?) && Known(s, a.t)
    ensures a.Add? ==>
              && JoinOf(s, a.t).phase.Counted?
              && Step(s, a).members.Keys == s.members.Keys + {JoinOf(s, a.t).phase.memberId}
              && s.lease == Some(Lease(a.t, JoinOf(s, a.t).phase.expiresAt)) && s.now < s.lease.value.expiresAt
    ensures a.Restore? ==>
              && JoinOf(s, a.t).phase.RollingBack? && JoinOf(s, a.t).phase.previous.Some?
              && Step(s, a).members.Keys == s.members.Keys + {JoinOf(s, a.t).phase.memberId}
              && Step(s, a).restored == s.restored + 1
  {
    RunInv(capacity, now, actions);
    OnlyAddAndRestoreGrow(s, a);
    if a.Add? {
      assert TicketInv(s, a.t);
    } else {
      ReseatCounts(s, JoinOf(s, a.t).phase.memberId, JoinOf(s, a.t).phase.previous, a.t);
    }
  }

  lemma StepKeepsCapacity(s: System, a: Action)
    ensures Step(s, a).capacity == s.capacity
  {
    hide Unseat, Reseat, MayEnter, Resolved;
    if (a.Confirm? || a.FailFlush?) && Enabled(s, a) {
      UnseatShrinks(s, JoinOf(s, a.t).phase.memberId, a.t);
    } else if a.Restore? && Enabled(s, a) {
      ReseatCounts(s, JoinOf(s, a.t).phase.memberId, JoinOf(s, a.t).phase.previous, a.t);
    }
  }

  lemma {:induction false} CapacityFixed(capacity: nat, now: int, actions: seq<Action>)
    ensures Run(capacity, now, actions).capacity == capacity
    decreases |actions|
  {
    hide Step;
    if actions == [] {
    } else {
      CapacityFixed(capacity, now, actions[..|actions| - 1]);
      StepKeepsCapacity(Run(capacity, now, actions[..|actions| - 1]), actions[|actions| - 1]);
    }
  }

  /** Whatever the interleaving, a newcomer leaves the room at most as far above its capacity as seats
      were restored by rollbacks since it was counted: within capacity if there was none. */
  lemma NewcomerFits(capacity: nat, now: int, actions: seq<Action>, s: System, t: Ticket)
    requires s == Run(capacity, now, actions) && Known(s, t)
    requires JoinOf(s, t).phase.Counted? && JoinOf(s, t).phase.newcomer
    requires Step(s, Add(t)).members != s.members
    ensures JoinOf(s, t).phase.restoredAt <= s.restored
    ensures |Step(s, Add(t)).members| <= capacity + (s.restored - JoinOf(s, t).phase.restoredAt)
  {
    RunInv(capacity, now, actions);
    assert TicketInv(s, t);
    CapacityFixed(capacity, now, actions);
    WithSize(s.members, JoinOf(s, t).phase.memberId, t);
  }

  lemma {:induction false} NothingRestored(capacity: nat, now: int, actions: seq<Action>)
    requires forall a <- actions :: !a.Restore?
    ensures Run(capacity, now, actions).restored == 0
    decreases |actions|
  {
    if actions == [] {
    } else {
      var front, a := actions[..|actions| - 1], actions[|actions| - 1];
      assert a in actions && forall b <- front :: b in actions;
      NothingRestored(capacity, now, front);
    }
  }

  /** With additions that take effect at once (no rollback in the run), a newcomer always fits. */
  lemma AtomicNewcomerFits(capacity: nat, now: int, actions: seq<Action>, s: System, t: Ticket)
    requires s == Run(capacity, now, actions) && Known(s, t)
    requires forall a <- actions :: !a.Restore?
    requires JoinOf(s, t).phase.Counted? && JoinOf(s, t).phase.newcomer
    requires Step(s, Add(t)).members != s.members
    ensures |Step(s, Add(t)).members| <= capacity
  {
    hide Step;
    NewcomerFits(capacity, now, actions, s, t);
    NothingRestored(capacity, now, actions);
  }

  lemma SubMapSize(inner: map<MemberId, Ticket>, outer: map<MemberId, Ticket>)
    requires inner.Keys <= outer.Keys
    ensures |inner| <= |outer|
  {
    SubsetSize(inner.Keys, outer.Keys);
    assert |inner| == |inner.Keys| && |outer| == |outer.Keys|;
  }

  lemma AddOrRestoreMembers(s: System, a: Action)
    requires Inv(s) && (a.Add? || a.Restore?) && Enabled(s, a)
    ensures var phase := JoinOf(s, a.t).phase;
            var grows := phase.memberId !in s.members
                         && if a.Add? then s.now < phase.expiresAt else phase.previous.Some?;
            |Step(s, a).members| == if grows then |s.members| + 1 else |s.members|
    ensures a.Add? && JoinOf(s, a.t).phase.newcomer && s.now < JoinOf(s, a.t).phase.expiresAt ==>
              |s.members| < s.capacity + (s.restored - JoinOf(s, a.t).phase.restoredAt)
  {
    hide Release, ChainInv, AllDone;
    var phase := JoinOf(s, a.t).phase;
    assert TicketInv(s, a.t);
    if a.Add? {
      ReleaseKeepsMembers(s, a.t);
      WithSize(s.members, phase.memberId, a.t);
    } else {
      var reseated := Reseat(s, phase.memberId, phase.previous, a.t);
      ReseatCounts(s, phase.memberId, phase.previous, a.t);
      ReleaseKeepsMembers(reseated, a.t);
    }
  }

  /** The only steps by which a room outgrows its capacity: an absent member added while the room is
      full, which is a reconnect unless a seat was restored behind the count, and a restored seat. */
  lemma OutgrowsIff(capacity: nat, now: int, actions: seq<Action>, s: System, a: Action)
    requires s == Run(capacity, now, actions) && |s.members| <= capacity
    ensures |Step(s, a).members| > capacity <==>
            && |s.members| == capacity && (a.Add? || a.Restore?) && Known(s, a.t)
            && var phase := JoinOf(s, a.t).phase;
               if a.Add? then phase.Counted? && s.now < phase.expiresAt && phase.memberId !in s.members
               else phase.RollingBack? && phase.previous.Some? && phase.memberId !in s.members
    ensures |Step(s, a).members| > capacity && a.Add? && JoinOf(s, a.t).phase.newcomer ==>
              JoinOf(s, a.t).phase.restoredAt < s.restored
  {
    hide Take, Inv, SetPhase, Release, Reseat;
    RunInv(capacity, now, actions);
    CapacityFixed(capacity, now, actions);
    if !(Step(s, a).members.Keys <= s.members.Keys) {
      OnlyAddAndRestoreGrow(s, a);
    } else {
      SubMapSize(Step(s, a).members, s.members);
    }
    if (a.Add? || a.Restore?) && Enabled(s, a) {
      AddOrRestoreMembers(s, a);
    }
  }
}
