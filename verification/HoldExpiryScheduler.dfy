/** One timer per room with an active hold. The host's timer table is part of the state, so that
    "a timer is live" and "an entry exists" can be compared. */
module HoldExpiryScheduler {
  import opened PlaybackModel
  import opened PlaybackCoordinator

  const EXPIRY_RETRY_DELAY_MS := 1_000

  type TimerId = nat
  type ExpiryId = nat

  datatype Entry = Entry(deadline: int, timer: TimerId)

  datatype Timer = Timer(roomCode: string, deadline: int, fireAt: int)

  // An expiry first waits for the release, then, if that changed the room, for the broadcast.
  datatype Phase = Releasing | Publishing

  datatype Expiry = Expiry(roomCode: string, deadline: int, phase: Phase)

  /** `watched` records the rooms whose last observed hold was active and that were not forgotten. */
  datatype State = State(
    entries: map<string, Entry>,
    timers: map<TimerId, Timer>,
    nextTimer: TimerId,
    stopped: bool,
    inFlight: map<ExpiryId, Expiry>,
    nextExpiry: ExpiryId,
    now: int,
    watched: set<string>)

  function Drop(s: State, roomCode: string): State {
    if roomCode !in s.entries then s
    else s.(timers := s.timers - {s.entries[roomCode].timer}, entries := s.entries - {roomCode})
  }

  function Schedule(s: State, roomCode: string, deadline: int, delayMs: int, replaceSameDeadline: bool): State {
    if s.stopped then s
    else if roomCode in s.entries && s.entries[roomCode].deadline == deadline && !replaceSameDeadline then s
    else
      var cleared := Drop(s, roomCode);
      cleared.(entries := cleared.entries[roomCode := Entry(deadline, s.nextTimer)],
               timers := cleared.timers[s.nextTimer := Timer(roomCode, deadline, s.now + delayMs)],
               nextTimer := s.nextTimer + 1)
  }

  function UntilDeadline(deadline: int, now: int): int {
    if deadline - now > 1 then deadline - now else 1
  }

  function Observe(s: State, roomCode: string, sync: SyncState): State {
    if roomCode == "" then s
    else
      match HoldDeadline(sync)
      case None => Drop(s, roomCode).(watched := s.watched - {roomCode})
      case Some(deadline) =>
        Schedule(s, roomCode, deadline, UntilDeadline(deadline, s.now), false).(watched := s.watched + {roomCode})
  }

  function Forget(s: State, roomCode: string): State {
    Drop(s, roomCode).(watched := s.watched - {roomCode})
  }

  function Fire(s: State, timer: TimerId): State
    requires timer in s.timers
  {
    var fired := s.timers[timer];
    var rest := s.(timers := s.timers - {timer});
    if fired.roomCode !in s.entries || s.entries[fired.roomCode].timer != timer then rest
    else rest.(entries := s.entries - {fired.roomCode},
               inFlight := s.inFlight[s.nextExpiry := Expiry(fired.roomCode, fired.deadline, Releasing)],
               nextExpiry := s.nextExpiry + 1)
  }

  // The release answered with the room it saw, or with no room at all.
  function ReleaseReturned(s: State, id: ExpiryId, room: Option<SyncState>, changed: bool): State
    requires id in s.inFlight
  {
    var roomCode := s.inFlight[id].roomCode;
    var observed := if room.Some? then Observe(s, roomCode, room.value) else s;
    if changed then observed.(inFlight := observed.inFlight[id := s.inFlight[id].(phase := Publishing)])
    else observed.(inFlight := observed.inFlight - {id})
  }

  function Threw(s: State, id: ExpiryId): State
    requires id in s.inFlight
  {
    var expiry := s.inFlight[id];
    var rest := s.(inFlight := s.inFlight - {id});
    if expiry.roomCode in s.entries then rest
    else Schedule(rest, expiry.roomCode, expiry.deadline, EXPIRY_RETRY_DELAY_MS, true)
  }

  function Stop(s: State): State {
    s.(stopped := true, entries := map[],
       timers := s.timers - set roomCode | roomCode in s.entries :: s.entries[roomCode].timer)
  }

  datatype Event =
    | Observed(roomCode: string, sync: SyncState)
    | Forgotten(roomCode: string)
    | Fired(timer: TimerId)
    | Returned(id: ExpiryId, room: Option<SyncState>, changed: bool)
    | Published(id: ExpiryId)
    | Failed(id: ExpiryId)
    | Stopped
    | Tick(at: int)

  predicate Enabled(s: State, e: Event) {
    match e
    case Fired(timer) => timer in s.timers && s.timers[timer].fireAt <= s.now
    case Returned(id, _, _) => id in s.inFlight && s.inFlight[id].phase == Releasing
    case Published(id) => id in s.inFlight && s.inFlight[id].phase == Publishing
    case Failed(id) => id in s.inFlight
    case Tick(at) => s.now <= at
    case _ => true
  }

  function Step(s: State, e: Event): State {
    if !Enabled(s, e) then s
    else
      match e
      case Observed(roomCode, sync) => Observe(s, roomCode, sync)
      case Forgotten(roomCode) => Forget(s, roomCode)
      case Fired(timer) => Fire(s, timer)
      case Returned(id, room, changed) => ReleaseReturned(s, id, room, changed)
      case Published(id) => s.(inFlight := s.inFlight - {id})
      case Failed(id) => Threw(s, id)
      case Stopped => Stop(s)
      case Tick(at) => s.(now := at)
  }

  function Initial(now: int): State {
    State(map[], map[], 0, false, map[], 0, now, {})
  }

  function Run(now: int, events: seq<Event>): State
    decreases |events|
  {
    if events == [] then Initial(now) else Step(Run(now, events[..|events| - 1]), events[|events| - 1])
  }

  // ---- Invariants ----

  /** Entries and live timers correspond one to one, and no timer fires before its deadline. */
  predicate Agreement(s: State) {
    && (forall r :: r in s.entries ==>
          && s.entries[r].timer in s.timers
          && s.timers[s.entries[r].timer].roomCode == r
          && s.timers[s.entries[r].timer].deadline == s.entries[r].deadline)
    && (forall t :: t in s.timers ==>
          && t < s.nextTimer
          && s.timers[t].deadline <= s.timers[t].fireAt
          && s.timers[t].roomCode in s.entries
          && s.entries[s.timers[t].roomCode].timer == t)
    && (forall x :: x in s.inFlight ==> x < s.nextExpiry && s.inFlight[x].deadline <= s.now)
    && (s.stopped ==> s.entries == map[] && s.timers == map[])
  }

  predicate BeingReleased(s: State, roomCode: string) {
    exists x :: x in s.inFlight && s.inFlight[x] == Expiry(roomCode, s.inFlight[x].deadline, Releasing)
  }

  predicate Pending(s: State, roomCode: string) {
    roomCode in s.entries || BeingReleased(s, roomCode)
  }

  predicate Attended(s: State) {
    "" !in s.watched && (!s.stopped ==> forall r :: r in s.watched ==> Pending(s, r))
  }

  lemma DropKeepsAgreement(s: State, roomCode: string)
    requires Agreement(s)
    ensures Agreement(Drop(s, roomCode)) && roomCode !in Drop(s, roomCode).entries
  {
  }

  lemma DropCounters(s: State, roomCode: string)
    ensures var after := Drop(s, roomCode);
            after == s.(entries := after.entries, timers := after.timers)
  {
  }

  lemma ScheduleKeepsAgreement(s: State, roomCode: string, deadline: int, delayMs: int, replace: bool)
    requires Agreement(s) && deadline <= s.now + delayMs
    ensures Agreement(Schedule(s, roomCode, deadline, delayMs, replace))
    ensures !s.stopped ==> roomCode in Schedule(s, roomCode, deadline, delayMs, replace).entries
  {
    hide Drop;
    DropKeepsAgreement(s, roomCode);
    DropCounters(s, roomCode);
  }

  lemma ObserveKeepsAgreement(s: State, roomCode: string, sync: SyncState)
    requires Agreement(s)
    ensures Agreement(Observe(s, roomCode, sync))
  {
    hide Drop, Schedule;
    var deadline := HoldDeadline(sync);
    if deadline.None? {
      DropKeepsAgreement(s, roomCode);
    } else {
      ScheduleKeepsAgreement(s, roomCode, deadline.value, UntilDeadline(deadline.value, s.now), false);
    }
  }

  lemma ObserveKeepsExpiries(s: State, roomCode: string, sync: SyncState)
    ensures var after := Observe(s, roomCode, sync);
            after == s.(entries := after.entries, timers := after.timers, nextTimer := after.nextTimer, watched := after.watched)
  {
  }

  lemma FireKeepsAgreement(s: State, timer: TimerId)
    requires Agreement(s) && timer in s.timers && s.timers[timer].fireAt <= s.now
    ensures Agreement(Fire(s, timer))
  {
  }

  lemma StopKeepsAgreement(s: State)
    requires Agreement(s)
    ensures Agreement(Stop(s))
  {
    assert forall t :: t in s.timers ==> t == s.entries[s.timers[t].roomCode].timer;
  }

  lemma StepKeepsAgreement(s: State, e: Event)
    requires Agreement(s)
    ensures Agreement(Step(s, e))
  {
    hide Drop, Schedule, Observe, Fire, Stop;
    match e
    case Observed(roomCode, sync) => ObserveKeepsAgreement(s, roomCode, sync);
    case Forgotten(roomCode) => DropKeepsAgreement(s, roomCode);
    case Returned(id, room, changed) =>
      if Enabled(s, e) && room.Some? {
        ObserveKeepsAgreement(s, s.inFlight[id].roomCode, room.value);
        ObserveKeepsExpiries(s, s.inFlight[id].roomCode, room.value);
      }
    case Failed(id) =>
      if Enabled(s, e) {
        var rest := s.(inFlight := s.inFlight - {id});
        ScheduleKeepsAgreement(rest, s.inFlight[id].roomCode, s.inFlight[id].deadline, EXPIRY_RETRY_DELAY_MS, true);
      }
    case Fired(timer) =>
      if Enabled(s, e) {
        FireKeepsAgreement(s, timer);
      }
    case Stopped => StopKeepsAgreement(s);
    case _ =>
  }

  /** In every run live timers and entries are in bijection, no timer fires early, and nothing is
      scheduled once the scheduler has stopped. */
  lemma {:induction false} TimersMatchEntries(now: int, events: seq<Event>)
    ensures Agreement(Run(now, events))
    decreases |events|
  {
    hide Step;
    if events == [] {
    } else {
      TimersMatchEntries(now, events[..|events| - 1]);
      StepKeepsAgreement(Run(now, events[..|events| - 1]), events[|events| - 1]);
    }
  }

  lemma StaysStopped(s: State, e: Event)
    requires Agreement(s) && s.stopped
    ensures Step(s, e).stopped && Step(s, e).timers == map[]
  {
    StepKeepsAgreement(s, e);
  }

  /** An observed room is scheduled iff its hold is active, then at that hold's deadline, and no other
      room's entry is touched. */
  lemma ObservationDecides(s: State, roomCode: string, sync: SyncState)
    requires Agreement(s) && !s.stopped && roomCode != ""
    ensures var after := Observe(s, roomCode, sync);
            && (roomCode in after.entries <==> sync.hold.active)
            && (sync.hold.active ==>
                  && HoldDeadline(sync) == Some(after.entries[roomCode].deadline)
                  && after.entries[roomCode].timer in after.timers)
            && after.entries - {roomCode} == s.entries - {roomCode}
            && (roomCode in s.entries && HoldDeadline(sync) == Some(s.entries[roomCode].deadline) ==>
                  after.entries == s.entries && after.timers == s.timers)
  {
    StepKeepsAgreement(s, Observed(roomCode, sync));
  }

  lemma ObservationScope(s: State, roomCode: string, sync: SyncState, r: string)
    requires !s.stopped && r in Observe(s, roomCode, sync).watched && "" !in s.watched
    ensures r in Observe(s, roomCode, sync).entries || (r != roomCode && r in s.watched && r !in s.entries)
  {
  }

  lemma RetryScope(s: State, roomCode: string, deadline: int, r: string)
    requires !s.stopped
    ensures var after := Schedule(s, roomCode, deadline, EXPIRY_RETRY_DELAY_MS, true);
            && after.inFlight == s.inFlight && after.watched == s.watched
            && (r in after.entries <==> r == roomCode || r in s.entries)
  {
  }

  lemma DropScope(s: State, roomCode: string, r: string)
    ensures var after := Drop(s, roomCode);
            && after.inFlight == s.inFlight && after.watched == s.watched
            && (r in after.entries <==> r != roomCode && r in s.entries)
  {
  }

  lemma AgreementFacts(s: State, timer: TimerId)
    requires Agreement(s) && timer in s.timers
    ensures s.timers[timer].roomCode in s.entries && s.entries[s.timers[timer].roomCode].timer == timer
    ensures forall x :: x in s.inFlight ==> x < s.nextExpiry
  {
  }

  lemma PendingPersists(s: State, e: Event, r: string)
    requires Agreement(s) && Enabled(s, e) && !s.stopped
    requires "" !in s.watched && (r in s.watched ==> Pending(s, r))
    requires !(e.Returned? && e.room.None?)
    requires r in Step(s, e).watched && !Step(s, e).stopped
    ensures Pending(Step(s, e), r)
  {
    hide Drop, Schedule, Observe, Agreement;
    var after := Step(s, e);
    match e {
      case Observed(roomCode, sync) =>
        ObservationScope(s, roomCode, sync, r);
        ObserveKeepsExpiries(s, roomCode, sync);
      case Returned(id, room, _) =>
        ObservationScope(s, s.inFlight[id].roomCode, room.value, r);
        ObserveKeepsExpiries(s, s.inFlight[id].roomCode, room.value);
      case Forgotten(roomCode) => DropScope(s, roomCode, r);
      case Failed(id) => RetryScope(s.(inFlight := s.inFlight - {id}), s.inFlight[id].roomCode, s.inFlight[id].deadline, r);
      case Fired(timer) =>
        AgreementFacts(s, timer);
        if r == s.timers[timer].roomCode {
          assert after.inFlight[s.nextExpiry] == Expiry(r, after.inFlight[s.nextExpiry].deadline, Releasing);
        }
      case _ =>
    }
    if r !in after.entries && r !in s.entries {
      var x :| x in s.inFlight && s.inFlight[x] == Expiry(r, s.inFlight[x].deadline, Releasing);
      assert after.inFlight[x] == Expiry(r, after.inFlight[x].deadline, Releasing);
    }
  }

  lemma StepKeepsAttended(s: State, e: Event)
    requires Agreement(s) && Attended(s)
    requires !(e.Returned? && e.room.None?)
    ensures Attended(Step(s, e))
  {
    if Enabled(s, e) && !s.stopped {
      forall r | r in Step(s, e).watched && !Step(s, e).stopped ensures Pending(Step(s, e), r) {
        PendingPersists(s, e, r);
      }
    }
  }

  /** While releases answer with a room or throw, every room last seen with an active hold and not
      forgotten has a timer or a release in flight. */
  lemma {:induction false} NoHoldIsAbandoned(now: int, events: seq<Event>)
    requires forall e <- events :: !(e.Returned? && e.room.None?)
    ensures Attended(Run(now, events))
    decreases |events|
  {
    hide Step;
    if events == [] {
    } else {
      var front := events[..|events| - 1];
      NoHoldIsAbandoned(now, front);
      TimersMatchEntries(now, front);
      StepKeepsAttended(Run(now, front), events[|events| - 1]);
    }
  }

  /** An answer without a room abandons the room iff it is still watched and this release was the last
      thing pending for it. */
  lemma RoomlessAnswerAbandonsIff(s: State, id: ExpiryId, changed: bool)
    requires Agreement(s) && Attended(s) && !s.stopped
    requires id in s.inFlight && s.inFlight[id].phase == Releasing
    ensures var roomCode := s.inFlight[id].roomCode;
            Attended(Step(s, Returned(id, None, changed))) <==>
            || roomCode !in s.watched
            || roomCode in s.entries
            || exists x :: x in s.inFlight && x != id && s.inFlight[x].phase == Releasing && s.inFlight[x].roomCode == roomCode
  {
    var after := Step(s, Returned(id, None, changed));
    var roomCode := s.inFlight[id].roomCode;
    forall r | r in s.watched && r != roomCode ensures Pending(after, r) {
      if r !in s.entries {
        var x :| x in s.inFlight && s.inFlight[x] == Expiry(r, s.inFlight[x].deadline, Releasing);
        assert after.inFlight[x] == Expiry(r, after.inFlight[x].deadline, Releasing);
      }
    }
    if x :| x in s.inFlight && x != id && s.inFlight[x].phase == Releasing && s.inFlight[x].roomCode == roomCode {
      assert after.inFlight[x] == Expiry(roomCode, after.inFlight[x].deadline, Releasing);
    }
  }

  // ---- When timers fire ----

  function Later(a: int, b: int): int {
    if a < b then b else a
  }

  /** Observing an active hold for a room that is not scheduled at its deadline arms one timer, for the
      deadline, or for the next millisecond if that has come. */
  lemma ObservationArms(s: State, roomCode: string, sync: SyncState)
    requires Agreement(s) && !s.stopped && roomCode != "" && HoldDeadline(sync).Some?
    requires roomCode in s.entries ==> s.entries[roomCode].deadline != HoldDeadline(sync).value
    ensures var after, deadline := Observe(s, roomCode, sync), HoldDeadline(sync).value;
            && roomCode in after.entries && after.entries[roomCode].timer !in s.timers
            && after.timers[after.entries[roomCode].timer] == Timer(roomCode, deadline, Later(deadline, s.now + 1))
            && after.timers.Keys == {after.entries[roomCode].timer}
               + s.timers.Keys - (if roomCode in s.entries then {s.entries[roomCode].timer} else {})
  {
  }

  /** A release or publication that throws is tried again a second later, unless the room has been
      scheduled in the meantime. */
  lemma FailureArms(s: State, id: ExpiryId)
    requires Agreement(s) && !s.stopped && id in s.inFlight
    ensures var failed, after := s.inFlight[id], Threw(s, id);
            && id !in after.inFlight
            && (failed.roomCode in s.entries ==> after.entries == s.entries && after.timers == s.timers)
            && (failed.roomCode !in s.entries ==>
                  && failed.roomCode in after.entries
                  && after.timers == s.timers[after.entries[failed.roomCode].timer := Timer(failed.roomCode, failed.deadline, s.now + 1_000)])
  {
  }

  /** An answer ends the expiry, unless it changed the room: then the change is published first. */
  lemma AnswerPublishesIff(s: State, id: ExpiryId, room: Option<SyncState>, changed: bool)
    requires id in s.inFlight
    ensures var after := ReleaseReturned(s, id, room, changed);
            && (id in after.inFlight <==> changed)
            && (changed ==> after.inFlight[id] == s.inFlight[id].(phase := Publishing))
            && after.inFlight - {id} == s.inFlight - {id}
            && (room.None? ==> after.entries == s.entries && after.timers == s.timers)
  {
    if room.Some? {
      ObserveKeepsExpiries(s, s.inFlight[id].roomCode, room.value);
    }
  }

  /** A forgotten room has no entry and no timer, and every other room keeps its own. */
  lemma ForgetForgets(s: State, roomCode: string)
    requires Agreement(s)
    ensures var after := Forget(s, roomCode);
            && roomCode !in after.watched && roomCode !in after.entries
            && (forall t :: t in after.timers <==> t in s.timers && s.timers[t].roomCode != roomCode)
            && after.entries == s.entries - {roomCode}
  {
  }

  predicate FiresSoon(s: State, slack: int) {
    forall t :: t in s.timers ==> s.timers[t].fireAt <= Later(s.timers[t].deadline, s.now + slack)
  }

  lemma ScheduleFiresSoon(s: State, roomCode: string, deadline: int, delayMs: int, replace: bool, slack: int)
    requires FiresSoon(s, slack) && s.now + delayMs <= Later(deadline, s.now + slack)
    ensures FiresSoon(Schedule(s, roomCode, deadline, delayMs, replace), slack)
  {
  }

  lemma DropFiresSoon(s: State, roomCode: string, slack: int)
    requires FiresSoon(s, slack)
    ensures FiresSoon(Drop(s, roomCode), slack)
  {
  }

  lemma ObserveFiresSoon(s: State, roomCode: string, sync: SyncState, slack: int)
    requires FiresSoon(s, slack) && 1 <= slack
    ensures FiresSoon(Observe(s, roomCode, sync), slack)
  {
    hide Drop, Schedule, HoldDeadline;
    match HoldDeadline(sync)
    case None => DropFiresSoon(s, roomCode, slack);
    case Some(deadline) => ScheduleFiresSoon(s, roomCode, deadline, UntilDeadline(deadline, s.now), false, slack);
  }

  lemma StepFiresSoon(s: State, e: Event, slack: int)
    requires FiresSoon(s, slack) && 1 <= slack && (e.Failed? ==> 1_000 <= slack)
    ensures FiresSoon(Step(s, e), slack)
  {
    hide Observe, Drop, Schedule;
    match e
    case Observed(roomCode, sync) => ObserveFiresSoon(s, roomCode, sync, slack);
    case Forgotten(roomCode) => DropFiresSoon(s, roomCode, slack);
    case Returned(id, room, _) =>
      if id in s.inFlight && room.Some? {
        ObserveFiresSoon(s, s.inFlight[id].roomCode, room.value, slack);
      }
    case Failed(id) =>
      if id in s.inFlight {
        var expiry, rest := s.inFlight[id], s.(inFlight := s.inFlight - {id});
        ScheduleFiresSoon(rest, expiry.roomCode, expiry.deadline, EXPIRY_RETRY_DELAY_MS, true, slack);
      }
    case _ =>
  }

  lemma NoTimers(now: int)
    ensures FiresSoon(Run(now, []), 1) && FiresSoon(Run(now, []), 1_000)
  {
  }

  /** Over every run: a timer fires no later than its deadline, or, if that has come, than the next
      millisecond, or within a second if something failed. */
  lemma {:induction false} TimersFireSoon(now: int, events: seq<Event>)
    ensures FiresSoon(Run(now, events), 1_000)
    ensures (forall e <- events :: !e.Failed?) ==> FiresSoon(Run(now, events), 1)
    decreases |events|
  {
    hide Step, FiresSoon;
    if events == [] {
      assert FiresSoon(Run(now, []), 1) && FiresSoon(Run(now, []), 1_000) by { NoTimers(now); }
    } else {
      var front, e := events[..|events| - 1], events[|events| - 1];
      TimersFireSoon(now, front);
      StepFiresSoon(Run(now, front), e, 1_000);
      if forall e <- events :: !e.Failed? {
        assert e in events && forall f <- front :: f in events;
        StepFiresSoon(Run(now, front), e, 1);
      }
    }
  }

  // ---- Nothing else abandons a hold ----

  // A roomless answer to the last release pending for a room that is still watched.
  ghost predicate Abandons(s: State, e: Event) {
    && e.Returned? && e.room.None? && Enabled(s, e) && !s.stopped
    && var roomCode := s.inFlight[e.id].roomCode;
       && roomCode in s.watched && roomCode !in s.entries
       && !exists x :: x in s.inFlight && x != e.id && s.inFlight[x].phase == Releasing && s.inFlight[x].roomCode == roomCode
  }

  lemma StoppedOrIdle(s: State, e: Event)
    requires Attended(s) && e.Returned? && e.room.None? && (!Enabled(s, e) || s.stopped)
    ensures Attended(Step(s, e))
  {
  }

  /** Over all events: nothing else ever leaves a watched hold unattended. */
  lemma AbandonsIff(s: State, e: Event)
    requires Agreement(s) && Attended(s)
    ensures Attended(Step(s, e)) <==> !Abandons(s, e)
  {
    hide Attended, Agreement, Step;
    if e.Returned? && e.room.None? && Enabled(s, e) && !s.stopped {
      RoomlessAnswerAbandonsIff(s, e.id, e.changed);
    } else if e.Returned? && e.room.None? {
      StoppedOrIdle(s, e);
    } else {
      StepKeepsAttended(s, e);
    }
  }

  ghost predicate AlwaysAttended(now: int, events: seq<Event>) {
    forall k :: 0 <= k <= |events| ==> Attended(Run(now, events[..k]))
  }

  ghost predicate NeverAbandoned(now: int, events: seq<Event>) {
    forall k :: 0 <= k < |events| ==> !Abandons(Run(now, events[..k]), events[k])
  }

  lemma OneMoreEvent(now: int, events: seq<Event>, e: Event)
    ensures AlwaysAttended(now, events + [e]) <==> AlwaysAttended(now, events) && Attended(Run(now, events + [e]))
    ensures NeverAbandoned(now, events + [e]) <==> NeverAbandoned(now, events) && !Abandons(Run(now, events), e)
  {
    hide Run, Attended, Abandons;
    var longer := events + [e];
    assert longer[..|longer|] == longer && longer[..|events|] == events;
    assert forall k | 0 <= k <= |events| :: longer[..k] == events[..k];
    assert AlwaysAttended(now, longer) ==> Attended(Run(now, longer[..|longer|]));
    assert NeverAbandoned(now, longer) ==> !Abandons(Run(now, longer[..|events|]), longer[|events|]);
    if AlwaysAttended(now, longer) {
      forall k | 0 <= k <= |events| ensures Attended(Run(now, events[..k])) {
        assert Attended(Run(now, longer[..k]));
      }
    }
    if NeverAbandoned(now, longer) {
      forall k | 0 <= k < |events| ensures !Abandons(Run(now, events[..k]), events[k]) {
        assert !Abandons(Run(now, longer[..k]), longer[k]);
      }
    }
  }

  lemma NobodyWatched(now: int)
    ensures Attended(Run(now, [])) && AlwaysAttended(now, []) && NeverAbandoned(now, [])
  {
  }

  lemma RunThen(now: int, events: seq<Event>, e: Event)
    ensures Run(now, events + [e]) == Step(Run(now, events), e)
  {
    hide Step;
    assert (events + [e])[..|events|] == events;
  }

  /** Over whole runs: every watched hold has a timer or a release in flight at every point iff no
      release gave a roomless answer that abandoned one. */
  lemma {:induction false} AlwaysAttendedIff(now: int, events: seq<Event>)
    ensures AlwaysAttended(now, events) <==> NeverAbandoned(now, events)
    ensures AlwaysAttended(now, events) ==> Attended(Run(now, events))
    decreases |events|
  {
    hide Attended, Abandons, Step, AlwaysAttended, NeverAbandoned, Run;
    if events == [] {
      NobodyWatched(now);
    } else {
      var front, e := events[..|events| - 1], events[|events| - 1];
      assert front + [e] == events;
      AlwaysAttendedIff(now, front);
      TimersMatchEntries(now, front);
      RunThen(now, front, e);
      OneMoreEvent(now, front, e);
      if Attended(Run(now, front)) {
        AbandonsIff(Run(now, front), e);
      }
    }
  }

  lemma EmptyRun(now: int)
    ensures Run(now, []) == Initial(now)
  {
  }

  /** Witness: a hold is observed, its timer fires at the deadline, and the release, out of attempts,
      answers without a room; nothing will look at the hold again. */
  lemma LostReleaseAbandonsHold(roomCode: string, m: MemberId)
    requires roomCode != ""
    ensures exists events :: var s := Run(0, events);
              roomCode in s.watched && !s.stopped && s.entries == map[] && s.timers == map[] && s.inFlight == map[]
  {
    hide Run;
    var d := BUFFER_HOLD_MAX_MS;
    var sync := SyncState(Wait, Hold(true, Some(m), Some(0), Some(d), None), [m]);
    var one := [Observed(roomCode, sync)];
    assert Run(0, []) == Initial(0) by { EmptyRun(0); }
    RunThen(0, [], Observed(roomCode, sync));
    assert [] + [Observed(roomCode, sync)] == one;
    var watching := Run(0, one);
    assert watching.timers == map[0 := Timer(roomCode, d, d)] && watching.entries == map[roomCode := Entry(d, 0)];
    RunThen(0, one, Tick(d));
    RunThen(0, one + [Tick(d)], Fired(0));
    var releasing := Run(0, one + [Tick(d)] + [Fired(0)]);
    assert releasing.inFlight == map[0 := Expiry(roomCode, d, Releasing)] && releasing.timers == map[];
    RunThen(0, one + [Tick(d)] + [Fired(0)], Returned(0, None, false));
    assert roomCode in Run(0, one + [Tick(d)] + [Fired(0)] + [Returned(0, None, false)]).watched;
  }

  // ---- The scheduler object ----

  class Scheduler {
    var scheduledByRoom: map<string, Entry>
    var stopped: bool
    var timers: map<TimerId, Timer>
    var nextTimer: TimerId
    var inFlight: map<ExpiryId, Expiry>
    var nextExpiry: ExpiryId
    var now: int
    ghost var watched: set<string>

    ghost function View(): State
      reads this
    {
      State(scheduledByRoom, timers, nextTimer, stopped, inFlight, nextExpiry, now, watched)
    }

    constructor (now: int)
      ensures View() == Initial(now)
    {
      scheduledByRoom, stopped, timers, nextTimer := map[], false, map[], 0;
      inFlight, nextExpiry, watched := map[], 0, {};
      this.now := now;
    }

    method DropRoom(roomCode: string)
      modifies this
      ensures View() == Drop(old(View()), roomCode)
    {
      if roomCode !in scheduledByRoom {
        return;
      }
      timers := timers - {scheduledByRoom[roomCode].timer};
      scheduledByRoom := scheduledByRoom - {roomCode};
    }

    method ScheduleRoom(roomCode: string, deadline: int, delayMs: int, replaceSameDeadline: bool)
      modifies this
      ensures View() == Schedule(old(View()), roomCode, deadline, delayMs, replaceSameDeadline)
    {
      if stopped {
        return;
      }
      if roomCode in scheduledByRoom && scheduledByRoom[roomCode].deadline == deadline && !replaceSameDeadline {
        return;
      }
      DropRoom(roomCode);
      timers := timers[nextTimer := Timer(roomCode, deadline, now + delayMs)];
      scheduledByRoom := scheduledByRoom[roomCode := Entry(deadline, nextTimer)];
      nextTimer := nextTimer + 1;
    }

    method ObserveRoom(roomCode: string, sync: SyncState)
      modifies this
      ensures View() == Observe(old(View()), roomCode, sync)
    {
      if roomCode == "" {
        return;
      }
      var deadline := HoldDeadline(sync);
      if deadline.None? {
        DropRoom(roomCode);
        watched := watched - {roomCode};
        return;
      }
      ScheduleRoom(roomCode, deadline.value, UntilDeadline(deadline.value, now), false);
      watched := watched + {roomCode};
    }

    method ForgetRoom(roomCode: string)
      modifies this
      ensures View() == Forget(old(View()), roomCode)
    {
      DropRoom(roomCode);
      watched := watched - {roomCode};
    }

    // The timer callback: an entry replaced in the meantime makes it a no-op.
    method TimerFired(timer: TimerId)
      requires timer in timers
      modifies this
      ensures View() == Fire(old(View()), timer)
    {
      var fired := timers[timer];
      timers := timers - {timer};
      if fired.roomCode !in scheduledByRoom || scheduledByRoom[fired.roomCode].timer != timer {
        return;
      }
      scheduledByRoom := scheduledByRoom - {fired.roomCode};
      inFlight := inFlight[nextExpiry := Expiry(fired.roomCode, fired.deadline, Releasing)];
      nextExpiry := nextExpiry + 1;
    }

    method ReleaseAnswered(id: ExpiryId, room: Option<SyncState>, changed: bool)
      requires id in inFlight
      modifies this
      ensures View() == ReleaseReturned(old(View()), id, room, changed)
    {
      var expiry := inFlight[id];
      if room.Some? {
        ObserveRoom(expiry.roomCode, room.value);
      }
      if !changed {
        inFlight := inFlight - {id};
        return;
      }
      inFlight := inFlight[id := expiry.(phase := Publishing)];
    }

    method ExpiryThrew(id: ExpiryId)
      requires id in inFlight
      modifies this
      ensures View() == Threw(old(View()), id)
    {
      var expiry := inFlight[id];
      inFlight := inFlight - {id};
      if expiry.roomCode !in scheduledByRoom {
        ScheduleRoom(expiry.roomCode, expiry.deadline, EXPIRY_RETRY_DELAY_MS, true);
      }
    }

    method StopAll()
      modifies this
      ensures View() == Stop(old(View()))
    {
      stopped := true;
      timers := timers - set roomCode | roomCode in scheduledByRoom :: scheduledByRoom[roomCode].timer;
      scheduledByRoom := map[];
    }
  }
}
