/** The scheduler, the retry loop and the release together: a hold that a scheduler watches ends once its
    deadline has passed, if the timer fires and the release call meets nobody. */
module HoldLifecycle {
  import opened PlaybackModel
  import opened PlaybackCoordinator
  import opened RoomOperations
  import opened HoldRelease
  import Scheduler = HoldExpiryScheduler
  import Retry = VersionRetry

  lemma ReleaseFrees(room: Room, deadline: int, at: int)
    requires DeadlineOf(room) == Some(deadline) && deadline <= at
    ensures DecideOp(room, ReleaseHold(deadline, at)).Write?
    ensures !Held(Next(room, ReleaseHold(deadline, at)))
  {
  }

  // The release answers with the freed room: the scheduler lets go of it and goes on to publish.
  lemma AnswerSettles(s: Scheduler.State, id: Scheduler.ExpiryId, sync: SyncState)
    requires Scheduler.Agreement(s) && id in s.inFlight && s.inFlight[id].phase == Scheduler.Releasing
    requires s.inFlight[id].roomCode != "" && !sync.hold.active
    ensures var roomCode := s.inFlight[id].roomCode;
            var answered := Scheduler.Step(s, Scheduler.Returned(id, Some(sync), true));
            var done := Scheduler.Step(answered, Scheduler.Published(id));
            roomCode !in done.entries && roomCode !in done.watched && id !in done.inFlight
  {
  }

  /** A release in flight for the deadline in force frees the room in one commit, and the scheduler
      forgets it. */
  lemma InFlightReleaseFrees(now: int, events: seq<Scheduler.Event>, id: Scheduler.ExpiryId,
                             initial: Room, clock: int, steps: seq<Retry.Step>, call: Retry.CallId, at: int)
    requires var s := Scheduler.Run(now, events);
             && id in s.inFlight && s.inFlight[id].phase == Scheduler.Releasing && s.inFlight[id].roomCode != ""
             && s.now <= at
    requires var v := Retry.Run(initial, clock, steps);
             && v.room.Some? && call !in v.calls && v.clock <= at
             && DeadlineOf(v.room.value) == Some(Scheduler.Run(now, events).inFlight[id].deadline)
    ensures var s, v := Scheduler.Run(now, events), Retry.Run(initial, clock, steps);
            var release := ReleaseHold(s.inFlight[id].deadline, at);
            var after := Retry.Run(initial, clock, steps + Retry.Alone(call, release));
            && after.room.Some? && !Held(after.room.value)
            && after.log == v.log + [Retry.Entry(call, release, at)]
            && var done := Scheduler.Run(now, events
                 + [Scheduler.Returned(id, Some(Sync(after.room.value)), true)] + [Scheduler.Published(id)]);
               && s.inFlight[id].roomCode !in done.entries && s.inFlight[id].roomCode !in done.watched
               && id !in done.inFlight
  {
    hide Next, DecideOp, Retry.Run, Scheduler.Run, Scheduler.Step;
    var s, v := Scheduler.Run(now, events), Retry.Run(initial, clock, steps);
    var release := ReleaseHold(s.inFlight[id].deadline, at);
    Scheduler.TimersMatchEntries(now, events);
    assert s.inFlight[id].deadline <= at;
    ReleaseFrees(v.room.value, s.inFlight[id].deadline, at);
    Retry.CallAlone(initial, clock, steps, call, release);
    var freed := Sync(Next(v.room.value, release));
    AnswerSettles(s, id, freed);
    Scheduler.RunThen(now, events, Scheduler.Returned(id, Some(freed), true));
    Scheduler.RunThen(now, events + [Scheduler.Returned(id, Some(freed), true)], Scheduler.Published(id));
  }

  /** From a live timer: once the deadline and one more second have come, it fires, starts one release of
      its deadline, and that release frees the room; without failures a millisecond is enough. With
      AlwaysAttendedIff: a watched hold always has a timer or a release. */
  lemma WatchedHoldIsReleased(now: int, events: seq<Scheduler.Event>, timer: Scheduler.TimerId,
                              initial: Room, clock: int, steps: seq<Retry.Step>, call: Retry.CallId, at: int)
    requires var s := Scheduler.Run(now, events);
             timer in s.timers && s.timers[timer].roomCode != "" && s.timers[timer].deadline <= at
             && s.now + (if forall e <- events :: !e.Failed? then 1 else 1_000) <= at
    requires var v := Retry.Run(initial, clock, steps);
             && v.room.Some? && call !in v.calls && v.clock <= at
             && DeadlineOf(v.room.value) == Some(Scheduler.Run(now, events).timers[timer].deadline)
    ensures var s := Scheduler.Run(now, events);
            var id, roomCode, deadline := s.nextExpiry, s.timers[timer].roomCode, s.timers[timer].deadline;
            var fired := events + [Scheduler.Tick(at)] + [Scheduler.Fired(timer)];
            var after := Retry.Run(initial, clock, steps + Retry.Alone(call, ReleaseHold(deadline, at)));
            && id in Scheduler.Run(now, fired).inFlight
            && Scheduler.Run(now, fired).inFlight[id] == Scheduler.Expiry(roomCode, deadline, Scheduler.Releasing)
            && after.room.Some? && !Held(after.room.value)
            && var done := Scheduler.Run(now, fired
                 + [Scheduler.Returned(id, Some(Sync(after.room.value)), true)] + [Scheduler.Published(id)]);
               roomCode !in done.entries && roomCode !in done.watched && id !in done.inFlight
  {
    hide Next, Retry.Run, Scheduler.Run, DeadlineOf;
    var s := Scheduler.Run(now, events);
    Scheduler.TimersMatchEntries(now, events);
    Scheduler.TimersFireSoon(now, events);
    Scheduler.RunThen(now, events, Scheduler.Tick(at));
    Scheduler.RunThen(now, events + [Scheduler.Tick(at)], Scheduler.Fired(timer));
    InFlightReleaseFrees(now, events + [Scheduler.Tick(at)] + [Scheduler.Fired(timer)], s.nextExpiry,
                         initial, clock, steps, call, at);
  }
}
