/** What the theorems about runs of operations say of concurrent callers: what needs no order of time
    carries over as it is, the timeline up to how old the committed readings are. */
module ConcurrentRuns {
  import opened PlaybackModel
  import opened PlaybackCoordinator
  import opened RoomStore
  import opened RoomOperations
  import opened HoldInvariant
  import opened HoldPromises
  import opened TimelineConservation
  import opened UpdateSafety
  import opened VersionRetry
  import opened SampleRuns

  function CommitTimes(log: seq<Entry>): (at: seq<int>)
    ensures |at| == |log| && forall i :: 0 <= i < |log| ==> at[i] == log[i].committedAt
  {
    seq(|log|, i requires 0 <= i < |log| => log[i].committedAt)
  }

  lemma {:induction false} CommitsComeLater(initial: Room, clock: int, steps: seq<Step>)
    ensures var s := Run(initial, clock, steps);
            clock <= s.clock && forall i :: 0 <= i < |s.log| ==> clock <= s.log[i].committedAt
    decreases |steps|
  {
    hide DecideOp;
    if steps == [] {
    } else {
      CommitsComeLater(initial, clock, steps[..|steps| - 1]);
    }
  }

  lemma LogIsTimely(initial: Room, clock: int, steps: seq<Step>, s: System)
    requires s == Run(initial, clock, steps)
    ensures Timely(OpsOf(s.log), CommitTimes(s.log), clock) && LastTime(CommitTimes(s.log), clock) <= s.clock
  {
    RunInv(initial, clock, steps);
    CommitsComeLater(initial, clock, steps);
  }

  /** The hold invariant holds of every room that concurrent callers make of a new one. */
  lemma ConcurrentHoldInv(code: string, createdAt: int, clock: int, steps: seq<Step>, s: System)
    requires s == Run(NewRoom(code, createdAt), clock, steps) && s.room.Some?
    ensures HoldInv(Sync(s.room.value))
  {
    hide HoldInv, Next;
    RetryIsSerial(NewRoom(code, createdAt), clock, steps, s);
    ReachableHoldInv(code, createdAt, OpsOf(s.log));
  }

  // ---- Every room that is stored at some point of the interleaving ----

  ghost predicate AlwaysStored(keeps: Room -> bool, initial: Room, clock: int, steps: seq<Step>) {
    forall k :: 0 <= k <= |steps| ==>
      var s := Run(initial, clock, steps[..k]);
      s.room.Some? ==> keeps(s.room.value)
  }

  lemma StepGrowsLog(s: System, step: Step)
    ensures var after := if Enabled(s, step) then Take(s, step) else s;
            && |s.log| <= |after.log| <= |s.log| + 1 && s.log == after.log[..|s.log|]
            && (|after.log| > |s.log| ==> after.room.Some?)
  {
    hide DecideOp;
  }

  lemma {:induction false} LogGrows(initial: Room, clock: int, steps: seq<Step>, k: nat)
    requires k <= |steps|
    ensures var before, after := Run(initial, clock, steps[..k]).log, Run(initial, clock, steps).log;
            |before| <= |after| && before == after[..|before|]
    decreases |steps|
  {
    hide DecideOp;
    if k == |steps| {
      assert steps[..k] == steps;
    } else {
      var front := steps[..|steps| - 1];
      assert front[..k] == steps[..k];
      LogGrows(initial, clock, front, k);
      StepGrowsLog(Run(initial, clock, front), steps[|steps| - 1]);
    }
  }

  lemma SerialOfPrefix(initial: Room, log: seq<Entry>, m: nat, n: nat)
    requires n <= m <= |log|
    ensures Serial(initial, log[..m], n) == Serial(initial, log, n)
  {
    assert OpsOf(log[..m])[..n] == OpsOf(log)[..n];
  }

  lemma NothingCommitted(initial: Room, clock: int)
    ensures Run(initial, clock, []).log == [] && Run(initial, clock, []).room == Some(Serial(initial, [], 0))
  {
  }

  // The room after the first n commits was stored at some point.
  lemma {:induction false} CommitWasStored(initial: Room, clock: int, steps: seq<Step>, n: nat) returns (k: nat)
    requires n <= |Run(initial, clock, steps).log|
    ensures k <= |steps|
    ensures var s := Run(initial, clock, steps[..k]);
            s.room == Some(Serial(initial, Run(initial, clock, steps).log, n))
    decreases |steps|
  {
    hide DecideOp, Serial, Take, Enabled;
    var log := Run(initial, clock, steps).log;
    if steps == [] {
      k := 0;
      assert steps[..0] == [];
      NothingCommitted(initial, clock);
    } else {
      var front, step := steps[..|steps| - 1], steps[|steps| - 1];
      var before := Run(initial, clock, front);
      StepGrowsLog(before, step);
      if n <= |before.log| {
        k := CommitWasStored(initial, clock, front, n);
        assert front[..k] == steps[..k];
        SerialOfPrefix(initial, log, |before.log|, n);
      } else {
        k := |steps|;
        assert steps[..k] == steps;
        RunInv(initial, clock, steps);
      }
    }
  }

  /** What is stored in the course of an interleaving are exactly the rooms after its first commits. */
  lemma StoredIffSerial(keeps: Room -> bool, initial: Room, clock: int, steps: seq<Step>)
    ensures AlwaysStored(keeps, initial, clock, steps) <==>
            KeptThroughout(keeps, initial, OpsOf(Run(initial, clock, steps).log))
  {
    hide Run, RunOps, DecideOp, Next;
    var log := Run(initial, clock, steps).log;
    if AlwaysStored(keeps, initial, clock, steps) {
      forall n | 0 <= n <= |OpsOf(log)| ensures keeps(RunOps(initial, OpsOf(log)[..n])) {
        var k := CommitWasStored(initial, clock, steps, n);
      }
    }
    if KeptThroughout(keeps, initial, OpsOf(log)) {
      forall k | 0 <= k <= |steps| && Run(initial, clock, steps[..k]).room.Some?
        ensures keeps(Run(initial, clock, steps[..k]).room.value)
      {
        var s := Run(initial, clock, steps[..k]);
        LogGrows(initial, clock, steps, k);
        RunInv(initial, clock, steps[..k]);
        SerialOfPrefix(initial, log, |s.log|, |s.log|);
      }
    }
  }

  /** The three promises: each holds of every room stored at any point of any interleaving iff no commit
      broke it. */
  lemma ConcurrentPromises(code: string, createdAt: int, clock: int, steps: seq<Step>)
    ensures var room := NewRoom(code, createdAt);
            var ops := OpsOf(Run(room, clock, steps).log);
            && (AlwaysStored(HoldPlays, room, clock, steps) <==> NeverBroken(TakesPlayAway, room, ops))
            && (AlwaysStored(TracksPlayback, room, clock, steps) <==> NeverBroken(OvertakesBarrier, room, ops))
            && (AlwaysStored(ReasonListed, room, clock, steps) <==> NeverBroken(RecoversBeforeOthers, room, ops))
  {
    hide *;
    var room := NewRoom(code, createdAt);
    var ops := OpsOf(Run(room, clock, steps).log);
    StoredIffSerial(HoldPlays, room, clock, steps);
    StoredIffSerial(TracksPlayback, room, clock, steps);
    StoredIffSerial(ReasonListed, room, clock, steps);
    HeldRoomsPlayIff(code, createdAt, ops);
    BarriersTrackPlaybackIff(code, createdAt, ops);
    NamesAreWaitedForIff(code, createdAt, ops);
  }

  lemma CarriedBeforeCommit(ops: seq<RoomOp>, at: seq<int>, start: int)
    requires Timely(ops, at, start)
    ensures forall i :: 0 <= i < |ops| ==> ops[i].now <= at[i]
  {
  }

  /** The timeline of concurrent callers: unfrozen time by the commits' own clock, plus what restarted
      holds skipped, off by at most the total age of the committed readings. */
  lemma ConcurrentTimeline(initial: Room, clock: int, steps: seq<Step>, s: System)
    requires s == Run(initial, clock, steps) && s.room.Some?
    requires IsPlaying(initial) && initial.playback.value.serverTime <= clock
    requires forall i :: 0 <= i < |s.log| ==> Coordinates(s.log[i].op)
    ensures var ops, at, room := OpsOf(s.log), CommitTimes(s.log), s.room.value;
            && IsPlaying(room) && RateOf(room) == RateOf(initial)
            && var drift := TotalDriftMs(initial, ops, at);
               && -StaleMs(ops, at) <= drift <= StaleMs(ops, at)
               && PositionAt(room, s.clock)
               == PositionAt(initial, clock)
                  + Advance(RunningMs(initial, ops, at, clock, s.clock) + TotalSkippedMs(initial, ops) + drift, RateOf(initial))
  {
    hide Advance, PositionAt, RunningMs, TotalSkippedMs, TotalDriftMs, Next, DecideOp, Run, Timely, LastTime;
    var ops, at := OpsOf(s.log), CommitTimes(s.log);
    RetryIsSerial(initial, clock, steps, s);
    LogIsTimely(initial, clock, steps, s);
    DriftingTimelineLaw(initial, ops, at, clock, s.clock);
    assert forall i :: 0 <= i < |ops| ==> ops[i].now <= at[i] by { CarriedBeforeCommit(ops, at, clock); }
    TotalDriftWithinStaleness(initial, ops, at);
  }

  /** The loss of concurrent callers: one tolerance for each update taken over, and the total age of the
      committed readings. */
  lemma ConcurrentLoss(initial: Room, clock: int, steps: seq<Step>, s: System)
    requires s == Run(initial, clock, steps) && s.room.Some?
    requires IsPlaying(initial) && !IsLive(initial) && initial.playback.value.serverTime <= clock
    requires forall i :: 0 <= i < |s.log| ==> Coordinates(s.log[i].op) || NonExplicitUpdate(s.log[i].op)
    requires UpdatesPlayOn(initial, OpsOf(s.log))
    ensures var ops, at, room := OpsOf(s.log), CommitTimes(s.log), s.room.value;
            && IsPlaying(room)
            && PositionAt(room, s.clock)
            >= PositionAt(initial, clock)
               + Advance(RunningMs(initial, ops, at, clock, s.clock) + TotalSkippedMs(initial, ops) - StaleMs(ops, at), RateOf(initial))
               - AllowedLoss(initial, ops)
  {
    hide Advance, PositionAt, RunningMs, TotalSkippedMs, Next, DecideOp, Run, Timely, LastTime, UpdatesPlayOn;
    RetryIsSerial(initial, clock, steps, s);
    LogIsTimely(initial, clock, steps, s);
    BoundedLoss(initial, OpsOf(s.log), CommitTimes(s.log), clock, s.clock);
  }

  lemma HalfASecond()
    ensures Advance(500, 1.0) == 0.5
  {
  }

  /** Witness that the age counts: a stall report that carries 9 000 freezes a room rebased at 10 000,
      and the half second that viewers have played since is gone. */
  lemma OldReportTakesTimeBack(m: MemberId, n: MemberId)
    ensures exists ops, op ::
              var before := RunOps(Fresh(), ops);
              && op == Stall(n, 9_000) && IsPlaying(before) && !Held(before)
              && PositionAt(before, 10_500) == 0.5
              && IsPlaying(Next(before, op)) && PositionAt(Next(before, op), 10_500) == 0.0
  {
    hide Next, Advance, Project, Unique, Without, RunOps;
    var d := BUFFER_HOLD_MAX_MS;
    var playing := RunOps(Fresh(), Started(m));
    StartedPlays(m);
    StallHolds(playing, m, 0);
    ProjectIsLinear(playing.playback.value, 0);
    RunAppend(Fresh(), Started(m), Stall(m, 0));
    var ops := Started(m) + [Stall(m, 0)] + [ReleaseHold(d, d)];
    var held := RunOps(Fresh(), Started(m) + [Stall(m, 0)]);
    RunAppend(Fresh(), Started(m) + [Stall(m, 0)], ReleaseHold(d, d));
    NextStoresCoordination(held, ReleaseHold(d, d));
    var before := RunOps(Fresh(), ops);
    assert before.playback == Some(PlayingFrom(0.0, m).(serverTime := 10_000));
    assert before.sharedVideo == Some(Video()) by { OtherOperationsKeepPlaying(held, ReleaseHold(d, d)); }
    StallHolds(before, n, 9_000);
    ProjectIsLinear(before.playback.value, 10_500);
    ProjectIsLinear(before.playback.value, 9_000);
    assert Advance(500, 1.0) == 0.5 by { HalfASecond(); }
  }
}
