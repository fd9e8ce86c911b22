/** However many nodes time out the same hold, it is released once, on time. */
module HoldRelease {
  import opened PlaybackModel
  import opened PlaybackCoordinator
  import opened RoomOperations
  import opened HoldExactness
  import opened HoldPromises
  import opened VersionRetry
  import opened SampleRuns

  predicate Releases(entry: Entry, deadline: int) {
    entry.op.ReleaseHold? && entry.op.expectedDeadline == deadline
  }

  function DeadlineOf(room: Room): Option<int> {
    HoldDeadline(Sync(room))
  }

  /** A hold without a deadline, as older versions stored it, ends 10 s after it started; one without any
      timing has already ended. */
  lemma LegacyDeadline(sync: SyncState)
    requires sync.hold.active && sync.hold.deadlineAt.None?
    ensures HoldDeadline(sync) == Some(if sync.hold.startedAt.Some? then sync.hold.startedAt.value + 10_000 else 0)
  {
  }

  // The one deadline an operation could put in force, by the clock reading it carries.
  function CouldSet(op: RoomOp): Option<int> {
    if op.ReportBuffer? then Some(op.now + 10_000)
    else if op.ShareVideo? || op.UpdatePlayback? || op.JoinMember? || op.SetStrategy? then
      Some(op.now + 30_000)
    else None
  }

  // What sets a hold: beginning a barrier, or a first stall in a room that freezes.
  predicate SetsHold(room: Room, op: RoomOp) {
    || BeginsBarrier(room, op)
    || (op.ReportBuffer? && ReportsStall(op.report) && !Held(room) && Freezable(room) && !Lists(room, op.memberId))
  }

  predicate SetsDeadline(deadline: int, room: Room, op: RoomOp) {
    SetsHold(room, op) && CouldSet(op) == Some(deadline)
  }

  /** The deadline after any operation: its own full-length one if it sets a hold, otherwise the one in
      force or none. */
  lemma DeadlineMoves(room: Room, op: RoomOp)
    ensures if SetsHold(room, op) then DeadlineOf(Next(room, op)) == CouldSet(op)
            else DeadlineOf(Next(room, op)) in {None, DeadlineOf(room)}
  {
    hide Unique, Without, Next;
    if Coordinates(op) {
      NextStoresCoordination(room, op);
    } else if op.UpdatePlayback? {
      UpdateStores(room, op);
    } else if op.ShareVideo? {
      ShareStores(room, op);
    } else {
      ClearStores(room, op.now);
    }
  }

  /** So a deadline that is not in force comes into force exactly by an operation that sets a hold and
      carries a reading a full hold before it. */
  lemma SetsDeadlineIff(room: Room, op: RoomOp, deadline: int)
    requires DeadlineOf(room) != Some(deadline)
    ensures DeadlineOf(Next(room, op)) == Some(deadline) <==> SetsDeadline(deadline, room, op)
  {
    hide Next, SetsHold, DeadlineOf;
    DeadlineMoves(room, op);
  }

  /** Over whole runs: a deadline not in force stays out of force iff no operation sets it. */
  lemma StaysOutOfForceIff(room: Room, ops: seq<RoomOp>, deadline: int)
    requires DeadlineOf(room) != Some(deadline)
    ensures KeptThroughout((r: Room) => DeadlineOf(r) != Some(deadline), room, ops) <==>
            NeverBroken((r: Room, op: RoomOp) => SetsDeadline(deadline, r, op), room, ops)
  {
    hide Next, SetsDeadline, DeadlineOf, KeptThroughout, NeverBroken;
    var keeps := (r: Room) => DeadlineOf(r) != Some(deadline);
    var breaks := (r: Room, op: RoomOp) => SetsDeadline(deadline, r, op);
    forall r, op | keeps(r) ensures keeps(Next(r, op)) <==> !breaks(r, op) {
      SetsDeadlineIff(r, op, deadline);
    }
    KeptIffUnbroken(keeps, breaks, room, ops);
  }

  /** Joining a live barrier, reporting and departing never postpone or advance its deadline. */
  lemma TrafficKeepsDeadline(room: Room, op: RoomOp)
    requires op.ReportBuffer? || op.DepartMember? || op.JoinMember?
    requires BarrierLiveAt(Sync(room), op.now)
    ensures Held(Next(room, op)) ==> DeadlineOf(Next(room, op)) == DeadlineOf(room)
  {
    hide Unique, Without, Next;
    NextStoresCoordination(room, op);
  }

  lemma ReleaseCommits(room: Room, deadline: int, now: int)
    requires DecideOp(room, ReleaseHold(deadline, now)).Write?
    ensures DeadlineOf(room) == Some(deadline) && deadline <= now
    ensures DeadlineOf(Next(room, ReleaseHold(deadline, now))) == None
  {
  }

  // Commit k sets the deadline anew.
  ghost predicate Rearms(initial: Room, log: seq<Entry>, k: nat, deadline: int)
    requires k < |log|
  {
    SetsDeadline(deadline, Serial(initial, log, k), log[k].op)
  }

  lemma SerialStep(initial: Room, log: seq<Entry>, k: nat)
    requires k < |log|
    ensures Serial(initial, log, k + 1) == Next(Serial(initial, log, k), log[k].op)
  {
    hide Next;
    assert OpsOf(log)[..k + 1][..k] == OpsOf(log)[..k];
  }

  /** A released deadline is in force later only if some commit in between set it anew. */
  lemma {:induction false} BackOnlyIfRearmed(initial: Room, s: System, i: nat, n: nat, deadline: int)
    requires Inv(initial, s)
    requires i < n <= |s.log| && Releases(s.log[i], deadline)
    requires DeadlineOf(Serial(initial, s.log, n)) == Some(deadline)
    ensures exists k :: i < k < n && Rearms(initial, s.log, k, deadline)
    decreases n
  {
    hide DecideOp, Next, DeadlineOf, Serial, SetsDeadline;
    SerialStep(initial, s.log, n - 1);
    if n - 1 == i {
      assert DecideOp(Serial(initial, s.log, i), s.log[i].op).Write?;
      ReleaseCommits(Serial(initial, s.log, i), deadline, s.log[i].op.now);
      assert false;
    } else if DeadlineOf(Serial(initial, s.log, n - 1)) == Some(deadline) {
      BackOnlyIfRearmed(initial, s, i, n - 1, deadline);
    } else {
      SetsDeadlineIff(Serial(initial, s.log, n - 1), s.log[n - 1].op, deadline);
      assert Rearms(initial, s.log, n - 1, deadline);
    }
  }

  lemma RearmedIsInForce(room: Room, op: RoomOp, deadline: int)
    requires SetsDeadline(deadline, room, op)
    ensures DeadlineOf(Next(room, op)) == Some(deadline)
  {
    hide Next, SetsHold, DeadlineOf;
    DeadlineMoves(room, op);
  }

  /** Once released, a deadline is never in force again in any interleaving iff no later commit sets a
      hold from a clock reading exactly a full hold before it. */
  lemma ReleasedForGoodIff(initial: Room, clock: int, steps: seq<Step>, s: System, i: nat, deadline: int)
    requires s == Run(initial, clock, steps)
    requires i < |s.log| && Releases(s.log[i], deadline)
    ensures (forall n :: i < n <= |s.log| ==> DeadlineOf(Serial(initial, s.log, n)) != Some(deadline)) <==>
            (forall k :: i < k < |s.log| ==> !Rearms(initial, s.log, k, deadline))
  {
    hide DecideOp, Next, DeadlineOf, Serial, SetsDeadline, SetsHold;
    RunInv(initial, clock, steps);
    forall n: nat | i < n <= |s.log| && DeadlineOf(Serial(initial, s.log, n)) == Some(deadline)
      ensures exists k :: i < k < n && Rearms(initial, s.log, k, deadline)
    {
      BackOnlyIfRearmed(initial, s, i, n, deadline);
    }
    forall k: nat | i < k < |s.log| && Rearms(initial, s.log, k, deadline)
      ensures DeadlineOf(Serial(initial, s.log, k + 1)) == Some(deadline)
    {
      SerialStep(initial, s.log, k);
      RearmedIsInForce(Serial(initial, s.log, k), s.log[k].op, deadline);
    }
  }

  /** In any interleaving of any number of timers and other writers, a release commits only on a room
      holding exactly its deadline and not before it, and between two releases of one deadline some
      commit set a hold from a clock reading exactly a full hold before that deadline. */
  lemma ReleasesAreSeparated(initial: Room, clock: int, steps: seq<Step>, s: System, j: nat, deadline: int)
    requires s == Run(initial, clock, steps)
    requires j < |s.log| && Releases(s.log[j], deadline)
    ensures deadline <= s.log[j].committedAt
    ensures DeadlineOf(Serial(initial, s.log, j)) == Some(deadline)
    ensures forall i :: 0 <= i < j && Releases(s.log[i], deadline) ==>
              exists k :: i < k < j && Rearms(initial, s.log, k, deadline)
  {
    hide DecideOp, Next, Serial;
    RunInv(initial, clock, steps);
    assert DecideOp(Serial(initial, s.log, j), s.log[j].op).Write?;
    ReleaseCommits(Serial(initial, s.log, j), deadline, s.log[j].op.now);
    forall i: nat | i < j && Releases(s.log[i], deadline)
      ensures exists k :: i < k < j && Rearms(initial, s.log, k, deadline)
    {
      BackOnlyIfRearmed(initial, s, i, j, deadline);
    }
  }

  /** So a deadline is released at most once unless somebody sets a hold, when the deadline has already
      passed, from a clock reading a full hold before it. */
  lemma SingleRelease(initial: Room, clock: int, steps: seq<Step>, s: System, i: nat, deadline: int)
    requires s == Run(initial, clock, steps)
    requires forall k :: 0 <= k < |s.log| && deadline <= s.log[k].committedAt ==> !Rearms(initial, s.log, k, deadline)
    requires i < |s.log| && Releases(s.log[i], deadline)
    ensures forall j :: 0 <= j < |s.log| && Releases(s.log[j], deadline) ==> j == i
  {
    hide Serial, SetsDeadline, DeadlineOf;
    RunInv(initial, clock, steps);
    forall j: nat | j < |s.log| && Releases(s.log[j], deadline) ensures j == i {
      ReleasesAreSeparated(initial, clock, steps, s, i, deadline);
      ReleasesAreSeparated(initial, clock, steps, s, j, deadline);
      var first := if i < j then i else j;
      assert forall k: nat :: first < k < |s.log| ==> deadline <= s.log[k].committedAt;
      assert forall k: nat :: first < k < |s.log| ==> !Rearms(initial, s.log, k, deadline);
    }
  }

  // ---- A stale report ----

  lemma StallThenRelease(room: Room, m: MemberId, now: int)
    requires SmoothlyWaiting(room)
    ensures var deadline := now + BUFFER_HOLD_MAX_MS;
            var stalled := Next(room, Stall(m, now));
            && DecideOp(room, Stall(m, now)).Write?
            && DecideOp(stalled, ReleaseHold(deadline, deadline)).Write?
            && SmoothlyWaiting(Next(stalled, ReleaseHold(deadline, deadline)))
  {
    StallHolds(room, m, now);
  }

  lemma RefreshedReport(m: MemberId, at: int)
    ensures Refreshed(Stall(m, 0), at) == Stall(m, 0)
  {
  }

  // The report starts; then the room starts to play, somebody stalls, and the hold is released.
  function Delayed(m: MemberId): seq<Step> {
    [Step(0, Start(9, Stall(m, 0)))]
    + Alone(0, SetStrategy(Wait, [m], 0)) + Alone(1, Opening(m, [m])) + Alone(2, Stall(m, 0))
    + Alone(3, ReleaseHold(BUFFER_HOLD_MAX_MS, BUFFER_HOLD_MAX_MS))
  }

  lemma OpenedWhileDelayed(m: MemberId)
    ensures var steps := [Step(0, Start(9, Stall(m, 0)))] + Alone(0, SetStrategy(Wait, [m], 0)) + Alone(1, Opening(m, [m]));
            var s := Run(Fresh(), 0, steps);
            && s.room.Some? && SmoothlyWaiting(s.room.value) && s.clock == 0 && |s.log| == 2
            && s.calls.Keys == {9, 0, 1} && s.calls[9] == Call(Stall(m, 0), Attempting(0), None)
  {
    hide Next, DecideOp, Run, Refreshed;
    var room, late := Fresh(), [Step(0, Start(9, Stall(m, 0)))];
    var switch := SetStrategy(Wait, [m], 0);
    EmptyRun(room, 0);
    RunStep(room, 0, [], late[0]);
    assert [] + [late[0]] == late;
    assert Run(room, 0, late).calls == map[9 := Call(Stall(m, 0), Attempting(0), None)];
    StartedPlays(m);
    CallAlone(room, 0, late, 0, switch);
    CallAlone(room, 0, late + Alone(0, switch), 1, Opening(m, [m]));
  }

  lemma ReleasedWhileDelayed(m: MemberId)
    ensures var s := Run(Fresh(), 0, Delayed(m));
            && s.room.Some? && SmoothlyWaiting(s.room.value) && s.clock == BUFFER_HOLD_MAX_MS
            && |s.log| == 4 && Releases(s.log[3], BUFFER_HOLD_MAX_MS)
            && s.calls.Keys == {9, 0, 1, 2, 3} && s.calls[9] == Call(Stall(m, 0), Attempting(0), None)
  {
    hide Next, DecideOp, Run, Refreshed, Alone;
    var room, d := Fresh(), BUFFER_HOLD_MAX_MS;
    var prefix := [Step(0, Start(9, Stall(m, 0)))] + Alone(0, SetStrategy(Wait, [m], 0)) + Alone(1, Opening(m, [m]));
    OpenedWhileDelayed(m);
    StallThenRelease(Run(room, 0, prefix).room.value, m, 0);
    CallAlone(room, 0, prefix, 2, Stall(m, 0));
    CallAlone(room, 0, prefix + Alone(2, Stall(m, 0)), 3, ReleaseHold(d, d));
  }

  /** Witness that this does happen: a report started at 0 is delayed past the release of its sender's
      stall at 10 000, then commits its old reading, and the same deadline is released a second time. */
  lemma StaleReportReleasesTwice(m: MemberId)
    ensures exists steps, i, j ::
              var log := Run(Fresh(), 0, steps).log;
              0 <= i < j < |log| && Releases(log[i], BUFFER_HOLD_MAX_MS) && Releases(log[j], BUFFER_HOLD_MAX_MS)
  {
    hide Next, DecideOp, Run, Refreshed, Alone, Delayed;
    var room, d := Fresh(), BUFFER_HOLD_MAX_MS;
    ReleasedWhileDelayed(m);
    StallThenRelease(Run(room, 0, Delayed(m)).room.value, m, 0);
    RefreshedReport(m, d);
    CallResumes(room, 0, Delayed(m), 9, d);
    var resumed := Delayed(m) + Resumed(9, d);
    CallAlone(room, 0, resumed, 4, ReleaseHold(d, d));
    var log := Run(room, 0, resumed + Alone(4, ReleaseHold(d, d))).log;
    assert Releases(log[3], d) && Releases(log[5], d);
  }
}
