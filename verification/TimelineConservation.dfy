/** The room's position over whole runs: time spent frozen is neither lost nor counted, except
    that a barrier begun on top of another hold projects straight through the frozen time. */
module TimelineConservation {
  import opened PlaybackModel
  import opened PlaybackCoordinator
  import opened RoomOperations
  import opened SampleRuns

  /** Where viewers of a playing room are at `t`: frozen under a hold, else projected. */
  function PositionAt(room: Room, t: int): real
    requires IsPlaying(room)
  {
    if Held(room) then room.playback.value.position else Project(room.playback.value, t)
  }

  function RateOf(room: Room): real
    requires IsPlaying(room)
  {
    NormalRate(room.playback.value.playbackRate)
  }

  /** Playback seconds covered by `ms` milliseconds of running time. */
  function Advance(ms: int, rate: real): real {
    Seconds(ms) * rate
  }

  // ---- Operations and when they took effect ----

  // `at[i]` is when operation i was applied; the reading it carries may be older.
  ghost predicate Timely(ops: seq<RoomOp>, at: seq<int>, start: int) {
    && |at| == |ops|
    && (forall i :: 0 <= i < |ops| ==> start <= at[i] && ops[i].now <= at[i])
    && (forall i, j :: 0 <= i < j < |at| ==> at[i] <= at[j])
  }

  function LastTime(at: seq<int>, start: int): int {
    if at == [] then start else at[|at| - 1]
  }

  function Times(ops: seq<RoomOp>): (at: seq<int>)
    ensures |at| == |ops| && forall i :: 0 <= i < |ops| ==> at[i] == ops[i].now
  {
    seq(|ops|, i requires 0 <= i < |ops| => ops[i].now)
  }

  // Each operation is applied at the very moment it carries.
  ghost predicate TimeOrdered(ops: seq<RoomOp>, start: int) {
    Timely(ops, Times(ops), start)
  }

  /** How old the readings were when they took effect, in total. */
  function StaleMs(ops: seq<RoomOp>, at: seq<int>): int
    requires |at| == |ops|
    decreases |ops|
  {
    if ops == [] then 0
    else
      var last := |ops| - 1;
      StaleMs(ops[..last], at[..last]) + at[last] - ops[last].now
  }

  lemma {:induction false} NothingStale(ops: seq<RoomOp>)
    ensures StaleMs(ops, Times(ops)) == 0
    decreases |ops|
  {
    if ops == [] {
    } else {
      assert Times(ops)[..|ops| - 1] == Times(ops[..|ops| - 1]);
      NothingStale(ops[..|ops| - 1]);
    }
  }

  /** A join or a switch to wait that begins a barrier while another hold is still set. */
  predicate RestartsHold(room: Room, op: RoomOp) {
    && Held(room)
    && match op
       case JoinMember(_, now) =>
         Sync(room).strategy == Wait && !IsLive(room) && IsPlaying(room) && !BarrierLiveAt(Sync(room), now)
       case SetStrategy(strategy, members, _) => SwitchStartsBarrier(room, strategy, members)
       case _ => false
  }

  function SkippedMs(room: Room, op: RoomOp): nat {
    if RestartsHold(room, op) then Max0(op.now - room.playback.value.serverTime) else 0
  }

  // A freeze by an old reading takes the time since then away again; a release by an old reading
  // lets the room run from then on.
  function DriftMs(room: Room, op: RoomOp, at: int): int {
    if !IsPlaying(room) || RestartsHold(room, op) || Held(room) == Held(Next(room, op)) then 0
    else if Held(room) then at - op.now
    else Max0(op.now - room.playback.value.serverTime) - Max0(at - room.playback.value.serverTime)
  }

  function TotalDriftMs(room: Room, ops: seq<RoomOp>, at: seq<int>): int
    requires |at| == |ops|
    decreases |ops|
  {
    if ops == [] then 0
    else
      var last := |ops| - 1;
      TotalDriftMs(room, ops[..last], at[..last]) + DriftMs(RunOps(room, ops[..last]), ops[last], at[last])
  }

  /** Milliseconds in [start, until] during which no hold was set. */
  function RunningMs(room: Room, ops: seq<RoomOp>, at: seq<int>, start: int, until: int): int
    requires |at| == |ops|
    decreases |ops|
  {
    (if Held(RunOps(room, ops)) then 0 else until - LastTime(at, start))
    + if ops == [] then 0
      else RunningMs(room, ops[..|ops| - 1], at[..|ops| - 1], start, at[|ops| - 1])
  }

  function TotalSkippedMs(room: Room, ops: seq<RoomOp>): nat
    decreases |ops|
  {
    if ops == [] then 0
    else
      var last := |ops| - 1;
      TotalSkippedMs(room, ops[..last]) + SkippedMs(RunOps(room, ops[..last]), ops[last])
  }

  lemma AdvanceAdd(a: int, b: int, rate: real)
    ensures Advance(a + b, rate) == Advance(a, rate) + Advance(b, rate)
  {
    assert Seconds(a + b) == Seconds(a) + Seconds(b);
  }

  lemma RateIsPositive(room: Room)
    requires IsPlaying(room)
    ensures RateOf(room) > 0.0
  {
  }

  lemma AdvanceByNothing(ran: int, skipped: nat, rate: real)
    requires rate > 0.0
    ensures Advance(ran + skipped, rate) == Advance(ran, rate) <==> skipped == 0
  {
    AdvanceAdd(ran, skipped, rate);
    assert skipped > 0 ==> Seconds(skipped) > 0.0;
  }

  /** A coordination keeps the playback, or freezes, releases or restarts it at the reading it carries. */
  lemma CoordinationMovesBySkipped(room: Room, op: RoomOp)
    requires IsPlaying(room) && Coordinates(op)
    ensures var c := Coordinated(room, op);
            && c.playback.Some? && c.playback.value.playState == Playing
            && c.playback.value.playbackRate == room.playback.value.playbackRate
            && var was, moved := room.playback.value, c.playback.value;
               if RestartsHold(room, op) then moved == Rebase(was, op.now) && c.playbackSync.hold.active
               else if Held(room) == c.playbackSync.hold.active then moved == was
               else if Held(room) then moved == was.(serverTime := op.now)
               else moved == Rebase(was, op.now)
  {
  }

  lemma ProjectIsLinear(was: Playback, t: int)
    requires was.playState == Playing
    ensures Project(was, t) == was.position + Advance(Max0(t - was.serverTime), NormalRate(was.playbackRate))
    ensures Advance(0, NormalRate(was.playbackRate)) == 0.0
  {
    assert Seconds(0) * NormalRate(was.playbackRate) == 0.0;
  }

  /** One operation applied at `at` moves the position there by exactly the frozen time it skips and
      the drift of its old reading. */
  lemma StepMovesBySkippedAndDrift(room: Room, op: RoomOp, at: int)
    requires IsPlaying(room) && Coordinates(op)
    requires room.playback.value.serverTime <= at && op.now <= at
    ensures var after := Next(room, op);
            && IsPlaying(after)
            && RateOf(after) == RateOf(room)
            && after.playback.value.serverTime <= at
            && PositionAt(after, at)
            == PositionAt(room, at) + Advance(SkippedMs(room, op) + DriftMs(room, op, at), RateOf(room))
  {
    hide Advance, Next, Project, Coordinated;
    NextStoresCoordination(room, op);
    CoordinationMovesBySkipped(room, op);
    var was, moved, rate := room.playback.value, Next(room, op).playback.value, RateOf(room);
    ProjectIsLinear(was, at);
    ProjectIsLinear(was, op.now);
    ProjectIsLinear(moved, at);
    AdvanceAdd(Max0(at - was.serverTime), DriftMs(room, op, at), rate);
  }

  /** One operation applied at once moves the position by exactly the frozen time it skips. */
  lemma StepMovesBySkipped(room: Room, op: RoomOp)
    requires IsPlaying(room) && Coordinates(op)
    requires room.playback.value.serverTime <= op.now
    ensures var after := Next(room, op);
            && IsPlaying(after)
            && RateOf(after) == RateOf(room)
            && after.playback.value.serverTime <= op.now
            && PositionAt(after, op.now) == PositionAt(room, op.now) + Advance(SkippedMs(room, op), RateOf(room))
  {
    hide Advance, Next, PositionAt;
    StepMovesBySkippedAndDrift(room, op, op.now);
  }

  lemma DriftWithinStaleness(room: Room, op: RoomOp, at: int)
    requires op.now <= at
    ensures -(at - op.now) <= DriftMs(room, op, at) <= at - op.now
  {
    hide Next;
  }

  lemma {:induction false} TotalDriftWithinStaleness(room: Room, ops: seq<RoomOp>, at: seq<int>)
    requires |at| == |ops| && forall i :: 0 <= i < |ops| ==> ops[i].now <= at[i]
    ensures -StaleMs(ops, at) <= TotalDriftMs(room, ops, at) <= StaleMs(ops, at)
    decreases |ops|
  {
    hide DriftMs;
    if ops == [] {
    } else {
      var last := |ops| - 1;
      TotalDriftWithinStaleness(room, ops[..last], at[..last]);
      DriftWithinStaleness(RunOps(room, ops[..last]), ops[last], at[last]);
    }
  }

  lemma WaitingMoves(room: Room, from: int, to: int)
    requires IsPlaying(room) && room.playback.value.serverTime <= from <= to
    ensures PositionAt(room, to)
         == PositionAt(room, from) + Advance(if Held(room) then 0 else to - from, RateOf(room))
  {
    var sent := room.playback.value.serverTime;
    AdvanceAdd(from - sent, to - from, RateOf(room));
  }

  lemma ExtendLaw(after: Room, p0: real, p1: real, soFar: int, skipped: int, now: int, until: int)
    requires IsPlaying(after) && after.playback.value.serverTime <= now <= until
    requires p1 == p0 + Advance(soFar, RateOf(after))
    requires PositionAt(after, now) == p1 + Advance(skipped, RateOf(after))
    ensures PositionAt(after, until)
         == p0 + Advance(soFar + skipped + if Held(after) then 0 else until - now, RateOf(after))
  {
    WaitingMoves(after, now, until);
    AdvanceAdd(soFar, skipped, RateOf(after));
    AdvanceAdd(soFar + skipped, if Held(after) then 0 else until - now, RateOf(after));
  }

  lemma TimelyPrefix(ops: seq<RoomOp>, at: seq<int>, start: int)
    requires Timely(ops, at, start) && |ops| > 0
    ensures Timely(ops[..|ops| - 1], at[..|ops| - 1], start)
    ensures LastTime(at[..|ops| - 1], start) <= at[|ops| - 1]
  {
  }

  /** The exact law, for every run of every coordinating operation, however old the readings. */
  lemma {:induction false} DriftingTimelineLaw(room: Room, ops: seq<RoomOp>, at: seq<int>, start: int, until: int)
    requires IsPlaying(room) && room.playback.value.serverTime <= start
    requires Timely(ops, at, start) && LastTime(at, start) <= until
    requires forall op <- ops :: Coordinates(op)
    ensures IsPlaying(RunOps(room, ops))
    ensures RateOf(RunOps(room, ops)) == RateOf(room)
    ensures RunOps(room, ops).playback.value.serverTime <= LastTime(at, start)
    ensures PositionAt(RunOps(room, ops), until)
         == PositionAt(room, start)
            + Advance(RunningMs(room, ops, at, start, until) + TotalSkippedMs(room, ops) + TotalDriftMs(room, ops, at), RateOf(room))
    decreases |ops|
  {
    hide Advance, Next, PositionAt, DriftMs, SkippedMs;
    if ops == [] {
      WaitingMoves(room, start, until);
    } else {
      var last := |ops| - 1;
      var front, op := ops[..last], ops[last];
      var before, after := RunOps(room, front), RunOps(room, ops);
      TimelyPrefix(ops, at, start);
      DriftingTimelineLaw(room, front, at[..last], start, at[last]);
      StepMovesBySkippedAndDrift(before, op, at[last]);
      ExtendLaw(after, PositionAt(room, start), PositionAt(before, at[last]),
                RunningMs(room, front, at[..last], start, at[last]) + TotalSkippedMs(room, front) + TotalDriftMs(room, front, at[..last]),
                SkippedMs(before, op) + DriftMs(before, op, at[last]), at[last], until);
    }
  }

  lemma NoDriftInOrder(room: Room, ops: seq<RoomOp>)
    ensures TotalDriftMs(room, ops, Times(ops)) == 0
  {
    TotalDriftWithinStaleness(room, ops, Times(ops));
    NothingStale(ops);
  }

  /** The law for operations applied at the moment they carry: only skipped frozen time is added. */
  lemma TimelineLaw(room: Room, ops: seq<RoomOp>, start: int, until: int)
    requires IsPlaying(room) && room.playback.value.serverTime <= start
    requires TimeOrdered(ops, start) && LastTime(Times(ops), start) <= until
    requires forall op <- ops :: Coordinates(op)
    ensures IsPlaying(RunOps(room, ops))
    ensures RateOf(RunOps(room, ops)) == RateOf(room)
    ensures RunOps(room, ops).playback.value.serverTime <= LastTime(Times(ops), start)
    ensures PositionAt(RunOps(room, ops), until)
         == PositionAt(room, start)
            + Advance(RunningMs(room, ops, Times(ops), start, until) + TotalSkippedMs(room, ops), RateOf(room))
  {
    hide Advance, PositionAt, RunningMs, Next;
    DriftingTimelineLaw(room, ops, Times(ops), start, until);
    NoDriftInOrder(room, ops);
  }

  ghost predicate SkipsAt(room: Room, ops: seq<RoomOp>, i: nat)
    requires i < |ops|
  {
    var before := RunOps(room, ops[..i]);
    RestartsHold(before, ops[i]) && before.playback.value.serverTime < ops[i].now
  }

  // Some operation of the run begins a barrier on a hold that has been frozen for a while.
  ghost predicate SkipsSomewhere(room: Room, ops: seq<RoomOp>) {
    exists i :: 0 <= i < |ops| && SkipsAt(room, ops, i)
  }

  lemma {:induction false} SkippedIffSomewhere(room: Room, ops: seq<RoomOp>)
    ensures TotalSkippedMs(room, ops) > 0 <==> SkipsSomewhere(room, ops)
    decreases |ops|
  {
    if ops == [] {
    } else {
      var last := |ops| - 1;
      SkippedIffSomewhere(room, ops[..last]);
      assert forall i | 0 <= i < last :: ops[..last][..i] == ops[..i];
      assert forall i | 0 <= i < last :: SkipsAt(room, ops[..last], i) <==> SkipsAt(room, ops, i);
      assert SkippedMs(RunOps(room, ops[..last]), ops[last]) > 0 <==> SkipsAt(room, ops, last);
    }
  }

  /** A playing room's position is its start plus rate times unfrozen time, if and only if no join
      and no switch to wait restarted a hold that was already frozen. */
  lemma ConservedIffNoRestart(room: Room, ops: seq<RoomOp>, start: int, until: int)
    requires IsPlaying(room) && room.playback.value.serverTime <= start
    requires TimeOrdered(ops, start) && LastTime(Times(ops), start) <= until
    requires forall op <- ops :: Coordinates(op)
    ensures IsPlaying(RunOps(room, ops))
    ensures PositionAt(RunOps(room, ops), until)
            == PositionAt(room, start) + Advance(RunningMs(room, ops, Times(ops), start, until), RateOf(room))
            <==> !SkipsSomewhere(room, ops)
  {
    hide *;
    TimelineLaw(room, ops, start, until);
    SkippedIffSomewhere(room, ops);
    RateIsPositive(room);
    AdvanceByNothing(RunningMs(room, ops, Times(ops), start, until), TotalSkippedMs(room, ops), RateOf(room));
  }

  lemma FrozenPosition(room: Room, t: int)
    requires IsPlaying(room) && Held(room)
    ensures PositionAt(room, t) == room.playback.value.position
  {
  }

  lemma FourSeconds()
    ensures Advance(4_000, 1.0) == 4.0
  {
  }

  /** Witness: a late joiner arriving 4 s into a buffer hold pushes the room 4 s ahead. */
  lemma JoinIntoBufferHoldSkips(m: MemberId, joiner: MemberId)
    ensures exists ops, op ::
              var room := RunOps(Fresh(), ops);
              && op == JoinMember(joiner, 4_000)
              && IsPlaying(room) && Held(room)
              && PositionAt(room, op.now) == 0.0
              && PositionAt(RunOps(Fresh(), ops + [op]), op.now) == 4.0
  {
    hide Next, Advance, PositionAt;
    var stall, join := Stall(m, 0), JoinMember(joiner, 4_000);
    var playing := RunOps(Fresh(), Started(m));
    StartedPlays(m);
    StallHolds(playing, m, 0);
    RunAppend(Fresh(), Started(m), stall);
    var held := RunOps(Fresh(), Started(m) + [stall]);
    ProjectIsLinear(playing.playback.value, 0);
    assert held.playback == Some(PlayingFrom(0.0, m));
    RunAppend(Fresh(), Started(m) + [stall], join);
    assert SkippedMs(held, join) == 4_000;
    StepMovesBySkipped(held, join);
    assert PositionAt(held, 4_000) == 0.0 by { FrozenPosition(held, 4_000); }
    assert Advance(4_000, 1.0) == 4.0 by { FourSeconds(); }
  }
}
