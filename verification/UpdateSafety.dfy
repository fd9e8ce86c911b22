/** What updates without an explicit user intent can and cannot do to the room, and when an
    update or a share begins, keeps or clears a hold. */
module UpdateSafety {
  import opened PlaybackModel
  import opened PlaybackCoordinator
  import opened PlaybackAuthority
  import opened RoomStore
  import opened RoomOperations
  import opened HoldExactness
  import opened TimelineConservation

  /** How far behind the projected timeline a non-explicit update may land. */
  function Tolerance(current: Playback, incoming: Playback): real {
    if incoming.playState != Playing then 2.5
    else if current.actorId == incoming.actorId then 1.0
    else 0.6
  }

  predicate WithinTolerance(current: Playback, incoming: Playback, now: int) {
    incoming.position >= Project(current, now) - Tolerance(current, incoming)
  }

  predicate RepeatsRate(current: Playback, incoming: Playback) {
    && incoming.syncIntent == Some(ExplicitRatechange)
    && Abs(NormalRate(incoming.playbackRate) - NormalRate(current.playbackRate)) <= 0.01
  }

  // A live room has no timeline of its own to fall behind: its stored position is not projected,
  // a stop is judged by whether the room plays, and only a playing update by where it is.
  predicate LiveFollower(current: Playback, incoming: Playback) {
    if incoming.playState == Playing then incoming.position < current.position - Tolerance(current, incoming)
    else current.playState == Playing
  }

  /** What is taken over, in both directions. An explicit intent always is, unless it repeats the rate.
      Anything else must be within tolerance of the projection (in a live room: not a follower's) and
      must not follow somebody else's authority window. */
  lemma AcceptanceExact(current: Playback, authority: Option<Authority>, incoming: Playback, now: int, isLive: bool)
    ensures Decide(Some(current), authority, incoming, now, isLive).Accepted() <==>
            if IsExplicit(incoming) then !RepeatsRate(current, incoming)
            else
              && (if isLive then !LiveFollower(current, incoming) else WithinTolerance(current, incoming, now))
              && (current.actorId == incoming.actorId
                  || !FollowsAuthority(current, authority, incoming, EffectivePosition(current, now, isLive), now))
  {
  }

  /** While the window of an actor who started, moved or shared the playing video is open, nobody else's
      non-explicit playing update is taken over, nor a stop near the current position that does not run
      ahead of it; once the window has closed, the authority rejects nothing. */
  lemma AuthorityWindowGuards(current: Playback, authority: Authority, incoming: Playback, now: int)
    requires !IsExplicit(incoming) && incoming.actorId != authority.actorId
    requires current.actorId == authority.actorId && current.playState == Playing && authority.kind != ByPause
    ensures now < authority.until && incoming.playState == Playing ==>
              !Decide(Some(current), Some(authority), incoming, now, false).Accepted()
    ensures now < authority.until && IsStopLike(incoming)
            && Abs(incoming.position - Project(current, now)) < 1.2
            && incoming.position <= Project(current, now) + 0.15 ==>
              !Decide(Some(current), Some(authority), incoming, now, false).Accepted()
    ensures authority.until <= now ==>
              Decide(Some(current), Some(authority), incoming, now, false) == Decide(Some(current), None, incoming, now, false)
  {
  }

  /** What somebody else's open window decides about an update that is within tolerance: a playing update
      must be far ahead of a playing room, and not one that the window's owner set going; a stop must not
      be one that merely lags behind somebody who set the room going. */
  lemma AuthorityRejectsIff(current: Playback, authority: Authority, incoming: Playback, now: int)
    requires !IsExplicit(incoming) && incoming.actorId != current.actorId && incoming.actorId != authority.actorId
    requires WithinTolerance(current, incoming, now) && now < authority.until
    ensures var ahead := incoming.position - Project(current, now);
            !Decide(Some(current), Some(authority), incoming, now, false).Accepted() <==>
            if incoming.playState == Playing then
              || current.playState != Playing
              || ahead < 1.2
              || (authority.kind in {ByShare, ByPlay, BySeek, ByRatechange} && current.actorId == authority.actorId)
            else
              && authority.kind in {ByShare, ByPlay, BySeek, ByRatechange}
              && current.playState == Playing
              && -1.2 < ahead <= 0.15
  {
    hide Project;
  }

  predicate NonExplicitUpdate(op: RoomOp) {
    op.UpdatePlayback? && !IsExplicit(op.incoming)
  }

  // ---- Bounded loss over runs of accepted updates ----

  predicate TakenAsPlaying(room: Room, op: RoomOp, rate: real) {
    op.UpdatePlayback? && TakesUpdate(room, op) ==>
      op.incoming.playState == Playing && NormalRate(op.incoming.playbackRate) == rate
  }

  /** The tolerance of one update, if it is taken over. */
  function Loss(room: Room, op: RoomOp): (loss: real)
    ensures 0.0 <= loss <= 1.0
  {
    if !op.UpdatePlayback? || !TakesUpdate(room, op) then 0.0
    else if room.playback.Some? && room.playback.value.actorId != op.actorId then 0.6
    else 1.0
  }

  /** The loss a run may accumulate: one tolerance for each update taken over. */
  function AllowedLoss(room: Room, ops: seq<RoomOp>): (loss: real)
    ensures 0.0 <= loss <= |ops| as real
    decreases |ops|
  {
    if ops == [] then 0.0
    else
      var front := ops[..|ops| - 1];
      AllowedLoss(room, front) + Loss(RunOps(room, front), ops[|ops| - 1])
  }

  lemma AdvanceGrows(a: int, b: int, rate: real)
    requires a <= b && rate > 0.0
    ensures Advance(a, rate) <= Advance(b, rate)
  {
    AdvanceAdd(a, b - a, rate);
    assert Seconds(b - a) >= 0.0;
  }

  /** What one taken update costs: it lands within its tolerance of the projection at the reading it
      carries, and a barrier it begins takes back the time since that reading. */
  lemma TakenLosesAtMostTolerance(room: Room, op: RoomOp, at: int)
    requires IsPlaying(room) && !IsLive(room) && NonExplicitUpdate(op) && TakesUpdate(room, op)
    requires op.incoming.playState == Playing && NormalRate(op.incoming.playbackRate) == RateOf(room)
    requires room.playback.value.serverTime <= at && op.now <= at
    ensures var after := Next(room, op);
            && IsPlaying(after) && RateOf(after) == RateOf(room) && after.playback.value.serverTime == op.now
            && PositionAt(after, at) >= PositionAt(room, at) - Advance(at - op.now, RateOf(room)) - Loss(room, op)
  {
    hide Next, Project, Advance;
    var current, stored, rate := room.playback.value, StampedUpdate(room, op), RateOf(room);
    UpdateStores(room, op);
    AcceptanceExact(current, op.authority, stored, op.now, false);
    ProjectIsLinear(current, op.now);
    ProjectIsLinear(current, at);
    ProjectIsLinear(stored, at);
    AdvanceGrows(0, Max0(op.now - current.serverTime), rate);
    AdvanceGrows(0, at - op.now, rate);
    AdvanceGrows(Max0(at - current.serverTime), Max0(op.now - current.serverTime) + (at - op.now), rate);
    AdvanceAdd(Max0(op.now - current.serverTime), at - op.now, rate);
  }

  lemma SamePosition(a: Room, b: Room, t: int)
    requires IsPlaying(a) && b.playback == a.playback && Sync(b) == Sync(a)
    ensures PositionAt(b, t) == PositionAt(a, t)
  {
  }

  lemma OtherOperationsKeepPlaying(room: Room, op: RoomOp)
    requires Coordinates(op)
    ensures Next(room, op).sharedVideo == room.sharedVideo
    ensures IsPlaying(Next(room, op)) == IsPlaying(room)
  {
    hide Unique, Without;
  }

  lemma StepLosesAtMost(room: Room, op: RoomOp, at: int)
    requires IsPlaying(room) && !IsLive(room) && (Coordinates(op) || NonExplicitUpdate(op))
    requires TakenAsPlaying(room, op, RateOf(room))
    requires room.playback.value.serverTime <= at && op.now <= at
    ensures var after := Next(room, op);
            && IsPlaying(after) && !IsLive(after) && RateOf(after) == RateOf(room)
            && after.playback.value.serverTime <= at
            && PositionAt(after, at)
            >= PositionAt(room, at) + Advance(SkippedMs(room, op) - (at - op.now), RateOf(room)) - Loss(room, op)
  {
    hide Next, Advance, TakesUpdate, PositionAt, DriftMs;
    var rate := RateOf(room);
    if Coordinates(op) {
      StepMovesBySkippedAndDrift(room, op, at);
      OtherOperationsKeepPlaying(room, op);
      DriftWithinStaleness(room, op, at);
      AdvanceGrows(SkippedMs(room, op) - (at - op.now), SkippedMs(room, op) + DriftMs(room, op, at), rate);
    } else {
      UpdateStores(room, op);
      AdvanceAdd(at - op.now, -(at - op.now), rate);
      AdvanceGrows(0, at - op.now, rate);
      ProjectIsLinear(room.playback.value, at);
      if TakesUpdate(room, op) {
        TakenLosesAtMostTolerance(room, op, at);
      } else {
        SamePosition(room, Next(room, op), at);
      }
    }
  }

  lemma ExtendBound(after: Room, p0: real, p1: real, soFar: int, skipped: int, now: int, until: int, lost: real, loss: real)
    requires IsPlaying(after) && after.playback.value.serverTime <= now <= until
    requires p1 >= p0 + Advance(soFar, RateOf(after)) - lost
    requires PositionAt(after, now) >= p1 + Advance(skipped, RateOf(after)) - loss
    ensures PositionAt(after, until)
         >= p0 + Advance(soFar + skipped + if Held(after) then 0 else until - now, RateOf(after)) - (lost + loss)
  {
    hide PositionAt, Advance;
    WaitingMoves(after, now, until);
    AdvanceAdd(soFar, skipped, RateOf(after));
    AdvanceAdd(soFar + skipped, if Held(after) then 0 else until - now, RateOf(after));
  }

  lemma NothingLost(room: Room, start: int, until: int)
    requires IsPlaying(room) && room.playback.value.serverTime <= start <= until
    ensures RunOps(room, []) == room && AllowedLoss(room, []) == 0.0
    ensures PositionAt(room, until)
         == PositionAt(room, start)
            + Advance(RunningMs(room, [], [], start, until) + TotalSkippedMs(room, []) - StaleMs([], []), RateOf(room))
  {
    hide PositionAt, Advance;
    WaitingMoves(room, start, until);
  }

  lemma NoTimes(ops: seq<RoomOp>, at: seq<int>, start: int)
    requires Timely(ops, at, start) && ops == []
    ensures at == []
  {
  }

  lemma LastIsTimely(ops: seq<RoomOp>, at: seq<int>, start: int)
    requires Timely(ops, at, start) && ops != []
    ensures |at| == |ops| && ops[|ops| - 1] in ops && ops[|ops| - 1].now <= at[|ops| - 1]
  {
  }

  lemma LastOfRun(room: Room, ops: seq<RoomOp>, at: seq<int>, start: int, until: int)
    requires |at| == |ops| && ops != []
    ensures var last := |ops| - 1;
            var before := RunOps(room, ops[..last]);
            && RunOps(room, ops) == Next(before, ops[last])
            && RunningMs(room, ops, at, start, until)
            == RunningMs(room, ops[..last], at[..last], start, at[last]) + (if Held(RunOps(room, ops)) then 0 else until - at[last])
            && TotalSkippedMs(room, ops) == TotalSkippedMs(room, ops[..last]) + SkippedMs(before, ops[last])
            && StaleMs(ops, at) == StaleMs(ops[..last], at[..last]) + at[last] - ops[last].now
            && AllowedLoss(room, ops) == AllowedLoss(room, ops[..last]) + Loss(before, ops[last])
  {
    hide Next, SkippedMs, Loss;
  }

  ghost predicate UpdatesPlayOn(room: Room, ops: seq<RoomOp>)
    requires IsPlaying(room)
  {
    forall k :: 0 <= k < |ops| ==> TakenAsPlaying(RunOps(room, ops[..k]), ops[k], RateOf(room))
  }

  lemma LastPlaysOn(room: Room, ops: seq<RoomOp>)
    requires ops != [] && IsPlaying(room) && UpdatesPlayOn(room, ops)
    ensures UpdatesPlayOn(room, ops[..|ops| - 1])
    ensures TakenAsPlaying(RunOps(room, ops[..|ops| - 1]), ops[|ops| - 1], RateOf(room))
  {
    hide RunOps, TakenAsPlaying;
    var front := ops[..|ops| - 1];
    forall k | 0 <= k < |front| ensures TakenAsPlaying(RunOps(room, front[..k]), front[k], RateOf(room)) {
      assert front[..k] == ops[..k];
    }
  }

  /** Over any run of coordinating operations and non-explicit updates that keep playing at one rate,
      a viewer of an on-demand room falls behind the unfrozen time by at most one tolerance for each
      update taken over, and by at most how old the readings were when they took effect. */
  lemma {:induction false} BoundedLoss(room: Room, ops: seq<RoomOp>, at: seq<int>, start: int, until: int)
    requires IsPlaying(room) && !IsLive(room) && room.playback.value.serverTime <= start
    requires Timely(ops, at, start) && LastTime(at, start) <= until
    requires forall op <- ops :: Coordinates(op) || NonExplicitUpdate(op)
    requires UpdatesPlayOn(room, ops)
    ensures var after := RunOps(room, ops);
            && IsPlaying(after) && !IsLive(after) && RateOf(after) == RateOf(room)
            && after.playback.value.serverTime <= LastTime(at, start)
            && PositionAt(after, until)
            >= PositionAt(room, start)
               + Advance(RunningMs(room, ops, at, start, until) + TotalSkippedMs(room, ops) - StaleMs(ops, at), RateOf(room))
               - AllowedLoss(room, ops)
    decreases |ops|
  {
    hide Advance, Next, PositionAt, SkippedMs, Loss, TakenAsPlaying, Timely, RunningMs, TotalSkippedMs, StaleMs, AllowedLoss,
         UpdatesPlayOn, RunOps;
    if ops == [] {
      NoTimes(ops, at, start);
      NothingLost(room, start, until);
    } else {
      var last := |ops| - 1;
      var front, op := ops[..last], ops[last];
      var before, after := RunOps(room, front), RunOps(room, ops);
      LastIsTimely(ops, at, start);
      LastOfRun(room, ops, at, start, until);
      LastPlaysOn(room, ops);
      TimelyPrefix(ops, at, start);
      BoundedLoss(room, front, at[..last], start, at[last]);
      StepLosesAtMost(before, op, at[last]);
      ExtendBound(after, PositionAt(room, start), PositionAt(before, at[last]),
                  RunningMs(room, front, at[..last], start, at[last]) + TotalSkippedMs(room, front) - StaleMs(front, at[..last]),
                  SkippedMs(before, op) - (at[last] - op.now), at[last], until, AllowedLoss(room, front), Loss(before, op));
    }
  }

  /** With every operation applied at the moment it carries, only the tolerances remain. */
  lemma BoundedLossInOrder(room: Room, ops: seq<RoomOp>, start: int, until: int)
    requires IsPlaying(room) && !IsLive(room) && room.playback.value.serverTime <= start
    requires TimeOrdered(ops, start) && LastTime(Times(ops), start) <= until
    requires forall op <- ops :: Coordinates(op) || NonExplicitUpdate(op)
    requires UpdatesPlayOn(room, ops)
    ensures IsPlaying(RunOps(room, ops))
    ensures PositionAt(RunOps(room, ops), until)
         >= PositionAt(room, start) + Advance(RunningMs(room, ops, Times(ops), start, until), RateOf(room))
            - AllowedLoss(room, ops)
  {
    hide Advance, Next, PositionAt, RunningMs, TotalSkippedMs, UpdatesPlayOn, AllowedLoss;
    BoundedLoss(room, ops, Times(ops), start, until);
    NothingStale(ops);
    RateIsPositive(room);
    var running := RunningMs(room, ops, Times(ops), start, until);
    AdvanceGrows(running, running + TotalSkippedMs(room, ops), RateOf(room));
  }

  // ---- Nobody stops a playing room by accident ----

  /** Exactly which updates stop a room that plays live, or on demand under a live hold. */
  lemma StopsIff(room: Room, op: RoomOp)
    requires op.UpdatePlayback? && IsPlaying(room)
    requires IsLive(room) || HoldLiveAt(Sync(room), op.now)
    ensures !IsPlaying(Next(room, op)) <==>
            && OfSharedVideo(room, op.incoming)
            && IsStopLike(op.incoming)
            && match op.incoming.syncIntent
               case None => false
               case Some(ExplicitSeek) => IsLive(room)
               case Some(ExplicitRatechange) =>
                 Abs(NormalRate(op.incoming.playbackRate) - NormalRate(room.playback.value.playbackRate)) > 0.01
               case Some(_) => true
  {
    UpdateStores(room, op);
  }

  /** Over any run without shares and explicit intents, a playing live room keeps playing, and so
      does a playing on-demand room whose updates all arrive under a live hold. */
  lemma {:induction false} NeverStoppedByAccident(room: Room, ops: seq<RoomOp>)
    requires IsPlaying(room)
    requires forall op <- ops :: Coordinates(op) || NonExplicitUpdate(op)
    requires forall k :: 0 <= k < |ops| && ops[k].UpdatePlayback? ==>
               IsLive(room) || HoldLiveAt(Sync(RunOps(room, ops[..k])), ops[k].now)
    ensures IsPlaying(RunOps(room, ops)) && RunOps(room, ops).sharedVideo == room.sharedVideo
    decreases |ops|
  {
    hide Next, HoldLiveAt;
    if ops == [] {
    } else {
      var last := |ops| - 1;
      forall k | 0 <= k < last && ops[..last][k].UpdatePlayback?
        ensures IsLive(room) || HoldLiveAt(Sync(RunOps(room, ops[..last][..k])), ops[..last][k].now)
      {
        assert ops[..last][..k] == ops[..k];
      }
      NeverStoppedByAccident(room, ops[..last]);
      var before, op := RunOps(room, ops[..last]), ops[last];
      if Coordinates(op) {
        OtherOperationsKeepPlaying(before, op);
      } else {
        UpdateStores(before, op);
        StopsIff(before, op);
      }
    }
  }

  // ---- What is played is what is shared ----

  predicate PlaysSharedVideo(room: Room) {
    room.playback.Some? ==> room.sharedVideo.Some? && room.sharedVideo.value.link == room.playback.value.link
  }

  lemma NextPlaysSharedVideo(room: Room, op: RoomOp)
    requires PlaysSharedVideo(room)
    ensures PlaysSharedVideo(Next(room, op))
  {
    hide Unique, Without;
    if Coordinates(op) {
      OtherOperationsKeepPlaying(room, op);
      NextStoresCoordination(room, op);
    } else if op.UpdatePlayback? {
      UpdateStores(room, op);
    }
  }

  /** Every room reached from a new one plays the video it shares, and nothing without one. */
  lemma {:induction false} ReachablePlaysSharedVideo(code: string, createdAt: int, ops: seq<RoomOp>)
    ensures PlaysSharedVideo(RunOps(NewRoom(code, createdAt), ops))
    decreases |ops|
  {
    hide Next;
    if ops == [] {
    } else {
      ReachablePlaysSharedVideo(code, createdAt, ops[..|ops| - 1]);
      NextPlaysSharedVideo(RunOps(NewRoom(code, createdAt), ops[..|ops| - 1]), ops[|ops| - 1]);
    }
  }

  // ---- Which updates and shares touch the hold ----

  /** A taken update freezes the room for everyone iff the room waits, is on demand and has company, and
      the update plays and starts, resumes, or moves the timeline at an unchanged rate. */
  lemma UpdateBeginsBarrierIff(room: Room, op: RoomOp)
    requires op.UpdatePlayback? && TakesUpdate(room, op)
    ensures var next := StampedUpdate(room, op);
            BeginsBarrier(room, op) <==>
            && Sync(room).strategy == Wait && !IsLive(room) && |op.activeMemberIds| >= 2
            && next.playState == Playing
            && (room.playback.None?
                || var current := room.playback.value;
                   && Abs(next.playbackRate - current.playbackRate) <= 0.01
                   && (|| next.syncIntent == Some(ExplicitSeek)
                       || Abs(next.position - current.position) >= 2.5
                       || current.playState != Playing))
  {
  }

  /** The hold after an update, whatever it was: a taken update may begin a barrier on itself, a taken
      stop releases (unless it is the first playback), and nothing else touches hold or list. */
  lemma HoldAfterUpdate(room: Room, op: RoomOp)
    requires op.UpdatePlayback?
    ensures var before, after := Sync(room), Sync(Next(room, op));
            if BeginsBarrier(room, op) then
              && after.hold.active && after.hold.playbackRevision == Some(RevisionOf(StampedUpdate(room, op)))
              && after.hold.deadlineAt == Some(op.now + READINESS_BARRIER_TIMEOUT_MS)
            else if TakesUpdate(room, op) && room.playback.Some? && IsStopLike(StampedUpdate(room, op)) then
              after == Inactive(before.strategy)
            else after == before
  {
    hide Next, Unique;
    UpdateStores(room, op);
  }

  /** A share leaves the room held iff it was, or it is a playing share into a waiting room with at least
      two members whose video being replaced is not live; what the new video is does not matter. */
  lemma ShareFreezesIff(room: Room, op: RoomOp)
    requires op.ShareVideo?
    ensures Held(Next(room, op)) <==>
            || Held(room)
            || (op.playback.Some? && op.playback.value.playState == Playing
                && Sync(room).strategy == Wait && |op.activeMemberIds| >= 2 && !IsLive(room))
  {
  }

  // ---- What an accepted update is recorded as ----

  /** An update with a playback stored is recorded as a stop, a change of rate, a seek or a start; it is
      recorded as nothing iff it is a steady tick. */
  lemma KindIff(current: Playback, next: Playback)
    ensures var kind, moved := AuthorityKindOf(Some(current), next), Abs(next.position - current.position) >= 2.5;
            && (kind == Some(ByPause) <==> next.playState != Playing)
            && (kind == Some(ByRatechange) <==> next.playState == Playing && Abs(next.playbackRate - current.playbackRate) > 0.01)
            && (kind == Some(BySeek) <==>
                  && next.playState == Playing && Abs(next.playbackRate - current.playbackRate) <= 0.01
                  && (next.syncIntent == Some(ExplicitSeek) || moved))
            && (kind.None? <==>
                  && next.playState == Playing && current.playState == Playing
                  && Abs(next.playbackRate - current.playbackRate) <= 0.01
                  && next.syncIntent != Some(ExplicitSeek) && !moved)
            && kind != Some(ByShare)
    ensures AuthorityKindOf(None, next) == Some(ByPlay)
  {
  }
}
