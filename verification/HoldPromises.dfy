/** Three promises a reader expects of every hold: that the room plays, that a barrier waits for the
    playback the room stores, and that the named member is one of those waited for. For each, exactly
    which operations break it, over whole runs, and a run that does. */
module HoldPromises {
  import opened PlaybackModel
  import opened PlaybackCoordinator
  import opened PlaybackAuthority
  import opened RoomStore
  import opened RoomOperations
  import opened HoldInvariant
  import opened HoldExactness
  import opened SampleRuns

  ghost predicate KeptThroughout(keeps: Room -> bool, room: Room, ops: seq<RoomOp>) {
    forall k :: 0 <= k <= |ops| ==> keeps(RunOps(room, ops[..k]))
  }

  ghost predicate NeverBroken(breaks: (Room, RoomOp) -> bool, room: Room, ops: seq<RoomOp>) {
    forall k :: 0 <= k < |ops| ==> !breaks(RunOps(room, ops[..k]), ops[k])
  }

  lemma OneMore(keeps: Room -> bool, breaks: (Room, RoomOp) -> bool, room: Room, ops: seq<RoomOp>, op: RoomOp)
    ensures KeptThroughout(keeps, room, ops + [op]) <==> KeptThroughout(keeps, room, ops) && keeps(RunOps(room, ops + [op]))
    ensures NeverBroken(breaks, room, ops + [op]) <==> NeverBroken(breaks, room, ops) && !breaks(RunOps(room, ops), op)
  {
    hide RunOps;
    var longer := ops + [op];
    assert longer[..|longer|] == longer && longer[..|ops|] == ops;
    assert forall k | 0 <= k <= |ops| :: longer[..k] == ops[..k];
    assert KeptThroughout(keeps, room, longer) ==> keeps(RunOps(room, longer[..|longer|]));
    assert NeverBroken(breaks, room, longer) ==> !breaks(RunOps(room, longer[..|ops|]), longer[|ops|]);
    if KeptThroughout(keeps, room, longer) {
      forall k | 0 <= k <= |ops| ensures keeps(RunOps(room, ops[..k])) {
        assert keeps(RunOps(room, longer[..k]));
      }
    }
    if NeverBroken(breaks, room, longer) {
      forall k | 0 <= k < |ops| ensures !breaks(RunOps(room, ops[..k]), ops[k]) {
        assert !breaks(RunOps(room, longer[..k]), longer[k]);
      }
    }
  }

  lemma NothingDone(keeps: Room -> bool, breaks: (Room, RoomOp) -> bool, room: Room)
    requires keeps(room)
    ensures KeptThroughout(keeps, room, []) && NeverBroken(breaks, room, [])
  {
  }

  /** What a step keeps exactly when it is not a breaker, a run keeps exactly when it meets no breaker. */
  lemma {:induction false} KeptIffUnbroken(keeps: Room -> bool, breaks: (Room, RoomOp) -> bool, room: Room, ops: seq<RoomOp>)
    requires keeps(room)
    requires forall r, op :: keeps(r) ==> (keeps(Next(r, op)) <==> !breaks(r, op))
    ensures KeptThroughout(keeps, room, ops) <==> NeverBroken(breaks, room, ops)
    ensures KeptThroughout(keeps, room, ops) ==> keeps(RunOps(room, ops))
    decreases |ops|
  {
    hide Next, KeptThroughout, NeverBroken;
    if ops == [] {
      assert KeptThroughout(keeps, room, []) && NeverBroken(breaks, room, []) by { NothingDone(keeps, breaks, room); }
    } else {
      var front, op := ops[..|ops| - 1], ops[|ops| - 1];
      assert front + [op] == ops;
      KeptIffUnbroken(keeps, breaks, room, front);
      OneMore(keeps, breaks, room, front, op);
      assert RunOps(room, ops) == Next(RunOps(room, front), op);
    }
  }

  // ---- A held room plays ----

  predicate HoldPlays(room: Room) {
    Held(room) ==> IsPlaying(room)
  }

  predicate TakesPlayAway(room: Room, op: RoomOp) {
    Held(room) && (op.ClearVideo? || (op.ShareVideo? && SharedPlayback(op).playState != Playing))
  }

  lemma HoldPlaysIff(room: Room, op: RoomOp)
    requires HoldPlays(room)
    ensures HoldPlays(Next(room, op)) <==> !TakesPlayAway(room, op)
  {
    hide Unique, Without;
    if Coordinates(op) {
      hide Next;
      NextStoresCoordination(room, op);
    } else if op.UpdatePlayback? {
      hide Next;
      UpdateStores(room, op);
    }
  }

  /** In a run from a new room every active hold means a playing room, unless and until a held room is
      given a share that does not play or has its video cleared. */
  lemma HeldRoomsPlayIff(code: string, createdAt: int, ops: seq<RoomOp>)
    ensures KeptThroughout(HoldPlays, NewRoom(code, createdAt), ops) <==> NeverBroken(TakesPlayAway, NewRoom(code, createdAt), ops)
  {
    hide Next, TakesPlayAway;
    forall r, op | HoldPlays(r) ensures HoldPlays(Next(r, op)) <==> !TakesPlayAway(r, op) {
      HoldPlaysIff(r, op);
    }
    KeptIffUnbroken(HoldPlays, TakesPlayAway, NewRoom(code, createdAt), ops);
  }

  function InBarrier(m: MemberId, n: MemberId): seq<RoomOp> {
    [SetStrategy(Wait, [m, n], 0), Opening(m, [m, n])]
  }

  lemma ShareStores(room: Room, op: RoomOp)
    requires op.ShareVideo?
    ensures Next(room, op).playback == Some(SharedPlayback(op)) && Next(room, op).sharedVideo == Some(op.video)
    ensures Sync(Next(room, op)) == if CommandStartsBarrier(room, SharedPlayback(op), op.activeMemberIds, Share)
                                    then Barrier(SharedPlayback(op), op.activeMemberIds, op.now) else Sync(room)
  {
  }

  lemma BarrierOpens(m: MemberId, n: MemberId)
    ensures var room := RunOps(Fresh(), InBarrier(m, n));
            && Held(room) && Sync(room).strategy == Wait
            && Sync(room).hold.playbackRevision == Some(RevisionOf(PlayingFrom(0.0, m)))
            && room.playback == Some(PlayingFrom(0.0, m)) && room.sharedVideo == Some(Video())
  {
    hide Next, Unique;
    RunTwo(Fresh(), SetStrategy(Wait, [m, n], 0), Opening(m, [m, n]));
    SwitchedToWait([m, n]);
    ShareStores(Next(Fresh(), SetStrategy(Wait, [m, n], 0)), Opening(m, [m, n]));
  }

  /** Witness: a paused share into a room waiting in a barrier. */
  lemma PausedShareStaysHeld(m: MemberId, n: MemberId)
    ensures exists ops :: var room := RunOps(Fresh(), ops); Held(room) && room.playback.Some? && !IsPlaying(room)
  {
    hide Next, Unique;
    var share := ShareVideo(Video(), None, m, [m, n], 1);
    BarrierOpens(m, n);
    var waiting := RunOps(Fresh(), InBarrier(m, n));
    RunAppend(Fresh(), InBarrier(m, n), share);
    ShareStores(waiting, share);
    assert Held(RunOps(Fresh(), InBarrier(m, n) + [share]));
  }

  // ---- A barrier waits for the stored playback ----

  predicate TracksPlayback(room: Room) {
    Held(room) && Sync(room).hold.playbackRevision.Some? ==>
      room.playback.Some? && Sync(room).hold.playbackRevision == Some(RevisionOf(room.playback.value))
  }

  predicate Supersedes(next: Playback, current: Playback) {
    next.url != current.url || next.actorId != current.actorId || next.seqNo != current.seqNo || next.serverTime != current.serverTime
  }

  // What stores another playback without beginning a barrier of its own and without releasing.
  predicate OvertakesBarrier(room: Room, op: RoomOp) {
    && Held(room) && Sync(room).hold.playbackRevision.Some? && room.playback.Some?
    && match op
       case ShareVideo(_, _, _, members, _) =>
         && !CommandStartsBarrier(room, SharedPlayback(op), members, Share)
         && Supersedes(SharedPlayback(op), room.playback.value)
       case UpdatePlayback(_, _, _, members, _) =>
         && TakesUpdate(room, op)
         && var next := StampedUpdate(room, op);
            && !IsStopLike(next)
            && !CommandStartsBarrier(room, next, members, CommandOf(AuthorityKindOf(room.playback, next)))
            && Supersedes(next, room.playback.value)
       case ClearVideo(_) => true
       case _ => false
  }

  lemma ClearStores(room: Room, now: int)
    ensures var after := Next(room, ClearVideo(now));
            after.playback.None? && after.sharedVideo.None? && Sync(after) == Sync(room)
  {
  }

  /** Over all operations: a barrier stops waiting for the stored playback exactly when a share or a
      taken playing update stores another one without beginning a barrier, or the video is cleared. */
  lemma BarrierTracksStoredPlaybackIff(room: Room, op: RoomOp)
    requires HoldInv(Sync(room)) && TracksPlayback(room)
    ensures TracksPlayback(Next(room, op)) <==> !OvertakesBarrier(room, op)
  {
    hide Unique, Without, Next;
    if Coordinates(op) {
      NextStoresCoordination(room, op);
    } else if op.UpdatePlayback? {
      UpdateStores(room, op);
    } else if op.ShareVideo? {
      ShareStores(room, op);
    } else {
      ClearStores(room, op.now);
    }
  }

  predicate ReasonListed(room: Room) {
    Held(room) ==>
      Sync(room).hold.reasonMemberId.Some? && Lists(room, Sync(room).hold.reasonMemberId.value)
  }

  lemma NewRoomKeepsPromises(code: string, createdAt: int)
    ensures var room := NewRoom(code, createdAt);
            HoldInv(Sync(room)) && TracksPlayback(room) && ReasonListed(room)
  {
  }

  lemma BarriersTrackPlaybackIff(code: string, createdAt: int, ops: seq<RoomOp>)
    ensures KeptThroughout(TracksPlayback, NewRoom(code, createdAt), ops) <==> NeverBroken(OvertakesBarrier, NewRoom(code, createdAt), ops)
  {
    hide Next, OvertakesBarrier, TracksPlayback, HoldInv;
    var keeps := (r: Room) => HoldInv(Sync(r)) && TracksPlayback(r);
    var begin := NewRoom(code, createdAt);
    assert keeps(begin) by { NewRoomKeepsPromises(code, createdAt); }
    forall r, op | keeps(r) ensures keeps(Next(r, op)) <==> !OvertakesBarrier(r, op) {
      NextKeepsInv(r, op);
      BarrierTracksStoredPlaybackIff(r, op);
    }
    KeptIffUnbroken(keeps, OvertakesBarrier, begin, ops);
    forall k | 0 <= k <= |ops| ensures HoldInv(Sync(RunOps(begin, ops[..k]))) {
      ReachableHoldInv(code, createdAt, ops[..k]);
    }
  }

  /** Witness: the sharer's next steady tick in a barrier. */
  lemma SteadyTickOvertakesBarrier(m: MemberId, n: MemberId)
    ensures exists ops :: !TracksPlayback(RunOps(Fresh(), ops))
  {
    hide Next, Unique;
    var tick := UpdatePlayback(PlayingFrom(0.0, m).(seqNo := 2), m, None, [m, n], 0);
    BarrierOpens(m, n);
    var waiting := RunOps(Fresh(), InBarrier(m, n));
    RunAppend(Fresh(), InBarrier(m, n), tick);
    UpdateStores(waiting, tick);
    assert Project(PlayingFrom(0.0, m), 0) == 0.0;
    assert !TracksPlayback(RunOps(Fresh(), InBarrier(m, n) + [tick]));
  }

  // ---- The named member is waited for ----

  // The named member recovers in an ordinary hold while somebody else is still stalled.
  predicate RecoversBeforeOthers(room: Room, op: RoomOp) {
    && Held(room) && Sync(room).hold.playbackRevision.None?
    && op.ReportBuffer? && ReportsReady(op.report)
    && BeforeDeadline(room, op.now)
    && Sync(room).hold.reasonMemberId == Some(op.memberId)
    && SomebodyElseListed(room, op.memberId)
  }

  /** Over all operations: the name goes stale exactly when its bearer recovers first in a buffer hold;
      a barrier passes the name on, a buffer hold does not. */
  lemma ReasonListedIff(room: Room, op: RoomOp)
    requires HoldInv(Sync(room)) && ReasonListed(room)
    ensures ReasonListed(Next(room, op)) <==> !RecoversBeforeOthers(room, op)
  {
    hide Unique, Without, Next;
    NextKeepsInv(room, op);
    if Coordinates(op) {
      NextStoresCoordination(room, op);
      if op.ReportBuffer? || op.DepartMember? {
        WithoutLeaves(Sync(room).bufferingMemberIds, op.memberId);
      }
    } else if op.UpdatePlayback? {
      UpdateStores(room, op);
    } else if op.ShareVideo? {
      ShareStores(room, op);
    } else {
      ClearStores(room, op.now);
    }
  }

  lemma NamesAreWaitedForIff(code: string, createdAt: int, ops: seq<RoomOp>)
    ensures KeptThroughout(ReasonListed, NewRoom(code, createdAt), ops) <==> NeverBroken(RecoversBeforeOthers, NewRoom(code, createdAt), ops)
  {
    hide Next, RecoversBeforeOthers, ReasonListed, HoldInv;
    var keeps := (r: Room) => HoldInv(Sync(r)) && ReasonListed(r);
    var begin := NewRoom(code, createdAt);
    assert keeps(begin) by { NewRoomKeepsPromises(code, createdAt); }
    forall r, op | keeps(r) ensures keeps(Next(r, op)) <==> !RecoversBeforeOthers(r, op) {
      NextKeepsInv(r, op);
      ReasonListedIff(r, op);
    }
    KeptIffUnbroken(keeps, RecoversBeforeOthers, begin, ops);
    forall k | 0 <= k <= |ops| ensures HoldInv(Sync(RunOps(begin, ops[..k]))) {
      ReachableHoldInv(code, createdAt, ops[..k]);
    }
  }

  function BothStalled(m: MemberId, n: MemberId): seq<RoomOp> {
    Started(m) + [Stall(m, 0)] + [Stall(n, 0)]
  }

  lemma BothAreListed(m: MemberId, n: MemberId)
    requires m != n
    ensures var room := RunOps(Fresh(), BothStalled(m, n));
            && Held(room) && Sync(room).hold == Hold(true, Some(m), Some(0), Some(BUFFER_HOLD_MAX_MS), None)
            && Sync(room).bufferingMemberIds == [m, n]
  {
    hide Next, Unique, Without, RunOps;
    StartedPlays(m);
    StallHolds(RunOps(Fresh(), Started(m)), m, 0);
    var one := Started(m) + [Stall(m, 0)];
    RunAppend(Fresh(), Started(m), Stall(m, 0));
    RunAppend(Fresh(), one, Stall(n, 0));
    NextStoresCoordination(RunOps(Fresh(), one), Stall(n, 0));
    ListEdits([m], n);
    assert Unique([m]) == [m];
  }

  /** Witness: two members stall, and the first one recovers. */
  lemma FirstToStallRecovers(m: MemberId, n: MemberId)
    requires m != n
    ensures exists ops :: !ReasonListed(RunOps(Fresh(), ops))
  {
    hide Next, RunOps, Unique, Without;
    var ops := BothStalled(m, n);
    BothAreListed(m, n);
    ReachableHoldInv("ROOM01", 0, ops);
    RunAppend(Fresh(), ops, Recovery(m, 0));
    assert Sync(RunOps(Fresh(), ops)).bufferingMemberIds[1] == n;
    ReasonListedIff(RunOps(Fresh(), ops), Recovery(m, 0));
    assert !ReasonListed(RunOps(Fresh(), ops + [Recovery(m, 0)]));
  }

  /** Who is named after a report or a departure that leaves the room held: the first one still waited for
      if the named member left, or was ready for its barrier; otherwise whoever was named before. */
  lemma ReasonAfter(room: Room, op: RoomOp)
    requires (op.ReportBuffer? || op.DepartMember?) && HoldInv(Sync(room)) && Held(room) && Held(Next(room, op))
    ensures var before, after, m := Sync(room), Sync(Next(room, op)), op.memberId;
            var barrier, delisted := before.hold.playbackRevision.Some?, Lists(room, m) && !Lists(Next(room, op), m);
            after.hold.reasonMemberId ==
            if delisted && (op.DepartMember? || barrier)
               && (before.hold.reasonMemberId == Some(m) || (op.ReportBuffer? && before.hold.reasonMemberId == Some("")))
            then Some(after.bufferingMemberIds[0]) else before.hold.reasonMemberId
  {
    hide Unique, Without, Next;
    NextStoresCoordination(room, op);
    NextKeepsInv(room, op);
  }

  /** Who is named when a hold begins: the first one waited for in a barrier, whoever stalled otherwise. */
  lemma ReasonAtStart(room: Room, op: RoomOp)
    requires HoldInv(Sync(room)) && Held(Next(room, op)) && (BeginsBarrier(room, op) || (!Held(room) && op.ReportBuffer?))
    ensures var after := Sync(Next(room, op));
            && after.hold.startedAt == Some(op.now)
            && after.hold.reasonMemberId ==
               Some(if BeginsBarrier(room, op) then after.bufferingMemberIds[0] else op.memberId)
  {
    hide Unique, Without, Next;
    if Coordinates(op) {
      NextStoresCoordination(room, op);
    } else if op.UpdatePlayback? {
      UpdateStores(room, op);
    } else if op.ShareVideo? {
      ShareStores(room, op);
    }
  }

  predicate TakesOneOut(before: seq<MemberId>, m: MemberId, after: seq<MemberId>) {
    exists k :: 0 <= k < |before| && before[k] == m && after == before[..k] + before[k + 1..]
  }

  lemma OnlyHim(m: MemberId)
    ensures Without([m], m) == []
  {
  }

  lemma WithoutMiddle(a: seq<MemberId>, m: MemberId, b: seq<MemberId>)
    requires m !in a && m !in b
    ensures Without(a + ([m] + b), m) == a + b
  {
    hide Without;
    WithoutKeepsOrder(a, [m] + b, m);
    WithoutKeepsOrder([m], b, m);
    WithoutKeepsOrder(b, [], m);
    OnlyHim(m);
    assert [] + b == b;
  }

  lemma WithoutInPlace(before: seq<MemberId>, m: MemberId)
    requires NoDuplicates(before)
    ensures if m in before then TakesOneOut(before, m, Without(before, m)) else Without(before, m) == before
  {
    hide Without;
    if m in before {
      var k :| 0 <= k < |before| && before[k] == m;
      assert before == before[..k] + ([m] + before[k + 1..]);
      WithoutMiddle(before[..k], m, before[k + 1..]);
    } else {
      WithoutKeepsOrder(before, [], m);
    }
  }

  /** The list is a queue: a report, a departure or a join into a live barrier leaves it alone, appends its
      member, or takes its member out of its place. Only at the deadline is it cleared. */
  lemma ListKeepsOrder(room: Room, op: RoomOp)
    requires op.ReportBuffer? || op.DepartMember? || (op.JoinMember? && BarrierLiveAt(Sync(room), op.now))
    requires HoldInv(Sync(room)) && (op.ReportBuffer? ==> BeforeDeadline(room, op.now))
    ensures var before, after, m := Sync(room).bufferingMemberIds, Sync(Next(room, op)).bufferingMemberIds, op.memberId;
            || after == before
            || (m !in before && after == before + [m])
            || TakesOneOut(before, m, after)
  {
    hide Unique, Without, Next, TakesOneOut;
    NextStoresCoordination(room, op);
    ListEdits(Sync(room).bufferingMemberIds, op.memberId);
    WithoutInPlace(Sync(room).bufferingMemberIds, op.memberId);
  }

  // ---- A stalled member stays listed ----

  /** Witness: somebody else's report at the deadline forgets a member who stalled and has neither
      recovered nor left. */
  lemma LateReportForgets(m: MemberId, n: MemberId)
    requires m != n
    ensures exists ops, late ::
              && late == Recovery(n, BUFFER_HOLD_MAX_MS)
              && Lists(RunOps(Fresh(), ops), m) && !Lists(RunOps(Fresh(), ops + [late]), m)
  {
    hide Next, RunOps, Unique, Without;
    var ops, late := Started(m) + [Stall(m, 0)], Recovery(n, BUFFER_HOLD_MAX_MS);
    StartedPlays(m);
    StallHolds(RunOps(Fresh(), Started(m)), m, 0);
    RunAppend(Fresh(), Started(m), Stall(m, 0));
    RunAppend(Fresh(), ops, late);
    NextStoresCoordination(RunOps(Fresh(), ops), late);
    assert Lists(RunOps(Fresh(), ops), m) && !Lists(RunOps(Fresh(), ops + [late]), m);
  }

  // ---- A barrier waits for joiners ----

  /** Witness: two members share a live video in a waiting room, and whoever joins their barrier is not
      waited for. */
  lemma LiveBarrierIgnoresJoiner(m: MemberId, n: MemberId, joiner: MemberId)
    requires joiner != m && joiner != n
    ensures exists ops :: var room := RunOps(Fresh(), ops + [JoinMember(joiner, 1)]);
              BarrierLiveAt(Sync(room), 1) && !Lists(room, joiner)
  {
    hide Next, Unique, RunOps;
    var switch := SetStrategy(Wait, [m, n], 0);
    var live := ShareVideo(Video().(itemKind := Some(Live)), Some(PlayingFrom(0.0, m)), m, [m, n], 0);
    SwitchedToWait([m, n]);
    RunTwo(Fresh(), switch, live);
    ShareStores(Next(Fresh(), switch), live);
    var waiting := RunOps(Fresh(), [switch, live]);
    RunAppend(Fresh(), [switch, live], JoinMember(joiner, 1));
    NextStoresCoordination(waiting, JoinMember(joiner, 1));
    assert BarrierLiveAt(Sync(RunOps(Fresh(), [switch, live] + [JoinMember(joiner, 1)])), 1);
  }

  // ---- What decides a freeze by share ----

  /** Witness, both ways: a live video freezes a room that had none, and the on-demand video shared
      after a live one does not. */
  lemma ReplacedVideoDecides(m: MemberId, n: MemberId)
    ensures exists ops :: var room := RunOps(Fresh(), ops); IsLive(room) && IsPlaying(room) && Held(room)
    ensures exists ops, share ::
              var room := RunOps(Fresh(), ops + [share]);
              && share.ShareVideo? && |share.activeMemberIds| >= 2
              && Sync(room).strategy == Wait && !IsLive(room) && IsPlaying(room) && !Held(room)
  {
    hide Next, Unique;
    var switch := SetStrategy(Wait, [m, n], 0);
    var live := ShareVideo(Video().(itemKind := Some(Live)), Some(PlayingFrom(0.0, m)), m, [m, n], 0);
    var quiet := live.(playback := None);
    SwitchedToWait([m, n]);
    RunTwo(Fresh(), switch, live);
    ShareStores(Next(Fresh(), switch), live);
    assert Held(RunOps(Fresh(), [switch, live]));
    RunTwo(Fresh(), switch, quiet);
    ShareStores(Next(Fresh(), switch), quiet);
    RunAppend(Fresh(), [switch, quiet], Opening(m, [m, n]));
    ShareStores(RunOps(Fresh(), [switch, quiet]), Opening(m, [m, n]));
    assert !Held(RunOps(Fresh(), [switch, quiet] + [Opening(m, [m, n])]));
  }
}
