/** Whom the room is waiting for, after any trace: the stored list against a reference definition
    that looks only at the trace. */
module HoldExactness {
  import opened PlaybackModel
  import opened PlaybackCoordinator
  import opened PlaybackAuthority
  import opened RoomOperations
  import opened HoldInvariant

  // What a barrier waits for: readiness for one revision, of joiners too if the room plays on demand.
  datatype Watch = Watch(revision: Revision, joiners: bool)

  predicate Arms(watch: Watch, op: RoomOp, m: MemberId) {
    op.JoinMember? && op.memberId == m && watch.joiners
  }

  predicate Clears(watch: Watch, op: RoomOp, m: MemberId) {
    (op.DepartMember? && op.memberId == m)
    || (op.ReportBuffer? && op.memberId == m && ClearsBarrier(op.report, watch.revision))
  }

  ghost predicate OutstandingSince(watch: Watch, m: MemberId, initial: seq<MemberId>, ops: seq<RoomOp>, since: nat)
    requires since <= |ops|
  {
    && (if since == 0 then m in initial else Arms(watch, ops[since - 1], m))
    && forall j :: since <= j < |ops| ==> !Clears(watch, ops[j], m)
  }

  /** Initially listed or armed by some operation, and not cleared since. */
  ghost predicate Outstanding(watch: Watch, m: MemberId, initial: seq<MemberId>, ops: seq<RoomOp>) {
    exists since: nat :: since <= |ops| && OutstandingSince(watch, m, initial, ops, since)
  }

  lemma OutstandingStep(watch: Watch, m: MemberId, initial: seq<MemberId>, ops: seq<RoomOp>)
    requires |ops| > 0
    requires Arms(watch, ops[|ops| - 1], m) ==> !Clears(watch, ops[|ops| - 1], m)
    ensures Outstanding(watch, m, initial, ops) <==>
            || Arms(watch, ops[|ops| - 1], m)
            || (Outstanding(watch, m, initial, ops[..|ops| - 1]) && !Clears(watch, ops[|ops| - 1], m))
  {
    var last := |ops| - 1;
    var front := ops[..last];
    if Outstanding(watch, m, initial, ops) && !Arms(watch, ops[last], m) {
      var since: nat :| since <= |ops| && OutstandingSince(watch, m, initial, ops, since);
      assert since <= last && OutstandingSince(watch, m, initial, front, since);
    }
    if Outstanding(watch, m, initial, front) && !Clears(watch, ops[last], m) {
      var since: nat :| since <= last && OutstandingSince(watch, m, initial, front, since);
      assert OutstandingSince(watch, m, initial, ops, since);
    }
    if Arms(watch, ops[last], m) {
      assert OutstandingSince(watch, m, initial, ops, |ops|);
    }
  }

  ghost predicate SomeoneOutstanding(watch: Watch, initial: seq<MemberId>, ops: seq<RoomOp>) {
    exists m :: Outstanding(watch, m, initial, ops)
  }

  predicate Lists(room: Room, m: MemberId) {
    m in Sync(room).bufferingMemberIds
  }

  // ---- Readiness barriers ----

  predicate PlaysOnDemand(room: Room) {
    IsPlaying(room) && !IsLive(room)
  }

  predicate WaitsInBarrier(room: Room, revision: Revision, deadline: int) {
    && HoldInv(Sync(room))
    && Sync(room).hold.active
    && Sync(room).hold.playbackRevision == Some(revision)
    && Sync(room).hold.deadlineAt == Some(deadline)
  }

  predicate BarrierTraffic(op: RoomOp) {
    op.ReportBuffer? || op.JoinMember? || op.DepartMember? || op.ReleaseHold? || op.AppendChat? || op.TouchRoom?
  }

  lemma BarrierStepSync(room: Room, op: RoomOp, revision: Revision, deadline: int)
    requires WaitsInBarrier(room, revision, deadline) && BarrierTraffic(op) && op.now < deadline
    ensures var sync, after, watch := Sync(room), Sync(Next(room, op)), Watch(revision, PlaysOnDemand(room));
            && (after.hold.active <==> after.bufferingMemberIds != [])
            && (after.hold.active ==>
                  && after.hold.playbackRevision == Some(revision)
                  && after.hold.deadlineAt == Some(deadline))
            && forall m :: m in after.bufferingMemberIds <==>
                 Arms(watch, op, m) || (m in sync.bufferingMemberIds && !Clears(watch, op, m))
  {
    hide Unique, Without, Next;
    NextStoresCoordination(room, op);
    var sync := Sync(room);
    match op
    case JoinMember(memberId, _) => ListEdits(sync.bufferingMemberIds, memberId);
    case ReportBuffer(memberId, _, _) => ListEdits(sync.bufferingMemberIds, memberId);
    case DepartMember(memberId, _) => ListEdits(sync.bufferingMemberIds, memberId);
    case _ =>
  }

  lemma BarrierStepPlayback(room: Room, op: RoomOp, revision: Revision, deadline: int)
    requires WaitsInBarrier(room, revision, deadline) && BarrierTraffic(op) && op.now < deadline
    ensures var after := Next(room, op);
            && after.sharedVideo == room.sharedVideo
            && IsPlaying(after) == IsPlaying(room)
            && after.playback == if Held(after) || !IsPlaying(room) then room.playback
                                 else Some(room.playback.value.(serverTime := op.now))
  {
    hide Unique, Without;
    NextStoresCoordination(room, op);
  }

  /** Before its deadline a barrier lists exactly the members outstanding in the trace, keeps its
      revision, deadline and frozen playback, and opens exactly when nobody is outstanding. Joiners
      are waited for only in a room that plays on demand. */
  lemma {:induction false} BarrierExact(room: Room, ops: seq<RoomOp>, revision: Revision, deadline: int)
    requires WaitsInBarrier(room, revision, deadline)
    requires forall op <- ops :: BarrierTraffic(op) && op.now < deadline
    requires forall k :: 0 <= k < |ops| ==>
               SomeoneOutstanding(Watch(revision, PlaysOnDemand(room)), Sync(room).bufferingMemberIds, ops[..k])
    ensures var after, initial := RunOps(room, ops), Sync(room).bufferingMemberIds;
            var watch := Watch(revision, PlaysOnDemand(room));
            && IsPlaying(after) == IsPlaying(room) && after.sharedVideo == room.sharedVideo
            && (forall m :: Lists(after, m) <==> Outstanding(watch, m, initial, ops))
            && (Held(after) <==> SomeoneOutstanding(watch, initial, ops))
            && (Held(after) ==> WaitsInBarrier(after, revision, deadline) && after.playback == room.playback)
            && (!Held(after) ==>
                  && |ops| > 0
                  && after.playback == if !IsPlaying(room) then room.playback
                                       else Some(room.playback.value.(serverTime := ops[|ops| - 1].now)))
    decreases |ops|
  {
    hide Next;
    var initial := Sync(room).bufferingMemberIds;
    var watch := Watch(revision, PlaysOnDemand(room));
    if ops == [] {
      assert forall m :: OutstandingSince(watch, m, initial, [], 0) <==> m in initial;
      assert forall m :: Lists(room, m) <==> Outstanding(watch, m, initial, []);
      assert Outstanding(watch, initial[0], initial, []);
    } else {
      var last := |ops| - 1;
      var front, op := ops[..last], ops[last];
      forall k | 0 <= k < last ensures SomeoneOutstanding(watch, initial, front[..k]) {
        assert front[..k] == ops[..k];
      }
      BarrierExact(room, front, revision, deadline);
      assert ops[..last] == front;
      var before := RunOps(room, front);
      BarrierStepSync(before, op, revision, deadline);
      BarrierStepPlayback(before, op, revision, deadline);
      NextKeepsInv(before, op);
      forall m ensures Lists(Next(before, op), m) <==> Outstanding(watch, m, initial, ops) {
        OutstandingStep(watch, m, initial, ops);
        assert Lists(before, m) <==> Outstanding(watch, m, initial, front);
      }
      var after := Sync(Next(before, op));
      if after.hold.active {
        assert Outstanding(watch, after.bufferingMemberIds[0], initial, ops);
      }
    }
  }

  predicate BeginsBarrier(room: Room, op: RoomOp) {
    match op
    case UpdatePlayback(_, _, _, members, now) =>
      && TakesUpdate(room, op)
      && var next := StampedUpdate(room, op);
         CommandStartsBarrier(room, next, members, CommandOf(AuthorityKindOf(room.playback, next)))
    case ShareVideo(_, _, _, members, now) => CommandStartsBarrier(room, SharedPlayback(op), members, Share)
    case SetStrategy(strategy, members, now) => SwitchStartsBarrier(room, strategy, members)
    case JoinMember(_, now) =>
      Sync(room).strategy == Wait && PlaysOnDemand(room) && !BarrierLiveAt(Sync(room), now)
    case _ => false
  }

  function FirstWaiters(op: RoomOp): seq<MemberId> {
    match op
    case UpdatePlayback(_, _, _, members, _) => members
    case ShareVideo(_, _, _, members, _) => members
    case SetStrategy(_, members, _) => members
    case JoinMember(memberId, _) => [memberId]
    case _ => []
  }

  /** A barrier waits for exactly the listed members, on the revision the room now stores; it begins in
      a playing room, which is live only if a live video was just shared. */
  lemma BarrierBegins(room: Room, op: RoomOp)
    requires BeginsBarrier(room, op)
    ensures var after := Next(room, op);
            && IsPlaying(after) && (IsLive(after) <==> op.ShareVideo? && op.video.itemKind == Some(Live))
            && WaitsInBarrier(after, RevisionOf(after.playback.value), op.now + 30_000)
            && Sync(after).bufferingMemberIds == Unique(FirstWaiters(op))
            && forall m :: Lists(after, m) <==> m in FirstWaiters(op)
  {
    hide Unique, Without;
    match op
    case UpdatePlayback(_, _, _, members, now) =>
      hide DecideOp;
      UpdateStores(room, op);
      BarrierKeepsInv(StampedUpdate(room, op), members, now);
    case ShareVideo(_, _, _, members, now) =>
      BarrierKeepsInv(SharedPlayback(op), members, now);
    case SetStrategy(_, members, now) =>
      NextStoresCoordination(room, op);
      BarrierKeepsInv(Rebase(room.playback.value, now), members, now);
    case JoinMember(memberId, now) =>
      NextStoresCoordination(room, op);
      BarrierKeepsInv(Rebase(room.playback.value, now), [memberId], now);
    case _ =>
  }

  lemma SameWaiters(watch: Watch, a: seq<MemberId>, b: seq<MemberId>, ops: seq<RoomOp>)
    requires forall m :: m in a <==> m in b
    ensures forall m :: Outstanding(watch, m, a, ops) <==> Outstanding(watch, m, b, ops)
    ensures SomeoneOutstanding(watch, a, ops) <==> SomeoneOutstanding(watch, b, ops)
  {
    forall m ensures Outstanding(watch, m, a, ops) <==> Outstanding(watch, m, b, ops) {
      assert forall since: nat | since <= |ops| ::
        OutstandingSince(watch, m, a, ops, since) <==> OutstandingSince(watch, m, b, ops, since);
    }
    if SomeoneOutstanding(watch, a, ops) {
      var m :| Outstanding(watch, m, a, ops);
      assert Outstanding(watch, m, b, ops);
    }
  }

  /** From the play, seek, share, switch or join that begins a barrier to its opening: within the
      timeout the room stays frozen exactly as long as one of the first waiters, or (unless a live
      video was shared) of those who joined since, has neither reported enough buffer for the stored
      revision nor departed. */
  lemma FrozenUntilEveryoneReady(room: Room, begin: RoomOp, ops: seq<RoomOp>)
    requires BeginsBarrier(room, begin)
    requires forall op <- ops :: BarrierTraffic(op) && op.now < begin.now + READINESS_BARRIER_TIMEOUT_MS
    requires Next(room, begin).playback.Some?
    requires var started := Next(room, begin);
             var watch := Watch(RevisionOf(started.playback.value), !IsLive(started));
             forall k :: 0 <= k < |ops| ==> SomeoneOutstanding(watch, FirstWaiters(begin), ops[..k])
    ensures var started := Next(room, begin);
            var watch := Watch(RevisionOf(started.playback.value), !IsLive(started));
            Held(RunOps(started, ops)) <==> SomeoneOutstanding(watch, FirstWaiters(begin), ops)
  {
    hide Next;
    var started := Next(room, begin);
    BarrierBegins(room, begin);
    var watch := Watch(RevisionOf(started.playback.value), !IsLive(started));
    var initial := Sync(started).bufferingMemberIds;
    assert forall m :: Lists(started, m) <==> m in initial;
    forall k | 0 <= k < |ops| ensures SomeoneOutstanding(watch, initial, ops[..k]) {
      SameWaiters(watch, FirstWaiters(begin), initial, ops[..k]);
    }
    SameWaiters(watch, FirstWaiters(begin), initial, ops);
    BarrierExact(started, ops, watch.revision, begin.now + READINESS_BARRIER_TIMEOUT_MS);
  }

  // ---- Ordinary stalls ----

  predicate StallTraffic(op: RoomOp) {
    op.ReportBuffer? || op.DepartMember? || op.ReleaseHold? || op.AppendChat? || op.TouchRoom?
  }

  predicate NoBarrier(room: Room) {
    HoldInv(Sync(room)) && Sync(room).hold.playbackRevision.None?
  }

  predicate BeforeDeadline(room: Room, now: int) {
    HoldDeadline(Sync(room)).None? || now < HoldDeadline(Sync(room)).value
  }

  // A report at or past the deadline in force, or the release that expires the hold, forgets everybody.
  predicate Resets(room: Room, op: RoomOp) {
    || (op.ReportBuffer? && !BeforeDeadline(room, op.now))
    || (op.ReleaseHold? && Expires(room, op.expectedDeadline, op.now))
  }

  predicate Stalls(op: RoomOp, m: MemberId) {
    op.ReportBuffer? && op.memberId == m && ReportsStall(op.report)
  }

  predicate Recovers(op: RoomOp, m: MemberId) {
    || (op.DepartMember? && op.memberId == m)
    || (op.ReportBuffer? && op.memberId == m && ReportsReady(op.report))
  }

  predicate ResetAt(room: Room, ops: seq<RoomOp>, k: nat)
    requires k < |ops|
  {
    Resets(RunOps(room, ops[..k]), ops[k])
  }

  ghost predicate StalledSince(room: Room, m: MemberId, ops: seq<RoomOp>, since: nat)
    requires since <= |ops|
  {
    && (if since == 0 then Lists(room, m) else Stalls(ops[since - 1], m) && !ResetAt(room, ops, since - 1))
    && forall j: nat :: since <= j < |ops| ==> !Recovers(ops[j], m) && !ResetAt(room, ops, j)
  }

  /** Stalled at the start or since, and since then neither recovered nor departed nor forgotten. */
  ghost predicate StillStalled(room: Room, m: MemberId, ops: seq<RoomOp>) {
    exists since: nat :: since <= |ops| && StalledSince(room, m, ops, since)
  }

  ghost predicate SomeoneStalled(room: Room, ops: seq<RoomOp>) {
    exists m :: StillStalled(room, m, ops)
  }

  lemma ResetPrefix(room: Room, ops: seq<RoomOp>)
    requires |ops| > 0
    ensures forall j: nat :: j < |ops| - 1 ==> (ResetAt(room, ops, j) <==> ResetAt(room, ops[..|ops| - 1], j))
  {
    hide Resets, RunOps;
    assert forall j: nat :: j < |ops| - 1 ==> ops[..|ops| - 1][..j] == ops[..j];
  }

  lemma StillStalledStep(room: Room, m: MemberId, ops: seq<RoomOp>)
    requires |ops| > 0
    ensures var last := |ops| - 1;
            StillStalled(room, m, ops) <==>
            && !ResetAt(room, ops, last)
            && (Stalls(ops[last], m) || (StillStalled(room, m, ops[..last]) && !Recovers(ops[last], m)))
  {
    hide ResetAt;
    var last := |ops| - 1;
    var front := ops[..last];
    ResetPrefix(room, ops);
    assert Stalls(ops[last], m) ==> !Recovers(ops[last], m);
    if StillStalled(room, m, ops) && !Stalls(ops[last], m) {
      var since: nat :| since <= |ops| && StalledSince(room, m, ops, since);
      assert since <= last && StalledSince(room, m, front, since);
    }
    if StillStalled(room, m, ops) && Stalls(ops[last], m) {
      var since: nat :| since <= |ops| && StalledSince(room, m, ops, since);
      assert !ResetAt(room, ops, last);
    }
    if !ResetAt(room, ops, last) && StillStalled(room, m, front) && !Recovers(ops[last], m) {
      var since: nat :| since <= last && StalledSince(room, m, front, since);
      assert StalledSince(room, m, ops, since);
    }
    if !ResetAt(room, ops, last) && Stalls(ops[last], m) {
      assert StalledSince(room, m, ops, |ops|);
    }
  }

  // Where a stall freezes the room.
  predicate Freezable(room: Room) {
    Sync(room).strategy == Wait && PlaysOnDemand(room)
  }

  lemma StallStepSync(room: Room, op: RoomOp)
    requires NoBarrier(room) && StallTraffic(op)
    ensures var sync, after := Sync(room), Sync(Next(room, op));
            && after.strategy == sync.strategy
            && after.hold.playbackRevision.None?
            && (forall m :: m in after.bufferingMemberIds <==>
                  !Resets(room, op) && (Stalls(op, m) || (m in sync.bufferingMemberIds && !Recovers(op, m))))
            && (after.hold.active ==> sync.hold.active || Freezable(room))
            && (Freezable(room) && (sync.hold.active <==> sync.bufferingMemberIds != [])
                ==> (after.hold.active <==> after.bufferingMemberIds != []))
  {
    hide Unique, Without, Next;
    NextStoresCoordination(room, op);
    var sync := Sync(room);
    match op
    case ReportBuffer(memberId, report, now) =>
      ListEdits(sync.bufferingMemberIds, memberId);
      if !Resets(room, op) {
        var after := Sync(Next(room, op));
        assert after == OrdinaryReport(room, memberId, report, now);
        if !ReportsStall(report) && after.bufferingMemberIds != [] {
          assert after.bufferingMemberIds[0] in sync.bufferingMemberIds;
        }
      }
    case DepartMember(memberId, _) => ListEdits(sync.bufferingMemberIds, memberId);
    case _ =>
  }

  lemma StallStepFrame(room: Room, op: RoomOp)
    requires StallTraffic(op)
    ensures Next(room, op).sharedVideo == room.sharedVideo
    ensures IsPlaying(Next(room, op)) == IsPlaying(room)
  {
  }

  /** Outside a barrier, over any reports, departures and releases, in time or late: the list is exactly
      the members still stalled; a playing wait-mode room of an on-demand video is frozen exactly while
      someone is; and any other room never freezes. */
  lemma {:induction false} StallExact(room: Room, ops: seq<RoomOp>)
    requires NoBarrier(room)
    requires forall op <- ops :: StallTraffic(op)
    ensures var after := RunOps(room, ops);
            && NoBarrier(after)
            && Sync(after).strategy == Sync(room).strategy
            && IsPlaying(after) == IsPlaying(room) && after.sharedVideo == room.sharedVideo
            && (forall m :: Lists(after, m) <==> StillStalled(room, m, ops))
            && (Held(after) ==> Held(room) || Freezable(room))
            && (Freezable(room) && (Held(room) <==> Sync(room).bufferingMemberIds != []) ==>
                  (Held(after) <==> SomeoneStalled(room, ops)))
    decreases |ops|
  {
    hide Next;
    if ops == [] {
      assert forall m :: StalledSince(room, m, [], 0) <==> Lists(room, m);
      if Sync(room).bufferingMemberIds != [] {
        assert Lists(room, Sync(room).bufferingMemberIds[0]);
        assert StalledSince(room, Sync(room).bufferingMemberIds[0], [], 0);
      }
    } else {
      hide Resets, StillStalled;
      var last := |ops| - 1;
      var front, op := ops[..last], ops[last];
      StallExact(room, front);
      var before := RunOps(room, front);
      StallStepSync(before, op);
      StallStepFrame(before, op);
      NextKeepsInv(before, op);
      forall m ensures Lists(Next(before, op), m) <==> StillStalled(room, m, ops) {
        StillStalledStep(room, m, ops);
        assert Lists(before, m) <==> StillStalled(room, m, front);
      }
      if Sync(before).bufferingMemberIds != [] {
        assert Lists(before, Sync(before).bufferingMemberIds[0]);
      }
      if Sync(Next(before, op)).bufferingMemberIds != [] {
        assert StillStalled(room, Sync(Next(before, op)).bufferingMemberIds[0], ops);
      }
    }
  }

  // A report that does not say how much is buffered counts as none.
  predicate HasAhead(report: BufferReport, seconds: real) {
    report.bufferAheadSeconds.Some? && report.bufferAheadSeconds.value >= seconds
  }

  predicate SomebodyElseListed(room: Room, m: MemberId) {
    exists i :: 0 <= i < |Sync(room).bufferingMemberIds| && Sync(room).bufferingMemberIds[i] != m
  }

  lemma WithoutLeaves(ids: seq<MemberId>, memberId: MemberId)
    ensures Without(ids, memberId) == [] <==> forall i :: 0 <= i < |ids| ==> ids[i] == memberId
  {
    hide Without;
    var rest := Without(ids, memberId);
    if rest != [] {
      assert rest[0] in rest;
    }
    assert forall i :: 0 <= i < |ids| && ids[i] != memberId ==> ids[i] in rest;
  }

  /** Whether a report leaves the room held. Past the deadline it never does, whoever sends it, and the
      list is cleared; in a barrier it does unless it clears the last one waited for; in a buffer hold
      unless the last one stalled recovers; and a first stall freezes a room that waits and plays. */
  lemma HeldAfterReportIff(room: Room, m: MemberId, report: BufferReport, now: int)
    requires HoldInv(Sync(room))
    ensures var before, after := Sync(room), Next(room, ReportBuffer(m, report, now));
            && (!BeforeDeadline(room, now) ==> Sync(after) == Inactive(before.strategy))
            && (BeforeDeadline(room, now) ==>
                  (Held(after) <==>
                   if Held(room) then
                     SomebodyElseListed(room, m)
                     || !(if before.hold.playbackRevision.Some? then
                            HasAhead(report, 6.0) && report.playbackRevision == before.hold.playbackRevision
                          else HasAhead(report, 3.0))
                   else
                     && report.state == Stalled && !HasAhead(report, 3.0) && !Lists(room, m)
                     && before.strategy == Wait && IsPlaying(room) && !IsLive(room)))
  {
    hide Unique, Without, Next;
    NextStoresCoordination(room, ReportBuffer(m, report, now));
    WithoutLeaves(Sync(room).bufferingMemberIds, m);
  }

  // ---- Exactly when single operations hold, keep or release ----

  /** A strategy switch stores the strategy, and holds the room iff it switches a playing on-demand room
      with at least two members to wait: everybody named then waits. */
  lemma SwitchHoldsIff(room: Room, strategy: Strategy, members: seq<MemberId>, now: int)
    ensures var after := Next(room, SetStrategy(strategy, members, now));
            && Sync(after).strategy == strategy
            && (Held(after) <==> strategy == Wait && PlaysOnDemand(room) && |members| >= 2)
            && (forall m :: Lists(after, m) <==> Held(after) && m in members)
  {
    hide Unique, Without;
    NextStoresCoordination(room, SetStrategy(strategy, members, now));
  }

  /** A join never releases a room; it freezes one, and waits for the joiner, iff the room waits and
      plays on demand: the barrier of a live or stopped room does not wait for whoever joins. */
  lemma JoinFreezesIff(room: Room, memberId: MemberId, now: int)
    ensures var after := Next(room, JoinMember(memberId, now));
            && (Held(after) <==> Held(room) || Freezable(room))
            && (Lists(after, memberId) <==> Lists(room, memberId) || Freezable(room))
  {
    hide Unique, Without;
    NextStoresCoordination(room, JoinMember(memberId, now));
    assert memberId in Unique(Sync(room).bufferingMemberIds + [memberId]);
  }
}
