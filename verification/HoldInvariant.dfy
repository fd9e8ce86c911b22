/** What every reachable room satisfies, whatever operations it went through. */
module HoldInvariant {
  import opened PlaybackModel
  import opened PlaybackCoordinator
  import opened RoomStore
  import opened RoomOperations

  predicate BarrierShape(sync: SyncState) {
    && sync.hold.reasonMemberId.Some?
    && sync.hold.reasonMemberId.value in sync.bufferingMemberIds
    && sync.hold.startedAt.Some?
    && sync.hold.deadlineAt == Some(sync.hold.startedAt.value + 30_000)
  }

  predicate BufferHoldShape(sync: SyncState) {
    && sync.hold.startedAt.Some?
    && sync.hold.deadlineAt == Some(sync.hold.startedAt.value + 10_000)
  }

  predicate HoldInv(sync: SyncState) {
    && NoDuplicates(sync.bufferingMemberIds)
    && (!sync.hold.active ==> sync.hold == INACTIVE_HOLD)
    && (sync.hold.active ==>
          && sync.strategy == Wait
          && |sync.bufferingMemberIds| > 0
          && if sync.hold.playbackRevision.Some? then BarrierShape(sync) else BufferHoldShape(sync))
  }

  /** The two list edits on a duplicate-free list, without their recursion. */
  lemma ListEdits(ids: seq<MemberId>, memberId: MemberId)
    requires NoDuplicates(ids)
    ensures Unique(ids + [memberId]) == if memberId in ids then ids else ids + [memberId]
    ensures NoDuplicates(Without(ids, memberId))
  {
    assert (ids + [memberId])[..|ids|] == ids;
    assert Unique(ids) == ids;
  }

  lemma BarrierKeepsInv(playback: Playback, memberIds: seq<MemberId>, now: int)
    requires |memberIds| > 0
    ensures HoldInv(Barrier(playback, memberIds, now))
  {
  }

  lemma JoinKeepsInv(room: Room, memberId: MemberId, now: int)
    requires HoldInv(Sync(room))
    ensures HoldInv(CoordinateJoin(room, memberId, now).playbackSync)
  {
    hide Unique;
    var sync := Sync(room);
    if BarrierLiveAt(sync, now) {
      ListEdits(sync.bufferingMemberIds, memberId);
    } else if IsPlaying(room) {
      BarrierKeepsInv(Rebase(room.playback.value, now), [memberId], now);
    }
  }

  lemma LeaveBarrierKeepsInv(sync: SyncState, memberId: MemberId)
    requires HoldInv(sync)
    requires sync.hold.active && sync.hold.playbackRevision.Some?
    ensures HoldInv(LeaveBarrier(sync, memberId))
  {
  }

  lemma StallKeepsInv(room: Room, memberId: MemberId, report: BufferReport, now: int)
    requires HoldInv(Sync(room)) && ReportsStall(report)
    ensures HoldInv(OrdinaryReport(room, memberId, report, now))
  {
    hide Unique, Without;
    ListEdits(Sync(room).bufferingMemberIds, memberId);
  }

  lemma RecoveryKeepsInv(room: Room, memberId: MemberId, report: BufferReport, now: int)
    requires HoldInv(Sync(room)) && ReportsReady(report)
    requires Sync(room).hold.playbackRevision.None?
    ensures HoldInv(OrdinaryReport(room, memberId, report, now))
  {
  }

  lemma ReportKeepsInv(room: Room, memberId: MemberId, report: BufferReport, now: int)
    requires HoldInv(Sync(room))
    ensures HoldInv(SyncAfterReport(room, memberId, report, now))
  {
    var sync := Sync(room);
    if HoldDeadline(sync).Some? && now >= HoldDeadline(sync).value {
    } else if sync.hold.active && sync.hold.playbackRevision.Some? {
      LeaveBarrierKeepsInv(sync, memberId);
    } else if ReportsReady(report) {
      RecoveryKeepsInv(room, memberId, report, now);
    } else if ReportsStall(report) {
      StallKeepsInv(room, memberId, report, now);
    }
  }

  lemma DepartureKeepsInv(room: Room, memberId: MemberId)
    requires HoldInv(Sync(room))
    ensures HoldInv(SyncAfterDeparture(room, memberId))
  {
    var sync := Sync(room);
    assert forall m :: m in sync.bufferingMemberIds && m != memberId ==> m in Without(sync.bufferingMemberIds, memberId);
  }

  lemma NextKeepsInv(room: Room, op: RoomOp)
    requires HoldInv(Sync(room))
    ensures HoldInv(Sync(Next(room, op)))
  {
    hide Unique, Without, SyncAfterReport, SyncAfterDeparture, CoordinateJoin;
    if Coordinates(op) {
      hide Next;
      NextStoresCoordination(room, op);
    }
    match op
    case ReportBuffer(memberId, report, now) => ReportKeepsInv(room, memberId, report, now);
    case DepartMember(memberId, _) => DepartureKeepsInv(room, memberId);
    case JoinMember(memberId, now) => JoinKeepsInv(room, memberId, now);
    case _ =>
  }

  /** Every room reachable from a new one satisfies the hold invariant. */
  lemma {:induction false} ReachableHoldInv(code: string, createdAt: int, ops: seq<RoomOp>)
    ensures HoldInv(Sync(RunOps(NewRoom(code, createdAt), ops)))
    decreases |ops|
  {
    if ops == [] {
    } else {
      var last := |ops| - 1;
      ReachableHoldInv(code, createdAt, ops[..last]);
      NextKeepsInv(RunOps(NewRoom(code, createdAt), ops[..last]), ops[last]);
    }
  }
}
