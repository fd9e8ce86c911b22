/** The transitions of the wait-mode hold: command, member join, buffer report, departure,
    expiry and strategy change. Each maps a room to the sync state and playback it stores next. */
module PlaybackCoordinator {
  import opened PlaybackModel

  datatype Coordination = Coordination(playbackSync: SyncState, playback: Option<Playback>)

  datatype Command = Share | Play | Pause | Seek | Other

  function Barrier(playback: Playback, memberIds: seq<MemberId>, now: int): SyncState
    requires |memberIds| > 0
  {
    var waiting := Unique(memberIds);
    SyncState(Wait,
              Hold(true, Some(waiting[0]), Some(now), Some(now + READINESS_BARRIER_TIMEOUT_MS),
                   Some(RevisionOf(playback))),
              waiting)
  }

  function HoldDeadline(sync: SyncState): Option<int> {
    if !sync.hold.active then None
    else if sync.hold.deadlineAt.Some? then sync.hold.deadlineAt
    else if sync.hold.startedAt.Some? then Some(sync.hold.startedAt.value + BUFFER_HOLD_MAX_MS)
    else Some(0)
  }

  predicate HoldLiveAt(sync: SyncState, now: int) {
    HoldDeadline(sync).Some? && now < HoldDeadline(sync).value
  }

  predicate BarrierLiveAt(sync: SyncState, now: int) {
    HoldLiveAt(sync, now) && sync.hold.playbackRevision.Some?
  }

  predicate CommandStartsBarrier(room: Room, next: Playback, activeMemberIds: seq<MemberId>, command: Command) {
    && Sync(room).strategy == Wait
    && !IsLive(room)
    && next.playState == Playing
    && |activeMemberIds| >= 2
    && command in {Share, Play, Seek}
  }

  function CoordinateCommand(room: Room, next: Playback, activeMemberIds: seq<MemberId>, command: Command, now: int): Coordination
  {
    if command == Pause then Coordination(Inactive(Sync(room).strategy), Some(next))
    else if CommandStartsBarrier(room, next, activeMemberIds, command) then
      Coordination(Barrier(next, activeMemberIds, now), Some(next))
    else Coordination(Sync(room), Some(next))
  }

  /** Moves the stored playback to `now`, advancing it to its projected position. */
  function Rebase(playback: Playback, now: int): Playback {
    playback.(position := Project(playback, now), serverTime := now)
  }

  function CoordinateJoin(room: Room, memberId: MemberId, now: int): Coordination {
    var sync := Sync(room);
    if sync.strategy != Wait || !IsPlaying(room) || IsLive(room) then Coordination(sync, room.playback)
    else if BarrierLiveAt(sync, now) then
      Coordination(sync.(bufferingMemberIds := Unique(sync.bufferingMemberIds + [memberId])), room.playback)
    else
      var playback := Rebase(room.playback.value, now);
      Coordination(Barrier(playback, [memberId], now), Some(playback))
  }

  /** A freeze stores the projected position, a release keeps the frozen one; both restart at `now`. */
  function RebaseForHold(room: Room, sync: SyncState, now: int): Option<Playback> {
    if !IsPlaying(room) || Held(room) == sync.hold.active then room.playback
    else if sync.hold.active then Some(Rebase(room.playback.value, now))
    else Some(room.playback.value.(serverTime := now))
  }

  predicate Buffered(report: BufferReport, threshold: real) {
    (if report.bufferAheadSeconds.Some? then report.bufferAheadSeconds.value else 0.0) >= threshold
  }

  predicate ReportsStall(report: BufferReport) {
    report.state == Stalled && !Buffered(report, READY_BUFFER_AHEAD_SECONDS)
  }

  predicate ReportsReady(report: BufferReport) {
    Buffered(report, READY_BUFFER_AHEAD_SECONDS)
  }

  predicate ClearsBarrier(report: BufferReport, revision: Revision) {
    report.playbackRevision == Some(revision) && Buffered(report, BARRIER_READY_BUFFER_AHEAD_SECONDS)
  }

  predicate NamesNobody(reason: Option<MemberId>) {
    reason.None? || reason.value == ""
  }

  /** The sync state once `memberId` no longer has to be waited for in a barrier. */
  function LeaveBarrier(sync: SyncState, memberId: MemberId): SyncState {
    var waiting := Without(sync.bufferingMemberIds, memberId);
    var hold :=
      if waiting == [] then INACTIVE_HOLD
      else if NamesNobody(sync.hold.reasonMemberId) || sync.hold.reasonMemberId == Some(memberId) then
        sync.hold.(reasonMemberId := Some(waiting[0]))
      else sync.hold;
    sync.(hold := hold, bufferingMemberIds := waiting)
  }

  /** A report outside a barrier: the buffering list follows stalls and recoveries. */
  function OrdinaryReport(room: Room, memberId: MemberId, report: BufferReport, now: int): SyncState {
    var sync := Sync(room);
    if ReportsReady(report) then
      var waiting := Without(sync.bufferingMemberIds, memberId);
      sync.(hold := if waiting == [] && sync.hold.active then INACTIVE_HOLD else sync.hold,
            bufferingMemberIds := waiting)
    else if ReportsStall(report) then
      var freezes := sync.strategy == Wait && !IsLive(room) && IsPlaying(room)
                     && memberId !in sync.bufferingMemberIds && !sync.hold.active;
      sync.(hold := if freezes then Hold(true, Some(memberId), Some(now), Some(now + BUFFER_HOLD_MAX_MS), None)
                    else sync.hold,
            bufferingMemberIds := Unique(sync.bufferingMemberIds + [memberId]))
    else sync
  }

  function SyncAfterReport(room: Room, memberId: MemberId, report: BufferReport, now: int): SyncState {
    var sync := Sync(room);
    if HoldDeadline(sync).Some? && now >= HoldDeadline(sync).value then Inactive(sync.strategy)
    else if sync.hold.active && sync.hold.playbackRevision.Some? then
      if ClearsBarrier(report, sync.hold.playbackRevision.value) && memberId in sync.bufferingMemberIds
      then LeaveBarrier(sync, memberId) else sync
    else OrdinaryReport(room, memberId, report, now)
  }

  function CoordinateReport(room: Room, memberId: MemberId, report: BufferReport, now: int): Coordination {
    var sync := SyncAfterReport(room, memberId, report, now);
    Coordination(sync, RebaseForHold(room, sync, now))
  }

  predicate Expires(room: Room, expectedDeadline: int, now: int) {
    HoldDeadline(Sync(room)) == Some(expectedDeadline) && expectedDeadline <= now
  }

  function CoordinateExpiry(room: Room, expectedDeadline: int, now: int): Coordination {
    if !Expires(room, expectedDeadline, now) then Coordination(Sync(room), room.playback)
    else
      var sync := Inactive(Sync(room).strategy);
      Coordination(sync, RebaseForHold(room, sync, now))
  }

  function SyncAfterDeparture(room: Room, memberId: MemberId): SyncState {
    var sync := Sync(room);
    if memberId !in sync.bufferingMemberIds then sync
    else
      var waiting := Without(sync.bufferingMemberIds, memberId);
      var hold :=
        if waiting == [] then INACTIVE_HOLD
        else if sync.hold.reasonMemberId == Some(memberId) then sync.hold.(reasonMemberId := Some(waiting[0]))
        else sync.hold;
      sync.(hold := hold, bufferingMemberIds := waiting)
  }

  function CoordinateDeparture(room: Room, memberId: MemberId, now: int): Coordination {
    if memberId !in Sync(room).bufferingMemberIds then Coordination(Sync(room), room.playback)
    else
      var sync := SyncAfterDeparture(room, memberId);
      Coordination(sync, RebaseForHold(room, sync, now))
  }

  predicate SwitchStartsBarrier(room: Room, strategy: Strategy, activeMemberIds: seq<MemberId>) {
    strategy == Wait && IsPlaying(room) && !IsLive(room) && |activeMemberIds| >= 2
  }

  function CoordinateStrategy(room: Room, strategy: Strategy, activeMemberIds: seq<MemberId>, now: int): Coordination {
    if SwitchStartsBarrier(room, strategy, activeMemberIds) then
      var playback := Rebase(room.playback.value, now);
      Coordination(Barrier(playback, activeMemberIds, now), Some(playback))
    else
      var sync := Inactive(strategy);
      Coordination(sync, RebaseForHold(room, sync, now))
  }

  // ---- The three operations the server performs step by step on a local copy ----

  method UpdateSyncForBufferReport(room: Room, memberId: MemberId, report: BufferReport, now: int)
    returns (sync: SyncState)
    ensures sync == SyncAfterReport(room, memberId, report, now)
  {
    sync := Clone(room.playbackSync);
    var deadline := HoldDeadline(sync);
    if deadline.Some? && now >= deadline.value {
      return Inactive(sync.strategy);
    }
    var buffer := if report.bufferAheadSeconds.Some? then report.bufferAheadSeconds.value else 0.0;
    var revision := sync.hold.playbackRevision;
    if sync.hold.active && revision.Some? {
      if report.playbackRevision != revision {
        return;
      }
      if memberId !in sync.bufferingMemberIds {
        return;
      }
      if buffer < BARRIER_READY_BUFFER_AHEAD_SECONDS {
        return;
      }
      sync := sync.(bufferingMemberIds := Without(sync.bufferingMemberIds, memberId));
      if |sync.bufferingMemberIds| == 0 {
        sync := sync.(hold := INACTIVE_HOLD);
      } else if NamesNobody(sync.hold.reasonMemberId) || sync.hold.reasonMemberId == Some(memberId) {
        sync := sync.(hold := sync.hold.(reasonMemberId := Some(sync.bufferingMemberIds[0])));
      }
      return;
    }

    var wasBuffering := memberId in sync.bufferingMemberIds;
    var hasEnough := buffer >= READY_BUFFER_AHEAD_SECONDS;
    var stalls := report.state == Stalled && !hasEnough;
    var ready := (report.state == Ready || hasEnough) && hasEnough;
    if stalls {
      sync := sync.(bufferingMemberIds := Unique(sync.bufferingMemberIds + [memberId]));
    } else if ready {
      sync := sync.(bufferingMemberIds := Without(sync.bufferingMemberIds, memberId));
    }
    if sync.strategy == Wait && !IsLive(room) && IsPlaying(room) && stalls && !wasBuffering && !sync.hold.active {
      sync := sync.(hold := Hold(true, Some(memberId), Some(now), Some(now + BUFFER_HOLD_MAX_MS), None));
    }
    if ready && sync.hold.active && |sync.bufferingMemberIds| == 0 {
      sync := sync.(hold := INACTIVE_HOLD);
    }
  }

  method ApplyDeparture(room: Room, memberId: MemberId, now: int) returns (c: Coordination)
    ensures c == CoordinateDeparture(room, memberId, now)
  {
    var sync := Clone(room.playbackSync);
    if memberId !in sync.bufferingMemberIds {
      return Coordination(sync, room.playback);
    }
    sync := sync.(bufferingMemberIds := Without(sync.bufferingMemberIds, memberId));
    if |sync.bufferingMemberIds| == 0 {
      sync := sync.(hold := INACTIVE_HOLD);
    } else if sync.hold.reasonMemberId == Some(memberId) {
      sync := sync.(hold := sync.hold.(reasonMemberId := Some(sync.bufferingMemberIds[0])));
    }
    c := Coordination(sync, RebaseForHold(room, sync, now));
  }

  method ApplyJoin(room: Room, memberId: MemberId, now: int) returns (c: Coordination)
    ensures c == CoordinateJoin(room, memberId, now)
  {
    var sync := Clone(room.playbackSync);
    if room.playbackSync.None? || sync.strategy != Wait || !IsPlaying(room) || IsLive(room) {
      return Coordination(sync, room.playback);
    }
    if HoldLiveAt(sync, now) && sync.hold.playbackRevision.Some? {
      sync := sync.(bufferingMemberIds := Unique(sync.bufferingMemberIds + [memberId]));
      return Coordination(sync, room.playback);
    }
    var playback := room.playback.value;
    playback := playback.(position := Project(playback, now), serverTime := now);
    c := Coordination(Barrier(playback, [memberId], now), Some(playback));
  }
}
