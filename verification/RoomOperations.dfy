/** What one attempt of each room operation decides to write, given the room it has read. */
module RoomOperations {
  import opened PlaybackModel
  import opened PlaybackCoordinator
  import opened PlaybackAuthority
  import opened RoomStore

  // `now` is the clock reading the operation carries into its writes. TouchRoom stands for every write
  // that leaves video, playback, hold and chat alone: host, permissions, profile, expiry, admission.
  datatype RoomOp =
    | ShareVideo(video: SharedVideo, playback: Option<Playback>, actorId: MemberId, activeMemberIds: seq<MemberId>, now: int)
    | UpdatePlayback(incoming: Playback, actorId: MemberId, authority: Option<Authority>, activeMemberIds: seq<MemberId>, now: int)
    | JoinMember(memberId: MemberId, now: int)
    | ReportBuffer(memberId: MemberId, report: BufferReport, now: int)
    | DepartMember(memberId: MemberId, now: int)
    | ReleaseHold(expectedDeadline: int, now: int)
    | SetStrategy(strategy: Strategy, activeMemberIds: seq<MemberId>, now: int)
    | AppendChat(message: ChatMessage, now: int)
    | TouchRoom(expiresAt: Option<Option<int>>, now: int)
    | ClearVideo(now: int)

  datatype Decided = Keep | Write(patch: RoomPatch)

  /** A share replaces the playback; without one the video starts paused at its beginning. */
  function SharedPlayback(op: RoomOp): Playback
    requires op.ShareVideo?
  {
    if op.playback.Some? then
      op.playback.value.(url := op.video.url, link := op.video.link, syncIntent := None,
                         actorId := op.actorId, serverTime := op.now)
    else Playback(op.video.url, 0.0, Paused, None, 1.0, op.now, op.actorId, 0, op.video.link)
  }

  /** The update as the server judges it: stamped with actor and time, and a seek that ends
      on a stopped player keeps the room's intent to play. */
  function StampedUpdate(room: Room, op: RoomOp): Playback
    requires op.UpdatePlayback?
  {
    var next := op.incoming.(actorId := op.actorId, serverTime := op.now);
    if !IsLive(room) && IsPlaying(room) && next.syncIntent == Some(ExplicitSeek) && IsStopLike(next)
    then next.(playState := Playing) else next
  }

  predicate IgnoredDuringHold(room: Room, next: Playback, now: int) {
    && !IsLive(room)
    && HoldLiveAt(Sync(room), now)
    && IsPlaying(room)
    && IsStopLike(next)
    && !IsExplicit(next)
  }

  // An update must be of the shared video, compared by the normalised form of the URLs.
  predicate OfSharedVideo(room: Room, playback: Playback) {
    room.sharedVideo.Some? && playback.link.Some? && room.sharedVideo.value.link == playback.link
  }

  predicate TakesUpdate(room: Room, op: RoomOp)
    requires op.UpdatePlayback?
  {
    && OfSharedVideo(room, op.incoming)
    && !IgnoredDuringHold(room, StampedUpdate(room, op), op.now)
    && Decide(room.playback, op.authority, StampedUpdate(room, op), op.now, IsLive(room)).Accepted()
  }

  function CommandOf(kind: Option<AuthorityKind>): Command {
    match kind
    case Some(ByPlay) => Play
    case Some(ByPause) => Pause
    case Some(BySeek) => Seek
    case _ => Other
  }

  function CoordinateUpdate(room: Room, op: RoomOp): Coordination
    requires op.UpdatePlayback?
  {
    var next := StampedUpdate(room, op);
    CoordinateCommand(room, next, op.activeMemberIds, CommandOf(AuthorityKindOf(room.playback, next)), op.now)
  }

  // Unchanged coordination is not written; an unchanged playback is left out of the patch.
  function WriteChange(room: Room, c: Coordination, expiresAt: Option<Option<int>>, lastActiveAt: int): Decided {
    if c.playbackSync == Sync(room) && c.playback == room.playback then Keep
    else Write(EMPTY_PATCH.(playbackSync := Some(c.playbackSync),
                            playback := if c.playback == room.playback then None else Some(c.playback),
                            expiresAt := expiresAt,
                            lastActiveAt := Some(lastActiveAt)))
  }

  function DecideOp(room: Room, op: RoomOp): Decided {
    match op
    case ShareVideo(video, _, _, members, now) =>
      var c := CoordinateCommand(room, SharedPlayback(op), members, Share, now);
      Write(EMPTY_PATCH.(sharedVideo := Some(Some(video)), playback := Some(c.playback),
                         playbackSync := Some(c.playbackSync), expiresAt := Some(None), lastActiveAt := Some(now)))
    case UpdatePlayback(_, _, _, _, now) =>
      if !TakesUpdate(room, op) then Keep
      else
        var c := CoordinateUpdate(room, op);
        Write(EMPTY_PATCH.(playback := Some(c.playback), playbackSync := Some(c.playbackSync),
                           expiresAt := Some(None), lastActiveAt := Some(now)))
    case JoinMember(memberId, now) =>
      WriteChange(room, CoordinateJoin(room, memberId, now), None, now)
    case ReportBuffer(memberId, report, now) =>
      WriteChange(room, CoordinateReport(room, memberId, report, now), Some(None), now)
    case DepartMember(memberId, now) =>
      WriteChange(room, CoordinateDeparture(room, memberId, now), None, now)
    case ReleaseHold(deadline, now) =>
      if !Expires(room, deadline, now) then Keep
      else
        var c := CoordinateExpiry(room, deadline, now);
        Write(EMPTY_PATCH.(playbackSync := Some(c.playbackSync),
                           playback := if c.playback == room.playback then None else Some(c.playback),
                           lastActiveAt := Some(room.lastActiveAt)))
    case SetStrategy(strategy, members, now) =>
      WriteChange(room, CoordinateStrategy(room, strategy, members, now), Some(None), now)
    case AppendChat(message, now) =>
      Write(EMPTY_PATCH.(chatMessages := Some(room.chatMessages + [message]), lastActiveAt := Some(now)))
    case TouchRoom(expiresAt, now) =>
      Write(EMPTY_PATCH.(expiresAt := expiresAt, lastActiveAt := Some(now)))
    case ClearVideo(now) =>
      Write(EMPTY_PATCH.(sharedVideo := Some(None), playback := Some(None), expiresAt := Some(None), lastActiveAt := Some(now)))
  }

  /** The operation run alone on the room. */
  function Next(room: Room, op: RoomOp): Room {
    match DecideOp(room, op)
    case Keep => room
    case Write(patch) => ApplyPatch(room, patch, op.now)
  }

  function RunOps(room: Room, ops: seq<RoomOp>): Room
    decreases |ops|
  {
    if ops == [] then room else Next(RunOps(room, ops[..|ops| - 1]), ops[|ops| - 1])
  }

  // Operations that coordinate a playing room without choosing a new position themselves.
  predicate Coordinates(op: RoomOp) {
    !op.ShareVideo? && !op.UpdatePlayback? && !op.ClearVideo?
  }

  function Coordinated(room: Room, op: RoomOp): Coordination
    requires Coordinates(op)
  {
    match op
    case JoinMember(memberId, now) => CoordinateJoin(room, memberId, now)
    case ReportBuffer(memberId, report, now) => CoordinateReport(room, memberId, report, now)
    case DepartMember(memberId, now) => CoordinateDeparture(room, memberId, now)
    case ReleaseHold(deadline, now) => CoordinateExpiry(room, deadline, now)
    case SetStrategy(strategy, members, now) => CoordinateStrategy(room, strategy, members, now)
    case AppendChat(_, _) => Coordination(Sync(room), room.playback)
    case TouchRoom(_, _) => Coordination(Sync(room), room.playback)
  }

  lemma NextStoresCoordination(room: Room, op: RoomOp)
    requires Coordinates(op)
    ensures Sync(Next(room, op)) == Coordinated(room, op).playbackSync
    ensures Next(room, op).playback == Coordinated(room, op).playback
  {
  }

  lemma UpdateStores(room: Room, op: RoomOp)
    requires op.UpdatePlayback?
    ensures Next(room, op).playback == if TakesUpdate(room, op) then Some(StampedUpdate(room, op)) else room.playback
    ensures Next(room, op).sharedVideo == room.sharedVideo
    ensures Sync(Next(room, op)) == if TakesUpdate(room, op) then CoordinateUpdate(room, op).playbackSync else Sync(room)
  {
  }
}
