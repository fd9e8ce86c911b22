/** What each operation leaves in the room, said of the fields the operation brings along. */
module RoomEffects {
  import opened PlaybackModel
  import opened PlaybackCoordinator
  import opened PlaybackAuthority
  import opened RoomStore
  import opened RoomOperations
  import opened HoldPromises
  import opened TimelineConservation
  import opened UpdateSafety

  // ---- Updates ----

  /** Which updates are taken over. The server asks for the shared video, then whether a stop comes from a
      viewer frozen by a live hold, then whether it fits the timeline and nobody else's window. */
  lemma TakenIff(room: Room, op: RoomOp)
    requires op.UpdatePlayback?
    ensures TakesUpdate(room, op) <==>
            && room.sharedVideo.Some? && op.incoming.link.Some? && room.sharedVideo.value.link == op.incoming.link
            && (room.playback.Some? ==>
                  var current, sent := room.playback.value, op.incoming.(actorId := op.actorId);
                  if sent.syncIntent.Some? then !RepeatsRate(current, sent)
                  else
                    && !(HoldLiveAt(Sync(room), op.now) && !IsLive(room) && IsPlaying(room) && sent.playState != Playing)
                    && (if IsLive(room) then !LiveFollower(current, sent) else WithinTolerance(current, sent, op.now))
                    && (current.actorId == op.actorId
                        || !FollowsAuthority(current, op.authority, sent, EffectivePosition(current, op.now, IsLive(room)), op.now)))
  {
    hide Project;
    if room.playback.Some? {
      AcceptanceExact(room.playback.value, op.authority, StampedUpdate(room, op), op.now, IsLive(room));
    }
  }

  /** A taken update stores what was sent, with the server's actor and clock. Only the play state may
      differ, and exactly when a seek in a playing on-demand room ends on a stopped player: the room
      keeps playing. An update that is not taken changes nothing at all. */
  lemma UpdateStoresSent(room: Room, op: RoomOp)
    requires op.UpdatePlayback?
    ensures var after := Next(room, op);
            if !TakesUpdate(room, op) then after == room
            else
              && after.playback.Some? && after.sharedVideo == room.sharedVideo
              && var stored := after.playback.value;
                 && stored == op.incoming.(actorId := op.actorId, serverTime := op.now, playState := stored.playState)
                 && (stored.playState != op.incoming.playState <==>
                       op.incoming.syncIntent == Some(ExplicitSeek) && op.incoming.playState != Playing
                       && IsPlaying(room) && !IsLive(room))
                 && (stored.playState != op.incoming.playState ==> stored.playState == Playing)
  {
    hide Decide;
  }

  /** Where viewers are after a taken update, at any later time: at the position sent, plus the time since
      at the rate sent, unless a hold is set. */
  lemma UpdateLands(room: Room, op: RoomOp, t: int)
    requires op.UpdatePlayback? && TakesUpdate(room, op) && op.now <= t
    ensures var after := Next(room, op);
            && after.playback.Some? && after.playback.value.position == op.incoming.position
            && (IsPlaying(after) ==>
                  PositionAt(after, t) == op.incoming.position
                    + if Held(after) then 0.0 else Advance(t - op.now, NormalRate(op.incoming.playbackRate)))
  {
    hide Next, Project, Advance, NormalRate, TakesUpdate;
    UpdateStoresSent(room, op);
    ProjectIsLinear(Next(room, op).playback.value.(playState := Playing), t);
  }

  /** A seek of the shared video always seeks, to the position asked for, and in an on-demand room it
      never stops anybody. */
  lemma SeekSeeks(room: Room, op: RoomOp, t: int)
    requires op.UpdatePlayback? && OfSharedVideo(room, op.incoming) && op.incoming.syncIntent == Some(ExplicitSeek)
    requires op.now <= t
    ensures var after := Next(room, op);
            && after.playback.Some? && after.playback.value.position == op.incoming.position
            && (IsPlaying(after) <==> op.incoming.playState == Playing || (IsPlaying(room) && !IsLive(room)))
            && (IsPlaying(after) && !Held(after) ==>
                  PositionAt(after, t) == op.incoming.position + Advance(t - op.now, NormalRate(op.incoming.playbackRate)))
  {
    hide Next, Project, Advance, NormalRate, TakesUpdate, PositionAt;
    TakenIff(room, op);
    UpdateStoresSent(room, op);
    UpdateLands(room, op, t);
  }

  // ---- Shares ----

  /** A share plays the shared video from what the sharer sent, as the sharer's and without an intent, or
      shows it paused at its beginning. */
  lemma ShareLands(room: Room, op: RoomOp, t: int)
    requires op.ShareVideo? && op.now <= t
    ensures var after := Next(room, op);
            && after.sharedVideo == Some(op.video) && after.playback.Some?
            && var stored := after.playback.value;
               && stored.url == op.video.url && stored.link == op.video.link
               && stored.actorId == op.actorId && stored.serverTime == op.now && stored.syncIntent.None?
               && (match op.playback
                   case None => stored.position == 0.0 && stored.playState == Paused && stored.playbackRate == 1.0 && stored.seqNo == 0
                   case Some(sent) =>
                     && stored.position == sent.position && stored.playState == sent.playState
                     && stored.playbackRate == sent.playbackRate && stored.seqNo == sent.seqNo)
               && (IsPlaying(after) ==>
                     PositionAt(after, t) == stored.position
                       + if Held(after) then 0.0 else Advance(t - op.now, NormalRate(stored.playbackRate)))
  {
    hide Next, Project, Advance, NormalRate;
    ShareStores(room, op);
    ProjectIsLinear(SharedPlayback(op).(playState := Playing), t);
  }

  // ---- Coordination ----

  lemma StoppedStaysPut(room: Room, op: RoomOp)
    requires Coordinates(op) && !IsPlaying(room)
    ensures Coordinated(room, op).playback == room.playback
  {
  }

  /** A coordinating operation leaves the playback alone unless a playing room freezes, is released, or has
      its hold restarted; then only position and stamp change, the stamp to the operation's reading and
      the position, except at a release, by the time since the old stamp. */
  lemma CoordinationStores(room: Room, op: RoomOp)
    requires Coordinates(op)
    ensures var after := Next(room, op);
            && after.sharedVideo == room.sharedVideo
            && if IsPlaying(room) && (Held(room) != Held(after) || RestartsHold(room, op)) then
                 var current := room.playback.value;
                 after.playback == Some(current.(
                   serverTime := op.now,
                   position := if (Held(room) && !Held(after)) || op.now <= current.serverTime then current.position
                               else current.position + Advance(op.now - current.serverTime, RateOf(room))))
               else after.playback == room.playback
  {
    hide Next, Project, Coordinated;
    OtherOperationsKeepPlaying(room, op);
    NextStoresCoordination(room, op);
    if IsPlaying(room) {
      CoordinationMovesBySkipped(room, op);
      ProjectIsLinear(room.playback.value, op.now);
    } else {
      StoppedStaysPut(room, op);
    }
  }

  // ---- What is written at all ----

  /** An operation writes the room iff it has something to change: shares, chat, clearing and the other
      writes always, an update iff it is taken, a release iff its deadline is in force and has come, and
      the rest iff sync state or playback change. */
  lemma WritesIff(room: Room, op: RoomOp)
    ensures var after := Next(room, op);
            DecideOp(room, op).Write? <==>
            match op
            case UpdatePlayback(_, _, _, _, _) => TakesUpdate(room, op)
            case ReleaseHold(deadline, now) => HoldDeadline(Sync(room)) == Some(deadline) && deadline <= now
            case JoinMember(_, _) => Sync(after) != Sync(room) || after.playback != room.playback
            case ReportBuffer(_, _, _) => Sync(after) != Sync(room) || after.playback != room.playback
            case DepartMember(_, _) => Sync(after) != Sync(room) || after.playback != room.playback
            case SetStrategy(_, _, _) => Sync(after) != Sync(room) || after.playback != room.playback
            case _ => true
  {
    hide Next;
    if Coordinates(op) {
      NextStoresCoordination(room, op);
    }
  }

  /** A write is one version step. It marks the room active at the operation's reading, except that a
      release is no activity; and whatever shows that somebody is there cancels a scheduled expiry. */
  lemma WrittenRoom(room: Room, op: RoomOp)
    ensures var after := Next(room, op);
            && after.code == room.code
            && if !DecideOp(room, op).Write? then after == room
               else
                 && after.version == room.version + 1
                 && after.lastActiveAt == (if op.ReleaseHold? then room.lastActiveAt else op.now)
                 && after.expiresAt ==
                    match op
                    case TouchRoom(Some(given), _) => given
                    case TouchRoom(None, _) => room.expiresAt
                    case JoinMember(_, _) => room.expiresAt
                    case DepartMember(_, _) => room.expiresAt
                    case ReleaseHold(_, _) => room.expiresAt
                    case AppendChat(_, _) => room.expiresAt
                    case _ => None
  {
  }

  /** A new room is quiet: smooth, nothing shared, played, held or said, at version 0, active when created and
      not about to expire. A room that never stored a sync state behaves the same. */
  lemma NewRoomIsQuiet(code: string, createdAt: int)
    ensures var room := NewRoom(code, createdAt);
            && room.code == code && room.lastActiveAt == createdAt && room.version == 0 && room.expiresAt.None?
            && room.sharedVideo.None? && room.playback.None? && room.chatMessages == []
            && !Held(room) && Sync(room).strategy == Smooth && Sync(room).bufferingMemberIds == []
            && Sync(room.(playbackSync := None)) == Sync(room)
  {
  }
}
