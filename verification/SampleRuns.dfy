/** Small runs from a new room, shared by the witnesses. */
module SampleRuns {
  import opened PlaybackModel
  import opened PlaybackCoordinator
  import opened RoomStore
  import opened RoomOperations

  function Fresh(): Room {
    NewRoom("ROOM01", 0)
  }

  function Video(): SharedVideo {
    SharedVideo("v", None, Some("v"))
  }

  function PlayingFrom(position: real, actor: MemberId): Playback {
    Playback("v", position, Playing, None, 1.0, 0, actor, 1, Some("v"))
  }

  function Opening(actor: MemberId, members: seq<MemberId>): RoomOp {
    ShareVideo(Video(), Some(PlayingFrom(0.0, actor)), actor, members, 0)
  }

  function Stall(m: MemberId, now: int): RoomOp {
    ReportBuffer(m, BufferReport(Stalled, None, None), now)
  }

  function Recovery(m: MemberId, now: int): RoomOp {
    ReportBuffer(m, BufferReport(Ready, Some(READY_BUFFER_AHEAD_SECONDS), None), now)
  }

  predicate SmoothlyWaiting(room: Room) {
    IsPlaying(room) && !IsLive(room) && Sync(room) == Inactive(Wait)
  }

  // Alone in the room, somebody switches to wait and shares a playing video.
  function Started(actor: MemberId): seq<RoomOp> {
    [SetStrategy(Wait, [actor], 0), Opening(actor, [actor])]
  }

  lemma RunTwo(room: Room, a: RoomOp, b: RoomOp)
    ensures RunOps(room, [a, b]) == Next(Next(room, a), b)
  {
    hide Next;
    assert [a, b][..1] == [a] && [a][..0] == [];
    assert RunOps(room, [a]) == Next(RunOps(room, []), a);
  }

  lemma RunAppend(room: Room, ops: seq<RoomOp>, op: RoomOp)
    ensures RunOps(room, ops + [op]) == Next(RunOps(room, ops), op)
  {
    hide Next;
    assert (ops + [op])[..|ops|] == ops;
  }

  lemma SwitchedToWait(members: seq<MemberId>)
    ensures var op := SetStrategy(Wait, members, 0);
            && DecideOp(Fresh(), op).Write?
            && Sync(Next(Fresh(), op)) == Inactive(Wait) && Next(Fresh(), op).playback.None?
            && Next(Fresh(), op).sharedVideo.None?
  {
    NextStoresCoordination(Fresh(), SetStrategy(Wait, members, 0));
  }

  lemma StartedPlays(actor: MemberId)
    ensures var room := RunOps(Fresh(), Started(actor));
            && SmoothlyWaiting(room) && room.playback == Some(PlayingFrom(0.0, actor)) && room.sharedVideo == Some(Video())
    ensures var switched := Next(Fresh(), SetStrategy(Wait, [actor], 0));
            && DecideOp(Fresh(), SetStrategy(Wait, [actor], 0)).Write?
            && DecideOp(switched, Opening(actor, [actor])).Write?
            && RunOps(Fresh(), Started(actor)) == Next(switched, Opening(actor, [actor]))
  {
    hide Unique;
    RunTwo(Fresh(), SetStrategy(Wait, [actor], 0), Opening(actor, [actor]));
    SwitchedToWait([actor]);
  }

  lemma StallHolds(room: Room, m: MemberId, now: int)
    requires SmoothlyWaiting(room)
    ensures var held := Next(room, Stall(m, now));
            && DecideOp(room, Stall(m, now)).Write?
            && Sync(held) == SyncState(Wait, Hold(true, Some(m), Some(now), Some(now + BUFFER_HOLD_MAX_MS), None), [m])
            && held.playback == Some(Rebase(room.playback.value, now)) && held.sharedVideo == room.sharedVideo
  {
    hide Unique, Without;
    NextStoresCoordination(room, Stall(m, now));
    assert [] + [m] == [m] && NoDuplicates([m]);
  }
}
