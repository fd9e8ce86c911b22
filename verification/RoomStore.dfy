/** The versioned room store: a write names the version it read and is refused if another came between. */
module RoomStore {
  import opened PlaybackModel

  const CHAT_HISTORY_LIMIT: nat := 200

  datatype RoomPatch = RoomPatch(
    sharedVideo: Option<Option<SharedVideo>>,
    playback: Option<Option<Playback>>,
    playbackSync: Option<SyncState>,
    chatMessages: Option<seq<ChatMessage>>,
    lastActiveAt: Option<int>,
    expiresAt: Option<Option<int>>)

  const EMPTY_PATCH := RoomPatch(None, None, None, None, None, None)

  datatype UpdateResult = Updated(room: Room) | NotFound | VersionConflict

  function GetOr<T>(o: Option<T>, fallback: T): T {
    if o.Some? then o.value else fallback
  }

  function LastN<T>(n: nat, s: seq<T>): (r: seq<T>)
    ensures |s| <= n ==> r == s
    ensures |s| > n ==> |r| == n
    ensures r == s[|s| - |r|..]
  {
    if |s| <= n then s
    else s[|s| - n..]
  }

  function NewRoom(code: string, createdAt: int): Room {
    Room(code, None, None, Some(Inactive(Smooth)), [], 0, createdAt, None)
  }

  function ApplyPatch(room: Room, patch: RoomPatch, now: int): Room {
    room.(
      sharedVideo := GetOr(patch.sharedVideo, room.sharedVideo),
      playback := GetOr(patch.playback, room.playback),
      playbackSync := if patch.playbackSync.Some? then patch.playbackSync else room.playbackSync,
      chatMessages := if patch.chatMessages.Some? then LastN(CHAT_HISTORY_LIMIT, patch.chatMessages.value)
                      else room.chatMessages,
      version := room.version + 1,
      lastActiveAt := GetOr(patch.lastActiveAt, now),
      expiresAt := GetOr(patch.expiresAt, room.expiresAt))
  }

  class InMemoryRoomStore {
    var rooms: map<string, Room>

    constructor ()
      ensures rooms == map[]
    {
      rooms := map[];
    }

    // Creating an existing code is refused and changes nothing.
    method CreateRoom(code: string, createdAt: int) returns (room: Option<Room>)
      modifies this
      ensures code in old(rooms) ==> room.None? && rooms == old(rooms)
      ensures code !in old(rooms) ==>
                && room == Some(NewRoom(code, createdAt))
                && rooms == old(rooms)[code := room.value]
    {
      if code in rooms {
        return None;
      }
      var created := NewRoom(code, createdAt);
      rooms := rooms[code := created];
      room := Some(created);
    }

    method GetRoom(code: string) returns (room: Option<Room>)
      ensures room.Some? <==> code in rooms
      ensures room.Some? ==> room.value == rooms[code]
    {
      room := if code in rooms then Some(rooms[code]) else None;
    }

    // Compare-and-set: the whole effect is one version step of one room, or nothing.
    method UpdateRoom(code: string, expectedVersion: nat, patch: RoomPatch, now: int) returns (result: UpdateResult)
      modifies this
      ensures result.NotFound? <==> code !in old(rooms)
      ensures result.Updated? <==> code in old(rooms) && old(rooms)[code].version == expectedVersion
      ensures result.Updated? ==>
                && result.room == ApplyPatch(old(rooms)[code], patch, now)
                && rooms == old(rooms)[code := result.room]
      ensures !result.Updated? ==> rooms == old(rooms)
    {
      if code !in rooms {
        return NotFound;
      }
      var current := rooms[code];
      if current.version != expectedVersion {
        return VersionConflict;
      }
      var chat := current.chatMessages;
      if patch.chatMessages.Some? {
        var next := patch.chatMessages.value;
        chat := if |next| > CHAT_HISTORY_LIMIT then next[|next| - CHAT_HISTORY_LIMIT..] else next;
      }
      var next := current.(
        sharedVideo := GetOr(patch.sharedVideo, current.sharedVideo),
        playback := GetOr(patch.playback, current.playback),
        playbackSync := if patch.playbackSync.Some? then patch.playbackSync else current.playbackSync,
        chatMessages := chat,
        version := current.version + 1,
        lastActiveAt := GetOr(patch.lastActiveAt, now),
        expiresAt := GetOr(patch.expiresAt, current.expiresAt));
      rooms := rooms[code := next];
      result := Updated(next);
    }

    method DeleteRoom(code: string)
      modifies this
      ensures rooms == old(rooms) - {code}
    {
      rooms := rooms - {code};
    }
  }
}
