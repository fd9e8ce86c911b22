/** Who sits in each room: a seat belongs to the session that took it last, and a session that has
    been replaced cannot vacate it. Member tokens outlive the seat, so a member can come back. */
module ActiveRooms {
  import opened PlaybackModel

  type SessionId = string

  datatype ActiveRoom = ActiveRoom(members: map<MemberId, SessionId>, tokens: map<MemberId, string>)

  // A removal without a session vacates the seat whoever holds it.
  datatype Event =
    | Added(room: string, member: MemberId, session: SessionId, token: string)
    | Removed(room: string, member: MemberId, leaving: Option<SessionId>)
    | TokenRemoved(room: string, member: MemberId, token: string)
    | Deleted(room: string)

  function RoomOf(rooms: map<string, ActiveRoom>, room: string): ActiveRoom {
    if room in rooms then rooms[room] else ActiveRoom(map[], map[])
  }

  function Step(rooms: map<string, ActiveRoom>, e: Event): map<string, ActiveRoom> {
    match e
    case Added(room, member, session, token) =>
      var r := RoomOf(rooms, room);
      rooms[room := ActiveRoom(r.members[member := session], r.tokens[member := token])]
    case Removed(room, member, session) =>
      if room !in rooms then rooms
      else
        var r := rooms[room];
        if session.Some? && member in r.members && r.members[member] != session.value then rooms
        else rooms[room := r.(members := r.members - {member})]
    case TokenRemoved(room, member, token) =>
      if room !in rooms || member !in rooms[room].tokens || rooms[room].tokens[member] == "" then rooms
      else if token != "" && rooms[room].tokens[member] != token then rooms
      else rooms[room := rooms[room].(tokens := rooms[room].tokens - {member})]
    case Deleted(room) => rooms - {room}
  }

  function Run(events: seq<Event>): map<string, ActiveRoom>
    decreases |events|
  {
    if events == [] then map[] else Step(Run(events[..|events| - 1]), events[|events| - 1])
  }

  predicate Seated(rooms: map<string, ActiveRoom>, room: string, member: MemberId, session: SessionId) {
    room in rooms && member in rooms[room].members && rooms[room].members[member] == session
  }

  predicate Vacates(e: Event, room: string, member: MemberId, session: SessionId) {
    match e
    case Added(r, m, _, _) => r == room && m == member
    case Removed(r, m, s) => r == room && m == member && (s.None? || s.value == session)
    case TokenRemoved(_, _, _) => false
    case Deleted(r) => r == room
  }

  ghost predicate SeatTakenAt(events: seq<Event>, i: nat, room: string, member: MemberId, session: SessionId)
    requires i < |events|
  {
    && events[i].Added? && events[i].room == room && events[i].member == member && events[i].session == session
    && forall j :: i < j < |events| ==> !Vacates(events[j], room, member, session)
  }

  lemma StepSeats(rooms: map<string, ActiveRoom>, e: Event, room: string, member: MemberId, session: SessionId)
    ensures Seated(Step(rooms, e), room, member, session) <==>
            || (e.Added? && e.room == room && e.member == member && e.session == session)
            || (Seated(rooms, room, member, session) && !Vacates(e, room, member, session))
  {
  }

  /** After any run a session sits in a seat iff it took it and since then nobody took the seat, nobody
      removed the member outright or in this session's name, and the room was not deleted. A removal
      in the name of a replaced session changes nothing. */
  lemma {:induction false} SeatedIff(events: seq<Event>, room: string, member: MemberId, session: SessionId)
    ensures Seated(Run(events), room, member, session) <==>
            exists i: nat :: i < |events| && SeatTakenAt(events, i, room, member, session)
    decreases |events|
  {
    hide Step;
    if events == [] {
    } else {
      var last := |events| - 1;
      var front, e := events[..last], events[last];
      SeatedIff(front, room, member, session);
      StepSeats(Run(front), e, room, member, session);
      if e.Added? && e.room == room && e.member == member && e.session == session {
        assert SeatTakenAt(events, last, room, member, session);
      } else if Seated(Run(front), room, member, session) && !Vacates(e, room, member, session) {
        var i: nat :| i < last && SeatTakenAt(front, i, room, member, session);
        assert SeatTakenAt(events, i, room, member, session);
      } else {
        forall i: nat | i < |events| ensures !SeatTakenAt(events, i, room, member, session) {
          assert i < last && !SeatTakenAt(front, i, room, member, session) ==> !SeatTakenAt(events, i, room, member, session);
        }
      }
    }
  }

  /** Leaving the seat never loses the token: only a removal of that very token, an outright token
      removal, a new token for the member, or deleting the room does. */
  lemma StepTokens(rooms: map<string, ActiveRoom>, e: Event, room: string, member: MemberId, token: string)
    requires room in rooms && member in rooms[room].tokens && rooms[room].tokens[member] == token
    ensures var after := Step(rooms, e);
            (room in after && member in after[room].tokens && after[room].tokens[member] == token) <==>
            !(|| e == Deleted(room)
              || (e.Added? && e.room == room && e.member == member && e.token != token)
              || (e.TokenRemoved? && e.room == room && e.member == member && token != "" && (e.token == "" || e.token == token)))
  {
  }

  predicate HasToken(rooms: map<string, ActiveRoom>, room: string, member: MemberId, token: string) {
    room in rooms && member in rooms[room].tokens && rooms[room].tokens[member] == token
  }

  predicate LosesToken(e: Event, room: string, member: MemberId, token: string) {
    || e == Deleted(room)
    || (e.Added? && e.room == room && e.member == member)
    || (e.TokenRemoved? && e.room == room && e.member == member && token != "" && (e.token == "" || e.token == token))
  }

  ghost predicate TokenGivenAt(events: seq<Event>, i: nat, room: string, member: MemberId, token: string)
    requires i < |events|
  {
    && events[i].Added? && events[i].room == room && events[i].member == member && events[i].token == token
    && forall j :: i < j < |events| ==> !LosesToken(events[j], room, member, token)
  }

  lemma TokenStep(rooms: map<string, ActiveRoom>, e: Event, room: string, member: MemberId, token: string)
    ensures HasToken(Step(rooms, e), room, member, token) <==>
            || (e.Added? && e.room == room && e.member == member && e.token == token)
            || (HasToken(rooms, room, member, token) && !LosesToken(e, room, member, token))
  {
  }

  /** After any run a member has a token iff it was added with it and since then neither added anew, nor
      was that token removed, nor the room deleted; vacating the seat does not matter. */
  lemma {:induction false} TokenHeldIff(events: seq<Event>, room: string, member: MemberId, token: string)
    ensures HasToken(Run(events), room, member, token) <==>
            exists i: nat :: i < |events| && TokenGivenAt(events, i, room, member, token)
    decreases |events|
  {
    hide Step;
    if events == [] {
    } else {
      var last := |events| - 1;
      var front, e := events[..last], events[last];
      TokenHeldIff(front, room, member, token);
      TokenStep(Run(front), e, room, member, token);
      if e.Added? && e.room == room && e.member == member && e.token == token {
        assert TokenGivenAt(events, last, room, member, token);
      } else if HasToken(Run(front), room, member, token) && !LosesToken(e, room, member, token) {
        var i: nat :| i < last && TokenGivenAt(front, i, room, member, token);
        assert TokenGivenAt(events, i, room, member, token);
      } else {
        forall i: nat | i < |events| ensures !TokenGivenAt(events, i, room, member, token) {
          assert i < last && !TokenGivenAt(front, i, room, member, token) ==> !TokenGivenAt(events, i, room, member, token);
        }
      }
    }
  }

  class ActiveRoomTable {
    var rooms: map<string, ActiveRoom>

    constructor ()
      ensures rooms == Run([])
    {
      rooms := map[];
    }

    method AddMember(room: string, member: MemberId, session: SessionId, token: string)
      modifies this
      ensures rooms == Step(old(rooms), Added(room, member, session, token))
    {
      if room !in rooms {
        rooms := rooms[room := ActiveRoom(map[], map[])];
      }
      var active := rooms[room];
      active := active.(members := active.members[member := session]);
      active := active.(tokens := active.tokens[member := token]);
      rooms := rooms[room := active];
    }

    // An unknown room counts as empty.
    method RemoveMember(room: string, member: MemberId, session: Option<SessionId>) returns (roomEmpty: bool, removed: bool)
      modifies this
      ensures rooms == Step(old(rooms), Removed(room, member, session))
      ensures removed <==> exists s :: Seated(old(rooms), room, member, s) && !Seated(rooms, room, member, s)
      ensures room !in old(rooms) ==> roomEmpty
      ensures removed ==> (roomEmpty <==> rooms[room].members == map[])
    {
      if room !in rooms {
        return true, false;
      }
      var active := rooms[room];
      if session.Some? && member in active.members && active.members[member] != session.value {
        return false, false;
      }
      removed := member in active.members;
      ghost var before := rooms;
      var members := active.members - {member};
      rooms := rooms[room := active.(members := members)];
      roomEmpty := |members| == 0;
      if removed {
        assert Seated(before, room, member, active.members[member]);
      }
    }

    method RemoveMemberToken(room: string, member: MemberId, token: string) returns (removed: bool)
      modifies this
      ensures rooms == Step(old(rooms), TokenRemoved(room, member, token))
      ensures removed <==> rooms != old(rooms)
    {
      if room !in rooms || member !in rooms[room].tokens || rooms[room].tokens[member] == "" {
        return false;
      }
      if token != "" && rooms[room].tokens[member] != token {
        return false;
      }
      ghost var before := rooms;
      rooms := rooms[room := rooms[room].(tokens := rooms[room].tokens - {member})];
      assert member in before[room].tokens && member !in rooms[room].tokens;
      removed := true;
    }

    method FindMemberIdByToken(room: string, token: string) returns (member: Option<MemberId>)
      ensures member.Some? ==> room in rooms && member.value in rooms[room].tokens && rooms[room].tokens[member.value] == token
      ensures member.None? ==> room !in rooms || forall m :: m in rooms[room].tokens ==> rooms[room].tokens[m] != token
    {
      if room !in rooms {
        return None;
      }
      var tokens := rooms[room].tokens;
      var rest := tokens.Keys;
      while rest != {}
        invariant rest <= tokens.Keys
        invariant forall m :: m in tokens && m !in rest ==> tokens[m] != token
        decreases rest
      {
        var m :| m in rest;
        if tokens[m] == token {
          return Some(m);
        }
        rest := rest - {m};
      }
      member := None;
    }

    method DeleteRoom(room: string)
      modifies this
      ensures rooms == Step(old(rooms), Deleted(room))
    {
      rooms := rooms - {room};
    }
  }
}
