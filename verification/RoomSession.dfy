/** The client's member list: deltas that arrive before the first snapshot are queued and replayed
    over it, later ones are applied at once. */
module RoomSession {
  import opened PlaybackModel

  datatype Member = Member(id: MemberId, name: string)

  datatype RoomState = RoomState(roomCode: string, members: seq<Member>)

  datatype Change = Joined | Left

  datatype Delta = Delta(change: Change, roomCode: string, member: Member)

  predicate UniqueIds(members: seq<Member>) {
    forall i, j :: 0 <= i < j < |members| ==> members[i].id != members[j].id
  }

  function Dropping(members: seq<Member>, id: MemberId): (r: seq<Member>)
    ensures forall m :: m in r <==> m in members && m.id != id
    ensures UniqueIds(members) ==> UniqueIds(r)
  {
    if members == [] then []
    else
      assert members == [members[0]] + members[1..];
      var rest := Dropping(members[1..], id);
      assert forall j :: 0 <= j < |rest| ==> rest[j] in rest && rest[j] in members[1..];
      if members[0].id == id then rest else [members[0]] + rest
  }

  // The first member with the id, or the length if there is none.
  function IndexOfId(members: seq<Member>, id: MemberId): (k: nat)
    ensures k <= |members|
    ensures k < |members| ==> members[k].id == id
    ensures forall i :: 0 <= i < k ==> members[i].id != id
  {
    if members == [] || members[0].id == id then 0 else 1 + IndexOfId(members[1..], id)
  }

  function ApplyMemberDelta(state: RoomState, delta: Delta): RoomState {
    if state.roomCode != delta.roomCode then state
    else if delta.change == Left then state.(members := Dropping(state.members, delta.member.id))
    else
      var k := IndexOfId(state.members, delta.member.id);
      state.(members := if k == |state.members| then state.members + [delta.member]
                        else state.members[k := delta.member])
  }

  function Replay(state: RoomState, deltas: seq<Delta>): RoomState
    decreases |deltas|
  {
    if deltas == [] then state
    else ApplyMemberDelta(Replay(state, deltas[..|deltas| - 1]), deltas[|deltas| - 1])
  }

  function OfRoom(deltas: seq<Delta>, roomCode: string): seq<Delta>
    decreases |deltas|
  {
    if deltas == [] then []
    else
      var last := deltas[|deltas| - 1];
      OfRoom(deltas[..|deltas| - 1], roomCode) + if last.roomCode == roomCode then [last] else []
  }

  function OfOtherRooms(deltas: seq<Delta>, roomCode: string): seq<Delta>
    decreases |deltas|
  {
    if deltas == [] then []
    else
      var last := deltas[|deltas| - 1];
      OfOtherRooms(deltas[..|deltas| - 1], roomCode) + if last.roomCode == roomCode then [] else [last]
  }

  function Ids(state: RoomState): set<MemberId> {
    set m | m in state.members :: m.id
  }

  function Evolve(ids: set<MemberId>, delta: Delta): set<MemberId> {
    if delta.change == Joined then ids + {delta.member.id} else ids - {delta.member.id}
  }

  /** The server's member ids after a history of one room's deltas. */
  function ServerIds(initial: set<MemberId>, deltas: seq<Delta>): set<MemberId>
    decreases |deltas|
  {
    if deltas == [] then initial else Evolve(ServerIds(initial, deltas[..|deltas| - 1]), deltas[|deltas| - 1])
  }

  lemma JoinedIds(state: RoomState, delta: Delta, id: MemberId)
    requires delta.change == Joined && state.roomCode == delta.roomCode
    ensures id in Ids(ApplyMemberDelta(state, delta)) <==> id in Ids(state) || id == delta.member.id
  {
    var k := IndexOfId(state.members, delta.member.id);
    var after := ApplyMemberDelta(state, delta);
    assert after.members[k] == delta.member;
    if id in Ids(state) && id != delta.member.id {
      var i :| 0 <= i < |state.members| && state.members[i].id == id;
      assert after.members[i] == state.members[i];
    }
    if id in Ids(after) && id != delta.member.id {
      var i :| 0 <= i < |after.members| && after.members[i].id == id;
      assert after.members[i] == state.members[i];
    }
  }

  lemma ApplyEvolvesIds(state: RoomState, delta: Delta)
    ensures ApplyMemberDelta(state, delta).roomCode == state.roomCode
    ensures state.roomCode == delta.roomCode ==> Ids(ApplyMemberDelta(state, delta)) == Evolve(Ids(state), delta)
    ensures UniqueIds(state.members) ==> UniqueIds(ApplyMemberDelta(state, delta).members)
  {
    if state.roomCode == delta.roomCode {
      var after := ApplyMemberDelta(state, delta);
      forall id ensures id in Ids(after) <==> id in Evolve(Ids(state), delta) {
        if delta.change == Joined {
          JoinedIds(state, delta, id);
        } else if id in Ids(state) {
          var m :| m in state.members && m.id == id;
          assert id != delta.member.id ==> m in after.members;
        }
      }
    }
  }

  lemma OtherRoomUnmoved(state: RoomState, delta: Delta)
    requires delta.roomCode != state.roomCode
    ensures ApplyMemberDelta(state, delta) == state
  {
  }

  lemma {:induction false} ReplayKeepsRoom(state: RoomState, deltas: seq<Delta>)
    ensures Replay(state, deltas).roomCode == state.roomCode
    ensures UniqueIds(state.members) ==> UniqueIds(Replay(state, deltas).members)
    ensures Replay(state, deltas) == Replay(state, OfRoom(deltas, state.roomCode))
    decreases |deltas|
  {
    hide ApplyMemberDelta;
    if deltas == [] {
    } else {
      var front, last := deltas[..|deltas| - 1], deltas[|deltas| - 1];
      ReplayKeepsRoom(state, front);
      ApplyEvolvesIds(Replay(state, front), last);
      var mine := OfRoom(deltas, state.roomCode);
      if last.roomCode == state.roomCode {
        assert mine[..|mine| - 1] == OfRoom(front, state.roomCode);
      } else {
        OtherRoomUnmoved(Replay(state, front), last);
        assert mine == OfRoom(front, state.roomCode);
      }
    }
  }

  lemma {:induction false} ReplayIds(state: RoomState, deltas: seq<Delta>)
    requires forall d <- deltas :: d.roomCode == state.roomCode
    ensures Ids(Replay(state, deltas)) == ServerIds(Ids(state), deltas)
    decreases |deltas|
  {
    hide ApplyMemberDelta, Ids, Evolve;
    if deltas == [] {
    } else {
      var front, last := deltas[..|deltas| - 1], deltas[|deltas| - 1];
      ReplayIds(state, front);
      ReplayKeepsRoom(state, front);
      ApplyEvolvesIds(Replay(state, front), last);
    }
  }

  predicate Touches(deltas: seq<Delta>, id: MemberId) {
    exists i :: 0 <= i < |deltas| && deltas[i].member.id == id
  }

  /** Whoever is touched by the deltas ends where the last touch puts them, whatever the start; the
      untouched stay where they were. */
  lemma {:induction false} LastTouchDecides(a: set<MemberId>, b: set<MemberId>, deltas: seq<Delta>, id: MemberId)
    ensures Touches(deltas, id) ==> (id in ServerIds(a, deltas) <==> id in ServerIds(b, deltas))
    ensures !Touches(deltas, id) ==> (id in ServerIds(a, deltas) <==> id in a)
    decreases |deltas|
  {
    if deltas == [] {
    } else {
      var front, last := deltas[..|deltas| - 1], deltas[|deltas| - 1];
      LastTouchDecides(a, b, front, id);
      if Touches(front, id) {
        var i :| 0 <= i < |front| && front[i].member.id == id;
        assert deltas[i].member.id == id;
      }
      if Touches(deltas, id) && last.member.id != id {
        var i :| 0 <= i < |deltas| && deltas[i].member.id == id;
        assert front[i].member.id == id;
      }
    }
  }

  lemma {:induction false} ServerIdsSplit(initial: set<MemberId>, deltas: seq<Delta>, k: nat)
    requires k <= |deltas|
    ensures ServerIds(initial, deltas) == ServerIds(ServerIds(initial, deltas[..k]), deltas[k..])
    decreases |deltas|
  {
    if k < |deltas| {
      var front := deltas[..|deltas| - 1];
      ServerIdsSplit(initial, front, k);
      assert front[..k] == deltas[..k] && deltas[k..][..|deltas| - 1 - k] == front[k..];
    } else {
      assert deltas[..k] == deltas;
    }
  }

  // What the replayed deltas never touch, the snapshot must already have as it was when they began.
  ghost predicate AgreesOnUntouched(initial: set<MemberId>, deltas: seq<Delta>, from: nat, taken: nat)
    requires from <= |deltas| && taken <= |deltas|
  {
    forall id :: !Touches(deltas[from..], id) ==>
      (id in ServerIds(initial, deltas[..taken]) <==> id in ServerIds(initial, deltas[..from]))
  }

  /** A snapshot of one prefix with the deltas from another prefix on replayed over it has exactly the
      server's final ids iff the two prefixes agree on whoever those deltas do not touch. */
  lemma ReplayConvergesIff(initial: set<MemberId>, deltas: seq<Delta>, from: nat, taken: nat, snapshot: RoomState, queue: seq<Delta>)
    requires forall d <- deltas :: d.roomCode == snapshot.roomCode
    requires from <= |deltas| && taken <= |deltas|
    requires Ids(snapshot) == ServerIds(initial, deltas[..taken])
    requires OfRoom(queue, snapshot.roomCode) == deltas[from..]
    ensures Ids(Replay(snapshot, queue)) == ServerIds(initial, deltas) <==> AgreesOnUntouched(initial, deltas, from, taken)
    ensures UniqueIds(snapshot.members) ==> UniqueIds(Replay(snapshot, queue).members)
  {
    hide Ids, UniqueIds, Replay, OfRoom, Touches;
    var queued := deltas[from..];
    ReplayKeepsRoom(snapshot, queue);
    forall d | d in queued ensures d.roomCode == snapshot.roomCode {
      assert d in deltas;
    }
    ReplayIds(snapshot, queued);
    ServerIdsSplit(initial, deltas, from);
    var start, seen := ServerIds(initial, deltas[..from]), Ids(snapshot);
    forall id
      ensures (id in ServerIds(seen, queued) <==> id in ServerIds(start, queued)) <==>
              (!Touches(queued, id) ==> (id in seen <==> id in start))
    {
      LastTouchDecides(seen, start, queued, id);
      LastTouchDecides(start, seen, queued, id);
    }
  }

  lemma UntouchedAtSnapshot(initial: set<MemberId>, deltas: seq<Delta>, from: nat, taken: nat, id: MemberId)
    requires from <= taken <= |deltas| && !Touches(deltas[from..], id)
    ensures id in ServerIds(initial, deltas[..taken]) <==> id in ServerIds(initial, deltas[..from])
  {
    var prefix := deltas[..taken];
    ServerIdsSplit(initial, prefix, from);
    assert prefix[..from] == deltas[..from];
    var between := prefix[from..];
    forall i | 0 <= i < |between| ensures between[i].member.id != id {
      assert deltas[from..][i] == between[i];
    }
    LastTouchDecides(ServerIds(initial, deltas[..from]), {}, between, id);
  }

  /** In particular when the deltas reach back to the snapshot or further. */
  lemma SnapshotPlusDeltasConverges(initial: set<MemberId>, deltas: seq<Delta>, from: nat, taken: nat, snapshot: RoomState, queue: seq<Delta>)
    requires forall d <- deltas :: d.roomCode == snapshot.roomCode
    requires from <= taken <= |deltas|
    requires Ids(snapshot) == ServerIds(initial, deltas[..taken])
    requires OfRoom(queue, snapshot.roomCode) == deltas[from..]
    ensures Ids(Replay(snapshot, queue)) == ServerIds(initial, deltas)
    ensures UniqueIds(snapshot.members) ==> UniqueIds(Replay(snapshot, queue).members)
  {
    hide Ids, UniqueIds;
    forall id | !Touches(deltas[from..], id)
      ensures id in ServerIds(initial, deltas[..taken]) <==> id in ServerIds(initial, deltas[..from])
    {
      UntouchedAtSnapshot(initial, deltas, from, taken, id);
    }
    ReplayConvergesIff(initial, deltas, from, taken, snapshot, queue);
  }

  // ---- Records, not only ids ----

  // The last delta about a member.
  function LastAbout(deltas: seq<Delta>, id: MemberId): (d: Option<Delta>)
    decreases |deltas|
  {
    if deltas == [] then None
    else if deltas[|deltas| - 1].member.id == id then Some(deltas[|deltas| - 1])
    else LastAbout(deltas[..|deltas| - 1], id)
  }

  lemma ApplyRecords(state: RoomState, delta: Delta, m: Member)
    requires UniqueIds(state.members) && state.roomCode == delta.roomCode
    ensures m in ApplyMemberDelta(state, delta).members <==>
            (delta.change == Joined && m == delta.member) || (m in state.members && m.id != delta.member.id)
  {
    if delta.change == Joined {
      var k := IndexOfId(state.members, delta.member.id);
      var after := ApplyMemberDelta(state, delta).members;
      assert forall j :: 0 <= j < |state.members| && j != k ==> state.members[j].id != delta.member.id && after[j] == state.members[j];
      assert after[k] == delta.member;
    }
  }

  /** After a replay each member's record is the one the last delta about that member brought, if that was a
      join, and the snapshot's if no delta was about it; and there is nobody else. */
  lemma {:induction false} LastRecordStands(state: RoomState, deltas: seq<Delta>, m: Member)
    requires UniqueIds(state.members) && forall i :: 0 <= i < |deltas| ==> deltas[i].roomCode == state.roomCode
    ensures m in Replay(state, deltas).members <==>
            match LastAbout(deltas, m.id)
            case None => m in state.members
            case Some(d) => d.change == Joined && d.member == m
    decreases |deltas|
  {
    hide ApplyMemberDelta, UniqueIds;
    if deltas == [] {
    } else {
      var front := deltas[..|deltas| - 1];
      LastRecordStands(state, front, m);
      ReplayKeepsRoom(state, front);
      ApplyRecords(Replay(state, front), deltas[|deltas| - 1], m);
    }
  }

  // ---- The controller ----

  datatype Client = Client(
    pending: seq<Delta>,
    roomState: Option<RoomState>,
    roomCode: Option<string>,
    joinSent: bool,
    joinRoom: Option<string>,
    waiting: bool,
    generation: nat)

  predicate Awaits(c: Client, roomCode: string) {
    || (c.waiting && c.roomCode == Some(roomCode))
    || (c.joinSent && (c.roomCode == Some(roomCode) || c.joinRoom == Some(roomCode)))
  }

  function ReceiveDelta(c: Client, delta: Delta): Client {
    if Awaits(c, delta.roomCode) then c.(pending := c.pending + [delta])
    else if c.roomState.None? || c.roomState.value.roomCode != delta.roomCode then c
    else c.(roomState := Some(ApplyMemberDelta(c.roomState.value, delta)), roomCode := Some(c.roomState.value.roomCode))
  }

  // A snapshot of another video than the one the client is about to share is stale.
  predicate IgnoresAsStale(pendingShareLink: Option<string>, sharedLink: Option<string>) {
    pendingShareLink.Some? && pendingShareLink.value != "" && sharedLink != pendingShareLink
  }

  function ReceiveSnapshot(c: Client, snapshot: RoomState): Client {
    c.(roomState := Some(Replay(snapshot, c.pending)),
       pending := OfOtherRooms(c.pending, snapshot.roomCode),
       roomCode := Some(snapshot.roomCode),
       waiting := false,
       generation := c.generation + 1)
  }

  function ReceiveRoomState(c: Client, snapshot: RoomState, pendingShareLink: Option<string>, sharedLink: Option<string>): Client {
    if IgnoresAsStale(pendingShareLink, sharedLink) then c else ReceiveSnapshot(c, snapshot)
  }

  // Stopping the old wait and starting the new one each advance the generation.
  function ReceiveJoined(c: Client, roomCode: string): Client {
    c.(pending := OfRoom(c.pending, roomCode), roomCode := Some(roomCode),
       joinSent := false, joinRoom := None, waiting := true, generation := c.generation + 2)
  }

  function ExpireWait(c: Client, generation: nat): Client {
    if !c.waiting || generation != c.generation then c
    else
      var stopped := c.(waiting := false);
      if c.roomCode.None? || c.roomCode.value == "" then stopped.(pending := [])
      else
        var roomCode := c.roomCode.value;
        if OfRoom(c.pending, roomCode) == [] then stopped
        else if c.roomState.None? || c.roomState.value.roomCode != roomCode then
          stopped.(pending := OfOtherRooms(c.pending, roomCode))
        else stopped.(roomState := Some(Replay(c.roomState.value, c.pending)),
                      pending := OfOtherRooms(c.pending, roomCode))
  }

  lemma {:induction false} ReplaySplit(state: RoomState, a: seq<Delta>, b: seq<Delta>)
    ensures Replay(Replay(state, a), b) == Replay(state, a + b)
    decreases |b|
  {
    hide ApplyMemberDelta;
    if b == [] {
      assert a + b == a;
    } else {
      var front := b[..|b| - 1];
      ReplaySplit(state, a, front);
      assert (a + b)[..|a + b| - 1] == a + front;
    }
  }

  lemma {:induction false} OfRoomSplit(a: seq<Delta>, b: seq<Delta>, roomCode: string)
    ensures OfRoom(a + b, roomCode) == OfRoom(a, roomCode) + OfRoom(b, roomCode)
    decreases |b|
  {
    if b == [] {
      assert a + b == a;
    } else {
      assert (a + b)[..|a + b| - 1] == a + b[..|b| - 1];
      OfRoomSplit(a, b[..|b| - 1], roomCode);
    }
  }

  lemma {:induction false} OfRoomIsOfRoom(deltas: seq<Delta>, roomCode: string)
    ensures forall i :: 0 <= i < |OfRoom(deltas, roomCode)| ==> OfRoom(deltas, roomCode)[i].roomCode == roomCode
    decreases |deltas|
  {
    if deltas == [] {
    } else {
      OfRoomIsOfRoom(deltas[..|deltas| - 1], roomCode);
    }
  }

  /** What becomes of a delta: it is queued while its room is awaited, which is from the request to join it
      until the wait after the join is over; otherwise it is applied to a state of its room, or dropped. */
  lemma DeltaDecides(c: Client, delta: Delta)
    ensures var after := ReceiveDelta(c, delta);
            var requested := c.joinSent && Some(delta.roomCode) in {c.roomCode, c.joinRoom};
            var waiting := c.waiting && c.roomCode == Some(delta.roomCode);
            if requested || waiting then after == c.(pending := c.pending + [delta])
            else if c.roomState.Some? && c.roomState.value.roomCode == delta.roomCode then
              && after == c.(roomState := after.roomState, roomCode := Some(delta.roomCode))
              && after.roomState == Some(Replay(c.roomState.value, [delta]))
            else after == c
  {
    assert [delta][..0] == [];
  }

  /** While a share is pending only a snapshot of that very video is taken up; without one every snapshot
      is. One that is not taken up changes nothing. */
  lemma PendingShareDecides(c: Client, snapshot: RoomState, pendingShareLink: Option<string>, sharedLink: Option<string>)
    ensures var after := ReceiveRoomState(c, snapshot, pendingShareLink, sharedLink);
            if pendingShareLink.None? || pendingShareLink == Some("") || pendingShareLink == sharedLink then
              && after.roomState == Some(Replay(snapshot, c.pending)) && after.roomCode == Some(snapshot.roomCode)
              && !after.waiting && after.generation > c.generation
            else after == c
  {
    ReplayKeepsRoom(snapshot, c.pending);
  }

  lemma NothingReplayed(state: RoomState)
    ensures Replay(state, []) == state && ServerIds(Ids(state), []) == Ids(state)
  {
  }

  lemma {:induction false} OthersHaveNoneOfRoom(deltas: seq<Delta>, roomCode: string)
    ensures OfRoom(OfOtherRooms(deltas, roomCode), roomCode) == []
    decreases |deltas|
  {
    if deltas == [] {
    } else {
      var front, last := deltas[..|deltas| - 1], deltas[|deltas| - 1];
      OthersHaveNoneOfRoom(front, roomCode);
      var others := OfOtherRooms(front, roomCode);
      if last.roomCode == roomCode {
        assert others + [] == others;
      } else {
        assert (others + [last])[..|others|] == others;
        assert OfRoom(others + [last], roomCode) == OfRoom(others, roomCode) + [];
      }
    }
  }

  /** The timer of the wait itself ends it: a client that still has a state of its room then has the ids its
      queue makes of it, one that has none has nothing, and the queue of the room is gone either way. */
  lemma ExpiredWaitSettles(c: Client, roomCode: string)
    requires c.waiting && c.roomCode == Some(roomCode) && roomCode != ""
    requires c.roomState.Some? ==> c.roomState.value.roomCode == roomCode
    ensures var after := ExpireWait(c, c.generation);
            && !after.waiting && OfRoom(after.pending, roomCode) == []
            && (c.roomState.None? ==> after.roomState.None?)
            && (c.roomState.Some? ==>
                  && after.roomState.Some?
                  && Ids(after.roomState.value) == ServerIds(Ids(c.roomState.value), OfRoom(c.pending, roomCode)))
  {
    hide Ids, Replay, ServerIds, OfRoom, OfOtherRooms;
    OthersHaveNoneOfRoom(c.pending, roomCode);
    if c.roomState.Some? {
      var state := c.roomState.value;
      ReplayKeepsRoom(state, c.pending);
      OfRoomIsOfRoom(c.pending, roomCode);
      ReplayIds(state, OfRoom(c.pending, roomCode));
      assert Replay(state, []) == state && ServerIds(Ids(state), []) == Ids(state) by { NothingReplayed(state); }
    }
  }

  // ---- Arbitrary runs after a join ----

  datatype Event =
    | Told(delta: Delta)
    | Shown(snapshot: RoomState, pendingShareLink: Option<string>, sharedLink: Option<string>)
    | Expired(generation: nat)
  {
    predicate Applied() {
      Shown? && !IgnoresAsStale(pendingShareLink, sharedLink)
    }

    // Ends the wait that began in this generation.
    predicate EndsWait(began: nat) {
      Applied() || this == Expired(began)
    }
  }

  function Receive(c: Client, e: Event): Client {
    match e
    case Told(delta) => ReceiveDelta(c, delta)
    case Shown(snapshot, pendingShareLink, sharedLink) => ReceiveRoomState(c, snapshot, pendingShareLink, sharedLink)
    case Expired(generation) => ExpireWait(c, generation)
  }

  function ReceiveAll(c: Client, events: seq<Event>): Client
    decreases |events|
  {
    if events == [] then c else Receive(ReceiveAll(c, events[..|events| - 1]), events[|events| - 1])
  }

  function DeltasIn(events: seq<Event>, roomCode: string): seq<Delta>
    decreases |events|
  {
    if events == [] then []
    else
      var e := events[|events| - 1];
      DeltasIn(events[..|events| - 1], roomCode) + if e.Told? && e.delta.roomCode == roomCode then [e.delta] else []
  }

  predicate WaitOver(events: seq<Event>, began: nat)
    decreases |events|
  {
    events != [] && (events[|events| - 1].EndsWait(began) || WaitOver(events[..|events| - 1], began))
  }

  predicate NoneApplied(events: seq<Event>)
    decreases |events|
  {
    events != [] ==> !events[|events| - 1].Applied() && NoneApplied(events[..|events| - 1])
  }

  ghost predicate OfOneRoom(c: Client, events: seq<Event>, roomCode: string) {
    && (c.roomState.Some? ==> c.roomState.value.roomCode == roomCode)
    && forall i :: 0 <= i < |events| && events[i].Shown? ==> events[i].snapshot.roomCode == roomCode
  }

  predicate AtRoom(c: Client, roomCode: string) {
    && !c.joinSent && c.roomCode == Some(roomCode)
    && (c.roomState.Some? ==> c.roomState.value.roomCode == roomCode)
  }

  function DeltaOf(e: Event, roomCode: string): seq<Delta> {
    if e.Told? && e.delta.roomCode == roomCode then [e.delta] else []
  }

  lemma NothingPending(roomCode: string)
    ensures OfRoom([], roomCode) == [] == OfOtherRooms([], roomCode)
  {
  }

  lemma {:induction false} AllOfRoom(deltas: seq<Delta>, roomCode: string)
    requires forall i :: 0 <= i < |deltas| ==> deltas[i].roomCode == roomCode
    ensures OfRoom(deltas, roomCode) == deltas
    decreases |deltas|
  {
    if deltas == [] {
    } else {
      var front := deltas[..|deltas| - 1];
      AllOfRoom(front, roomCode);
      assert deltas == front + [deltas[|deltas| - 1]];
    }
  }

  lemma {:induction false} OthersOf(deltas: seq<Delta>, roomCode: string)
    requires OfRoom(deltas, roomCode) == deltas
    ensures OfOtherRooms(deltas, roomCode) == []
    decreases |deltas|
  {
    if deltas == [] {
    } else {
      OfRoomIsOfRoom(deltas, roomCode);
      var front := deltas[..|deltas| - 1];
      OfRoomIsOfRoom(front, roomCode);
      AllOfRoom(front, roomCode);
      OthersOf(front, roomCode);
    }
  }

  lemma WaitStep(c: Client, e: Event, joined: string)
    requires AtRoom(c, joined) && OfRoom(c.pending, joined) == c.pending
    requires e.Shown? ==> e.snapshot.roomCode == joined
    requires c.waiting || c.pending == []
    ensures var after := Receive(c, e);
            && AtRoom(after, joined)
            && (if !c.waiting || e.EndsWait(c.generation) then !after.waiting && after.pending == []
                else after == c.(pending := c.pending + DeltaOf(e, joined)))
  {
    hide Replay, ApplyMemberDelta, OfRoom, OfOtherRooms;
    OthersOf(c.pending, joined);
    NothingPending(joined);
    match e
    case Told(delta) =>
      if c.roomState.Some? {
        ApplyEvolvesIds(c.roomState.value, delta);
      }
      assert c.pending + [] == c.pending;
    case Shown(snapshot, _, _) =>
      ReplayKeepsRoom(snapshot, c.pending);
      assert c.pending + [] == c.pending;
    case Expired(_) =>
      if c.roomState.Some? {
        ReplayKeepsRoom(c.roomState.value, c.pending);
      }
      assert c.pending + [] == c.pending;
  }

  lemma NoEvents(c: Client, roomCode: string)
    ensures ReceiveAll(c, []) == c && DeltasIn([], roomCode) == [] && !WaitOver([], c.generation)
  {
  }

  lemma LastEvent(c: Client, events: seq<Event>, roomCode: string)
    requires events != []
    ensures var front, e := events[..|events| - 1], events[|events| - 1];
            && ReceiveAll(c, events) == Receive(ReceiveAll(c, front), e)
            && DeltasIn(events, roomCode) == DeltasIn(front, roomCode) + DeltaOf(e, roomCode)
            && (WaitOver(events, c.generation) <==> e.EndsWait(c.generation) || WaitOver(front, c.generation))
  {
    hide Receive;
  }

  lemma {:induction false} DeltasInAreOfRoom(events: seq<Event>, roomCode: string)
    ensures forall i :: 0 <= i < |DeltasIn(events, roomCode)| ==> DeltasIn(events, roomCode)[i].roomCode == roomCode
    decreases |events|
  {
    if events == [] {
    } else {
      DeltasInAreOfRoom(events[..|events| - 1], roomCode);
    }
  }

  /** Whatever happens after a join: while the wait lasts every delta of the room is queued, and once it
      is over the queue is empty. */
  lemma {:induction false} WaitQueues(c: Client, events: seq<Event>, joined: string)
    requires c.waiting && AtRoom(c, joined) && OfRoom(c.pending, joined) == c.pending
    requires OfOneRoom(c, events, joined)
    ensures var d := ReceiveAll(c, events);
            && AtRoom(d, joined)
            && (if WaitOver(events, c.generation) then !d.waiting && d.pending == []
                else d == c.(pending := c.pending + DeltasIn(events, joined)))
    decreases |events|
  {
    hide Receive, ReceiveAll, OfRoom, DeltasIn, WaitOver, DeltaOf, Event.EndsWait;
    if events == [] {
      NoEvents(c, joined);
      assert c.pending + [] == c.pending;
    } else {
      var front, e := events[..|events| - 1], events[|events| - 1];
      WaitQueues(c, front, joined);
      var before, queued := ReceiveAll(c, front), DeltasIn(front, joined);
      OfRoomSplit(c.pending, queued, joined);
      DeltasInAreOfRoom(front, joined);
      AllOfRoom(queued, joined);
      NothingPending(joined);
      WaitStep(before, e, joined);
      LastEvent(c, events, joined);
      assert c.pending + (queued + DeltaOf(e, joined)) == c.pending + queued + DeltaOf(e, joined);
    }
  }

  lemma ReplayOneMore(state: RoomState, deltas: seq<Delta>, delta: Delta)
    ensures Replay(state, deltas + [delta]) == ApplyMemberDelta(Replay(state, deltas), delta)
  {
    hide ApplyMemberDelta;
    assert (deltas + [delta])[..|deltas|] == deltas;
  }

  /** Once settled on a snapshot, a client applies every delta of the room and no timer disturbs it. */
  lemma {:induction false} SettledApplies(c: Client, events: seq<Event>)
    requires !c.waiting && !c.joinSent && c.roomState.Some? && c.roomCode == Some(c.roomState.value.roomCode)
    requires NoneApplied(events)
    ensures ReceiveAll(c, events) ==
            c.(roomState := Some(Replay(c.roomState.value, DeltasIn(events, c.roomState.value.roomCode))))
    decreases |events|
  {
    if events == [] {
    } else {
      hide ApplyMemberDelta;
      var front, e, room := events[..|events| - 1], events[|events| - 1], c.roomState.value.roomCode;
      SettledApplies(c, front);
      var soFar := DeltasIn(front, room);
      ReplayKeepsRoom(c.roomState.value, soFar);
      if e.Told? && e.delta.roomCode == room {
        ReplayOneMore(c.roomState.value, soFar, e.delta);
        ApplyEvolvesIds(Replay(c.roomState.value, soFar), e.delta);
      } else {
        assert soFar + [] == soFar;
      }
    }
  }

  /** What a snapshot finds queued: everything since the join, unless the wait was over by then. */
  function QueuedAt(c: Client, joined: string, before: seq<Event>): seq<Delta> {
    if WaitOver(before, c.generation + 2) then [] else OfRoom(c.pending, joined) + DeltasIn(before, joined)
  }

  lemma AppliedIsReceived(c: Client, e: Event)
    requires e.Applied()
    ensures Receive(c, e) == ReceiveSnapshot(c, e.snapshot)
  {
  }

  /** End to end, for every run after a join: any deltas of any room, any number of snapshots, applied or
      ignored as stale, and timers of any generation in any order. After the last snapshot taken up,
      the client has exactly the server's ids iff that snapshot agrees with the start of the deltas
      still replayed over it on whoever those deltas do not touch. */
  lemma ClientConverges(c: Client, joined: string, initial: set<MemberId>, history: seq<Delta>, from: nat, taken: nat,
                        before: seq<Event>, last: Event, after: seq<Event>)
    requires last.Applied() && last.snapshot.roomCode == joined && NoneApplied(after) && OfOneRoom(c, before, joined)
    requires forall d <- history :: d.roomCode == joined
    requires from <= |history| && taken <= |history| && Ids(last.snapshot) == ServerIds(initial, history[..taken])
    requires QueuedAt(c, joined, before) + DeltasIn(after, joined) == history[from..]
    ensures var done := ReceiveAll(Receive(ReceiveAll(ReceiveJoined(c, joined), before), last), after);
            && done.roomState.Some?
            && (Ids(done.roomState.value) == ServerIds(initial, history) <==> AgreesOnUntouched(initial, history, from, taken))
            && (UniqueIds(last.snapshot.members) ==> UniqueIds(done.roomState.value.members))
  {
    hide Ids, UniqueIds, Replay, ApplyMemberDelta, ServerIds, AgreesOnUntouched, Receive, ReceiveAll, NoneApplied, WaitOver, DeltasIn, OfRoom;
    var start := ReceiveJoined(c, joined);
    var snapshot, late := last.snapshot, DeltasIn(after, joined);
    var waited := ReceiveAll(start, before);
    OfRoomIsOfRoom(c.pending, joined);
    AllOfRoom(start.pending, joined);
    WaitQueues(start, before, joined);
    var queue := QueuedAt(c, joined, before);
    assert waited.pending == queue;
    var settled := Receive(waited, last);
    assert settled == ReceiveSnapshot(waited, snapshot) by { AppliedIsReceived(waited, last); }
    ReplayKeepsRoom(snapshot, queue);
    SettledApplies(settled, after);
    ReplaySplit(snapshot, queue, late);
    forall i | 0 <= i < |queue + late| ensures (queue + late)[i].roomCode == joined {
      assert history[from..][i] == history[from + i] && history[from + i] in history;
    }
    AllOfRoom(queue + late, joined);
    ReplayConvergesIff(initial, history, from, taken, snapshot, queue + late);
  }

  lemma ReceiveOneMore(c: Client, events: seq<Event>, e: Event)
    ensures ReceiveAll(c, events + [e]) == Receive(ReceiveAll(c, events), e)
  {
    hide Receive;
    assert (events + [e])[..|events|] == events;
  }

  // The server's one delta.
  function JoinsLate(roomCode: string, m: Member): Delta {
    Delta(Joined, roomCode, m)
  }

  lemma Three(c: Client, a: Event, b: Event, d: Event)
    ensures ReceiveAll(c, [a, b, d]) == Receive(Receive(Receive(c, a), b), d)
  {
    hide Receive;
    assert ReceiveAll(c, []) == c;
    ReceiveOneMore(c, [], a);
    ReceiveOneMore(c, [a], b);
    ReceiveOneMore(c, [a, b], d);
    assert [] + [a] == [a] && [a] + [b] == [a, b] && [a, b] + [d] == [a, b, d];
  }

  /** Witness that the queue must reach back to the snapshot: an older snapshot taken up after a delta,
      or a wait that runs out with nothing to apply its queue to, leaves a client that was told
      everything without the member who joined. */
  lemma MissedDeltaDiverges(c: Client, roomCode: string, m: Member)
    requires c.pending == [] && c.roomState.None? && roomCode != ""
    ensures var empty, told := Shown(RoomState(roomCode, []), None, None), Told(JoinsLate(roomCode, m));
            var joined := ReceiveJoined(c, roomCode);
            && m.id in ServerIds({}, [JoinsLate(roomCode, m)])
            && ReceiveAll(joined, [empty, told, empty]).roomState == Some(RoomState(roomCode, []))
            && ReceiveAll(joined, [told, Expired(joined.generation), empty]).roomState == Some(RoomState(roomCode, []))
  {
    var empty, told := Shown(RoomState(roomCode, []), None, None), Told(JoinsLate(roomCode, m));
    var joined := ReceiveJoined(c, roomCode);
    assert [JoinsLate(roomCode, m)][..0] == [];
    Three(joined, empty, told, empty);
    Three(joined, told, Expired(joined.generation), empty);
    assert OfRoom([JoinsLate(roomCode, m)], roomCode) == [JoinsLate(roomCode, m)];
    assert OfOtherRooms([JoinsLate(roomCode, m)], roomCode) == [];
  }

  /** A timer armed before the latest join or snapshot finds its generation gone and does nothing. */
  lemma OldTimersDoNothing(c: Client, armed: nat, snapshot: RoomState, roomCode: string)
    requires armed <= c.generation
    ensures ExpireWait(ReceiveSnapshot(c, snapshot), armed) == ReceiveSnapshot(c, snapshot)
    ensures ExpireWait(ReceiveJoined(c, roomCode), armed) == ReceiveJoined(c, roomCode)
  {
  }

  class RoomSessionController {
    var pendingMemberDeltas: seq<Delta>
    var roomState: Option<RoomState>
    var roomCode: Option<string>
    var pendingJoinRequestSent: bool
    var pendingJoinRoomCode: Option<string>
    var waitingForBootstrap: bool
    var bootstrapGeneration: nat

    ghost function View(): Client
      reads this
    {
      Client(pendingMemberDeltas, roomState, roomCode, pendingJoinRequestSent, pendingJoinRoomCode,
             waitingForBootstrap, bootstrapGeneration)
    }

    constructor ()
      ensures View() == Client([], None, None, false, None, false, 0)
    {
      pendingMemberDeltas, roomState, roomCode := [], None, None;
      pendingJoinRequestSent, pendingJoinRoomCode := false, None;
      waitingForBootstrap, bootstrapGeneration := false, 0;
    }

    // One pass: same-room deltas are replayed in order, the others stay queued in order.
    method ConsumePendingMemberDeltas(nextState: RoomState) returns (resolved: RoomState)
      modifies this`pendingMemberDeltas
      ensures resolved == Replay(nextState, old(pendingMemberDeltas))
      ensures pendingMemberDeltas == OfOtherRooms(old(pendingMemberDeltas), nextState.roomCode)
    {
      hide ApplyMemberDelta;
      resolved := nextState;
      var remaining: seq<Delta> := [];
      var queue := pendingMemberDeltas;
      for i := 0 to |queue|
        invariant resolved == Replay(nextState, queue[..i])
        invariant remaining == OfOtherRooms(queue[..i], nextState.roomCode)
      {
        var delta := queue[i];
        assert queue[..i + 1][..i] == queue[..i];
        ReplayKeepsRoom(nextState, queue[..i]);
        if delta.roomCode == nextState.roomCode {
          resolved := ApplyMemberDelta(resolved, delta);
        } else {
          OtherRoomUnmoved(resolved, delta);
          remaining := remaining + [delta];
        }
      }
      assert queue[..|queue|] == queue;
      pendingMemberDeltas := remaining;
    }

    method HandleMemberDelta(delta: Delta)
      modifies this
      ensures View() == ReceiveDelta(old(View()), delta)
    {
      var awaiting := waitingForBootstrap && roomCode == Some(delta.roomCode);
      if !awaiting && pendingJoinRequestSent {
        awaiting := roomCode == Some(delta.roomCode) || pendingJoinRoomCode == Some(delta.roomCode);
      }
      if awaiting {
        pendingMemberDeltas := pendingMemberDeltas + [delta];
        return;
      }
      if roomState.None? || roomState.value.roomCode != delta.roomCode {
        return;
      }
      roomState := Some(ApplyMemberDelta(roomState.value, delta));
      roomCode := Some(roomState.value.roomCode);
    }

    method HandleRoomState(nextState: RoomState, pendingShareLink: Option<string>, sharedLink: Option<string>)
      modifies this
      ensures View() == ReceiveRoomState(old(View()), nextState, pendingShareLink, sharedLink)
    {
      if pendingShareLink.Some? && pendingShareLink.value != "" && sharedLink != pendingShareLink {
        return;
      }
      var resolved := ConsumePendingMemberDeltas(nextState);
      ReplayKeepsRoom(nextState, old(pendingMemberDeltas));
      waitingForBootstrap := false;
      bootstrapGeneration := bootstrapGeneration + 1;
      roomState := Some(resolved);
      roomCode := Some(resolved.roomCode);
    }

    method HandleRoomJoined(joined: string)
      modifies this
      ensures View() == ReceiveJoined(old(View()), joined)
    {
      pendingMemberDeltas := OfRoom(pendingMemberDeltas, joined);
      bootstrapGeneration := bootstrapGeneration + 1;
      waitingForBootstrap := true;
      bootstrapGeneration := bootstrapGeneration + 1;
      roomCode := Some(joined);
      pendingJoinRequestSent := false;
      pendingJoinRoomCode := None;
    }

    method ExpireBootstrapWait(generation: nat)
      modifies this
      ensures View() == ExpireWait(old(View()), generation)
    {
      if !waitingForBootstrap || generation != bootstrapGeneration {
        return;
      }
      waitingForBootstrap := false;
      if roomCode.None? || roomCode.value == "" {
        pendingMemberDeltas := [];
        return;
      }
      if OfRoom(pendingMemberDeltas, roomCode.value) == [] {
        return;
      }
      if roomState.None? || roomState.value.roomCode != roomCode.value {
        pendingMemberDeltas := OfOtherRooms(pendingMemberDeltas, roomCode.value);
        return;
      }
      var resolved := ConsumePendingMemberDeltas(roomState.value);
      roomState := Some(resolved);
    }
  }
}
