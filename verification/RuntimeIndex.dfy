/** The session, room and address indexes of one process's runtime store. */
module RuntimeIndex {
  import opened PlaybackModel

  datatype Index = Index(
    addresses: map<string, Option<string>>,
    byAddress: map<string, set<string>>,
    rooms: map<string, set<string>>)

  predicate HasAddress(address: Option<string>) {
    address.Some? && address.value != ""
  }

  function AddTo(sets: map<string, set<string>>, key: string, id: string): map<string, set<string>> {
    sets[key := (if key in sets then sets[key] else {}) + {id}]
  }

  function RemoveFrom(sets: map<string, set<string>>, key: string, id: string): map<string, set<string>> {
    if key !in sets then sets
    else if sets[key] - {id} == {} then sets - {key}
    else sets[key := sets[key] - {id}]
  }

  /** The id is gone from every room, and rooms left empty are gone too. */
  function DetachEverywhere(rooms: map<string, set<string>>, id: string): map<string, set<string>> {
    map r | r in rooms && rooms[r] - {id} != {} :: rooms[r] - {id}
  }

  datatype Event =
    | Register(id: string, address: Option<string>)
    | Unregister(id: string)
    | JoinRoom(id: string, roomCode: string)
    | LeaveRoom(id: string, roomCode: string)
    | DeleteRoom(roomCode: string)

  function Step(ix: Index, e: Event): Index {
    match e
    case Register(id, address) =>
      ix.(addresses := ix.addresses[id := address],
          byAddress := if HasAddress(address) then AddTo(ix.byAddress, address.value, id) else ix.byAddress)
    case Unregister(id) =>
      var detached := ix.(rooms := DetachEverywhere(ix.rooms, id));
      if id !in ix.addresses then detached
      else detached.(addresses := ix.addresses - {id},
                     byAddress := if HasAddress(ix.addresses[id]) then RemoveFrom(ix.byAddress, ix.addresses[id].value, id)
                                  else ix.byAddress)
    case JoinRoom(id, roomCode) =>
      if id !in ix.addresses then ix else ix.(rooms := AddTo(DetachEverywhere(ix.rooms, id), roomCode, id))
    case LeaveRoom(id, roomCode) => ix.(rooms := RemoveFrom(ix.rooms, roomCode, id))
    case DeleteRoom(roomCode) => ix.(rooms := ix.rooms - {roomCode})
  }

  const EMPTY_INDEX := Index(map[], map[], map[])

  function Run(events: seq<Event>): Index
    decreases |events|
  {
    if events == [] then EMPTY_INDEX else Step(Run(events[..|events| - 1]), events[|events| - 1])
  }

  ghost predicate RoomsInv(ix: Index) {
    && (forall r :: r in ix.rooms ==> ix.rooms[r] != {} && ix.rooms[r] <= ix.addresses.Keys)
    && (forall r, q :: r in ix.rooms && q in ix.rooms && r != q ==> ix.rooms[r] !! ix.rooms[q])
  }

  predicate AddressInverse(ix: Index) {
    && (forall a :: a in ix.byAddress ==> ix.byAddress[a] != {})
    && (forall a :: a in ix.byAddress ==> forall id :: id in ix.byAddress[a] ==>
          id in ix.addresses && ix.addresses[id] == Some(a) && a != "")
    && (forall id :: id in ix.addresses && HasAddress(ix.addresses[id]) ==>
          ix.addresses[id].value in ix.byAddress && id in ix.byAddress[ix.addresses[id].value])
  }

  // A session object keeps its address, so an id still registered can only be registered again with it.
  predicate SameSession(ix: Index, e: Event) {
    e.Register? && e.id in ix.addresses ==> ix.addresses[e.id] == e.address
  }

  lemma StepKeepsRooms(ix: Index, e: Event)
    requires RoomsInv(ix)
    ensures RoomsInv(Step(ix, e))
  {
  }

  lemma UnregisterKeepsInverse(ix: Index, id: string)
    requires AddressInverse(ix)
    ensures AddressInverse(Step(ix, Unregister(id)))
  {
    hide DetachEverywhere;
  }

  lemma RegisterKeepsInverse(ix: Index, id: string, address: Option<string>)
    requires AddressInverse(ix)
    requires id in ix.addresses && HasAddress(ix.addresses[id]) ==> ix.addresses[id] == address
    ensures AddressInverse(Step(ix, Register(id, address)))
  {
  }

  lemma StepKeepsInverse(ix: Index, e: Event)
    requires AddressInverse(ix) && SameSession(ix, e)
    ensures AddressInverse(Step(ix, e))
  {
    hide DetachEverywhere, RemoveFrom;
    match e
    case Register(id, address) => RegisterKeepsInverse(ix, id, address);
    case Unregister(id) => UnregisterKeepsInverse(ix, id);
    case _ => assert Step(ix, e).addresses == ix.addresses && Step(ix, e).byAddress == ix.byAddress;
  }

  /** Registering keeps the address index an exact inverse iff it does not move a known session that
      had an address to another one. */
  lemma RegisterKeepsInverseIff(ix: Index, id: string, address: Option<string>)
    requires AddressInverse(ix)
    ensures AddressInverse(Step(ix, Register(id, address))) <==>
            (id in ix.addresses && HasAddress(ix.addresses[id]) ==> ix.addresses[id] == address)
  {
    if id in ix.addresses && HasAddress(ix.addresses[id]) && ix.addresses[id] != address {
      assert id in Step(ix, Register(id, address)).byAddress[ix.addresses[id].value];
    } else {
      hide Step, AddressInverse;
      RegisterKeepsInverse(ix, id, address);
    }
  }

  lemma EmptyCoheres()
    ensures RoomsInv(EMPTY_INDEX) && AddressInverse(EMPTY_INDEX)
  {
  }

  /** Every run keeps rooms non-empty, disjoint and registered, and the address index exact. */
  lemma {:induction false} IndexesCohere(events: seq<Event>)
    requires forall k :: 0 <= k < |events| ==> SameSession(Run(events[..k]), events[k])
    ensures RoomsInv(Run(events)) && AddressInverse(Run(events))
    decreases |events|
  {
    hide Step, RoomsInv, AddressInverse;
    if events == [] {
      EmptyCoheres();
    } else {
      var last := |events| - 1;
      var front := events[..last];
      forall k | 0 <= k < last ensures SameSession(Run(front[..k]), front[k]) {
        assert front[..k] == events[..k];
      }
      IndexesCohere(front);
      StepKeepsRooms(Run(front), events[last]);
      StepKeepsInverse(Run(front), events[last]);
    }
  }

  /** Sessions in some room. */
  function InSomeRoom(rooms: map<string, set<string>>): set<string> {
    set r, id | r in rooms && id in rooms[r] :: id
  }

  lemma MembersAreConnections(ix: Index)
    requires RoomsInv(ix)
    ensures |InSomeRoom(ix.rooms)| <= |ix.addresses|
  {
    SubsetSize(InSomeRoom(ix.rooms), ix.addresses.Keys);
  }

  /** A session is in at most one room, and a join puts it in exactly the room it names. */
  lemma JoinMovesSession(ix: Index, id: string, roomCode: string)
    requires RoomsInv(ix) && id in ix.addresses
    ensures var after := Step(ix, JoinRoom(id, roomCode));
            && roomCode in after.rooms && id in after.rooms[roomCode]
            && (forall r :: r in after.rooms && id in after.rooms[r] ==> r == roomCode)
            && (forall other :: other != id ==> (other in InSomeRoom(after.rooms) <==> other in InSomeRoom(ix.rooms)))
  {
    var after := Step(ix, JoinRoom(id, roomCode));
    forall other | other != id ensures other in InSomeRoom(after.rooms) <==> other in InSomeRoom(ix.rooms) {
      if other in InSomeRoom(ix.rooms) {
        var r :| r in ix.rooms && other in ix.rooms[r];
        assert other in ix.rooms[r] - {id};
        assert r in after.rooms && other in after.rooms[r];
      }
    }
  }

  // ---- Who is where, by the history ----

  predicate InRoom(ix: Index, id: string, roomCode: string) {
    roomCode in ix.rooms && id in ix.rooms[roomCode]
  }

  // What takes a session out of a room: leaving it, going to another, disconnecting, or its deletion.
  predicate TakesOut(ix: Index, e: Event, id: string, roomCode: string) {
    match e
    case LeaveRoom(leaver, from) => leaver == id && from == roomCode
    case JoinRoom(joiner, _) => joiner == id && id in ix.addresses
    case Unregister(gone) => gone == id
    case DeleteRoom(deleted) => deleted == roomCode
    case Register(_, _) => false
  }

  predicate PutsIn(ix: Index, e: Event, id: string, roomCode: string) {
    e == JoinRoom(id, roomCode) && id in ix.addresses
  }

  /** One event moves exactly whom it names: in by a join of a registered session, out by what takes out. */
  lemma InRoomStep(ix: Index, e: Event, id: string, roomCode: string)
    ensures InRoom(Step(ix, e), id, roomCode) <==>
            PutsIn(ix, e, id, roomCode) || (InRoom(ix, id, roomCode) && !TakesOut(ix, e, id, roomCode))
  {
    match e
    case LeaveRoom(leaver, from) =>
      assert roomCode in ix.rooms && id in ix.rooms[roomCode] && leaver != id ==> id in ix.rooms[roomCode] - {leaver};
    case JoinRoom(joiner, _) =>
      assert roomCode in ix.rooms && id in ix.rooms[roomCode] && joiner != id ==> id in ix.rooms[roomCode] - {joiner};
    case Unregister(gone) =>
      assert roomCode in ix.rooms && id in ix.rooms[roomCode] && gone != id ==> id in ix.rooms[roomCode] - {gone};
    case _ =>
  }

  ghost predicate JoinedAt(events: seq<Event>, i: nat, id: string, roomCode: string)
    requires i < |events|
  {
    && PutsIn(Run(events[..i]), events[i], id, roomCode)
    && forall j :: i < j < |events| ==> !TakesOut(Run(events[..j]), events[j], id, roomCode)
  }

  lemma NobodyInside(id: string, roomCode: string)
    ensures !InRoom(Run([]), id, roomCode)
  {
  }

  lemma JoinedAtPrefix(events: seq<Event>, i: nat, id: string, roomCode: string)
    requires i < |events| - 1
    ensures var last := |events| - 1;
            JoinedAt(events, i, id, roomCode) <==>
            JoinedAt(events[..last], i, id, roomCode) && !TakesOut(Run(events[..last]), events[last], id, roomCode)
  {
    hide Run, PutsIn, TakesOut;
    var last := |events| - 1;
    var front := events[..last];
    assert forall j :: 0 <= j < last ==> front[..j] == events[..j] && front[j] == events[j];
    if JoinedAt(events, i, id, roomCode) {
      assert !TakesOut(Run(events[..last]), events[last], id, roomCode);
      forall j | i < j < last ensures !TakesOut(Run(front[..j]), front[j], id, roomCode) {
        assert !TakesOut(Run(events[..j]), events[j], id, roomCode);
      }
    }
    if JoinedAt(front, i, id, roomCode) {
      forall j | i < j < last ensures !TakesOut(Run(events[..j]), events[j], id, roomCode) {
        assert !TakesOut(Run(front[..j]), front[j], id, roomCode);
      }
    }
  }

  lemma JoinedLast(events: seq<Event>, id: string, roomCode: string)
    requires events != []
    ensures var last := |events| - 1;
            JoinedAt(events, last, id, roomCode) <==> PutsIn(Run(events[..last]), events[last], id, roomCode)
  {
  }

  /** After any run a session is in a room iff it joined it while registered and has since neither left it,
      gone to another, disconnected, nor seen it deleted. */
  lemma {:induction false} InRoomIff(events: seq<Event>, id: string, roomCode: string)
    ensures InRoom(Run(events), id, roomCode) <==>
            exists i: nat :: i < |events| && JoinedAt(events, i, id, roomCode)
    decreases |events|
  {
    if events == [] {
      NobodyInside(id, roomCode);
    } else {
      hide Step, InRoom, PutsIn, TakesOut, JoinedAt;
      var last := |events| - 1;
      var front, e := events[..last], events[last];
      InRoomIff(front, id, roomCode);
      InRoomStep(Run(front), e, id, roomCode);
      forall i: nat | i < last
        ensures JoinedAt(events, i, id, roomCode) <==>
                JoinedAt(front, i, id, roomCode) && !TakesOut(Run(front), e, id, roomCode)
      {
        JoinedAtPrefix(events, i, id, roomCode);
      }
      JoinedLast(events, id, roomCode);
    }
  }

  // The last registration or disconnection of a session.
  function LastWord(events: seq<Event>, id: string): (e: Option<Event>)
    ensures e.Some? ==> e.value.Register? || e.value.Unregister?
    decreases |events|
  {
    if events == [] then None
    else
      var e := events[|events| - 1];
      if (e.Register? && e.id == id) || e == Unregister(id) then Some(e) else LastWord(events[..|events| - 1], id)
  }

  /** After any run a session is registered, with an address, iff the last thing said of it is that. */
  lemma {:induction false} RegisteredIff(events: seq<Event>, id: string)
    ensures var ix := Run(events);
            match LastWord(events, id)
            case None => id !in ix.addresses
            case Some(Register(_, address)) => id in ix.addresses && ix.addresses[id] == address
            case Some(_) => id !in ix.addresses
    decreases |events|
  {
    if events == [] {
    } else {
      RegisteredIff(events[..|events| - 1], id);
    }
  }

  method KeysOf(sets: map<string, set<string>>) returns (keys: seq<string>)
    ensures forall k :: k in keys <==> k in sets
  {
    keys := [];
    var rest := sets.Keys;
    while rest != {}
      invariant rest <= sets.Keys
      invariant forall k :: k in keys <==> k in sets && k !in rest
      decreases rest
    {
      var k :| k in rest;
      keys := keys + [k];
      rest := rest - {k};
    }
  }

  class Session {
    const id: string
    const remoteAddress: Option<string>
    var roomCode: Option<string>

    constructor (id: string, remoteAddress: Option<string>)
      ensures this.id == id && this.remoteAddress == remoteAddress && this.roomCode == None
    {
      this.id := id;
      this.remoteAddress := remoteAddress;
      this.roomCode := None;
    }
  }

  class RuntimeStore {
    var sessionsById: map<string, Session>
    var sessionIdsByRemoteAddress: map<string, set<string>>
    var roomSessionIds: map<string, set<string>>

    ghost function View(): Index
      reads this
    {
      Index(map id | id in sessionsById :: sessionsById[id].remoteAddress, sessionIdsByRemoteAddress, roomSessionIds)
    }

    constructor ()
      ensures View() == EMPTY_INDEX
    {
      sessionsById, sessionIdsByRemoteAddress, roomSessionIds := map[], map[], map[];
    }

    // Visits the preferred room first, then every room once.
    method DetachFromRooms(sessionId: string, preferredRoomCode: Option<string>)
      modifies this`roomSessionIds
      ensures roomSessionIds == DetachEverywhere(old(roomSessionIds), sessionId)
    {
      var keys := KeysOf(roomSessionIds);
      var candidates := if HasAddress(preferredRoomCode) then [preferredRoomCode.value] + keys else keys;
      var visited: set<string> := {};
      ghost var rooms := roomSessionIds;
      for i := 0 to |candidates|
        invariant forall r :: r in visited <==> r in candidates[..i]
        invariant forall r :: r in roomSessionIds <==> r in rooms && (r in visited ==> rooms[r] - {sessionId} != {})
        invariant forall r :: r in roomSessionIds ==>
                    roomSessionIds[r] == if r in visited then rooms[r] - {sessionId} else rooms[r]
      {
        var roomCode := candidates[i];
        if roomCode in visited {
          continue;
        }
        visited := visited + {roomCode};
        if roomCode in roomSessionIds {
          var ids := roomSessionIds[roomCode] - {sessionId};
          roomSessionIds := if ids == {} then roomSessionIds - {roomCode} else roomSessionIds[roomCode := ids];
        }
      }
      assert candidates[..|candidates|] == candidates;
      assert forall r :: r in rooms ==> r in visited;
    }

    method RegisterSession(session: Session)
      modifies this
      ensures View() == Step(old(View()), Register(session.id, session.remoteAddress))
      ensures sessionsById == old(sessionsById)[session.id := session]
    {
      sessionsById := sessionsById[session.id := session];
      if session.remoteAddress.Some? && session.remoteAddress.value != "" {
        var address := session.remoteAddress.value;
        var ids := if address in sessionIdsByRemoteAddress then sessionIdsByRemoteAddress[address] else {};
        sessionIdsByRemoteAddress := sessionIdsByRemoteAddress[address := ids + {session.id}];
      }
    }

    method UnregisterSession(sessionId: string)
      modifies this
      ensures View() == Step(old(View()), Unregister(sessionId))
      ensures sessionsById == old(sessionsById) - {sessionId}
    {
      if sessionId !in sessionsById {
        DetachFromRooms(sessionId, None);
        return;
      }
      var session := sessionsById[sessionId];
      DetachFromRooms(sessionId, session.roomCode);
      if session.remoteAddress.Some? && session.remoteAddress.value != "" {
        var address := session.remoteAddress.value;
        if address in sessionIdsByRemoteAddress {
          var ids := sessionIdsByRemoteAddress[address] - {sessionId};
          sessionIdsByRemoteAddress := sessionIdsByRemoteAddress[address := ids];
          if ids == {} {
            sessionIdsByRemoteAddress := sessionIdsByRemoteAddress - {address};
          }
        }
      }
      sessionsById := sessionsById - {sessionId};
    }

    method MarkSessionJoinedRoom(sessionId: string, roomCode: string)
      modifies this, if sessionId in sessionsById then {sessionsById[sessionId]} else {}
      ensures View() == Step(old(View()), JoinRoom(sessionId, roomCode))
      ensures sessionsById == old(sessionsById)
      ensures sessionId in sessionsById ==> sessionsById[sessionId].roomCode == Some(roomCode)
    {
      if sessionId !in sessionsById {
        return;
      }
      var session := sessionsById[sessionId];
      DetachFromRooms(sessionId, session.roomCode);
      var ids := if roomCode in roomSessionIds then roomSessionIds[roomCode] else {};
      roomSessionIds := roomSessionIds[roomCode := ids + {sessionId}];
      session.roomCode := Some(roomCode);
    }

    // The room named by the caller, else the one the session remembers; with neither, nothing happens.
    method MarkSessionLeftRoom(sessionId: string, roomCode: Option<string>)
      modifies this, if sessionId in sessionsById then {sessionsById[sessionId]} else {}
      ensures var remembered := old(if sessionId in sessionsById then sessionsById[sessionId].roomCode else None);
              var target := if roomCode.Some? then roomCode else remembered;
              if !HasAddress(target) then View() == old(View())
              else
                && View() == Step(old(View()), LeaveRoom(sessionId, target.value))
                && (sessionId in sessionsById ==>
                      sessionsById[sessionId].roomCode == if remembered == target then None else remembered)
      ensures sessionsById == old(sessionsById)
    {
      var remembered: Option<string> := None;
      if sessionId in sessionsById {
        remembered := sessionsById[sessionId].roomCode;
      }
      var target := if roomCode.Some? then roomCode else remembered;
      if target.None? || target.value == "" {
        return;
      }
      if target.value in roomSessionIds {
        var ids := roomSessionIds[target.value] - {sessionId};
        roomSessionIds := roomSessionIds[target.value := ids];
        if ids == {} {
          roomSessionIds := roomSessionIds - {target.value};
        }
      }
      if sessionId in sessionsById && sessionsById[sessionId].roomCode == target {
        sessionsById[sessionId].roomCode := None;
      }
    }

    method DeleteRoomIndex(roomCode: string)
      modifies this
      ensures View() == Step(old(View()), DeleteRoom(roomCode))
    {
      roomSessionIds := roomSessionIds - {roomCode};
    }

    method GetActiveMemberCount() returns (count: nat)
      requires RoomsInv(View())
      ensures count == |InSomeRoom(roomSessionIds)|
      ensures count <= |sessionsById|
    {
      count := 0;
      var rest := roomSessionIds.Keys;
      ghost var seen: set<string> := {};
      while rest != {}
        invariant rest <= roomSessionIds.Keys
        invariant seen == set r, id | r in roomSessionIds && r !in rest && id in roomSessionIds[r] :: id
        invariant count == |seen|
        decreases rest
      {
        var r :| r in rest;
        assert seen !! roomSessionIds[r];
        seen := seen + roomSessionIds[r];
        count := count + |roomSessionIds[r]|;
        rest := rest - {r};
      }
      assert seen == InSomeRoom(roomSessionIds);
      MembersAreConnections(View());
      assert View().addresses.Keys == sessionsById.Keys;
    }
  }
}
