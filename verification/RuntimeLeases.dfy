/** Message slots, room locks and kick blocks: tables that forget expired
    entries only when they happen to look. Their answers are compared with a history that never forgets. */
module RuntimeLeases {

  datatype Kind = Slot | Lock | Block

  datatype Event =
    | Granted(kind: Kind, room: string, key: string, token: string, expiresAt: int, at: int)
    | Refused(kind: Kind, room: string, at: int)
    | Returned(kind: Kind, room: string, key: string, token: string)
    | Dropped(room: string)

  predicate Ends(e: Event, kind: Kind, room: string, key: string, token: string) {
    e == Returned(kind, room, key, token) || e == Dropped(room)
  }

  ghost predicate LiveSince(h: seq<Event>, kind: Kind, room: string, key: string, token: string, now: int, i: nat)
    requires i < |h|
  {
    && h[i].Granted? && h[i].kind == kind && h[i].room == room && h[i].key == key && h[i].token == token
    && now < h[i].expiresAt
    && forall j :: i < j < |h| ==> !Ends(h[j], kind, room, key, token)
  }

  /** Granted, not expired at `now`, and neither returned nor dropped with its room since. */
  ghost predicate Live(h: seq<Event>, kind: Kind, room: string, key: string, token: string, now: int) {
    exists i: nat :: i < |h| && LiveSince(h, kind, room, key, token, now, i)
  }

  ghost predicate Taken(h: seq<Event>, kind: Kind, room: string, key: string, now: int) {
    exists token :: Live(h, kind, room, key, token, now)
  }

  lemma LiveStep(h: seq<Event>, e: Event, kind: Kind, room: string, key: string, token: string, now: int)
    ensures Live(h + [e], kind, room, key, token, now) <==>
            || (e.Granted? && e.kind == kind && e.room == room && e.key == key && e.token == token && now < e.expiresAt)
            || (Live(h, kind, room, key, token, now) && !Ends(e, kind, room, key, token))
  {
    var longer := h + [e];
    if e.Granted? && e.kind == kind && e.room == room && e.key == key && e.token == token && now < e.expiresAt {
      assert LiveSince(longer, kind, room, key, token, now, |h|);
    } else if Live(h, kind, room, key, token, now) && !Ends(e, kind, room, key, token) {
      var i: nat :| i < |h| && LiveSince(h, kind, room, key, token, now, i);
      assert LiveSince(longer, kind, room, key, token, now, i);
    } else if Live(longer, kind, room, key, token, now) {
      var i: nat :| i < |longer| && LiveSince(longer, kind, room, key, token, now, i);
      assert longer[|h|] == e;
      assert LiveSince(h, kind, room, key, token, now, i) by {
        assert forall j :: i < j < |h| ==> h[j] == longer[j];
      }
    }
  }

  /** Every slot or lock was granted only when nobody's grant of it was live. */
  ghost predicate Exclusive(h: seq<Event>) {
    forall j :: 0 <= j < |h| && h[j].Granted? && !h[j].kind.Block? ==>
      !Taken(h[..j], h[j].kind, h[j].room, h[j].key, h[j].at)
  }

  /** Two grants of one slot or lock, with neither a return by the first holder nor a drop of the room
      between them, are separated by the first one's expiry. */
  lemma GrantsSeparatedByExpiry(h: seq<Event>, i: nat, j: nat)
    requires Exclusive(h) && i < j < |h|
    requires h[i].Granted? && h[j].Granted? && !h[j].kind.Block?
    requires h[i].kind == h[j].kind && h[i].room == h[j].room && h[i].key == h[j].key
    requires forall k :: i < k < j ==> !Ends(h[k], h[i].kind, h[i].room, h[i].key, h[i].token)
    ensures h[i].expiresAt <= h[j].at
  {
    if h[j].at < h[i].expiresAt {
      assert LiveSince(h[..j], h[i].kind, h[i].room, h[i].key, h[i].token, h[j].at, i);
      assert Live(h[..j], h[i].kind, h[i].room, h[i].key, h[i].token, h[j].at);
    }
  }

  // ---- Expired locks nobody has swept yet ----

  // Every acquire in a room, granted or refused, sweeps the room's expired locks.
  predicate Sweeps(e: Event, room: string, expiresAt: int) {
    (e.Granted? || e.Refused?) && e.kind == Lock && e.room == room && expiresAt <= e.at
  }

  predicate Grants(e: Event, room: string, key: string, token: string, expiresAt: int) {
    e.Granted? && e.kind == Lock && e.room == room && e.key == key && e.token == token && e.expiresAt == expiresAt
  }

  ghost predicate KeptSince(h: seq<Event>, room: string, key: string, token: string, expiresAt: int, i: nat)
    requires i < |h|
  {
    && Grants(h[i], room, key, token, expiresAt)
    && forall j :: i < j < |h| ==> !Ends(h[j], Lock, room, key, token) && !Sweeps(h[j], room, expiresAt)
  }

  /** Granted, neither returned nor dropped since, and since its expiry nobody tried to lock in the room. */
  ghost predicate Kept(h: seq<Event>, room: string, key: string, token: string, expiresAt: int) {
    exists i: nat :: i < |h| && KeptSince(h, room, key, token, expiresAt, i)
  }

  lemma KeptStep(h: seq<Event>, e: Event, room: string, key: string, token: string, expiresAt: int)
    ensures Kept(h + [e], room, key, token, expiresAt) <==>
            || Grants(e, room, key, token, expiresAt)
            || (Kept(h, room, key, token, expiresAt) && !Ends(e, Lock, room, key, token) && !Sweeps(e, room, expiresAt))
  {
    var longer := h + [e];
    if Grants(e, room, key, token, expiresAt) {
      assert KeptSince(longer, room, key, token, expiresAt, |h|);
    } else if Kept(h, room, key, token, expiresAt) && !Ends(e, Lock, room, key, token) && !Sweeps(e, room, expiresAt) {
      var i: nat :| i < |h| && KeptSince(h, room, key, token, expiresAt, i);
      assert KeptSince(longer, room, key, token, expiresAt, i);
    } else if Kept(longer, room, key, token, expiresAt) {
      var i: nat :| i < |longer| && KeptSince(longer, room, key, token, expiresAt, i);
      assert longer[|h|] == e;
      assert KeptSince(h, room, key, token, expiresAt, i) by {
        assert forall j :: i < j < |h| ==> h[j] == longer[j];
      }
    }
  }

  datatype OwnedLock = OwnedLock(token: string, expiresAt: int)

  predicate Stored(locks: map<string, map<string, OwnedLock>>, room: string, key: string, token: string, expiresAt: int) {
    room in locks && key in locks[room] && locks[room][key] == OwnedLock(token, expiresAt)
  }

  ghost predicate LocksExact(locks: map<string, map<string, OwnedLock>>, h: seq<Event>) {
    forall room, key, token, expiresAt ::
      Stored(locks, room, key, token, expiresAt) <==> Kept(h, room, key, token, expiresAt)
  }

  lemma LocksExactStep(locks: map<string, map<string, OwnedLock>>, h: seq<Event>, e: Event, locks': map<string, map<string, OwnedLock>>)
    requires LocksExact(locks, h)
    requires forall room, key, token, expiresAt ::
               Stored(locks', room, key, token, expiresAt) <==>
               || Grants(e, room, key, token, expiresAt)
               || (Stored(locks, room, key, token, expiresAt) && !Ends(e, Lock, room, key, token) && !Sweeps(e, room, expiresAt))
    ensures LocksExact(locks', h + [e])
  {
    forall room, key, token, expiresAt
      ensures Stored(locks', room, key, token, expiresAt) <==> Kept(h + [e], room, key, token, expiresAt)
    {
      KeptStep(h, e, room, key, token, expiresAt);
    }
  }

  lemma OtherKindsKeepLocks(locks: map<string, map<string, OwnedLock>>, h: seq<Event>, e: Event)
    requires LocksExact(locks, h) && !e.Dropped? && e.kind != Lock
    ensures LocksExact(locks, h + [e])
  {
    LocksExactStep(locks, h, e, locks);
  }

  predicate PrunedLocks(locks: map<string, map<string, OwnedLock>>, room: string, live: map<string, OwnedLock>, now: int) {
    var inner := if room in locks then locks[room] else map[];
    live == map k | k in inner && now < inner[k].expiresAt :: inner[k]
  }

  lemma SweptLocks(locks: map<string, map<string, OwnedLock>>, h: seq<Event>, room: string, live: map<string, OwnedLock>, now: int)
    requires LocksExact(locks, h) && PrunedLocks(locks, room, live, now)
    ensures LocksExact(locks[room := live], h + [Refused(Lock, room, now)])
  {
    LocksExactStep(locks, h, Refused(Lock, room, now), locks[room := live]);
  }

  lemma GrantedLocks(locks: map<string, map<string, OwnedLock>>, h: seq<Event>, room: string, live: map<string, OwnedLock>, e: Event)
    requires e.Granted? && e.kind == Lock && e.room == room && e.key !in live
    requires LocksExact(locks, h) && PrunedLocks(locks, room, live, e.at)
    ensures LocksExact(locks[room := live[e.key := OwnedLock(e.token, e.expiresAt)]], h + [e])
  {
    LocksExactStep(locks, h, e, locks[room := live[e.key := OwnedLock(e.token, e.expiresAt)]]);
  }

  lemma ReturnedLock(locks: map<string, map<string, OwnedLock>>, h: seq<Event>, room: string, key: string, token: string,
                     after: map<string, map<string, OwnedLock>>)
    requires LocksExact(locks, h)
    requires if room in locks && key in locks[room] && locks[room][key].token == token then
               after == if locks[room] - {key} == map[] then locks - {room} else locks[room := locks[room] - {key}]
             else after == locks
    ensures LocksExact(after, h + [Returned(Lock, room, key, token)])
  {
    if room in locks && key in locks[room] && locks[room][key].token == token {
      assert forall k :: k in locks[room] && k != key ==> k in locks[room] - {key};
    }
    LocksExactStep(locks, h, Returned(Lock, room, key, token), after);
  }

  // ---- The tables ----

  datatype BlockEntry = BlockEntry(memberToken: string, expiresAt: int)

  predicate SlotHeld(slots: map<string, map<string, int>>, room: string, key: string, now: int) {
    room in slots && key in slots[room] && now < slots[room][key]
  }

  predicate LockHeld(locks: map<string, map<string, OwnedLock>>, room: string, key: string, token: string, now: int) {
    room in locks && key in locks[room] && locks[room][key].token == token && now < locks[room][key].expiresAt
  }

  predicate BlockIn(entries: seq<BlockEntry>, token: string, now: int) {
    exists i :: 0 <= i < |entries| && entries[i].memberToken == token && now < entries[i].expiresAt
  }

  predicate BlockHeld(blocks: map<string, seq<BlockEntry>>, room: string, token: string, now: int) {
    room in blocks && BlockIn(blocks[room], token, now)
  }

  // From `clock` on, each table answers as the full history does.
  ghost predicate SlotsAgree(slots: map<string, map<string, int>>, h: seq<Event>, clock: int) {
    forall room, key, t :: clock <= t ==> (SlotHeld(slots, room, key, t) <==> Live(h, Slot, room, key, "", t))
  }

  ghost predicate LocksAgree(locks: map<string, map<string, OwnedLock>>, h: seq<Event>, clock: int) {
    && (forall room, key, token, t :: clock <= t ==>
          (LockHeld(locks, room, key, token, t) <==> Live(h, Lock, room, key, token, t)))
    && (forall room, key :: room in locks && key in locks[room] ==>
          Live(h, Lock, room, key, locks[room][key].token, locks[room][key].expiresAt - 1))
  }

  ghost predicate BlocksAgree(blocks: map<string, seq<BlockEntry>>, h: seq<Event>, clock: int) {
    forall room, token, t :: clock <= t ==> (BlockHeld(blocks, room, token, t) <==> Live(h, Block, room, token, "", t))
  }

  ghost predicate SlotTokens(h: seq<Event>) {
    forall i :: 0 <= i < |h| && h[i].Granted? && h[i].kind == Slot ==> h[i].token == ""
  }

  method PruneSlots(slots: map<string, int>, now: int) returns (live: map<string, int>)
    ensures live == map k | k in slots && now < slots[k] :: slots[k]
  {
    live := slots;
    var rest := slots.Keys;
    while rest != {}
      invariant rest <= slots.Keys
      invariant live == map k | k in slots && (k in rest || now < slots[k]) :: slots[k]
      decreases rest
    {
      var k :| k in rest;
      rest := rest - {k};
      if slots[k] <= now {
        live := live - {k};
      }
    }
  }

  method PruneLocks(locks: map<string, OwnedLock>, now: int) returns (live: map<string, OwnedLock>)
    ensures live == map k | k in locks && now < locks[k].expiresAt :: locks[k]
  {
    live := locks;
    var rest := locks.Keys;
    while rest != {}
      invariant rest <= locks.Keys
      invariant live == map k | k in locks && (k in rest || now < locks[k].expiresAt) :: locks[k]
      decreases rest
    {
      var k :| k in rest;
      rest := rest - {k};
      if locks[k].expiresAt <= now {
        live := live - {k};
      }
    }
  }

  lemma ConsBlock(head: BlockEntry, tail: seq<BlockEntry>, token: string, now: int)
    ensures BlockIn([head] + tail, token, now) <==> (head.memberToken == token && now < head.expiresAt) || BlockIn(tail, token, now)
  {
    var all := [head] + tail;
    if head.memberToken == token && now < head.expiresAt {
      assert all[0] == head;
    } else if BlockIn(tail, token, now) {
      var i :| 0 <= i < |tail| && tail[i].memberToken == token && now < tail[i].expiresAt;
      assert all[i + 1] == tail[i];
    }
  }

  lemma BlockInSplit(entries: seq<BlockEntry>, rest: seq<BlockEntry>, r: seq<BlockEntry>, now: int)
    requires entries != []
    requires r == if now < entries[0].expiresAt then [entries[0]] + rest else rest
    requires forall token, t :: now <= t ==> (BlockIn(rest, token, t) <==> BlockIn(entries[1..], token, t))
    ensures forall token, t :: now <= t ==> (BlockIn(r, token, t) <==> BlockIn(entries, token, t))
  {
    forall token, t | now <= t ensures BlockIn(r, token, t) <==> BlockIn(entries, token, t) {
      ConsBlock(entries[0], entries[1..], token, t);
      ConsBlock(entries[0], rest, token, t);
      assert entries == [entries[0]] + entries[1..];
    }
  }

  function ActiveBlocks(entries: seq<BlockEntry>, now: int): (r: seq<BlockEntry>)
    ensures forall token, t :: now <= t ==> (BlockIn(r, token, t) <==> BlockIn(entries, token, t))
    ensures forall i :: 0 <= i < |r| ==> now < r[i].expiresAt
    ensures |r| == |entries| ==> r == entries
    ensures |r| <= |entries|
  {
    if entries == [] then []
    else
      var rest := ActiveBlocks(entries[1..], now);
      var r := if now < entries[0].expiresAt then [entries[0]] + rest else rest;
      assert forall token, t :: now <= t ==> (BlockIn(r, token, t) <==> BlockIn(entries, token, t)) by {
        BlockInSplit(entries, rest, r, now);
      }
      r
  }

  lemma AppendBlock(entries: seq<BlockEntry>, last: BlockEntry, token: string, now: int)
    ensures BlockIn(entries + [last], token, now) <==>
            (last.memberToken == token && now < last.expiresAt) || BlockIn(entries, token, now)
  {
    var all := entries + [last];
    if last.memberToken == token && now < last.expiresAt {
      assert all[|entries|] == last;
    } else if BlockIn(entries, token, now) {
      var i :| 0 <= i < |entries| && entries[i].memberToken == token && now < entries[i].expiresAt;
      assert all[i] == entries[i];
    }
  }

  // ---- How one event moves the agreement ----

  lemma OtherKindsUnmoved(h: seq<Event>, e: Event, kind: Kind)
    requires !e.Dropped? && e.kind != kind
    ensures forall room, key, token, t :: Live(h + [e], kind, room, key, token, t) <==> Live(h, kind, room, key, token, t)
  {
    forall room, key, token, t
      ensures Live(h + [e], kind, room, key, token, t) <==> Live(h, kind, room, key, token, t)
    {
      LiveStep(h, e, kind, room, key, token, t);
    }
  }

  lemma SlotsUnmoved(slots: map<string, map<string, int>>, h: seq<Event>, clock: int, e: Event, clock': int)
    requires SlotsAgree(slots, h, clock) && clock <= clock' && !e.Dropped? && e.kind != Slot
    ensures SlotsAgree(slots, h + [e], clock')
  {
    OtherKindsUnmoved(h, e, Slot);
  }

  lemma LocksUnmoved(locks: map<string, map<string, OwnedLock>>, h: seq<Event>, clock: int, e: Event, clock': int)
    requires LocksAgree(locks, h, clock) && clock <= clock' && !e.Dropped? && e.kind != Lock
    ensures LocksAgree(locks, h + [e], clock')
  {
    OtherKindsUnmoved(h, e, Lock);
  }

  lemma BlocksUnmoved(blocks: map<string, seq<BlockEntry>>, h: seq<Event>, clock: int, e: Event, clock': int)
    requires BlocksAgree(blocks, h, clock) && clock <= clock' && !e.Dropped? && e.kind != Block
    ensures BlocksAgree(blocks, h + [e], clock')
  {
    OtherKindsUnmoved(h, e, Block);
  }

  lemma ExclusiveStep(h: seq<Event>, e: Event)
    requires Exclusive(h)
    requires e.Granted? && !e.kind.Block? ==> !Taken(h, e.kind, e.room, e.key, e.at)
    ensures Exclusive(h + [e])
  {
    var longer := h + [e];
    forall j | 0 <= j < |longer| && longer[j].Granted? && !longer[j].kind.Block?
      ensures !Taken(longer[..j], longer[j].kind, longer[j].room, longer[j].key, longer[j].at)
    {
      assert longer[..j] == if j < |h| then h[..j] else h;
    }
  }

  lemma SlotsMove(slots: map<string, map<string, int>>, h: seq<Event>, clock: int, e: Event, slots': map<string, map<string, int>>, clock': int)
    requires SlotsAgree(slots, h, clock) && clock <= clock'
    requires forall room, key, t :: clock' <= t ==>
               (SlotHeld(slots', room, key, t) <==>
                || (e.Granted? && e.kind == Slot && e.room == room && e.key == key && e.token == "" && t < e.expiresAt)
                || (SlotHeld(slots, room, key, t) && !Ends(e, Slot, room, key, "")))
    ensures SlotsAgree(slots', h + [e], clock')
  {
    forall room, key, t | clock' <= t ensures SlotHeld(slots', room, key, t) <==> Live(h + [e], Slot, room, key, "", t) {
      LiveStep(h, e, Slot, room, key, "", t);
    }
  }

  lemma LocksMove(locks: map<string, map<string, OwnedLock>>, h: seq<Event>, clock: int, e: Event, locks': map<string, map<string, OwnedLock>>, clock': int)
    requires LocksAgree(locks, h, clock) && clock <= clock'
    requires forall room, key, token, t :: clock' <= t ==>
               (LockHeld(locks', room, key, token, t) <==>
                || (e.Granted? && e.kind == Lock && e.room == room && e.key == key && e.token == token && t < e.expiresAt)
                || (LockHeld(locks, room, key, token, t) && !Ends(e, Lock, room, key, token)))
    requires forall room, key :: room in locks' && key in locks'[room] ==>
               || (e.Granted? && e.kind == Lock && e.room == room && e.key == key
                   && locks'[room][key] == OwnedLock(e.token, e.expiresAt))
               || (room in locks && key in locks[room] && locks[room][key] == locks'[room][key]
                   && !Ends(e, Lock, room, key, locks[room][key].token))
    ensures LocksAgree(locks', h + [e], clock')
  {
    forall room, key, token, t | clock' <= t
      ensures LockHeld(locks', room, key, token, t) <==> Live(h + [e], Lock, room, key, token, t)
    {
      LiveStep(h, e, Lock, room, key, token, t);
    }
    forall room, key | room in locks' && key in locks'[room]
      ensures Live(h + [e], Lock, room, key, locks'[room][key].token, locks'[room][key].expiresAt - 1)
    {
      LiveStep(h, e, Lock, room, key, locks'[room][key].token, locks'[room][key].expiresAt - 1);
    }
  }

  lemma BlocksMove(blocks: map<string, seq<BlockEntry>>, h: seq<Event>, clock: int, e: Event, blocks': map<string, seq<BlockEntry>>, clock': int)
    requires BlocksAgree(blocks, h, clock) && clock <= clock'
    requires forall room, token, t :: clock' <= t ==>
               (BlockHeld(blocks', room, token, t) <==>
                || (e.Granted? && e.kind == Block && e.room == room && e.key == token && e.token == "" && t < e.expiresAt)
                || (BlockHeld(blocks, room, token, t) && e != Dropped(room)))
    requires !(e.Returned? && e.kind == Block)
    ensures BlocksAgree(blocks', h + [e], clock')
  {
    forall room, token, t | clock' <= t ensures BlockHeld(blocks', room, token, t) <==> Live(h + [e], Block, room, token, "", t) {
      LiveStep(h, e, Block, room, token, "", t);
    }
  }

  // ---- What pruning, granting and returning do to the maps ----

  predicate PrunedSlots(slots: map<string, map<string, int>>, room: string, live: map<string, int>, now: int) {
    var inner := if room in slots then slots[room] else map[];
    live == map k | k in inner && now < inner[k] :: inner[k]
  }

  lemma SlotsPruned(slots: map<string, map<string, int>>, room: string, live: map<string, int>, now: int)
    requires PrunedSlots(slots, room, live, now)
    ensures forall r, k, t :: now <= t ==> (SlotHeld(slots[room := live], r, k, t) <==> SlotHeld(slots, r, k, t))
    ensures forall k :: k in live <==> SlotHeld(slots, room, k, now)
  {
  }

  lemma SlotTakenIff(h: seq<Event>, room: string, key: string, now: int)
    requires SlotTokens(h)
    ensures Taken(h, Slot, room, key, now) <==> Live(h, Slot, room, key, "", now)
  {
    if Taken(h, Slot, room, key, now) {
      var token :| Live(h, Slot, room, key, token, now);
      var i: nat :| i < |h| && LiveSince(h, Slot, room, key, token, now, i);
      assert token == "";
    }
  }

  lemma SlotTakenByMap(slots: map<string, map<string, int>>, h: seq<Event>, clock: int, room: string, live: map<string, int>, key: string, now: int)
    requires SlotsAgree(slots, h, clock) && clock <= now && SlotTokens(h) && PrunedSlots(slots, room, live, now)
    ensures key in live <==> Taken(h, Slot, room, key, now)
    ensures SlotsAgree(slots[room := live], h, now)
  {
    SlotsPruned(slots, room, live, now);
    SlotTakenIff(h, room, key, now);
  }

  lemma SlotGrantAgrees(slots: map<string, map<string, int>>, h: seq<Event>, clock: int, room: string, live: map<string, int>, e: Event)
    requires e.Granted? && e.kind == Slot && e.room == room && e.token == ""
    requires SlotsAgree(slots, h, clock) && clock <= e.at && PrunedSlots(slots, room, live, e.at)
    requires e.key !in live
    ensures SlotsAgree(slots[room := live[e.key := e.expiresAt]], h + [e], e.at)
  {
    SlotsPruned(slots, room, live, e.at);
    SlotsMove(slots, h, clock, e, slots[room := live[e.key := e.expiresAt]], e.at);
  }

  lemma LocksPruned(locks: map<string, map<string, OwnedLock>>, room: string, live: map<string, OwnedLock>, now: int)
    requires PrunedLocks(locks, room, live, now)
    ensures forall r, k, token, t :: now <= t ==>
              (LockHeld(locks[room := live], r, k, token, t) <==> LockHeld(locks, r, k, token, t))
    ensures forall k :: k in live <==> exists token :: LockHeld(locks, room, k, token, now)
    ensures forall k :: k in live ==> locks[room][k] == live[k]
  {
    forall k | k in live ensures exists token :: LockHeld(locks, room, k, token, now) {
      assert LockHeld(locks, room, k, live[k].token, now);
    }
  }

  lemma LockRemoved(locks: map<string, map<string, OwnedLock>>, room: string, key: string, token: string, after: map<string, map<string, OwnedLock>>)
    requires room in locks && key in locks[room] && locks[room][key].token == token
    requires after == if locks[room] - {key} == map[] then locks - {room} else locks[room := locks[room] - {key}]
    ensures forall r, k, tok, t ::
              (LockHeld(after, r, k, tok, t) <==> LockHeld(locks, r, k, tok, t) && !(r == room && k == key && tok == token))
    ensures forall r, k :: r in after && k in after[r] ==>
              r in locks && k in locks[r] && locks[r][k] == after[r][k] && !(r == room && k == key)
  {
    assert forall k :: k in locks[room] && k != key ==> k in locks[room] - {key};
  }

  lemma LockPut(locks: map<string, map<string, OwnedLock>>, room: string, live: map<string, OwnedLock>, key: string, lock: OwnedLock, now: int)
    requires PrunedLocks(locks, room, live, now) && key !in live
    ensures var after := locks[room := live[key := lock]];
            && (forall r, k, tok, t :: now <= t ==>
                  (LockHeld(after, r, k, tok, t) <==>
                   (r == room && k == key && tok == lock.token && t < lock.expiresAt) || LockHeld(locks, r, k, tok, t)))
            && (forall r, k :: r in after && k in after[r] ==>
                  (r == room && k == key && after[r][k] == lock)
                  || (r in locks && k in locks[r] && locks[r][k] == after[r][k]))
  {
  }

  lemma LockTakenIff(locks: map<string, map<string, OwnedLock>>, h: seq<Event>, clock: int, room: string, live: map<string, OwnedLock>, key: string, now: int)
    requires LocksAgree(locks, h, clock) && clock <= now && PrunedLocks(locks, room, live, now)
    ensures key in live <==> Taken(h, Lock, room, key, now)
    ensures LocksAgree(locks[room := live], h, now)
  {
    LocksPruned(locks, room, live, now);
    assert forall tok :: LockHeld(locks, room, key, tok, now) <==> Live(h, Lock, room, key, tok, now);
  }

  lemma LockGrantAgrees(locks: map<string, map<string, OwnedLock>>, h: seq<Event>, clock: int, room: string, live: map<string, OwnedLock>, e: Event)
    requires e.Granted? && e.kind == Lock && e.room == room
    requires LocksAgree(locks, h, clock) && clock <= e.at && PrunedLocks(locks, room, live, e.at)
    requires e.key !in live
    ensures LocksAgree(locks[room := live[e.key := OwnedLock(e.token, e.expiresAt)]], h + [e], e.at)
  {
    var lock := OwnedLock(e.token, e.expiresAt);
    LockPut(locks, room, live, e.key, lock, e.at);
    LocksMove(locks, h, clock, e, locks[room := live[e.key := lock]], e.at);
  }

  lemma RefusalMovesNothing(h: seq<Event>, e: Event)
    requires e.Refused?
    ensures forall kind, room, key, token, t :: Live(h + [e], kind, room, key, token, t) <==> Live(h, kind, room, key, token, t)
  {
    forall kind, room, key, token, t
      ensures Live(h + [e], kind, room, key, token, t) <==> Live(h, kind, room, key, token, t)
    {
      LiveStep(h, e, kind, room, key, token, t);
    }
  }

  lemma SameLiveLocks(locks: map<string, map<string, OwnedLock>>, h: seq<Event>, e: Event, clock: int)
    requires LocksAgree(locks, h, clock) && e.Refused?
    ensures LocksAgree(locks, h + [e], clock)
  {
    RefusalMovesNothing(h, e);
  }

  lemma StoredIffKept(locks: map<string, map<string, OwnedLock>>, h: seq<Event>, room: string, key: string, token: string)
    requires LocksExact(locks, h)
    ensures (room in locks && key in locks[room] && locks[room][key].token == token) <==>
            exists expiresAt :: Kept(h, room, key, token, expiresAt)
  {
    if room in locks && key in locks[room] && locks[room][key].token == token {
      assert Stored(locks, room, key, token, locks[room][key].expiresAt);
    }
  }

  lemma EmptyBlocks(token: string, now: int)
    ensures !BlockIn([], token, now)
  {
  }

  lemma SlotsLater(slots: map<string, map<string, int>>, h: seq<Event>, clock: int, now: int)
    requires SlotsAgree(slots, h, clock) && clock <= now
    ensures SlotsAgree(slots, h, now)
  {
  }

  lemma LocksLater(locks: map<string, map<string, OwnedLock>>, h: seq<Event>, clock: int, now: int)
    requires LocksAgree(locks, h, clock) && clock <= now
    ensures LocksAgree(locks, h, now)
  {
  }

  lemma BlocksLater(blocks: map<string, seq<BlockEntry>>, h: seq<Event>, clock: int, now: int)
    requires BlocksAgree(blocks, h, clock) && clock <= now
    ensures BlocksAgree(blocks, h, now)
  {
  }

  class LeaseTables {
    var claimedSlotsByRoom: map<string, map<string, int>>
    var ownedRoomLocks: map<string, map<string, OwnedLock>>
    var blockedMemberTokensByRoom: map<string, seq<BlockEntry>>
    ghost var history: seq<Event>
    ghost var clock: int

    ghost predicate Valid()
      reads this
    {
      && SlotsAgree(claimedSlotsByRoom, history, clock)
      && LocksAgree(ownedRoomLocks, history, clock)
      && BlocksAgree(blockedMemberTokensByRoom, history, clock)
      && SlotTokens(history)
      && Exclusive(history)
      && LocksExact(ownedRoomLocks, history)
    }

    constructor (ghost now: int)
      ensures Valid() && history == [] && clock == now
    {
      claimedSlotsByRoom, ownedRoomLocks, blockedMemberTokensByRoom := map[], map[], map[];
      history, clock := [], now;
    }

    // Granted exactly when no claim in the whole history is still live.
    method TryClaimMessageSlot(room: string, key: string, expiresAt: int, now: int) returns (ok: bool)
      requires Valid() && clock <= now
      modifies this
      ensures Valid() && clock == now
      ensures ok <==> !Taken(old(history), Slot, room, key, now)
      ensures history == if ok then old(history) + [Granted(Slot, room, key, "", expiresAt, now)] else old(history)
    {
      hide Live, Taken, Exclusive, BlocksAgree, SlotsAgree, LocksAgree, LocksExact;
      ghost var slots := claimedSlotsByRoom;
      var roomSlots := if room in claimedSlotsByRoom then claimedSlotsByRoom[room] else map[];
      roomSlots := PruneSlots(roomSlots, now);
      SlotTakenByMap(slots, history, clock, room, roomSlots, key, now);
      if key in roomSlots {
        claimedSlotsByRoom := claimedSlotsByRoom[room := roomSlots];
        BlocksLater(blockedMemberTokensByRoom, history, clock, now);
        LocksLater(ownedRoomLocks, history, clock, now);
        clock := now;
        return false;
      }
      ghost var e := Granted(Slot, room, key, "", expiresAt, now);
      claimedSlotsByRoom := claimedSlotsByRoom[room := roomSlots[key := expiresAt]];
      SlotGrantAgrees(slots, history, clock, room, roomSlots, e);
      LocksUnmoved(ownedRoomLocks, history, clock, e, now);
      BlocksUnmoved(blockedMemberTokensByRoom, history, clock, e, now);
      ExclusiveStep(history, e);
      OtherKindsKeepLocks(ownedRoomLocks, history, e);
      history := history + [e];
      clock := now;
      ok := true;
    }

    method ReleaseMessageSlot(room: string, key: string)
      requires Valid()
      modifies this
      ensures Valid() && clock == old(clock)
      ensures history == old(history) + [Returned(Slot, room, key, "")]
    {
      hide Live, Exclusive, LocksExact;
      ghost var slots := claimedSlotsByRoom;
      ghost var e := Returned(Slot, room, key, "");
      OtherKindsKeepLocks(ownedRoomLocks, history, e);
      if room in claimedSlotsByRoom {
        claimedSlotsByRoom := claimedSlotsByRoom[room := claimedSlotsByRoom[room] - {key}];
      }
      SlotsMove(slots, history, clock, e, claimedSlotsByRoom, clock);
      LocksUnmoved(ownedRoomLocks, history, clock, e, clock);
      BlocksUnmoved(blockedMemberTokensByRoom, history, clock, e, clock);
      ExclusiveStep(history, e);
      history := history + [e];
    }

    // Granted exactly when no lock of the whole history is still live, whoever holds it.
    method AcquireRoomLock(room: string, key: string, token: string, expiresAt: int, now: int) returns (ok: bool)
      requires Valid() && clock <= now
      modifies this
      ensures Valid() && clock == now
      ensures ok <==> !Taken(old(history), Lock, room, key, now)
      ensures history == old(history)
                         + [if ok then Granted(Lock, room, key, token, expiresAt, now) else Refused(Lock, room, now)]
    {
      hide Live, Taken, Exclusive, BlocksAgree, SlotsAgree, LocksAgree, LocksExact;
      ghost var locks := ownedRoomLocks;
      var roomLocks := if room in ownedRoomLocks then ownedRoomLocks[room] else map[];
      roomLocks := PruneLocks(roomLocks, now);
      LockTakenIff(locks, history, clock, room, roomLocks, key, now);
      if key in roomLocks {
        ghost var refused := Refused(Lock, room, now);
        ownedRoomLocks := ownedRoomLocks[room := roomLocks];
        SweptLocks(locks, history, room, roomLocks, now);
        RefusalMovesNothing(history, refused);
        BlocksUnmoved(blockedMemberTokensByRoom, history, clock, refused, now);
        SlotsUnmoved(claimedSlotsByRoom, history, clock, refused, now);
        SameLiveLocks(ownedRoomLocks, history, refused, now);
        ExclusiveStep(history, refused);
        history := history + [refused];
        clock := now;
        return false;
      }
      ghost var e := Granted(Lock, room, key, token, expiresAt, now);
      ownedRoomLocks := ownedRoomLocks[room := roomLocks[key := OwnedLock(token, expiresAt)]];
      LockGrantAgrees(locks, history, clock, room, roomLocks, e);
      GrantedLocks(locks, history, room, roomLocks, e);
      SlotsUnmoved(claimedSlotsByRoom, history, clock, e, now);
      BlocksUnmoved(blockedMemberTokensByRoom, history, clock, e, now);
      ExclusiveStep(history, e);
      history := history + [e];
      clock := now;
      ok := true;
    }

    // A release succeeds exactly when some grant to the token was neither returned nor dropped and no
    // acquire in the room has found it expired since: always while the lock is live, and afterwards
    // until somebody sweeps. A failed one changes no table, and other holders never notice.
    method ReleaseRoomLock(room: string, key: string, token: string) returns (ok: bool)
      requires Valid()
      modifies this
      ensures Valid() && clock == old(clock)
      ensures history == old(history) + [Returned(Lock, room, key, token)]
      ensures ok <==> exists expiresAt :: Kept(old(history), room, key, token, expiresAt)
      ensures Live(old(history), Lock, room, key, token, clock) ==> ok
      ensures ok ==> exists t :: Live(old(history), Lock, room, key, token, t)
      ensures !ok ==> ownedRoomLocks == old(ownedRoomLocks)
      ensures forall other, t :: other != token ==>
                (Live(history, Lock, room, key, other, t) <==> Live(old(history), Lock, room, key, other, t))
    {
      hide Live, Exclusive, SlotsAgree, BlocksAgree, Kept, LocksExact;
      ghost var locks := ownedRoomLocks;
      ghost var e := Returned(Lock, room, key, token);
      assert LockHeld(locks, room, key, token, clock) <==> Live(history, Lock, room, key, token, clock);
      ok := room in ownedRoomLocks && key in ownedRoomLocks[room] && ownedRoomLocks[room][key].token == token;
      StoredIffKept(locks, history, room, key, token);
      if ok {
        var roomLocks := ownedRoomLocks[room] - {key};
        ownedRoomLocks := if roomLocks == map[] then ownedRoomLocks - {room} else ownedRoomLocks[room := roomLocks];
        LockRemoved(locks, room, key, token, ownedRoomLocks);
        assert Live(history, Lock, room, key, token, locks[room][key].expiresAt - 1);
      }
      ReturnedLock(locks, history, room, key, token, ownedRoomLocks);
      LocksMove(locks, history, clock, e, ownedRoomLocks, clock);
      SlotsUnmoved(claimedSlotsByRoom, history, clock, e, clock);
      BlocksUnmoved(blockedMemberTokensByRoom, history, clock, e, clock);
      ExclusiveStep(history, e);
      forall other, t | other != token
        ensures Live(history + [e], Lock, room, key, other, t) <==> Live(history, Lock, room, key, other, t)
      {
        LiveStep(history, e, Lock, room, key, other, t);
      }
      history := history + [e];
    }

    method BlockMemberToken(room: string, memberToken: string, expiresAt: int, now: int)
      requires Valid() && clock <= now
      modifies this
      ensures Valid() && clock == now
      ensures history == old(history) + [Granted(Block, room, memberToken, "", expiresAt, now)]
    {
      hide Live, Exclusive, SlotsAgree, LocksAgree, BlockIn, LocksExact;
      OtherKindsKeepLocks(ownedRoomLocks, history, Granted(Block, room, memberToken, "", expiresAt, now));
      ghost var blocks := blockedMemberTokensByRoom;
      ghost var e := Granted(Block, room, memberToken, "", expiresAt, now);
      var entries := if room in blockedMemberTokensByRoom then blockedMemberTokensByRoom[room] else [];
      var active := ActiveBlocks(entries, now);
      blockedMemberTokensByRoom := blockedMemberTokensByRoom[room := active + [BlockEntry(memberToken, expiresAt)]];
      forall r, token, t | now <= t
        ensures BlockHeld(blockedMemberTokensByRoom, r, token, t) <==>
                (r == room && token == memberToken && t < expiresAt) || BlockHeld(blocks, r, token, t)
      {
        AppendBlock(active, BlockEntry(memberToken, expiresAt), token, t);
        EmptyBlocks(token, t);
      }
      BlocksMove(blocks, history, clock, e, blockedMemberTokensByRoom, now);
      SlotsUnmoved(claimedSlotsByRoom, history, clock, e, now);
      LocksUnmoved(ownedRoomLocks, history, clock, e, now);
      ExclusiveStep(history, e);
      history := history + [e];
      clock := now;
    }

    // Blocked exactly when some kick of the whole history is still live.
    method IsMemberTokenBlocked(room: string, memberToken: string, now: int) returns (blocked: bool)
      requires Valid() && clock <= now
      modifies this
      ensures Valid() && clock == now && history == old(history)
      ensures blocked <==> Live(history, Block, room, memberToken, "", now)
    {
      hide Live, Exclusive, SlotsAgree, LocksAgree, LocksExact;
      ghost var blocks := blockedMemberTokensByRoom;
      var entries := if room in blockedMemberTokensByRoom then blockedMemberTokensByRoom[room] else [];
      var active := ActiveBlocks(entries, now);
      if active == [] {
        blockedMemberTokensByRoom := blockedMemberTokensByRoom - {room};
      } else if |active| != |entries| {
        blockedMemberTokensByRoom := blockedMemberTokensByRoom[room := active];
      }
      assert BlockIn(active, memberToken, now) <==> BlockHeld(blocks, room, memberToken, now);
      blocked := exists i :: 0 <= i < |active| && active[i].memberToken == memberToken;
      assert blocked <==> BlockIn(active, memberToken, now);
      forall r, token, t | now <= t
        ensures BlockHeld(blockedMemberTokensByRoom, r, token, t) <==> BlockHeld(blocks, r, token, t)
      {
        assert BlockIn(active, token, t) <==> BlockIn(entries, token, t);
      }
      SlotsLater(claimedSlotsByRoom, history, clock, now);
      LocksLater(ownedRoomLocks, history, clock, now);
      clock := now;
    }

    // Afterwards nothing granted in the room is live, and other rooms keep everything they had.
    method DropRoom(room: string)
      requires Valid()
      modifies this
      ensures Valid() && clock == old(clock)
      ensures history == old(history) + [Dropped(room)]
      ensures forall kind, other, key, token, t ::
                Live(history, kind, other, key, token, t) <==>
                other != room && Live(old(history), kind, other, key, token, t)
    {
      hide Live, Exclusive, Kept;
      ghost var e := Dropped(room);
      ghost var slots, locks, blocks := claimedSlotsByRoom, ownedRoomLocks, blockedMemberTokensByRoom;
      blockedMemberTokensByRoom := blockedMemberTokensByRoom - {room};
      claimedSlotsByRoom := claimedSlotsByRoom - {room};
      ownedRoomLocks := ownedRoomLocks - {room};
      SlotsMove(slots, history, clock, e, claimedSlotsByRoom, clock);
      LocksMove(locks, history, clock, e, ownedRoomLocks, clock);
      LocksExactStep(locks, history, e, ownedRoomLocks);
      BlocksMove(blocks, history, clock, e, blockedMemberTokensByRoom, clock);
      ExclusiveStep(history, e);
      forall kind, other, key, token, t
        ensures Live(history + [e], kind, other, key, token, t) <==>
                other != room && Live(history, kind, other, key, token, t)
      {
        LiveStep(history, e, kind, other, key, token, t);
      }
      history := history + [e];
    }
  }

  lemma NothingTaken(kind: Kind, room: string, key: string, now: int)
    ensures !Taken([], kind, room, key, now)
  {
  }

  lemma StillKept(h: seq<Event>)
    requires 0 < |h| && h[0] == Granted(Lock, "r", "join", "t", 10, 0)
    requires forall j :: 0 < j < |h| ==> h[j].Granted? && h[j].kind == Slot
    ensures Kept(h, "r", "join", "t", 10)
  {
    assert KeptSince(h, "r", "join", "t", 10, 0);
  }

  lemma NoLongerKept(h: seq<Event>)
    requires |h| == 2 && h[0] in {Granted(Lock, "r", "join", "t", 10, 0), Refused(Lock, "r", 0)}
    requires h[1] in {Granted(Lock, "r", "other", "u", 30, 20), Refused(Lock, "r", 20)}
    ensures forall expiresAt :: !Kept(h, "r", "join", "t", expiresAt)
  {
    assert Sweeps(h[1], "r", 10);
  }

  /** Witness: an expired lock nobody has swept is released with success, and refused once somebody else
      has tried to lock in the room. */
  method ReleasesAfterExpiry() returns (unswept: bool, swept: bool)
    ensures unswept && !swept
  {
    hide Taken, Live, Kept;
    var quiet := new LeaseTables(0);
    NothingTaken(Lock, "r", "join", 0);
    var got := quiet.AcquireRoomLock("r", "join", "t", 10, 0);
    var later := quiet.TryClaimMessageSlot("r", "m", 30, 20);
    StillKept(quiet.history);
    unswept := quiet.ReleaseRoomLock("r", "join", "t");
    var busy := new LeaseTables(0);
    got := busy.AcquireRoomLock("r", "join", "t", 10, 0);
    got := busy.AcquireRoomLock("r", "other", "u", 30, 20);
    NoLongerKept(busy.history);
    swept := busy.ReleaseRoomLock("r", "join", "t");
  }
}
