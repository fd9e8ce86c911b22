/** The room record shared by every server component: playback state, the wait-mode hold,
    the shared video and the stored chat history. Positions and rates are reals (seconds),
    clock readings are integers (milliseconds). */
module PlaybackModel {

  datatype Option<+T> = None | Some(value: T)

  type MemberId = string

  datatype PlayState = Playing | Paused | Buffering

  datatype SyncIntent = ExplicitSeek | ExplicitRatechange | ExplicitPlay | ExplicitPause

  // `link` is the normalised form of the URL, none for an address the server does not support.
  datatype Playback = Playback(
    url: string,
    position: real,
    playState: PlayState,
    syncIntent: Option<SyncIntent>,
    playbackRate: real,
    serverTime: int,
    actorId: MemberId,
    seqNo: int,
    link: Option<string>)

  datatype ItemKind = Part | Episode | Live

  datatype SharedVideo = SharedVideo(url: string, itemKind: Option<ItemKind>, link: Option<string>)

  datatype Strategy = Smooth | Wait

  // A revision serialises exactly these four fields, so equal revisions mean equal fields.
  datatype Revision = Revision(url: string, actorId: MemberId, seqNo: int, serverTime: int)

  datatype Hold = Hold(
    active: bool,
    reasonMemberId: Option<MemberId>,
    startedAt: Option<int>,
    deadlineAt: Option<int>,
    playbackRevision: Option<Revision>)

  datatype SyncState = SyncState(strategy: Strategy, hold: Hold, bufferingMemberIds: seq<MemberId>)

  datatype ChatMessage = ChatMessage(memberId: MemberId, content: string, timestamp: int)

  datatype Room = Room(
    code: string,
    sharedVideo: Option<SharedVideo>,
    playback: Option<Playback>,
    playbackSync: Option<SyncState>,
    chatMessages: seq<ChatMessage>,
    version: nat,
    lastActiveAt: int,
    expiresAt: Option<int>)

  datatype BufferState = Ready | Stalled

  datatype BufferReport = BufferReport(
    state: BufferState,
    bufferAheadSeconds: Option<real>,
    playbackRevision: Option<Revision>)

  const READY_BUFFER_AHEAD_SECONDS := 3.0
  const BARRIER_READY_BUFFER_AHEAD_SECONDS := 6.0
  const READINESS_BARRIER_TIMEOUT_MS := 30_000
  const BUFFER_HOLD_MAX_MS := 10_000

  const INACTIVE_HOLD := Hold(false, None, None, None, None)

  function Inactive(strategy: Strategy): SyncState {
    SyncState(strategy, INACTIVE_HOLD, [])
  }

  // A room that never stored a sync state behaves as smooth with no hold.
  function Clone(sync: Option<SyncState>): SyncState {
    if sync.Some? then sync.value else Inactive(Smooth)
  }

  function Sync(room: Room): SyncState {
    Clone(room.playbackSync)
  }

  predicate Held(room: Room) {
    Sync(room).hold.active
  }

  predicate IsPlaying(room: Room) {
    room.playback.Some? && room.playback.value.playState == Playing
  }

  predicate IsLive(room: Room) {
    room.sharedVideo.Some? && room.sharedVideo.value.itemKind == Some(Live)
  }

  predicate IsStopLike(playback: Playback) {
    playback.playState == Paused || playback.playState == Buffering
  }

  function RevisionOf(playback: Playback): Revision {
    Revision(playback.url, playback.actorId, playback.seqNo, playback.serverTime)
  }

  function NormalRate(rate: real): (r: real)
    ensures r > 0.0
    ensures r == if rate > 0.0 then rate else 1.0
  {
    if rate > 0.0 then rate else 1.0
  }

  function Seconds(elapsedMs: int): real {
    elapsedMs as real / 1000.0
  }

  function Max0(x: int): nat {
    if x > 0 then x else 0
  }

  function Abs(x: real): real {
    if x >= 0.0 then x else -x
  }

  /** Where the stored playback would be at `now` if nothing froze it. */
  function Project(playback: Playback, now: int): real {
    if playback.playState != Playing then playback.position
    else playback.position + Seconds(Max0(now - playback.serverTime)) * NormalRate(playback.playbackRate)
  }

  predicate NoDuplicates(ids: seq<MemberId>) {
    forall i, j :: 0 <= i < j < |ids| ==> ids[i] != ids[j]
  }

  /** First occurrences, in order. */
  function Unique(ids: seq<MemberId>): (r: seq<MemberId>)
    ensures NoDuplicates(r)
    ensures forall m :: m in r <==> m in ids
    ensures NoDuplicates(ids) ==> r == ids
    ensures |ids| > 0 ==> |r| > 0 && r[0] == ids[0]
  {
    if ids == [] then []
    else
      var last := |ids| - 1;
      assert ids == ids[..last] + [ids[last]];
      var front := Unique(ids[..last]);
      if ids[last] in front then front else front + [ids[last]]
  }

  function Without(ids: seq<MemberId>, memberId: MemberId): (r: seq<MemberId>)
    ensures forall m :: m in r <==> m in ids && m != memberId
    ensures NoDuplicates(ids) ==> NoDuplicates(r)
  {
    if ids == [] then []
    else if ids[0] == memberId then Without(ids[1..], memberId)
    else
      assert ids == [ids[0]] + ids[1..];
      var rest := Without(ids[1..], memberId);
      assert forall j :: 0 <= j < |rest| ==> rest[j] in rest && rest[j] in ids[1..];
      [ids[0]] + rest
  }

  lemma UniqueAppends(ids: seq<MemberId>, memberId: MemberId)
    ensures Unique(ids + [memberId]) == if memberId in ids then Unique(ids) else Unique(ids) + [memberId]
  {
    assert (ids + [memberId])[..|ids|] == ids;
  }

  /** The order of the others is kept. */
  lemma {:induction false} WithoutKeepsOrder(a: seq<MemberId>, b: seq<MemberId>, memberId: MemberId)
    ensures Without(a + b, memberId) == Without(a, memberId) + Without(b, memberId)
    ensures memberId !in a ==> Without(a, memberId) == a
  {
    if a == [] {
      assert a + b == b;
    } else {
      assert (a + b)[1..] == a[1..] + b;
      assert a == [a[0]] + a[1..];
      WithoutKeepsOrder(a[1..], b, memberId);
    }
  }

  lemma SubsetSize<T>(a: set<T>, b: set<T>)
    requires a <= b
    ensures |a| <= |b|
  {
    assert b == a + (b - a);
  }
}
