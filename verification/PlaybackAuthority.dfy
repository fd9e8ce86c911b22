/** Which incoming playback updates the room takes over, and what command an accepted one is. */
module PlaybackAuthority {
  import opened PlaybackModel

  datatype AuthorityKind = ByShare | ByPlay | ByPause | BySeek | ByRatechange

  datatype Authority = Authority(actorId: MemberId, until: int, kind: AuthorityKind)

  datatype Decision =
    | AcceptNoCurrent | AcceptSameActor | AcceptDefault
    | FollowAuthorityWindow | FollowLiveStop | FollowUnchangedRate
    | StaleRegression
  {
    predicate Accepted() {
      AcceptNoCurrent? || AcceptSameActor? || AcceptDefault?
    }
  }

  predicate IsExplicit(playback: Playback) {
    playback.syncIntent.Some?
  }

  predicate PrefersContinuity(authority: Authority) {
    authority.kind != ByPause
  }

  /** A follower's update inside another actor's authority window that must not win. */
  predicate FollowsAuthority(current: Playback, authority: Option<Authority>, incoming: Playback, effective: real, now: int) {
    && !IsExplicit(incoming)
    && authority.Some? && now < authority.value.until
    && authority.value.actorId != incoming.actorId
    && var close := Abs(incoming.position - effective) < 1.2;
       var owns := current.actorId == authority.value.actorId && current.playState == Playing;
       if incoming.playState == Playing then
         IsStopLike(current) || close || (PrefersContinuity(authority.value) && owns)
       else
         && PrefersContinuity(authority.value)
         && !IsStopLike(current)
         && close
         && incoming.position <= effective + 0.15
  }

  function EffectivePosition(current: Playback, now: int, isLive: bool): real {
    if isLive then current.position else Project(current, now)
  }

  function Decide(currentPlayback: Option<Playback>, authority: Option<Authority>, incoming: Playback, now: int, isLive: bool): Decision
  {
    if currentPlayback.None? then AcceptNoCurrent
    else
      var current := currentPlayback.value;
      var effective := EffectivePosition(current, now, isLive);
      var incomingPlays := incoming.playState == Playing;
      if incoming.syncIntent == Some(ExplicitRatechange)
         && Abs(NormalRate(incoming.playbackRate) - NormalRate(current.playbackRate)) <= 0.01
      then FollowUnchangedRate
      else if isLive && !IsExplicit(incoming) && current.playState == Playing && IsStopLike(incoming)
      then FollowLiveStop
      else if !IsExplicit(incoming) && !isLive && incoming.position + 2.5 < effective
      then StaleRegression
      else if !IsExplicit(incoming) && incomingPlays
              && current.actorId == incoming.actorId && incoming.position + 1.0 < effective
      then StaleRegression
      else if current.actorId == incoming.actorId then AcceptSameActor
      else if FollowsAuthority(current, authority, incoming, effective, now) then FollowAuthorityWindow
      else if !IsExplicit(incoming) && incomingPlays && incoming.position + 0.6 < effective
      then StaleRegression
      else AcceptDefault
  }

  function AuthorityKindOf(currentPlayback: Option<Playback>, next: Playback): Option<AuthorityKind> {
    if currentPlayback.None? then Some(ByPlay)
    else
      var current := currentPlayback.value;
      if IsStopLike(next) then Some(ByPause)
      else if Abs(next.playbackRate - current.playbackRate) > 0.01 then Some(ByRatechange)
      else if next.syncIntent == Some(ExplicitSeek) && next.playState == Playing then Some(BySeek)
      else if Abs(next.position - current.position) >= 2.5 then Some(BySeek)
      else if current.playState != Playing && next.playState == Playing then Some(ByPlay)
      else None
  }

  const AUTHORITY_WINDOW_MS := 1_200

  /** The last recorded authority of each room, forgotten when a lookup finds it expired. */
  class AuthorityTable {
    var byRoom: map<string, Authority>
    ghost var recorded: map<string, Authority>
    ghost var clock: int

    ghost predicate Valid()
      reads this
    {
      forall room ::
        if room in byRoom then room in recorded && recorded[room] == byRoom[room]
        else room in recorded ==> recorded[room].until <= clock
    }

    constructor (ghost now: int)
      ensures Valid() && recorded == map[] && clock == now
    {
      byRoom, recorded, clock := map[], map[], now;
    }

    method Record(room: string, actorId: MemberId, kind: AuthorityKind, now: int)
      requires Valid() && clock <= now
      modifies this
      ensures Valid() && clock == now
      ensures recorded == old(recorded)[room := Authority(actorId, now + 1_200, kind)]
    {
      byRoom := byRoom[room := Authority(actorId, now + AUTHORITY_WINDOW_MS, kind)];
      recorded := recorded[room := Authority(actorId, now + AUTHORITY_WINDOW_MS, kind)];
      clock := now;
    }

    // Forgetting is invisible: the answer is the last recorded authority while its window is open.
    method Get(room: string, now: int) returns (authority: Option<Authority>)
      requires Valid() && clock <= now
      modifies this
      ensures Valid() && clock == now && recorded == old(recorded)
      ensures authority == if room in recorded && now < recorded[room].until then Some(recorded[room]) else None
    {
      clock := now;
      if room !in byRoom {
        return None;
      }
      var found := byRoom[room];
      if found.until <= now {
        byRoom := byRoom - {room};
        return None;
      }
      authority := Some(found);
    }
  }
}
