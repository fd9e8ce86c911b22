# Shared playback: a verified model

A room server lets several viewers watch one video together. This project models the parts of it
where state, time and concurrency meet, and proves what they guarantee over whole runs:

- the wait-mode hold: a room freezes until every awaited member has buffered, left, or a deadline has passed;
- the versioned room store and the optimistic retry loop that all writers share;
- the release of an expired hold, however many nodes notice it, and the scheduler that notices it;
- admission of joins: a promise chain in each process, a lease between processes, a rollback;
- the runtime store: indexes, seats, message slots, room locks, kick blocks, recent-event counts;
- rate limits, the attempt table that sweeps itself, and backpressure on published events;
- the client: member deltas replayed over a snapshot, and its estimate of the server's clock;
- the decoding of masked page ids in the media extractor.

Positions and rates are reals (seconds), clock readings are integers (milliseconds).

## How it is laid out

One module per file, lower modules first.

- `PlaybackModel`: the room record, the buffer thresholds and `Project` (`server/src/playback-coordinator.ts:267-282`).
- `PlaybackCoordinator`: `Barrier` (43-68), `CoordinateCommand` (70-118), `CoordinateJoin` (120-167),
  `SyncAfterReport` and `CoordinateReport` (179-261, 308-326), `RebaseForHold` (284-306), `HoldDeadline` (328-343),
  `CoordinateExpiry` (345-379), `CoordinateDeparture` (381-415), `CoordinateStrategy` (417-459), all of
  `server/src/playback-coordinator.ts`. What the source does step by step on a local copy is a method here too.
- `PlaybackAuthority`: `Decide` (`server/src/playback-authority.ts:21-176`), `AuthorityKindOf`
  (`server/src/playback-coordinator.ts:505-545`) and the table of authority windows.
- `RoomStore` and `RoomOperations`: the store, and `DecideOp`, what each operation of
  `server/src/room-service.ts` writes given the room it read (share 2172-2307, update 2309-2552, join 1966-1997,
  buffer report 2554-2620, departure 1526-1552, release 2622-2664, strategy 2666-2708, chat 1142-1162). `ClearVideo` is
  `server/src/admin/action-service.ts:417-426`; `TouchRoom` is every write that leaves video, playback, hold and chat
  alone (`server/src/room-service.ts:1242-1249`, 1264-1271, 1295-1303, 1444-1453, 1669-1672, 2743-2750).
  `Next` runs one operation alone, `RunOps` a sequence.
- `HoldInvariant`, `HoldExactness`, `HoldPromises`, `TimelineConservation`, `UpdateSafety`: theorems about runs of `RunOps`;
  `RoomEffects` says what single operations leave behind, on the fields they bring along; `SampleRuns` holds the small runs their witnesses share.
- `VersionRetry`, `HoldRelease`: interleaved callers of the store. The room they leave is some `RunOps` in commit order,
  so a theorem that does not speak of time carries over as it is. Those that do need the readings in order, which
  commits do not keep; `ConcurrentRuns` says what carries over, and the timeline up to the age of the readings.
- `HoldExpiryScheduler`, `JoinAdmission`, `PublishBackpressure`: state machines whose runs are arbitrary
  sequences of steps; a step that is not enabled does nothing. `JoinRuns` has concrete runs of joins, `HoldLifecycle` the
  way of one hold through scheduler, retry loop and release.
- `RuntimeIndex`, `ActiveRooms`, `RuntimeLeases`, `EventWindow`: the runtime store, class by class.
- `RateLimit`, `UpgradePolicy`, `RoomSession`, `ClockSync`, `PathToken`.

A class keeps the source's own fields. Its methods are proved against a step function (`Step`, `Evaluate`,
`ReceiveDelta`, and so on) or against a ghost history that never forgets; the lemmas are about those.

## What does not hold

Each of these is a statement a reader might expect. For each, a lemma gives the exact condition under which it holds,
and another a run that breaks it.

- A room never exceeds its capacity: false. A known token is admitted into a full room (`JoinRuns.ReconnectOutgrows`),
  and a rollback can restore a seat after a newcomer was counted (`JoinRuns.RollbackOutgrows`). `JoinAdmission.OutgrowsIff`
  names the steps that do it, `JoinAdmission.NewcomerFits` bounds a newcomer.
- Frozen time never counts: false when a join, or a switch to wait, starts a barrier on top of a hold that is still
  set, because it projects straight through the frozen time (`TimelineConservation.ConservedIffNoRestart`,
  `TimelineConservation.JoinIntoBufferHoldSkips`).
- The member named as the reason of a hold is being waited for: false once it recovers first in a buffer hold
  (`HoldPromises.ReasonListedIff`, `HoldPromises.FirstToStallRecovers`).
- An active hold means the room plays: false after a held room was given a share that does not play, or had its video
  cleared (`HoldPromises.HeldRoomsPlayIff`, `HoldPromises.PausedShareStaysHeld`).
- A barrier waits for the playback the room stores: false once a share or an update that begins no barrier stores another
  (`HoldPromises.BarrierTracksStoredPlaybackIff`, `HoldPromises.SteadyTickOvertakesBarrier`).
- Whoever joins a barrier is waited for: false when the room is live or stopped (`HoldExactness.JoinFreezesIff`,
  `HoldPromises.LiveBarrierIgnoresJoiner`).
- A stalled member stays listed until it recovers or leaves: false once a report comes at or past the deadline, or the
  hold expires (`HoldExactness.StallExact`, `HoldPromises.LateReportForgets`).
- A share of an on-demand video freezes a waiting room: the kind of the video being *replaced* decides
  (`UpdateSafety.ShareFreezesIff`, `HoldPromises.ReplacedVideoDecides`).
- One release per deadline: false if, after it, a commit sets a hold from a clock reading a full hold before that deadline
  (`HoldRelease.SetsDeadlineIff`, `HoldRelease.ReleasedForGoodIff`, `HoldRelease.StaleReportReleasesTwice`).
- The scheduler keeps after an active hold until it is gone: false when a release answers without a room
  (`HoldExpiryScheduler.AlwaysAttendedIff`, `HoldExpiryScheduler.LostReleaseAbandonsHold`).
- Releasing an expired lock fails: false until somebody tries to lock in the room; the caller is told it succeeded
  (`RuntimeLeases.LeaseTables.ReleaseRoomLock`, `RuntimeLeases.ReleasesAfterExpiry`).
- A fixed window admits at most its limit in any stretch of one window length: false when a window boundary splits the
  requests (`RateLimit.ExceedsLimitIff`, `RateLimit.TwiceTheLimitHappens`).
- A client that replays every delta it is told over its latest snapshot has the server's members: false when deltas fell
  between the snapshot and the first one replayed, on members not touched again (`RoomSession.ClientConverges`,
  `RoomSession.MissedDeltaDiverges`).

## Premises

- Clocks do not run backwards, and all nodes read one clock. An operation may carry a reading taken before its write;
  `TimeOrdered` in `TimelineConservation` excludes that, `Timely` does not.
- The store's `updateRoom` and the runtime store's lock and slot operations are atomic steps.
- Sessions are registered once per id (`RuntimeIndex.RegisterKeepsInverseIff` says exactly what goes wrong otherwise).
- A room is not deleted while a join into it is running, since deleting it would drop the lease.
- `PublishBackpressure.EndsByDeadline` assumes punctual timers (`Punctual`); nothing else there does.
- Normalising a URL is a parameter: `link` is the normalised form, none for an address the server does not support.
- In `RoomSession` a client that joins has no room state of another room; `requestJoinRoom` clears it
  (`extension/src/background/room-session-controller.ts:634-654`).
- The protocol's explicit intents are the four of `packages/protocol/src/types/domain.ts:3-8`, and a playback revision
  is the four fields it serialises (185-192 there).

## Model

| member | source | states |
|---|---|---|
| PlaybackModel.NormalRate | server/src/playback-coordinator.ts:263-265 | A usable rate is left alone, any other counts as 1. |
| PlaybackModel.Unique | server/src/playback-coordinator.ts:25-27 | Same members, no duplicates, the first in front; a list without duplicates is unchanged. |
| PlaybackModel.Without | server/src/playback-coordinator.ts:29-31 | Exactly the other members remain, still without duplicates. |
| PlaybackModel.UniqueAppends | server/src/playback-coordinator.ts:25-27 | First occurrences, in order: one more member goes to the end unless already there. |
| PlaybackModel.WithoutKeepsOrder | server/src/playback-coordinator.ts:29-31 | The others keep their order. |
| PlaybackCoordinator.UpdateSyncForBufferReport | server/src/playback-coordinator.ts:179-261 | The step-by-step edit of the local copy computes `SyncAfterReport`, the function the theorems on holds are about. |
| PlaybackCoordinator.ApplyDeparture | server/src/playback-coordinator.ts:381-415 | The step-by-step departure computes `CoordinateDeparture`. |
| PlaybackCoordinator.ApplyJoin | server/src/playback-coordinator.ts:120-167 | The step-by-step join, including the edit of a live barrier's list, computes `CoordinateJoin`. |
| HoldInvariant.NextKeepsInv | server/src/room-service.ts:2172-2708 | Every room operation keeps the hold invariant: no duplicates in the list; an active hold means strategy "wait" and a non-empty list; a barrier names a listed member and lasts 30 s, a buffer hold 10 s; an inactive hold carries nothing. |
| HoldInvariant.ReachableHoldInv | server/src/playback-coordinator.ts:43-459 | Every room reached from a new one by any operations satisfies that invariant. |
| HoldExactness.BarrierExact | server/src/playback-coordinator.ts:140-153 | For any barrier, over any trace of reports, joins, departures, releases and unrelated writes before the deadline: the list is exactly the members initially waited for, or joined while the room plays on demand, who have since neither sufficiently buffered for this revision nor departed; the barrier opens exactly when nobody is left; playback is untouched until then and a playing one restarts from the same position at the opening. |
| HoldExactness.BarrierBegins | server/src/playback-coordinator.ts:43-68 | Whatever begins a barrier (play, seek, switch, join, a share of any video), it waits for exactly the members named, in the order named, on the revision the room now stores, for 30 s, in a room that plays, live only if a live video was just shared. |
| HoldExactness.FrozenUntilEveryoneReady | server/src/playback-coordinator.ts:179-218 | From the operation that begins a barrier on: within the timeout the room is frozen exactly while one of the first waiters, or of the later joiners unless a live video was shared, is outstanding. |
| HoldExactness.StallExact | server/src/playback-coordinator.ts:220-261 | From any room without a barrier, over any reports, departures, releases and unrelated writes, in time or late: the list is exactly those who stalled and have since neither recovered nor departed, with no reset in between (a report at or past the deadline in force, or the release that expires the hold; a late report that stalls counts for nobody); a waiting room playing on demand stays frozen exactly while there is one, and no other room freezes. |
| HoldExactness.HeldAfterReportIff | server/src/playback-coordinator.ts:179-261 | Whether a report leaves the room held: never past the deadline, when list and hold are cleared; in a barrier unless it has 6 s ahead for the stored revision and nobody else is waited for; in a buffer hold unless it has 3 s ahead and nobody else is stalled; otherwise iff it is a first stall (less than 3 s) in a waiting, playing on-demand room. |
| HoldExactness.SwitchHoldsIff | server/src/playback-coordinator.ts:417-459 | A switch stores the strategy, holds the room iff it goes to wait while the room plays on demand with at least two members, and lists exactly them then and nobody otherwise. |
| HoldExactness.JoinFreezesIff | server/src/playback-coordinator.ts:120-167 | A join never releases a room; it freezes it, and lists the joiner, iff the room waits and plays on demand; otherwise hold and listing stay as they were. |
| TimelineConservation.StepMovesBySkipped | server/src/playback-coordinator.ts:284-306 | One coordinating operation, applied at the moment it carries, keeps the room playing at its rate and moves its position at that moment by exactly the frozen time it projects through. |
| TimelineConservation.TimelineLaw | server/src/playback-coordinator.ts:267-306 | Over every time-ordered run of joins, reports, departures, releases, switches, chat and other writes: position at the end is position at the start plus rate times (unfrozen time plus skipped frozen time). |
| TimelineConservation.StepMovesBySkippedAndDrift | server/src/playback-coordinator.ts:284-306 | One operation applied later than the reading it carries: the position moves by the skipped time and by an exact drift (a freeze takes the time since the reading away, a release gives it). |
| TimelineConservation.DriftingTimelineLaw | server/src/playback-coordinator.ts:267-306 | The same law for operations in any order of their readings, with the total drift added exactly. |
| TimelineConservation.TotalDriftWithinStaleness | server/src/playback-coordinator.ts:284-306 | The total drift is at most the total age of the readings when they took effect. |
| TimelineConservation.ConservedIffNoRestart | server/src/playback-coordinator.ts:155-166 | The position is start plus rate times unfrozen time iff no join or switch in the run began a barrier on a hold that had been frozen for a while. |
| TimelineConservation.SkippedIffSomewhere | server/src/playback-coordinator.ts:433-447 | The total skipped time is positive iff some operation of the run skips. |
| TimelineConservation.JoinIntoBufferHoldSkips | server/src/playback-coordinator.ts:155-166 | A witness run from a new room: a join 4 s into a buffer hold moves the room from 0 s to 4 s. |
| UpdateSafety.AcceptanceExact | server/src/playback-authority.ts:32-175 | With a playback stored, an explicit update is accepted iff it does not repeat the rate; another iff it is within tolerance of the on-demand projection (2.5 s; playing: 1 s from the same actor, 0.6 s from another), or in a live room neither stops a playing room nor plays behind the stored position by those margins, and, unless it is the current actor's own, does not follow somebody else's authority window. |
| UpdateSafety.AuthorityWindowGuards | server/src/playback-authority.ts:133-162 | While the playing actor's window is open, no other actor's non-explicit playing update is accepted, nor a nearby non-advancing stop; a closed window decides nothing. |
| UpdateSafety.AuthorityRejectsIff | server/src/playback-authority.ts:133-162 | What somebody else's open window rejects of an update within tolerance: a playing one iff the room does not play, it is less than 1.2 s ahead, or it meets the playback of an owner who started or moved it; a stop iff such an owner's window is open, the room plays, and it is within 1.2 s behind and 0.15 s ahead. |
| UpdateSafety.TakenLosesAtMostTolerance | server/src/playback-authority.ts:115-173 | A taken non-explicit playing update moves viewers back by at most 1 s (0.6 s from another actor) and the age of its reading. |
| UpdateSafety.BoundedLoss | server/src/playback-authority.ts:78-84 | Over any run of coordinating operations and non-explicit playing updates at one rate, in any order of their readings, viewers of an on-demand room fall behind the unfrozen and skipped time by at most one tolerance per taken update and the total age of the readings. |
| UpdateSafety.BoundedLossInOrder | server/src/playback-authority.ts:78-84 | For time-ordered runs of such updates mixed with joins, reports, departures, releases, switches, chat and other writes: viewers fall behind the unfrozen time by at most the tolerances of the updates taken. |
| UpdateSafety.StopsIff | server/src/room-service.ts:2345-2432 | Exactly which updates stop a playing live room or a playing room under a live hold: a stop of the shared video carrying an explicit play or pause, an explicit change to another rate, or a seek in a live room. |
| UpdateSafety.NeverStoppedByAccident | server/src/playback-coordinator.ts:469-503 | Over any run without shares and explicit intents, a playing live room, or a playing room whose updates all meet a live hold, keeps playing and keeps its video. |
| UpdateSafety.UpdateBeginsBarrierIff | server/src/playback-coordinator.ts:505-545 | A taken update begins a barrier iff the room waits, is on demand and has at least two members, and the update plays, keeps the rate, and seeks, jumps by 2.5 s, resumes, or is the first playback. |
| UpdateSafety.HoldAfterUpdate | server/src/room-service.ts:2434-2462 | The hold after any update: a barrier on the update itself, released by a taken stop, otherwise exactly as before. |
| UpdateSafety.ReachablePlaysSharedVideo | server/src/room-service.ts:2345-2359 | Every room reached from a new one plays the video it shares, and plays nothing when it shares none. |
| UpdateSafety.ShareFreezesIff | server/src/room-service.ts:2223-2229 | A share leaves the room held iff it was, or it plays into a waiting room with at least two members whose video being replaced is not live. |
| UpdateSafety.KindIff | server/src/playback-coordinator.ts:505-545 | What an accepted update is recorded as, kind by kind: stop, change of rate, seek, start, or nothing iff it is a steady tick. |
| RoomEffects.TakenIff | server/src/room-service.ts:2345-2432 | Which updates are taken over, on their own fields: of the shared video; with an intent unless it repeats the rate; without one unless it stops a room frozen by a live hold, falls behind by the tolerances, or follows somebody else's window. |
| RoomEffects.UpdateStoresSent | server/src/room-service.ts:2362-2369 | A taken update stores what was sent with actor and clock replaced; the play state differs iff a seek of a playing on-demand room ends on a stopped player, and then the room plays. An update not taken changes nothing. |
| RoomEffects.UpdateLands | server/src/room-service.ts:2362-2462 | After a taken update viewers are at the position sent plus the time since at the rate sent, or at the position sent under a hold. |
| RoomEffects.SeekSeeks | server/src/playback-coordinator.ts:483-503 | A seek of the shared video is always taken, goes to the position asked for, and never stops a playing on-demand room. |
| RoomEffects.ShareLands | server/src/room-service.ts:2205-2243 | A share stores the video and what the sharer sent of position, rate, play state and number, or the paused beginning; viewers go on from there unless held. |
| RoomEffects.CoordinationStores | server/src/playback-coordinator.ts:284-306 | A coordinating operation leaves the playback alone unless a playing room freezes, is released or has its hold restarted; then only stamp and position change, by the time since the old stamp except at a release. |
| RoomEffects.WritesIff | server/src/room-service.ts:1536-1549 | An operation writes iff it has something to change: an update iff taken, a release iff its deadline is in force and has come, joins, reports, departures and switches iff sync state or playback change, the others always. |
| RoomEffects.WrittenRoom | server/src/room-store.ts:237-245 | A write is one version step, marks the room active at its reading (a release does not), and cancels a scheduled expiry iff it is a share, update, report, switch or clearing, or sets it as given. |
| RoomEffects.NewRoomIsQuiet | server/src/room-store.ts:100-156 | A new room is smooth, shares, plays, holds and says nothing, and is at version 0; a room without a stored sync state behaves so too. |
| HoldPromises.HoldPlaysIff | server/src/playback-coordinator.ts:91-105 | From a room where an active hold implies playing, an operation breaks that iff the room is held and it is a share that does not play, or a clearing of the video. |
| HoldPromises.HeldRoomsPlayIff | server/src/playback-coordinator.ts:91-105 | In a run from a new room every active hold means a playing room, at every point, iff no such operation met a held room. |
| HoldPromises.PausedShareStaysHeld | server/src/room-service.ts:2205-2243 | A witness run: a paused share into a barrier leaves the room held and not playing. |
| HoldPromises.BarrierTracksStoredPlaybackIff | server/src/room-service.ts:2443-2462 | Over all operations, a barrier that waits for the stored playback stops doing so iff a share or a taken playing update that begins no barrier stores one of another url, actor, number or time, or the video is cleared. |
| HoldPromises.BarriersTrackPlaybackIff | server/src/playback-coordinator.ts:43-118 | Over runs from a new room: every barrier waits for the stored playback at every point iff no such operation met one. |
| HoldPromises.SteadyTickOvertakesBarrier | server/src/playback-coordinator.ts:99-105 | A witness run: the sharer's next tick in a barrier stores another revision than the barrier waits for. |
| HoldPromises.ReasonListedIff | server/src/playback-coordinator.ts:205-259 | Over all operations, the named member stops being listed iff it recovers before the deadline of a buffer hold while somebody else is still stalled. |
| HoldPromises.NamesAreWaitedForIff | server/src/playback-coordinator.ts:179-261 | Over runs from a new room: the named member is waited for at every point iff that never happened. |
| HoldPromises.ReasonAfter | server/src/playback-coordinator.ts:209-216 | Who is named after a report or departure that leaves the room held: the first still waited for if the named member left or was ready for its barrier, otherwise whoever was named. |
| HoldPromises.ReasonAtStart | server/src/playback-coordinator.ts:57-66 | Who is named when a hold begins: the first waited for in a barrier, whoever stalled in a buffer hold; it starts at the reading of the operation. |
| HoldPromises.ListKeepsOrder | server/src/playback-coordinator.ts:146-149 | A report, a departure or a join into a live barrier leaves the list alone, appends its member, or takes its member out of its place. |
| HoldPromises.FirstToStallRecovers | server/src/playback-coordinator.ts:231-258 | A witness run: two members stall, the first recovers, and its name stays on the hold. |
| HoldPromises.LateReportForgets | server/src/playback-coordinator.ts:185-189 | A witness run: at the deadline of a hold, a report by somebody else takes a member off the list who has neither recovered nor left. |
| HoldPromises.LiveBarrierIgnoresJoiner | server/src/playback-coordinator.ts:128-138 | A witness run: whoever joins the barrier of a live share is not waited for. |
| HoldPromises.ReplacedVideoDecides | server/src/room-service.ts:2223-2229 | Witness runs: a live video freezes a waiting room that had none; an on-demand video shared after a live one does not. |
| ConcurrentRuns.ConcurrentHoldInv | server/src/room-service.ts:1119-1140 | The hold invariant holds of every room that interleaved callers make of a new one. |
| ConcurrentRuns.StoredIffSerial | server/src/room-service.ts:1119-1140 | What an interleaving stores in its course are exactly the rooms after its first commits, one after another: a condition holds of all of the former iff of all of the latter. |
| ConcurrentRuns.ConcurrentPromises | server/src/room-service.ts:1119-1140 | Each of the three promises holds of every room stored at any point of any interleaving iff no commit broke it. |
| ConcurrentRuns.ConcurrentTimeline | server/src/room-service.ts:1119-1140 | For interleaved callers the position is the start plus rate times (unfrozen time by commit times, plus skipped time), up to a drift of at most the total age of the committed readings. |
| ConcurrentRuns.ConcurrentLoss | server/src/room-service.ts:2309-2462 | For interleaved callers with updates: at most one tolerance per taken update and the total age of the committed readings are lost. |
| ConcurrentRuns.OldReportTakesTimeBack | server/src/room-service.ts:2561-2588 | A witness: a stall report carrying 9 000 freezes a room released at 10 000 and takes half a second of playing away at 10 500. |
| PlaybackAuthority.AuthorityTable.Record | server/src/room-service.ts:948-960 | The latest record of a room replaces the earlier one, and lasts 1.2 s. |
| PlaybackAuthority.AuthorityTable.Get | server/src/room-service.ts:936-946 | The answer is the last recorded authority while its window is open and none afterwards: deleting expired entries is invisible. |
| RoomOperations.NextStoresCoordination | server/src/room-service.ts:1966-1997 | Leaving an unchanged coordination unwritten loses nothing: the room ends with the coordinated sync state and playback, and the writes that touch only host, permissions, expiry or activity keep both. |
| RoomOperations.UpdateStores | server/src/room-service.ts:2345-2462 | An update stores the stamped playback and its coordination iff it is of the shared video, not ignored during the hold and accepted; otherwise nothing. |
| RoomStore.LastN | server/src/room-store.ts:240-242 | The most recent entries, up to the limit, as a suffix. |
| RoomStore.InMemoryRoomStore.constructor | server/src/room-store.ts:158-160 | A new store is empty. |
| RoomStore.InMemoryRoomStore.CreateRoom | server/src/room-store.ts:210-218 | A free code gets a new room; a code in use is refused and nothing changes. |
| RoomStore.InMemoryRoomStore.GetRoom | server/src/room-store.ts:219-222 | The stored room, or none. |
| RoomStore.InMemoryRoomStore.UpdateRoom | server/src/room-store.ts:228-248 | Succeeds iff the room exists at the expected version; then exactly that room is patched, its chat cut to 200 and its version advanced by one; otherwise nothing changes. |
| RoomStore.InMemoryRoomStore.DeleteRoom | server/src/room-store.ts:249-251 | Exactly that room is gone. |
| VersionRetry.RetryIsSerial | server/src/room-service.ts:1119-1140 | For any interleaving of any number of retrying callers, the stored room is the committed operations run one after another, and the version counts them. |
| VersionRetry.CommitsExactlyOnce | server/src/room-service.ts:1123-1133 | A call is in the commit log exactly once iff it reports success. |
| VersionRetry.ExhaustedSawOthersCommit | server/src/room-service.ts:1135-1139 | A call that gives up on a live room was passed by at least three commits of others, a playback update by at least one. |
| VersionRetry.ExhaustedIff | server/src/room-service.ts:1123-1139 | In any interleaving a call gives up exactly with its third lost version, a playback update exactly with its first. |
| VersionRetry.LosersTryAgain | server/src/room-service.ts:1123-1133 | A call that loses its first or second version, in any interleaving, tries again, and if undisturbed from then on commits what the room makes of it then. |
| VersionRetry.ReadCarries | server/src/room-service.ts:1119-1162 | Joins, chat, clearings and the other writes take the clock of each attempt; the rest keep the reading they started with. |
| VersionRetry.ReadOutcome | server/src/room-service.ts:1124-1127 | A read ends the call iff the room is gone, and otherwise holds the room as it is. |
| VersionRetry.NothingToWrite | server/src/room-service.ts:1129-1132 | A call with nothing to write ends without touching room or log. |
| VersionRetry.CallResumes | server/src/room-service.ts:1123-1133 | A call that meets nobody commits what the room makes of it when it commits, with the reading it carried. |
| VersionRetry.CallAlone | server/src/room-service.ts:1123-1133 | A call nobody disturbs from start to end takes exactly one step of the room. |
| VersionRetry.NoLostMessages | server/src/room-service.ts:1142-1162 | The stored chat is the last 200 committed messages in commit order, whatever other writers interleave, those of host, permissions, expiry, admission and cleared videos included. |
| VersionRetry.SerialChat | server/src/room-store.ts:240-242 | Cutting the history to 200 at every write equals cutting the whole history once. |
| HoldRelease.LegacyDeadline | server/src/playback-coordinator.ts:328-343 | A hold stored without a deadline ends 10 s after its start, one without any timing at once. |
| HoldRelease.DeadlineMoves | server/src/playback-coordinator.ts:345-379 | The deadline after any operation: if the operation begins a barrier or is a first stall that freezes the room, its own (30 s, or 10 s, after its reading); otherwise the one in force or none. |
| HoldRelease.SetsDeadlineIff | server/src/playback-coordinator.ts:43-68 | A deadline not in force comes into force iff the operation sets a hold (begins a barrier, or stalls first in a room that freezes) and carries a reading a full hold before it. |
| HoldRelease.StaysOutOfForceIff | server/src/playback-coordinator.ts:43-459 | Over runs: a deadline not in force stays out of force throughout iff no such operation occurs. |
| HoldRelease.TrafficKeepsDeadline | server/src/playback-coordinator.ts:140-153 | A report, a departure or a join into a live barrier cannot move its deadline. |
| HoldRelease.BackOnlyIfRearmed | server/src/room-service.ts:2630-2655 | A released deadline is in force later only if a commit in between set a hold from a reading a full hold before it. |
| HoldRelease.ReleasesAreSeparated | server/src/room-service.ts:2622-2664 | In any interleaving, with no premise on readings: a release commits only at or after its deadline and only on a room holding exactly it, and between two releases of one deadline a commit set a hold from a reading a full hold before it. |
| HoldRelease.ReleasedForGoodIff | server/src/room-service.ts:2622-2664 | Exactly when a released deadline is never in force again in an interleaving: iff no later commit sets a hold from a reading a full hold before it. |
| HoldRelease.SingleRelease | server/src/room-service.ts:2622-2664 | A deadline is released at most once if no commit at or after it sets a hold from a reading a full hold before it. |
| HoldRelease.StaleReportReleasesTwice | server/src/room-service.ts:2622-2664 | A witness run of interleaved callers from a new room: a delayed report commits its old reading after the release, and the same deadline is released again. |
| HoldExpiryScheduler.TimersMatchEntries | server/src/playback-hold-expiry-scheduler.ts:37-73 | In every run entries and live timers are in bijection, no timer fires before its deadline, and a stopped scheduler has neither. |
| HoldExpiryScheduler.StaysStopped | server/src/playback-hold-expiry-scheduler.ts:52-54 | Nothing schedules a timer after stop. |
| HoldExpiryScheduler.ObservationDecides | server/src/playback-hold-expiry-scheduler.ts:75-89 | An observed room is scheduled iff its hold is active, at that hold's deadline; other rooms, and an equal deadline, are untouched. |
| HoldExpiryScheduler.ObservationArms | server/src/playback-hold-expiry-scheduler.ts:46-73 | Observing an active hold of a room not scheduled at its deadline replaces its timer by one for the deadline, or the next millisecond if that has come. |
| HoldExpiryScheduler.FailureArms | server/src/playback-hold-expiry-scheduler.ts:99-109 | A failed release or publication is tried again exactly one second later, unless the room has been scheduled meanwhile. |
| HoldExpiryScheduler.AnswerPublishesIff | server/src/playback-hold-expiry-scheduler.ts:93-98 | An answer goes on to publish iff it changed the room, and otherwise ends the expiry. |
| HoldExpiryScheduler.ForgetForgets | server/src/playback-hold-expiry-scheduler.ts:37-44 | A forgotten room has neither entry nor timer, and every other room keeps its own. |
| HoldExpiryScheduler.TimersFireSoon | server/src/playback-hold-expiry-scheduler.ts:46-109 | Over every run a timer fires no later than its deadline or, if that has come, the next millisecond, a second if something failed. |
| HoldExpiryScheduler.NoHoldIsAbandoned | server/src/playback-hold-expiry-scheduler.ts:91-110 | While releases answer with a room or throw, every room last seen with an active hold has a timer or a release in flight. |
| HoldExpiryScheduler.RoomlessAnswerAbandonsIff | server/src/playback-hold-expiry-scheduler.ts:93-97 | An answer without a room keeps that promise iff the room is no longer watched, is scheduled again, or has another release in flight. |
| HoldExpiryScheduler.LostReleaseAbandonsHold | server/src/playback-hold-expiry-scheduler.ts:91-98 | A witness run: a release out of attempts answers without a room, and the watched hold has neither timer nor release left. |
| HoldExpiryScheduler.AbandonsIff | server/src/playback-hold-expiry-scheduler.ts:37-121 | Over all events: a watched hold is left without timer or release iff a running scheduler gets a roomless answer to the last release pending for a watched, unscheduled room. |
| HoldExpiryScheduler.AlwaysAttendedIff | server/src/playback-hold-expiry-scheduler.ts:37-121 | Over runs: every watched hold has a timer or a release in flight at every point iff that never happened. |
| HoldLifecycle.InFlightReleaseFrees | server/src/playback-hold-expiry-scheduler.ts:91-98 | A release in flight for the deadline in force that meets nobody frees the room in one commit, and the scheduler forgets the room. |
| HoldLifecycle.WatchedHoldIsReleased | server/src/playback-hold-expiry-scheduler.ts:61-98 | From a live timer for the deadline in force: once the deadline and a second have come (a millisecond without failures), it fires, starts one release, and that release, meeting nobody, frees the room and leaves nothing scheduled. |
| HoldExpiryScheduler.Scheduler.constructor | server/src/playback-hold-expiry-scheduler.ts:24-35 | Starts with no entry, no timer and not stopped. |
| HoldExpiryScheduler.Scheduler.DropRoom | server/src/playback-hold-expiry-scheduler.ts:37-44 | Cancels a room's timer together with its entry. |
| HoldExpiryScheduler.Scheduler.ScheduleRoom | server/src/playback-hold-expiry-scheduler.ts:46-73 | The whole new state, with the same-deadline and stopped cases. |
| HoldExpiryScheduler.Scheduler.ObserveRoom | server/src/playback-hold-expiry-scheduler.ts:75-89 | The whole new state; a room without a code is ignored. |
| HoldExpiryScheduler.Scheduler.ForgetRoom | server/src/playback-hold-expiry-scheduler.ts:37-44 | The room is dropped and no longer watched. |
| HoldExpiryScheduler.Scheduler.TimerFired | server/src/playback-hold-expiry-scheduler.ts:63-69 | A timer that is still the room's entry removes it and starts one release. |
| HoldExpiryScheduler.Scheduler.ReleaseAnswered | server/src/playback-hold-expiry-scheduler.ts:91-98 | The answered room is observed; an unchanged one ends the expiry, a changed one goes on to publish. |
| HoldExpiryScheduler.Scheduler.ExpiryThrew | server/src/playback-hold-expiry-scheduler.ts:99-109 | A failed release or publish is retried after 1 s unless the room was scheduled meanwhile. |
| HoldExpiryScheduler.Scheduler.StopAll | server/src/playback-hold-expiry-scheduler.ts:115-121 | Stopping cancels every timer. |
| JoinAdmission.ResolvedIff | server/src/room-service.ts:721-726 | The linked promises of a chain resolve exactly when everybody up to that point has finished. |
| JoinAdmission.OneAtATimeInOrder | server/src/room-service.ts:717-786 | In every interleaving, a join that has entered found every earlier join of its process finished. |
| JoinAdmission.EntersIffEarlierFinished | server/src/room-service.ts:721-737 | A waiting join may enter iff every earlier join of its process is finished, also after the chain forgot its tail. |
| JoinAdmission.OneLiveLease | server/src/room-service.ts:680-704 | Over all processes at most one join holds a live lease. |
| JoinAdmission.GrowthIsAddOrRestore | server/src/room-service.ts:1914-1957 | A member appears only by the holder of the live lease adding it, or by a rollback restoring the seat it had taken over, whether the flush failed or outlasted the lease. |
| JoinAdmission.PollOutcome | server/src/room-service.ts:680-704 | A waiting join asks for five seconds from its entry; it gets a thirty-second lease iff none is live, gives up iff the five seconds are over, and waits otherwise. |
| JoinAdmission.CountOutcome | server/src/room-service.ts:1392-1404 | A join passes iff it brings a known token or finds a seat free, under the token's member or its own session. |
| JoinAdmission.RollbackOutcome | server/src/room-service.ts:1931-1957 | A rollback takes the seat only where the join holds it, and gives it back unless somebody else does by then. |
| JoinAdmission.TokenKnownIff | server/src/runtime-store-state.ts:67-78 | A token is known iff its member was added and has since not left for good. |
| JoinAdmission.NewcomerFits | server/src/room-service.ts:1392-1402 | A newcomer leaves the room above its capacity by at most the seats restored since it was counted. |
| JoinAdmission.AtomicNewcomerFits | server/src/room-service.ts:1396-1402 | Without rollbacks in the run, a newcomer never takes the room above its capacity. |
| JoinAdmission.OutgrowsIff | server/src/room-service.ts:1397-1402 | The steps by which a room outgrows its capacity are exactly: an absent member added while it is full (a newcomer only if a seat was restored behind its count), or an absent seat restored while it is full. |
| JoinRuns.UndisturbedJoin | server/src/room-service.ts:1880-1963 | With an empty chain, a free lease and a free seat or known token, a join goes through, takes exactly its seat, and leaves chain and lease free. |
| JoinRuns.ReconnectOutgrows | server/src/room-service.ts:1397-1400 | A witness run: a room for one ends with two members after a reconnect. |
| JoinRuns.RollbackOutgrows | server/src/room-service.ts:1931-1957 | A witness run: a newcomer counted between a rollback and the restoring of the seat becomes the second member of a room for one. |
| RuntimeIndex.IndexesCohere | server/src/runtime-store.ts:141-199 | After every run of register, unregister, join, leave and delete, rooms are non-empty, pairwise disjoint and hold registered sessions, and the address index is the exact inverse of the sessions' addresses. |
| RuntimeIndex.RegisterKeepsInverseIff | server/src/runtime-store.ts:141-150 | Registering keeps that inverse iff it does not move a known session with an address to another address. |
| RuntimeIndex.MembersAreConnections | server/src/runtime-store.ts:217-229 | No more sessions sit in rooms than are connected. |
| RuntimeIndex.JoinMovesSession | server/src/runtime-store.ts:171-181 | A join puts a registered session in the named room and in no other, and moves nobody else. |
| RuntimeIndex.InRoomStep | server/src/runtime-store.ts:141-199 | One event moves exactly whom it names: in by joining while registered, out by leaving, going elsewhere, disconnecting or deletion. |
| RuntimeIndex.InRoomIff | server/src/runtime-store.ts:141-199 | After any run a session is in a room iff it joined it while registered and has since neither left, gone elsewhere, disconnected nor seen it deleted. |
| RuntimeIndex.RegisteredIff | server/src/runtime-store.ts:141-170 | After any run a session is registered, with its address, iff that is the last thing said of it. |
| RuntimeIndex.RuntimeStore.constructor | server/src/runtime-store.ts:95-101 | A new store has empty indexes. |
| RuntimeIndex.RuntimeStore.DetachFromRooms | server/src/runtime-store-state.ts:25-47 | The loop over candidates with a visited set equals removing the id everywhere and dropping emptied rooms. |
| RuntimeIndex.RuntimeStore.RegisterSession | server/src/runtime-store.ts:141-150 | The new session map and all three indexes. |
| RuntimeIndex.RuntimeStore.UnregisterSession | server/src/runtime-store.ts:155-170 | The session is gone from the map and from every index, also when it was unknown. |
| RuntimeIndex.RuntimeStore.MarkSessionJoinedRoom | server/src/runtime-store.ts:171-181 | The new indexes and the room the session remembers; an unknown session changes nothing. |
| RuntimeIndex.RuntimeStore.MarkSessionLeftRoom | server/src/runtime-store.ts:182-199 | The named room is left, else the remembered one; the memory is cleared only if it named that room. What leaving moves is InRoomStep. |
| RuntimeIndex.RuntimeStore.DeleteRoomIndex | server/src/runtime-store.ts:335-337 | Exactly that room's index entry is gone. |
| RuntimeIndex.RuntimeStore.GetActiveMemberCount | server/src/runtime-store.ts:223-229 | The sum over rooms is the number of sessions in some room, at most the number of sessions. |
| ActiveRooms.SeatedIff | server/src/runtime-store-state.ts:67-131 | After any run a session holds a seat iff it took it and since then nobody retook it, removed the member outright or in this session's name, or deleted the room. |
| ActiveRooms.StepTokens | server/src/runtime-store.ts:324-334 | A member's token survives every step except a new token, its own or an outright token removal (an empty token counts as none), and deleting the room; leaving the seat keeps it. |
| ActiveRooms.TokenHeldIff | server/src/runtime-store.ts:251-263 | After any run a member has a token iff it was added with it and since then neither added anew, nor that token removed, nor the room deleted. |
| ActiveRooms.ActiveRoomTable.constructor | server/src/runtime-store.ts:102 | A new table holds no room. |
| ActiveRooms.ActiveRoomTable.AddMember | server/src/runtime-store-state.ts:67-78 | The session takes the seat with its token, in a new room if need be. |
| ActiveRooms.ActiveRoomTable.RemoveMember | server/src/runtime-store-state.ts:110-131 | Reports removal iff somebody lost the seat, and emptiness truthfully after a removal; a replaced session removes nobody. |
| ActiveRooms.ActiveRoomTable.RemoveMemberToken | server/src/runtime-store.ts:324-334 | Reports success iff a token was removed. |
| ActiveRooms.ActiveRoomTable.FindMemberIdByToken | server/src/runtime-store-state.ts:80-90 | A found member carries the token; none is found only if nobody carries it. |
| ActiveRooms.ActiveRoomTable.DeleteRoom | server/src/runtime-store.ts:335-336 | Exactly that room's seats and tokens are gone. |
| RuntimeLeases.LiveStep | server/src/runtime-store.ts:264-341 | What one event does to the live grants: adds its own, ends those it returns or drops. |
| RuntimeLeases.GrantsSeparatedByExpiry | server/src/runtime-store.ts:273-305 | Two grants of one slot or lock with no return by the first holder and no drop of the room between are separated by the first's expiry. |
| RuntimeLeases.PruneSlots | server/src/runtime-store.ts:277-279 | The pruning loop keeps exactly the slots not yet expired. |
| RuntimeLeases.PruneLocks | server/src/runtime-store.ts:296-298 | The pruning loop keeps exactly the locks not yet expired. |
| RuntimeLeases.LeaseTables.constructor | server/src/runtime-store.ts:103-108 | Starts with an empty history. |
| RuntimeLeases.LeaseTables.TryClaimMessageSlot | server/src/runtime-store.ts:273-286 | Granted iff no claim of the whole unpruned history is live. |
| RuntimeLeases.LeaseTables.ReleaseMessageSlot | server/src/runtime-store.ts:287-290 | Returns that slot in the history. |
| RuntimeLeases.LeaseTables.AcquireRoomLock | server/src/runtime-store.ts:291-305 | Granted iff no lock of the whole unpruned history is live, whoever holds it; a refusal is recorded too, since it prunes. |
| RuntimeLeases.LeaseTables.ReleaseRoomLock | server/src/runtime-store.ts:306-320 | Succeeds iff some grant to the token was neither returned nor dropped since and no acquire in the room came at or after its expiry; so always while live; a failed one changes nothing, and other holders never notice. |
| RuntimeLeases.KeptStep | server/src/runtime-store.ts:291-320 | What one event does to the locks still stored: adds its own, ends those returned or dropped, and an acquire in the room ends the expired ones. |
| RuntimeLeases.ReleasesAfterExpiry | server/src/runtime-store.ts:291-320 | Witness runs: an expired lock is released with success, and refused after another acquire in the room. |
| RuntimeLeases.LeaseTables.BlockMemberToken | server/src/runtime-store.ts:264-268 | The kick is added to the history. |
| RuntimeLeases.LeaseTables.IsMemberTokenBlocked | server/src/runtime-store.ts:269-272 | Blocked iff some kick of the whole unpruned history is live. |
| RuntimeLeases.LeaseTables.DropRoom | server/src/runtime-store.ts:335-341 | Every grant of the room ends, none of another room. |
| EventWindow.OldPrefixCountsNothing | server/src/runtime-store.ts:111-119 | Expired events at the front contribute to no count. |
| EventWindow.PrunedWindow | server/src/runtime-store.ts:111-119 | The pruned queue is a suffix of everything recorded, cut exactly at the window. |
| EventWindow.DropOld | server/src/runtime-store.ts:111-119 | The front loop drops expired events only and stops at one that is not. |
| EventWindow.Tally | server/src/runtime-store.ts:235-240 | The counting loop tallies every name. |
| EventWindow.EventCounters.PruneEvents | server/src/runtime-store.ts:111-119 | Only expired events go; the record and lifetime counts stay. |
| EventWindow.EventCounters.RecordEvent | server/src/runtime-store.ts:200-204 | The event joins the record; queue and lifetime counts agree with it. |
| EventWindow.EventCounters.GetRecentEventCounts | server/src/runtime-store.ts:233-240 | The counts are those of the last minute of everything ever recorded. |
| RateLimit.WindowAdmitsTwiceTheLimit | server/src/rate-limit.ts:46-63 | Whatever came before, any half-open interval of one window length admits at most twice the limit. |
| RateLimit.WindowProgress | server/src/rate-limit.ts:46-63 | In such an interval the window is reset at most once, and the counter accounts for every admission since. |
| RateLimit.WindowAdmitsExactly | server/src/rate-limit.ts:46-63 | The exact count in any half-open interval of one window length: those still in the open window up to what the limit leaves there, the rest up to one full limit. |
| RateLimit.ExceedsLimitIff | server/src/rate-limit.ts:46-63 | More than the limit is admitted there iff the open window has room left for some of them, more of them come after its end than it had already counted, and together they are more than the limit. |
| RateLimit.TwiceTheLimitHappens | server/src/rate-limit.ts:52-55 | A witness for every limit: as many requests at the end of one window as at the start of the next are all admitted. |
| RateLimit.BucketStep | server/src/rate-limit.ts:65-82 | Tokens stay within capacity, and an admission is paid from the old tokens and the refill. |
| RateLimit.BucketBalance | server/src/rate-limit.ts:65-82 | A request is admitted iff what is left and earned since, up to capacity, makes a whole token, and it costs exactly one. |
| RateLimit.BurstIsServed | server/src/rate-limit.ts:65-82 | Requests at one instant are admitted one for each whole token in the bucket. |
| RateLimit.SteadyRequestsAreServed | server/src/rate-limit.ts:65-82 | A client whose requests come at least a token apart is never refused. |
| RateLimit.BucketAdmitsAtMostEarned | server/src/rate-limit.ts:65-82 | Over any run of a bucket that started full, tokens stay within [0, capacity] and any later stretch admits at most capacity plus what its duration earns. |
| RateLimit.WindowCounter.Consume | server/src/rate-limit.ts:46-63 | In-place counter and answer equal the specification step. |
| RateLimit.TokenBucket.Consume | server/src/rate-limit.ts:65-82 | In-place bucket and answer equal the specification step. |
| UpgradePolicy.SweepingIsInvisible | server/src/security.ts:138-193 | For every time-ordered sequence of requests, sweeping idle entries on every 64th call changes no decision. |
| UpgradePolicy.DecidedByOwnRequests | server/src/security.ts:169-193 | Every decision is the one of a one-minute fixed window for that address alone, opened by its first request. |
| UpgradePolicy.AtMostTwicePerMinute | server/src/security.ts:169-193 | In any minute one address gets at most twice the limit through, whatever the sweeps. |
| UpgradePolicy.SweepKeepsIff | server/src/security.ts:153-167 | On every 64th call exactly the addresses idle for ten minutes and not connected are forgotten. |
| UpgradePolicy.EvaluateKeepsMatch | server/src/security.ts:153-167 | One request is decided alike with and without the sweep, and the tables still match afterwards. |
| UpgradePolicy.SecurityPolicy.IncrementConnectionCount | server/src/security.ts:116-124 | One more connection for that address only; no address, no change. |
| UpgradePolicy.SecurityPolicy.DecrementConnectionCount | server/src/security.ts:126-136 | One fewer for that address only; the last one removes the entry, an unknown address stays absent. |
| UpgradePolicy.SecurityPolicy.SweepAttemptWindows | server/src/security.ts:159-166 | Exactly the idle addresses without connections are swept. |
| UpgradePolicy.SecurityPolicy.EvaluateAttempt | server/src/security.ts:169-193 | Table, call count and answer equal the specification step. |
| PublishBackpressure.CapHolds | server/src/message-handler.ts:391-411 | However many callers race, pending publishes never exceed the cap. |
| PublishBackpressure.FateIsFinal | server/src/message-handler.ts:412-456 | A call that started or was dropped stays so. |
| PublishBackpressure.EndsByDeadline | server/src/message-handler.ts:410-413 | With punctual timers, once the clock is past a call's arrival plus the wait, it has started or been dropped. |
| PublishBackpressure.LateMoveEnds | server/src/message-handler.ts:411-456 | With timers as late as they like: a call that wakes or times out at or past its deadline ends there, and its timer may fire. |
| PublishBackpressure.CallStartsOrWaits | server/src/message-handler.ts:391-413 | A new call takes a free slot at once, and with none free waits the whole configured time. |
| PublishBackpressure.NeverDroppedEarly | server/src/message-handler.ts:410-413 | Over any run no call is dropped before it has waited the whole configured time. |
| PublishBackpressure.DeadlineFixed | server/src/message-handler.ts:410-412 | A waiting call keeps the deadline it computed first, through any wake-ups. |
| PublishBackpressure.NoLostWakeUp | server/src/message-handler.ts:430-436 | Whenever a slot is free every waiting call can wake and take it; at its deadline it can time out. |
| PublishBackpressure.DropsOnlyWhenDue | server/src/message-handler.ts:413-454 | A drop happens only at the deadline, or at once when there is no wait and every slot is taken. |
| RoomSession.ReplayConvergesIff | extension/src/background/room-session-controller.ts:143-155 | A snapshot of any prefix with the deltas from any other prefix on replayed over it has exactly the server's final ids iff the two prefixes agree on the members those deltas do not touch. |
| RoomSession.SnapshotPlusDeltasConverges | extension/src/background/room-session-controller.ts:143-155 | A snapshot of any prefix with every delta from that prefix or earlier replayed over it has exactly the server's final ids, without repeats. |
| RoomSession.LastTouchDecides | extension/src/background/room-session-controller.ts:111-141 | Where a member ends depends only on its last delta; an untouched member stays where it was. |
| RoomSession.ReplayKeepsRoom | extension/src/background/room-session-controller.ts:143-155 | Replay keeps the room, keeps ids unique, and ignores other rooms' deltas. |
| RoomSession.LastRecordStands | extension/src/background/room-session-controller.ts:111-141 | After a replay each member's record is what the last delta about the member brought, or the snapshot's if there was none; and there is nobody else. |
| RoomSession.ClientConverges | extension/src/background/room-session-controller.ts:182-548 | End to end, for every run after a join with any deltas, snapshots (applied or ignored as stale) and timers: after the last applied snapshot the client has exactly the server's ids iff that snapshot agrees with the start of the deltas still replayed over it on the members they do not touch. |
| RoomSession.WaitQueues | extension/src/background/room-session-controller.ts:157-258 | While the wait after a join lasts, every delta of the room is queued; once a snapshot or the timer of that wait ended it, the queue stays empty. |
| RoomSession.SettledApplies | extension/src/background/room-session-controller.ts:451-485 | Settled on a snapshot, a client applies every delta of the room, and no timer disturbs it. |
| RoomSession.MissedDeltaDiverges | extension/src/background/room-session-controller.ts:182-227 | Two witness runs: an older snapshot taken up after a delta, and a wait that runs out with nothing to apply its queue to before the snapshot, leave a client that was told everything without the member who joined. |
| RoomSession.OldTimersDoNothing | extension/src/background/room-session-controller.ts:182-190 | A timer armed before the latest join or snapshot changes nothing. |
| RoomSession.PendingShareDecides | extension/src/background/room-session-controller.ts:487-526 | While a share is pending only a snapshot of that video is taken up; otherwise every one is; one that is not changes nothing. |
| RoomSession.DeltaDecides | extension/src/background/room-session-controller.ts:157-171 | A delta is queued while its room is awaited, from the request to join until the wait after the join is over; otherwise applied to a state of its room, or dropped. |
| RoomSession.ExpiredWaitSettles | extension/src/background/room-session-controller.ts:182-227 | The timer of a wait ends it: a state of the room gets the ids its queue makes of it, no state stays none, and the queue is gone. |
| RoomSession.RoomSessionController.ConsumePendingMemberDeltas | extension/src/background/room-session-controller.ts:143-155 | The state is the replay of the queue, and exactly the other rooms' deltas stay queued, in order. |
| RoomSession.RoomSessionController.HandleMemberDelta | extension/src/background/room-session-controller.ts:451-485 | Queued while awaiting the room, applied to a matching state, dropped otherwise. |
| RoomSession.RoomSessionController.HandleRoomState | extension/src/background/room-session-controller.ts:487-526 | A snapshot of another video than the one about to be shared changes nothing; any other replays the queue, ends the wait and retires the timer generation. |
| RoomSession.RoomSessionController.HandleRoomJoined | extension/src/background/room-session-controller.ts:346-357 | Keeps only this room's queued deltas and starts a new wait generation. |
| RoomSession.RoomSessionController.ExpireBootstrapWait | extension/src/background/room-session-controller.ts:182-227 | Only the current generation's timer acts: it applies the queue to a matching state or drops it. |
| ClockSync.SampleErrsByHalfRtt | extension/src/background/clock-sync.ts:54-62 | A sample measures the round trip exactly and the offset to within half of it. |
| ClockSync.StoredOffsetError | extension/src/background/clock-sync.ts:64-73 | If every sample errs by at most e, the stored offset errs by at most e + 5/3 ms after any number of rounded updates. |
| ClockSync.EstimateFollowsSamples | extension/src/background/clock-sync.ts:64-73 | After n further samples within e of a value, offset and round trip are within e + 5/3 ms of it plus 0.7^n of the old distance. |
| ClockSync.FirstSampleIsTaken | extension/src/background/clock-sync.ts:64-73 | The first sample is taken as it is. |
| ClockSync.OffsetErrorFromRtt | extension/src/background/clock-sync.ts:43-74 | With round trips of at most r and non-negative delays, the stored offset errs by at most r/2 + 5/3 ms. |
| ClockSync.PositionError | extension/src/background/clock-sync.ts:89-98 | An offset error of e ms shows as at most e/1000 s times the rate. |
| ClockSync.ExactOffsetMatchesServer | extension/src/background/clock-sync.ts:76-100 | With the exact offset and a usable rate the client shows the server's own projection. |
| ClockSync.ShownAsSent | extension/src/background/clock-sync.ts:81-87 | Without an estimate, or while nothing plays, the position is shown as sent. |
| PathToken.ParsePrintedNumber | services/media-extractor-service/app.py:79 | Printing a number in base 36 and parsing it gives it back. |
| PathToken.ParseDecorated | services/media-extractor-service/app.py:79 | Space around the number and a plus sign make no difference; a minus sign negates it. |
| PathToken.UnderscoresAndCase | services/media-extractor-service/app.py:79 | One underscore between digits makes no difference, elsewhere it makes no number; letters count alike in either case. |
| PathToken.BitsValue | services/media-extractor-service/app.py:79 | The reversed binary digits of a number stand for that number. |
| PathToken.XorOfBits | services/media-extractor-service/app.py:83-88 | The digit-wise exclusive or of zero-padded digits stands for the exclusive or of the numbers. |
| PathToken.XorTwice | services/media-extractor-service/app.py:83-88 | Masking twice gives the number back. |
| PathToken.DecodePathToken | services/media-extractor-service/app.py:77-91 | The loop over digits computes the number-level decoding, nothing for a malformed token, and raises on a negative number, whose binary text keeps a letter. |
| PathToken.MaskedIdDecodesIff | services/media-extractor-service/app.py:77-91 | An id masked and printed in base 36 decodes to itself iff it is at least 900000. |
| PathToken.MaskedIdDecodes | services/media-extractor-service/app.py:83-91 | Every masked id decodes to itself, or below 900000 to a hundred times the sum of the two. |
| PathToken.DecodedIdsAreRegular | services/media-extractor-service/app.py:77-91 | A token decodes iff it is a non-negative number; every id is at least 900000, and one that needed no correction masks back to the token's number. |

## Left out

- The Redis stores and buses: their meaning rests on a client library and server that are not part of this model.
- Object identity of playback records: a playback is compared by value, so a write whose playback is a new but equal record bumps no version here.
- PlaybackModel.Playback: carries the fields that any decision reads; `updatedAt`, `userInitiated` and display fields are not modelled.
- VersionRetry.RetryIsSerial: a room deleted and created again under the same code is not modelled; a deletion is a step after which the room stays gone.
- RoomOperations.UpdateStores: a duplicate of an update, turned away by its message slot before the room is looked at, is no operation here; the slots themselves are in RuntimeLeases.
- JoinAdmission.NewcomerFits: the join token, kick check and version retry inside the critical section are not modelled; they only turn joins away.
- JoinAdmission.EntersIffEarlierFinished: says when a join may enter, not that the process gets round to it.
- Recovery from a failed leave (`restoreLeaveState`): a leave always succeeds here.
- UpdateSafety.BoundedLoss: is about on-demand video and unchanged rates; a live room is not projected by the source.
- UpgradePolicy.SweepingIsInvisible: covers the attempt limit only; the origin check and the limit on open connections come after it and read no attempt window.
- RoomSession.ClientConverges: starts at a join; creating a room, which clears the queue and then waits the same way, is not modelled.
- PathToken.DecodePathToken: takes ASCII digits, letters, signs, underscores and white space as Python's `int` does; other scripts' digits and spaces are not modelled, nor is the interpreter's limit on the number of digits (4300 by default in recent versions).
- Floating-point rounding: the model computes with reals, except for the rounded moving average of the clock estimate.
- `flushPendingPublishes`, node heartbeats, session and room listings: only easy facts.
- Permissions, host election, audit events, chat text rules, announcements: single-branch checks.
- WebSocket and HTTP handling, media download, browser tabs, popup and admin pages, page scraping, logging and metrics.
