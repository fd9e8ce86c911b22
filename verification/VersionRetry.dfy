/** The optimistic retry loop over one stored room, with any number of concurrent callers.
    Reads and commits interleave freely; a commit succeeds only on the version it read. */
module VersionRetry {
  import opened PlaybackModel
  import opened RoomStore
  import opened RoomOperations

  const MAX_VERSION_RETRIES: nat := 3

  type CallId = nat

  datatype Phase =
    | Attempting(attempt: nat)
    | Holding(attempt: nat, snapshot: Room)
    | Committed(index: nat)
    | Kept
    | Missing
    | Exhausted

  datatype Call = Call(op: RoomOp, phase: Phase, firstRead: Option<nat>)

  datatype Entry = Entry(id: CallId, op: RoomOp, committedAt: int)

  datatype System = System(room: Option<Room>, log: seq<Entry>, calls: map<CallId, Call>, clock: int)

  datatype Action = Start(id: CallId, op: RoomOp) | Read(id: CallId) | Commit(id: CallId) | Delete | Tick

  datatype Step = Step(at: int, action: Action)

  // A playback update gets a single attempt; every other operation retries.
  function MaxAttempts(op: RoomOp): nat {
    if op.UpdatePlayback? then 1 else MAX_VERSION_RETRIES
  }

  // These operations read the clock again on each attempt.
  function Refreshed(op: RoomOp, at: int): RoomOp {
    match op
    case JoinMember(memberId, _) => JoinMember(memberId, at)
    case AppendChat(message, _) => AppendChat(message, at)
    case TouchRoom(expiresAt, _) => TouchRoom(expiresAt, at)
    case ClearVideo(_) => ClearVideo(at)
    case _ => op
  }

  predicate Enabled(s: System, step: Step) {
    && s.clock <= step.at
    && match step.action
       case Start(id, op) => id !in s.calls && op.now == step.at
       case Read(id) => id in s.calls && s.calls[id].phase.Attempting?
       case Commit(id) => id in s.calls && s.calls[id].phase.Holding?
       case _ => true
  }

  function WithPhase(s: System, id: CallId, phase: Phase): System
    requires id in s.calls
  {
    s.(calls := s.calls[id := s.calls[id].(phase := phase)])
  }

  function DoRead(s: System, id: CallId): System
    requires id in s.calls && s.calls[id].phase.Attempting?
  {
    if s.room.None? then WithPhase(s, id, Missing)
    else
      var call := s.calls[id];
      var first := if call.firstRead.Some? then call.firstRead else Some(s.room.value.version);
      s.(calls := s.calls[id := Call(Refreshed(call.op, s.clock),
                                     Holding(call.phase.attempt, s.room.value), first)])
  }

  function DoCommit(s: System, id: CallId): System
    requires id in s.calls && s.calls[id].phase.Holding?
  {
    var op := s.calls[id].op;
    var attempt, snapshot := s.calls[id].phase.attempt, s.calls[id].phase.snapshot;
    match DecideOp(snapshot, op)
    case Keep => WithPhase(s, id, Kept)
    case Write(patch) =>
      if s.room.Some? && s.room.value.version == snapshot.version then
        WithPhase(s, id, Committed(|s.log|)).(
          room := Some(ApplyPatch(s.room.value, patch, op.now)),
          log := s.log + [Entry(id, op, s.clock)])
      else if attempt + 1 < MaxAttempts(op) then WithPhase(s, id, Attempting(attempt + 1))
      else WithPhase(s, id, Exhausted)
  }

  function Take(s: System, step: Step): System
    requires Enabled(s, step)
  {
    var timed := s.(clock := step.at);
    match step.action
    case Start(id, op) => timed.(calls := s.calls[id := Call(op, Attempting(0), None)])
    case Read(id) => DoRead(timed, id)
    case Commit(id) => DoCommit(timed, id)
    case Delete => timed.(room := None)
    case Tick => timed
  }

  function Initial(room: Room, clock: int): System {
    System(Some(room), [], map[], clock)
  }

  /** Any interleaving at all: a step that is not enabled where it stands does nothing. */
  function Run(room: Room, clock: int, steps: seq<Step>): System
    decreases |steps|
  {
    if steps == [] then Initial(room, clock)
    else
      var before, step := Run(room, clock, steps[..|steps| - 1]), steps[|steps| - 1];
      if Enabled(before, step) then Take(before, step) else before
  }

  function OpsOf(log: seq<Entry>): (ops: seq<RoomOp>)
    ensures |ops| == |log|
    ensures forall i :: 0 <= i < |log| ==> ops[i] == log[i].op
  {
    seq(|log|, i requires 0 <= i < |log| => log[i].op)
  }

  /** The room after the first n commits, run one after another with nobody else around. */
  function Serial(initial: Room, log: seq<Entry>, n: nat): Room
    requires n <= |log|
  {
    RunOps(initial, OpsOf(log)[..n])
  }

  lemma SerialExtends(initial: Room, log: seq<Entry>, entry: Entry)
    ensures forall n: nat | n <= |log| :: Serial(initial, log + [entry], n) == Serial(initial, log, n)
    ensures Serial(initial, log + [entry], |log| + 1) == Next(Serial(initial, log, |log|), entry.op)
  {
    hide Next;
    var longer := OpsOf(log + [entry]);
    assert forall n: nat | n <= |log| :: longer[..n] == OpsOf(log)[..n];
    assert longer[..|log| + 1] == longer;
    assert longer[..|log|] == OpsOf(log)[..|log|];
  }

  // ---- The invariant ----

  // Every version a call lost on its way was a commit by somebody else.
  predicate CallInv(initial: Room, room: Option<Room>, log: seq<Entry>, clock: int, id: CallId, call: Call) {
    && call.op.now <= clock
    && (call.firstRead.Some? ==> initial.version <= call.firstRead.value <= initial.version + |log|)
    && match call.phase
       case Attempting(attempt) =>
         && attempt < MaxAttempts(call.op)
         && (attempt > 0 ==> call.firstRead.Some?)
         && (room.Some? && attempt > 0 ==> call.firstRead.value + attempt <= room.value.version)
       case Holding(attempt, snapshot) =>
         && attempt < MaxAttempts(call.op)
         && call.firstRead.Some?
         && initial.version <= snapshot.version <= initial.version + |log|
         && snapshot == Serial(initial, log, snapshot.version - initial.version)
         && (room.Some? ==> call.firstRead.value + attempt <= snapshot.version)
       case Committed(index) => index < |log| && log[index].id == id && log[index].op == call.op
       case Exhausted =>
         && call.firstRead.Some?
         && (room.Some? ==> call.firstRead.value + MaxAttempts(call.op) <= room.value.version)
       case _ => true
  }

  predicate LogInv(s: System) {
    && (forall i :: 0 <= i < |s.log| ==>
          && s.log[i].id in s.calls
          && s.calls[s.log[i].id].phase == Committed(i)
          && s.log[i].op.now <= s.log[i].committedAt <= s.clock)
    && (forall i, j :: 0 <= i < j < |s.log| ==> s.log[i].committedAt <= s.log[j].committedAt)
  }

  ghost predicate WritesInv(initial: Room, log: seq<Entry>) {
    forall i :: 0 <= i < |log| ==> DecideOp(Serial(initial, log, i), log[i].op).Write?
  }

  ghost predicate Inv(initial: Room, s: System) {
    && (s.room.Some? ==>
          && s.room.value == Serial(initial, s.log, |s.log|)
          && s.room.value.version == initial.version + |s.log|)
    && (forall id :: id in s.calls ==> CallInv(initial, s.room, s.log, s.clock, id, s.calls[id]))
    && LogInv(s)
    && WritesInv(initial, s.log)
  }

  lemma WriteBumpsVersion(room: Room, op: RoomOp)
    requires DecideOp(room, op).Write?
    ensures Next(room, op).version == room.version + 1
    ensures Next(room, op) == ApplyPatch(room, DecideOp(room, op).patch, op.now)
  {
  }

  lemma CallInvPersists(initial: Room, s: System, room: Option<Room>, entry: Entry, clock: int, id: CallId)
    requires Inv(initial, s) && id in s.calls && s.clock <= clock
    requires s.room.Some? && room.Some? && room.value.version == s.room.value.version + 1
    ensures CallInv(initial, room, s.log + [entry], clock, id, s.calls[id])
  {
    hide DecideOp, Next, RunOps, Serial;
    SerialExtends(initial, s.log, entry);
  }

  lemma SuccessKeepsInv(initial: Room, s: System, id: CallId, patch: RoomPatch)
    requires Inv(initial, s) && id in s.calls && s.calls[id].phase.Holding?
    requires s.room.Some? && s.room.value.version == s.calls[id].phase.snapshot.version
    requires DecideOp(s.calls[id].phase.snapshot, s.calls[id].op) == Write(patch)
    ensures Inv(initial, DoCommit(s, id))
  {
    hide DecideOp, Next, RunOps, Serial, ApplyPatch;
    var after := DoCommit(s, id);
    var call := s.calls[id];
    var entry := Entry(id, call.op, s.clock);
    WriteBumpsVersion(call.phase.snapshot, call.op);
    SerialExtends(initial, s.log, entry);
    forall other | other in after.calls ensures CallInv(initial, after.room, after.log, after.clock, other, after.calls[other]) {
      CallInvPersists(initial, s, after.room, entry, s.clock, other);
    }
    forall i | 0 <= i < |after.log| ensures DecideOp(Serial(initial, after.log, i), after.log[i].op).Write? {
      assert i < |s.log| ==> DecideOp(Serial(initial, s.log, i), s.log[i].op).Write?;
    }
  }

  lemma CommitKeepsInv(initial: Room, s: System, id: CallId)
    requires Inv(initial, s) && id in s.calls && s.calls[id].phase.Holding?
    ensures Inv(initial, DoCommit(s, id))
  {
    hide DecideOp, Next, RunOps, Serial, ApplyPatch, WritesInv;
    var decided := DecideOp(s.calls[id].phase.snapshot, s.calls[id].op);
    if decided.Write? && s.room.Some? && s.room.value.version == s.calls[id].phase.snapshot.version {
      SuccessKeepsInv(initial, s, id, decided.patch);
    }
  }

  lemma TakeKeepsInv(initial: Room, s: System, step: Step)
    requires Inv(initial, s) && Enabled(s, step)
    ensures Inv(initial, Take(s, step))
  {
    hide DecideOp, Next, RunOps, Serial, ApplyPatch, DoCommit;
    var timed := s.(clock := step.at);
    assert Inv(initial, timed) by {
      assert forall id :: id in s.calls ==> CallInv(initial, s.room, s.log, s.clock, id, s.calls[id]);
    }
    match step.action
    case Commit(id) => CommitKeepsInv(initial, timed, id);
    case _ =>
  }

  lemma {:induction false} RunInv(initial: Room, clock: int, steps: seq<Step>)
    ensures Inv(initial, Run(initial, clock, steps))
    decreases |steps|
  {
    hide DecideOp, Take, Next;
    if steps == [] {
      assert OpsOf([])[..0] == [];
    } else {
      var before, step := Run(initial, clock, steps[..|steps| - 1]), steps[|steps| - 1];
      RunInv(initial, clock, steps[..|steps| - 1]);
      if Enabled(before, step) {
        TakeKeepsInv(initial, before, step);
      }
    }
  }

  // ---- Main results ----

  /** Concurrency changes nothing: the stored room is the committed operations run one by one,
      and the version counts them. */
  lemma RetryIsSerial(initial: Room, clock: int, steps: seq<Step>, s: System)
    requires s == Run(initial, clock, steps) && s.room.Some?
    ensures s.room.value == RunOps(initial, OpsOf(s.log))
    ensures s.room.value.version == initial.version + |s.log|
  {
    hide DecideOp, Next;
    RunInv(initial, clock, steps);
    assert OpsOf(s.log)[..|s.log|] == OpsOf(s.log);
  }

  /** A call is in the log once if it reports success and never otherwise. */
  lemma CommitsExactlyOnce(initial: Room, clock: int, steps: seq<Step>, s: System, id: CallId)
    requires s == Run(initial, clock, steps) && id in s.calls
    ensures s.calls[id].phase.Committed? <==> exists i :: 0 <= i < |s.log| && s.log[i].id == id
    ensures forall i, j :: 0 <= i < |s.log| && 0 <= j < |s.log| && s.log[i].id == id && s.log[j].id == id ==> i == j
  {
    RunInv(initial, clock, steps);
  }

  /** A call that gives up on a live room saw as many commits by others as it had attempts. */
  lemma ExhaustedSawOthersCommit(initial: Room, clock: int, steps: seq<Step>, s: System, id: CallId)
    requires s == Run(initial, clock, steps) && s.room.Some?
    requires id in s.calls && s.calls[id].phase == Exhausted
    ensures var call := s.calls[id];
            && call.firstRead.Some?
            && var since := call.firstRead.value - initial.version;
               && 0 <= since
               && since + (if call.op.UpdatePlayback? then 1 else 3) <= |s.log|
               && forall i :: since <= i < |s.log| ==> s.log[i].id != id
  {
    RunInv(initial, clock, steps);
  }

  // ---- Chat history ----

  function ChatOf(ops: seq<RoomOp>): seq<ChatMessage> {
    if ops == [] then []
    else
      var last := ops[|ops| - 1];
      ChatOf(ops[..|ops| - 1]) + if last.AppendChat? then [last.message] else []
  }

  lemma DropTwice<T>(s: seq<T>, d: nat, e: nat)
    requires d + e <= |s|
    ensures s[d..][e..] == s[d + e..]
  {
  }

  lemma LastNAppend<T>(n: nat, s: seq<T>, t: seq<T>)
    ensures LastN(n, LastN(n, s) + t) == LastN(n, s + t)
  {
    var kept := LastN(n, s);
    var dropped := |s| - |kept|;
    assert (s + t)[dropped..] == kept + t;
    if |kept + t| > n {
      DropTwice(s + t, dropped, |kept + t| - n);
    } else if dropped > 0 {
      assert t == [] && s + t == s && kept + t == kept;
    }
  }

  lemma NextChat(room: Room, op: RoomOp)
    ensures Next(room, op).chatMessages
         == if op.AppendChat? then LastN(CHAT_HISTORY_LIMIT, room.chatMessages + [op.message]) else room.chatMessages
  {
  }

  lemma {:induction false} SerialChat(initial: Room, ops: seq<RoomOp>)
    requires |initial.chatMessages| <= CHAT_HISTORY_LIMIT
    ensures RunOps(initial, ops).chatMessages == LastN(CHAT_HISTORY_LIMIT, initial.chatMessages + ChatOf(ops))
    decreases |ops|
  {
    hide Next, LastN;
    if ops == [] {
      assert initial.chatMessages + [] == initial.chatMessages;
    } else {
      var front, op := ops[..|ops| - 1], ops[|ops| - 1];
      SerialChat(initial, front);
      NextChat(RunOps(initial, front), op);
      var soFar := initial.chatMessages + ChatOf(front);
      if op.AppendChat? {
        LastNAppend(CHAT_HISTORY_LIMIT, soFar, [op.message]);
        assert soFar + [op.message] == initial.chatMessages + ChatOf(ops);
      } else {
        assert initial.chatMessages + ChatOf(ops) == soFar;
      }
    }
  }

  /** No chat message is lost or duplicated: the stored history is the last 200 committed ones in
      commit order, whatever other writers interleave. */
  lemma NoLostMessages(initial: Room, clock: int, steps: seq<Step>, s: System)
    requires s == Run(initial, clock, steps) && s.room.Some?
    requires initial.chatMessages == []
    ensures s.room.value.chatMessages == LastN(200, ChatOf(OpsOf(s.log)))
  {
    hide DecideOp, Next;
    RetryIsSerial(initial, clock, steps, s);
    SerialChat(initial, OpsOf(s.log));
    assert [] + ChatOf(OpsOf(s.log)) == ChatOf(OpsOf(s.log));
  }

  // ---- Calls that nobody disturbs ----

  function Alone(id: CallId, op: RoomOp): seq<Step> {
    [Step(op.now, Start(id, op)), Step(op.now, Read(id)), Step(op.now, Commit(id))]
  }

  function Resumed(id: CallId, at: int): seq<Step> {
    [Step(at, Read(id)), Step(at, Commit(id))]
  }

  lemma EmptyRun(room: Room, clock: int)
    ensures Run(room, clock, []) == Initial(room, clock)
  {
  }

  lemma RunStep(room: Room, clock: int, steps: seq<Step>, step: Step)
    ensures Run(room, clock, steps + [step])
         == if Enabled(Run(room, clock, steps), step) then Take(Run(room, clock, steps), step) else Run(room, clock, steps)
  {
    assert (steps + [step])[..|steps|] == steps;
  }

  // Renewing at the reading an operation already carries changes nothing.
  lemma RefreshedIsNow(op: RoomOp, at: int)
    ensures Refreshed(op, op.now) == op
    ensures Refreshed(op, at).now in {at, op.now}
  {
  }

  /** A call that was started earlier and meets nobody commits what the room makes of it now. */
  lemma CallResumes(room: Room, clock: int, steps: seq<Step>, id: CallId, at: int)
    requires var s := Run(room, clock, steps);
             && s.room.Some? && s.clock <= at
             && id in s.calls && s.calls[id].phase.Attempting?
             && DecideOp(s.room.value, Refreshed(s.calls[id].op, at)).Write?
    ensures var s, after := Run(room, clock, steps), Run(room, clock, steps + Resumed(id, at));
            var op := Refreshed(s.calls[id].op, at);
            && after.room == Some(Next(s.room.value, op))
            && after.log == s.log + [Entry(id, op, at)]
            && after.clock == at
            && after.calls.Keys == s.calls.Keys && after.calls[id].phase == Committed(|s.log|)
            && forall other :: other in s.calls && other != id ==> after.calls[other] == s.calls[other]
  {
    hide DecideOp, Run, Refreshed, Next;
    var s := Run(room, clock, steps);
    var read := steps + [Step(at, Read(id))];
    RunStep(room, clock, steps, Step(at, Read(id)));
    RunStep(room, clock, read, Step(at, Commit(id)));
    assert read + [Step(at, Commit(id))] == steps + Resumed(id, at);
    RefreshedIsNow(s.calls[id].op, at);
    WriteBumpsVersion(s.room.value, Refreshed(s.calls[id].op, at));
  }

  /** A call that meets nobody from start to end. */
  lemma CallAlone(room: Room, clock: int, steps: seq<Step>, id: CallId, op: RoomOp)
    requires var s := Run(room, clock, steps);
             && s.room.Some? && s.clock <= op.now && id !in s.calls && DecideOp(s.room.value, op).Write?
    ensures var s, after := Run(room, clock, steps), Run(room, clock, steps + Alone(id, op));
            && after.room == Some(Next(s.room.value, op))
            && after.log == s.log + [Entry(id, op, op.now)]
            && after.clock == op.now
            && after.calls.Keys == s.calls.Keys + {id}
            && forall other :: other in s.calls ==> after.calls[other] == s.calls[other]
  {
    hide DecideOp, Run, Next;
    var started := steps + [Step(op.now, Start(id, op))];
    RunStep(room, clock, steps, Step(op.now, Start(id, op)));
    CallResumes(room, clock, started, id, op.now);
    assert started + Resumed(id, op.now) == steps + Alone(id, op);
  }

  // ---- Calls that lose a version ----

  // The call's write is refused because somebody else committed after its read, or the room is gone.
  predicate LosesVersion(s: System, step: Step, id: CallId) {
    && Enabled(s, step) && step.action == Commit(id)
    && DecideOp(s.calls[id].phase.snapshot, s.calls[id].op).Write?
    && !(s.room.Some? && s.room.value.version == s.calls[id].phase.snapshot.version)
  }

  function Losses(room: Room, clock: int, steps: seq<Step>, id: CallId): nat
    decreases |steps|
  {
    if steps == [] then 0
    else
      var front, step := steps[..|steps| - 1], steps[|steps| - 1];
      Losses(room, clock, front, id) + if LosesVersion(Run(room, clock, front), step, id) then 1 else 0
  }

  // A call is at the attempt after the versions it lost; it gives up with its third lost version, a
  // playback update with its first.
  predicate CountsLosses(s: System, id: CallId, losses: nat) {
    if id !in s.calls then losses == 0
    else
      var limit: nat := if s.calls[id].op.UpdatePlayback? then 1 else 3;
      match s.calls[id].phase
      case Attempting(attempt) => attempt == losses < limit
      case Holding(attempt, _) => attempt == losses < limit
      case Exhausted => losses == limit
      case _ => losses < limit
  }

  lemma StepCountsLosses(s: System, step: Step, id: CallId, losses: nat)
    requires CountsLosses(s, id, losses)
    ensures CountsLosses(if Enabled(s, step) then Take(s, step) else s, id, losses + if LosesVersion(s, step, id) then 1 else 0)
  {
    hide DecideOp;
  }

  lemma NobodyLost(room: Room, clock: int, id: CallId)
    ensures CountsLosses(Initial(room, clock), id, 0)
  {
  }

  lemma {:induction false} RunCountsLosses(room: Room, clock: int, steps: seq<Step>, id: CallId)
    ensures CountsLosses(Run(room, clock, steps), id, Losses(room, clock, steps, id))
    decreases |steps|
  {
    hide CountsLosses, LosesVersion, Take;
    if steps == [] {
      assert CountsLosses(Initial(room, clock), id, 0) by { NobodyLost(room, clock, id); }
    } else {
      var front := steps[..|steps| - 1];
      RunCountsLosses(room, clock, front, id);
      StepCountsLosses(Run(room, clock, front), steps[|steps| - 1], id, Losses(room, clock, front, id));
    }
  }

  /** In any interleaving a call gives up exactly with its third lost version, a playback update exactly
      with its first. */
  lemma ExhaustedIff(room: Room, clock: int, steps: seq<Step>, id: CallId)
    requires id in Run(room, clock, steps).calls
    ensures var call, lost := Run(room, clock, steps).calls[id], Losses(room, clock, steps, id);
            && (call.phase.Exhausted? <==> lost == if call.op.UpdatePlayback? then 1 else 3)
            && lost <= if call.op.UpdatePlayback? then 1 else 3
  {
    hide Run, Losses;
    RunCountsLosses(room, clock, steps, id);
  }

  /** So a call that loses one or two versions, whatever came before, is back for another attempt, and if
      it is left undisturbed from then on, what it wanted is committed. */
  lemma LosersTryAgain(room: Room, clock: int, steps: seq<Step>, id: CallId, at: int)
    requires var s := Run(room, clock, steps);
             && s.room.Some? && LosesVersion(s, Step(at, Commit(id)), id) && Losses(room, clock, steps, id) < 2
             && !s.calls[id].op.UpdatePlayback? && DecideOp(s.room.value, Refreshed(s.calls[id].op, at)).Write?
    ensures var s, after := Run(room, clock, steps), Run(room, clock, steps + [Step(at, Commit(id))] + Resumed(id, at));
            var op := Refreshed(s.calls[id].op, at);
            && after.room == Some(Next(s.room.value, op))
            && after.log == s.log + [Entry(id, op, at)]
            && id in after.calls && after.calls[id].phase == Committed(|s.log|)
  {
    hide DecideOp, Run, Refreshed, Next;
    var s, lost := Run(room, clock, steps), steps + [Step(at, Commit(id))];
    RunStep(room, clock, steps, Step(at, Commit(id)));
    RunCountsLosses(room, clock, steps, id);
    CallResumes(room, clock, lost, id, at);
  }

  /** A read ends the call iff the room is gone; otherwise it holds the room as it is, at the same attempt. */
  lemma ReadOutcome(s: System, id: CallId)
    requires id in s.calls && s.calls[id].phase.Attempting?
    ensures var after := DoRead(s, id);
            && id in after.calls && after.room == s.room && after.log == s.log
            && after.calls[id].phase ==
               if s.room.None? then Missing else Holding(s.calls[id].phase.attempt, s.room.value)
  {
  }

  /** A commit with nothing to write leaves the room alone, whatever happened to it since the read. */
  lemma NothingToWrite(s: System, id: CallId)
    requires id in s.calls && s.calls[id].phase.Holding?
    ensures DecideOp(s.calls[id].phase.snapshot, s.calls[id].op).Keep? <==> DoCommit(s, id).calls[id].phase == Kept
    ensures DoCommit(s, id).calls[id].phase == Kept ==> DoCommit(s, id).room == s.room && DoCommit(s, id).log == s.log
  {
    hide DecideOp;
  }

  /** A read takes over the clock for joins, chat, clearing and the other writes; the rest keep the reading
      they started with through every attempt. */
  lemma ReadCarries(s: System, id: CallId)
    requires id in s.calls && s.calls[id].phase.Attempting? && s.room.Some?
    ensures var before, after := s.calls[id].op, DoRead(s, id).calls[id].op;
            && after.now == (if before.JoinMember? || before.AppendChat? || before.TouchRoom? || before.ClearVideo? then s.clock else before.now)
            && (after.now == before.now ==> after == before)
  {
  }
}
