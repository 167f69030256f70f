/** Replacing one engine by another.

    A launch is prepared by a worker process while the current engine keeps running.  The
    owner polls the worker, validates what it prepared against the files on disk, stops the
    previous engine, possibly loads an owned inference server, and publishes.  Files,
    engines and users act between two polls; what a poll meets itself is its `Chance`. */
module Launch {
  import opened Prelude

  const RESULT_MAX: nat := 6 * 65536 + 4096
  const PREPARE_MS: int := 15 * 60 * 1000
  const CANCEL_MS: int := 5000
  const DEPENDENCY_MAX: nat := 24
  const TICK_BYTES: nat := 65536
  const CHUNK: nat := 4096

  type World = map<string, string>

  /** The identity of a file; a file that does not exist is "missing". */
  function IdentityOf(world: World, path: string): string {
    if path in world then world[path] else "missing"
  }

  /** What a resident server was started with, apart from its executable. */
  datatype Resident = Resident(
    ctx: int, port: int, kvSpaceMb: int, kvMinTok: int, directory: string, model: string, vision: string, kvDir: string,
    modelIdentity: string, visionIdentity: string)

  datatype Spec = Spec(resident: Resident, binary: string)

  datatype Engine = Engine(running: bool, ready: bool, stopping: bool, task: nat, spec: Spec)

  predicate EngineOk(e: Engine) { e.ready ==> e.running && !e.stopping }

  /** A server that was told to stop, now or before. */
  function Halted(e: Engine): Engine {
    if e.running then e.(stopping := true, ready := if e.stopping then e.ready else false) else e
  }

  /** The server that runs is ready and is the one a launch asks for. */
  predicate SameLaunch(e: Engine, spec: Spec) { e.running && e.ready && !e.stopping && e.spec == spec }

  /** What a user asks for: the files the launch depends on, the executable it runs (the one
      built with prompt lookup, if the worker says so), the tool runtime, and the inference
      server it needs, with its model and its image encoder. */
  datatype Request = Request(
    paths: seq<string>, binaryPath: string, lookupPath: string, agent: Option<string>,
    resident: Option<Resident>, modelPath: string, visionPath: Option<string>)

  predicate RequestOk(r: Request) {
    r.resident.Some? ==> r.modelPath in r.paths && (r.visionPath.Some? ==> r.visionPath.value in r.paths)
  }

  /** The request of a launch, the identities of its files when it was admitted, the server it
      needs with the identities of its model and image encoder, and the executables its worker
      prepared. */
  datatype Dependencies = Dependencies(
    request: Request, files: seq<(string, string)>, binaryPath: string, binary: string,
    agent: Option<(string, string)>, resident: Option<Resident>)

  /** The owned server of a launch, just started. */
  function Loading(task: nat, d: Dependencies): Engine
    requires d.resident.Some?
  {
    Engine(true, false, false, task, Spec(d.resident.value, d.binary))
  }

  /** The owned server a launch asks for, if any, is ready. */
  predicate Serves(e: Engine, d: Dependencies) {
    d.resident.Some? ==> SameLaunch(e, Spec(d.resident.value, d.binary))
  }

  predicate Identified(d: Dependencies, world: World) {
    && (forall i :: 0 <= i < |d.files| ==> IdentityOf(world, d.files[i].0) == d.files[i].1)
    && d.binaryPath in world && world[d.binaryPath] == d.binary
    && (d.agent.Some? ==> d.agent.value.0 in world && d.agent.value.1 != "" && world[d.agent.value.0] == d.agent.value.1)
  }

  /** The server a launch needs is the one that was asked for, with identities of its model and
      image encoder that are among those recorded. */
  predicate ServerRecorded(d: Dependencies) {
    match d.request.resident
    case None => d.resident.None?
    case Some(asked) =>
      && d.resident.Some?
      && d.resident.value == asked.(modelIdentity := d.resident.value.modelIdentity, visionIdentity := d.resident.value.visionIdentity)
      && (d.request.modelPath, d.resident.value.modelIdentity) in d.files
      && match d.request.visionPath
         case None => d.resident.value.visionIdentity == ""
         case Some(path) => (path, d.resident.value.visionIdentity) in d.files
  }

  /** What is recorded answers the request. */
  predicate Recorded(d: Dependencies) {
    && |d.files| == |d.request.paths| && (forall i :: 0 <= i < |d.files| ==> d.files[i].0 == d.request.paths[i])
    && (d.binaryPath == d.request.binaryPath || d.binaryPath == d.request.lookupPath)
    && (d.agent.Some? <==> d.request.agent.Some?) && (d.agent.Some? ==> d.agent.value.0 == d.request.agent.value)
    && ServerRecorded(d)
  }

  /** The identity of the tool runtime, if the launch has one. */
  function AgentOf(d: Dependencies): string {
    if d.agent.Some? then d.agent.value.1 else ""
  }

  // ----- What happened -----

  /** Three events carry the evidence for the one that follows them.  `Asked` and `Heard` hold
      what the user and the worker said. */
  datatype Event =
    | Asked(task: nat, request: Request)
    | Begun(task: nat)
    | Heard(task: nat, path: string, binary: string, agent: string)
    | Received(task: nat)
    | Faulted(task: nat)
    | Compared(task: nat, deps: Dependencies, world: World)
    | Validated(task: nat)
    | ToldChild(task: nat)
    | ToldEngine(task: nat)
    | StoppedOwn(task: nat)
    | Launching(task: nat, deps: Dependencies, world: World, child: bool)
    | Started(task: nat)
    | Publishing(task: nat, deps: Dependencies, world: World, child: bool, engine: Engine)
    | Committed(task: nat)
    | Failed(task: nat)
    | Canceled(task: nat)
    | Spawned(pid: nat)
    | Signaled(pid: nat)
    | Reaped(pid: nat)

  ghost predicate Ended(log: seq<Event>, task: nat) {
    Failed(task) in log || Canceled(task) in log || Committed(task) in log
  }

  /** A launch whose worker delivered, that nobody canceled and nothing has broken. */
  ghost predicate Clear(log: seq<Event>, task: nat) {
    Received(task) in log && Faulted(task) !in log && !Ended(log, task)
  }

  /** Our worker processes that have not been reaped. */
  function Unreaped(log: seq<Event>): set<nat> {
    if log == [] then {}
    else
      var e, before := log[|log| - 1], Unreaped(log[..|log| - 1]);
      if e.Spawned? then before + {e.pid} else if e.Reaped? then before - {e.pid} else before
  }

  /** The event says that the files on disk are the recorded ones. */
  predicate ShowsIdentity(e: Event, t: nat) {
    e.Compared? && e.task == t && Identified(e.deps, e.world)
  }

  /** ... and that no previous engine is left when the owned server starts. */
  predicate ShowsVacancy(e: Event, t: nat) {
    e.Launching? && e.task == t && Identified(e.deps, e.world) && !e.child
  }

  /** ... and that what is published is ready and matches the disk. */
  predicate ShowsReadiness(e: Event, t: nat) {
    e.Publishing? && e.task == t && Identified(e.deps, e.world) && !e.child && Serves(e.engine, e.deps)
  }

  /** The recorded dependencies are those of the request this task was admitted with, and the
      executables are those its worker named. */
  ghost predicate Warranted(log: seq<Event>, t: nat, d: Dependencies) {
    Asked(t, d.request) in log && Recorded(d) && Heard(t, d.binaryPath, d.binary, AgentOf(d)) in log
  }

  /** Nothing has happened to this task. */
  ghost predicate Untouched(log: seq<Event>, t: nat) {
    forall e :: e in log ==> TaskOf(e) != Some(t)
  }

  function TaskOf(e: Event): Option<nat> {
    if e.Spawned? || e.Signaled? || e.Reaped? then None else Some(e.task)
  }

  /** What must have happened before an event. */
  ghost predicate Justified(log: seq<Event>, e: Event) {
    match e
    case Asked(t, _) => Untouched(log, t)
    case Begun(t) => Begun(t) !in log && !Ended(log, t)
    case Heard(t, _, _, _) => Begun(t) in log && Received(t) !in log
    case Received(t) => Begun(t) in log
    case Faulted(t) => Begun(t) in log
    case Compared(t, _, _) => Begun(t) in log
    case Validated(t) => Clear(log, t) && log != [] && ShowsIdentity(log[|log| - 1], t)
      // the previous engine, of either kind, is told to stop
    case ToldChild(t) => Clear(log, t) && Validated(t) in log
    case ToldEngine(t) => Clear(log, t) && Validated(t) in log
      // only the server this launch started
    case StoppedOwn(t) => Started(t) in log
    case Launching(t, deps, _, _) => Begun(t) in log && Warranted(log, t, deps)
    case Started(t) => Clear(log, t) && Validated(t) in log && ShowsVacancy(log[|log| - 1], t)
    case Publishing(t, deps, _, _, _) => Begun(t) in log && Warranted(log, t, deps)
    case Committed(t) => Clear(log, t) && Validated(t) in log && ShowsReadiness(log[|log| - 1], t)
    case Failed(t) => Begun(t) in log && !Ended(log, t)
    case Canceled(t) => Begun(t) in log && !Ended(log, t)
    case Spawned(pid) => pid !in Unreaped(log)
    case Signaled(pid) => pid in Unreaped(log)
    case Reaped(pid) => pid in Unreaped(log)
  }

  ghost predicate JustifiedAt(log: seq<Event>, k: nat)
    requires k < |log|
  {
    Justified(log[..k], log[k])
  }

  ghost predicate Safe(log: seq<Event>) {
    forall k: nat :: k < |log| ==> JustifiedAt(log, k)
  }

  lemma SafeExtends(log: seq<Event>, e: Event)
    requires Safe(log) && Justified(log, e)
    ensures Safe(log + [e])
  {
    var longer := log + [e];
    forall k: nat | k < |longer| ensures JustifiedAt(longer, k) {
      if k < |log| {
        assert longer[..k] == log[..k] && JustifiedAt(log, k);
      } else {
        assert longer[..k] == log;
      }
    }
  }

  /** History is only ever added to. */
  ghost predicate Grown(before: seq<Event>, after: seq<Event>) { before <= after }

  // ----- What a safe history means -----

  /** No launch ends twice. */
  lemma EndsOnce(log: seq<Event>, j: nat, k: nat)
    requires Safe(log) && j < k < |log|
    requires log[j].Failed? || log[j].Canceled? || log[j].Committed?
    requires log[k].Failed? || log[k].Canceled? || log[k].Committed?
    ensures log[j].task != log[k].task
  {
    assert log[..k][j] == log[j];
    assert log[j] in log[..k];
    assert JustifiedAt(log, k);
  }

  lemma NotAskedBefore(log: seq<Event>, i: nat, j: nat)
    requires Safe(log) && i < j < |log| && log[j].Asked?
    ensures TaskOf(log[i]) != Some(log[j].task)
  {
    assert JustifiedAt(log, j);
    assert log[..j][i] == log[i];
  }

  /** A task is asked for once. */
  lemma AskedOnce(log: seq<Event>, i: nat, j: nat)
    requires Safe(log) && i < |log| && j < |log| && log[i].Asked? && log[j].Asked? && log[i].task == log[j].task
    ensures i == j
  {
    if i < j { NotAskedBefore(log, i, j); }
    if j < i { NotAskedBefore(log, j, i); }
  }

  lemma IdentityIsRecorded(d: Dependencies, world: World, path: string, identity: string)
    requires Identified(d, world) && (path, identity) in d.files
    ensures IdentityOf(world, path) == identity
  {
    var i :| 0 <= i < |d.files| && d.files[i] == (path, identity);
  }

  /** A published launch is what its user asked for.  There is no previous child; every file of
      the request has the identity it had at admission; the executable is the one its worker
      named, and on disk; and if the request asked for a server, that server is running, ready
      and not stopping, with the settings of the request, that executable, and the model and
      image encoder that are on disk at that moment. */
  lemma PublishedAsAsked(log: seq<Event>, i: nat, k: nat)
    requires Safe(log) && i < |log| && k < |log| && log[i].Asked? && log[k].Committed? && log[i].task == log[k].task
    ensures i < k - 1 && log[k - 1].Publishing? && log[k - 1].task == log[k].task && !log[k - 1].child
    ensures var r, e := log[i].request, log[k - 1];
            && e.deps.request == r && |e.deps.files| == |r.paths|
            && (forall n :: 0 <= n < |r.paths| ==> e.deps.files[n] == (r.paths[n], IdentityOf(e.world, r.paths[n])))
            && (e.deps.binaryPath == r.binaryPath || e.deps.binaryPath == r.lookupPath)
            && Heard(e.task, e.deps.binaryPath, IdentityOf(e.world, e.deps.binaryPath), AgentOf(e.deps)) in log[..k]
            && (r.agent.Some? ==> AgentOf(e.deps) == IdentityOf(e.world, r.agent.value))
            && (r.resident.Some? ==>
                  && e.engine.running && e.engine.ready && !e.engine.stopping
                  && e.engine.spec.binary == IdentityOf(e.world, e.deps.binaryPath)
                  && e.engine.spec.resident == r.resident.value.(
                       modelIdentity := IdentityOf(e.world, r.modelPath),
                       visionIdentity := if r.visionPath.Some? then IdentityOf(e.world, r.visionPath.value) else ""))
  {
    assert JustifiedAt(log, k);
    assert log[..k][k - 1] == log[k - 1];
    assert JustifiedAt(log, k - 1);
    var d, world := log[k - 1].deps, log[k - 1].world;
    var m :| 0 <= m < k - 1 && log[..k - 1][m] == Asked(log[k].task, d.request);
    AskedOnce(log, i, m);
    var h :| 0 <= h < k - 1 && log[..k - 1][h] == Heard(log[k].task, d.binaryPath, d.binary, AgentOf(d));
    assert log[..k][h] == log[h];
    forall n | 0 <= n < |d.files| ensures d.files[n] == (d.request.paths[n], IdentityOf(world, d.request.paths[n])) {
      assert d.files[n] == (d.files[n].0, d.files[n].1);
    }
    if d.resident.Some? {
      IdentityIsRecorded(d, world, d.request.modelPath, d.resident.value.modelIdentity);
      if d.request.visionPath.Some? {
        IdentityIsRecorded(d, world, d.request.visionPath.value, d.resident.value.visionIdentity);
      }
    }
  }

  /** The previous engine keeps running until a launch has received its result and has been
      validated; a launch that was canceled or has failed never stops it. */
  lemma PreviousEngineIsSafe(log: seq<Event>, k: nat) returns (i: nat, j: nat)
    requires Safe(log) && k < |log| && (log[k].ToldChild? || log[k].ToldEngine?)
    ensures i < k && log[i] == Received(log[k].task)
    ensures 0 < j < k && log[j - 1].Compared? && log[j - 1].task == log[k].task && Identified(log[j - 1].deps, log[j - 1].world)
    ensures forall m :: 0 <= m < k ==>
              log[m] != Faulted(log[k].task) && log[m] != Canceled(log[k].task) && log[m] != Failed(log[k].task)
  {
    assert JustifiedAt(log, k);
    var t := log[k].task;
    i :| 0 <= i < k && log[..k][i] == Received(t);
    j :| 0 <= j < k && log[..k][j] == Validated(t);
    assert JustifiedAt(log, j);
    assert log[..j][j - 1] == log[j - 1];
    forall m | 0 <= m < k ensures log[m] in log[..k] { assert log[..k][m] == log[m]; }
  }

  /** An owned server is started by a validated launch, with no previous child left and every
      recorded file as it was, for the request of that launch and with the executable its
      worker named. */
  lemma ServerStartsAsAsked(log: seq<Event>, i: nat, k: nat)
    requires Safe(log) && i < |log| && k < |log| && log[i].Asked? && log[k].Started? && log[i].task == log[k].task
    ensures i < k - 1 && log[k - 1].Launching? && !log[k - 1].child && Identified(log[k - 1].deps, log[k - 1].world)
    ensures log[k - 1].deps.request == log[i].request && Validated(log[k].task) in log[..k]
    ensures var d := log[k - 1].deps; Heard(log[k].task, d.binaryPath, d.binary, AgentOf(d)) in log[..k]
  {
    assert JustifiedAt(log, k);
    assert log[..k][k - 1] == log[k - 1];
    assert JustifiedAt(log, k - 1);
    var d := log[k - 1].deps;
    var m :| 0 <= m < k - 1 && log[..k - 1][m] == Asked(log[k].task, d.request);
    AskedOnce(log, i, m);
    var h :| 0 <= h < k - 1 && log[..k - 1][h] == Heard(log[k].task, d.binaryPath, d.binary, AgentOf(d));
    assert log[..k][h] == log[h];
  }

  /** No worker is signaled after it was reaped: its PID is still ours. */
  lemma {:induction false} UnreapedWasSpawned(log: seq<Event>, pid: nat) returns (j: nat)
    requires pid in Unreaped(log)
    ensures j < |log| && log[j] == Spawned(pid) && forall i :: j < i < |log| ==> log[i] != Reaped(pid)
  {
    var last := |log| - 1;
    if log[last] == Spawned(pid) {
      j := last;
    } else {
      j := UnreapedWasSpawned(log[..last], pid);
      assert forall i :: j < i < last ==> log[i] == log[..last][i];
    }
  }

  lemma SignalsReachOwnWorkers(log: seq<Event>, k: nat) returns (j: nat)
    requires Safe(log) && k < |log| && log[k].Signaled?
    ensures j < k && log[j] == Spawned(log[k].pid) && forall i :: j < i < k ==> log[i] != Reaped(log[k].pid)
  {
    assert JustifiedAt(log, k);
    j := UnreapedWasSpawned(log[..k], log[k].pid);
    assert forall i :: j < i < k ==> log[i] == log[..k][i];
  }

  // ----- The owner -----

  /** Why a launch cannot be published. */
  datatype Reason =
    | NoResult | ResultTooLong | Refusal(error: string) | DeadlinePassed | CleanupFailed
    | StaleBeforeStart | ServerNotStarted | ServerStopped | StaleBeforePublication | ByUser | AtShutdown

  datatype Flow = Flow(
    received: bool, canceled: bool, stopping: bool, validated: bool, started: bool, failure: Option<Reason>)

  datatype Worker = Worker(pid: Option<nat>, killed: bool, guard: bool, result: bytes, deadline: int)

  /** What the worker's line says. */
  datatype Verdict = Refused(error: string) | Prepared(lookup: bool, binary: string, agent: string)

  /** One read of the worker's pipe: nothing yet, the end, or some bytes. */
  datatype Hearing = Silence | Hangup | Piece(data: bytes)

  /** The read with this number in a poll; a pipe with nothing more to say is silent, a read
      takes 4096 bytes at most, and an empty one is the end. */
  function HearingAt(hears: seq<Hearing>, n: nat): (h: Hearing)
    ensures h.Piece? ==> 1 <= |h.data| <= CHUNK
  {
    if n >= |hears| then Silence
    else
      match hears[n]
      case Piece(data) => if data == [] then Hangup else if |data| <= CHUNK then Piece(data) else Piece(data[..CHUNK])
      case other => other
  }

  predicate HasLine(result: bytes) { 10 in result }

  /** The first `n` reads of a poll, put together. */
  ghost function Collected(hears: seq<Hearing>, n: nat): bytes {
    if n == 0 then []
    else Collected(hears, n - 1) + match HearingAt(hears, n - 1) case Piece(data) => data case other => []
  }

  /** Reading in one poll takes `n` pieces and stops there because the line is complete, a poll
      has read enough, the pipe is silent or closed, or the next piece is too much. */
  ghost predicate ReadingOk(before: Flow, after: Flow, start: bytes, result: bytes, told: bool, hears: seq<Hearing>, n: nat, verdict: Verdict) {
    && (forall i :: 0 <= i < n ==> HearingAt(hears, i).Piece?)
    && result == start + Collected(hears, n)
    && if n > 0 && HasLine(result) then
         && after == before.(received := true, failure := if verdict.Refused? then Some(Refusal(verdict.error)) else before.failure)
         && told
       else if |Collected(hears, n)| >= TICK_BYTES then after == before && !told
       else
         match HearingAt(hears, n)
         case Silence => after == before && !told
         case Hangup => after == before.(failure := Some(NoResult)) && told
         case Piece(data) => |result| + |data| >= RESULT_MAX && after == before.(failure := Some(ResultTooLong)) && told
  }

  /** `k` pieces were read, `used` bytes in all. */
  ghost predicate ReadSoFar(start: bytes, result: bytes, hears: seq<Hearing>, k: nat, used: nat) {
    (forall i :: 0 <= i < k ==> HearingAt(hears, i).Piece?) && result == start + Collected(hears, k) && used == |Collected(hears, k)|
  }

  lemma NothingRead(start: bytes, hears: seq<Hearing>)
    ensures ReadSoFar(start, start, hears, 0, 0)
  {
    assert start + [] == start;
  }

  lemma PieceRead(start: bytes, result: bytes, hears: seq<Hearing>, k: nat, used: nat, data: bytes)
    requires ReadSoFar(start, result, hears, k, used) && HearingAt(hears, k) == Piece(data)
    ensures ReadSoFar(start, result + data, hears, k + 1, used + |data|)
  {
    Associate(start, Collected(hears, k), data);
  }

  lemma EndsAtLine(before: Flow, after: Flow, start: bytes, result: bytes, hears: seq<Hearing>, k: nat, used: nat, verdict: Verdict)
    requires ReadSoFar(start, result, hears, k, used) && k > 0 && HasLine(result)
    requires after == before.(received := true, failure := if verdict.Refused? then Some(Refusal(verdict.error)) else before.failure)
    ensures ReadingOk(before, after, start, result, true, hears, k, verdict)
  {
  }

  lemma EndsAtBudget(before: Flow, start: bytes, result: bytes, hears: seq<Hearing>, k: nat, used: nat, verdict: Verdict)
    requires ReadSoFar(start, result, hears, k, used) && used >= TICK_BYTES && (k > 0 ==> !HasLine(result))
    ensures ReadingOk(before, before, start, result, false, hears, k, verdict)
  {
  }

  lemma EndsAtHearing(before: Flow, after: Flow, start: bytes, result: bytes, told: bool, hears: seq<Hearing>, k: nat, used: nat, verdict: Verdict)
    requires ReadSoFar(start, result, hears, k, used) && used < TICK_BYTES && (k > 0 ==> !HasLine(result))
    requires var h := HearingAt(hears, k);
             && (h.Piece? ==> |result| + |h.data| >= RESULT_MAX) && told == !h.Silence?
             && after == if h.Silence? then before else before.(failure := Some(if h.Hangup? then NoResult else ResultTooLong))
    ensures ReadingOk(before, after, start, result, told, hears, k, verdict)
  {
  }

  /** The deadline of a worker that still has the launch's ear. */
  function AtDeadline(flow: Flow, late: bool): Flow {
    if !late then flow else if flow.canceled then flow.(failure := Some(CleanupFailed)) else Canceling(flow, DeadlinePassed)
  }

  /** What a poll meets: whether the launch is still wanted and fits, what the worker says, how
      its line reads, whether it has exited, and whether a server and the new engine start. */
  datatype Chance = Chance(
    current: bool, fit: bool, hears: seq<Hearing>, verdict: Verdict, gone: bool, forked: bool,
    spawned: bool, born: Option<nat>)

  /** The flags of a pending launch agree with its history. */
  ghost predicate FlowOk(log: seq<Event>, t: nat, flow: Flow, deps: Dependencies) {
    && Begun(t) in log && Asked(t, deps.request) in log && Recorded(deps)
    && (flow.received <==> Received(t) in log)
    && (flow.received && !flow.canceled && flow.failure.None? ==> Heard(t, deps.binaryPath, deps.binary, AgentOf(deps)) in log)
    && (flow.validated ==> Validated(t) in log)
    && (flow.started ==> Started(t) in log)
    && (flow.canceled ==> Canceled(t) in log)
    && (!flow.canceled ==> !Ended(log, t))
    && (!flow.canceled && flow.failure.None? ==> Faulted(t) !in log)
  }

  /** Tasks are numbered in order, and a task that is not pending has ended. */
  ghost predicate TasksOk(log: seq<Event>, next: nat, pending: Option<nat>) {
    && (pending.Some? ==> pending.value < next)
    && (forall e :: e in log && TaskOf(e).Some? ==> TaskOf(e).value < next)
    && (forall t: nat :: Begun(t) in log && pending != Some(t) ==> Ended(log, t))
  }

  lemma EventKeepsTasks(log: seq<Event>, next: nat, pending: Option<nat>, e: Event)
    requires TasksOk(log, next, pending)
    requires TaskOf(e).Some? ==> TaskOf(e) == pending
    ensures TasksOk(log + [e], next, pending)
  {
  }

  lemma EventKeepsFlow(log: seq<Event>, t: nat, flow: Flow, deps: Dependencies, e: Event)
    requires FlowOk(log, t, flow, deps)
    requires e != Received(t) && e != Faulted(t) && e != Failed(t) && e != Canceled(t) && e != Committed(t)
    ensures FlowOk(log + [e], t, flow, deps)
  {
  }

  /** The history, the numbering of tasks and the flags of the pending launch agree. */
  ghost predicate HistoryOk(log: seq<Event>, next: nat, pending: Option<nat>, flow: Flow, deps: Dependencies, unreaped: set<nat>) {
    && Safe(log) && TasksOk(log, next, pending) && unreaped == Unreaped(log)
    && (pending.Some? ==> FlowOk(log, pending.value, flow, deps))
  }

  lemma Noted(log: seq<Event>, next: nat, t: nat, flow: Flow, deps: Dependencies, unreaped: set<nat>, e: Event)
    requires HistoryOk(log, next, Some(t), flow, deps, unreaped) && TaskOf(e) == Some(t) && Justified(log, e)
    requires e != Received(t) && e != Faulted(t) && e != Failed(t) && e != Canceled(t) && e != Committed(t)
    ensures HistoryOk(log + [e], next, Some(t), flow, deps, unreaped)
  {
    SafeExtends(log, e);
    EventKeepsTasks(log, next, Some(t), e);
    EventKeepsFlow(log, t, flow, deps, e);
    assert (log + [e])[..|log|] == log;
  }

  lemma FaultNoted(log: seq<Event>, next: nat, t: nat, flow: Flow, deps: Dependencies, unreaped: set<nat>, reason: Reason)
    requires HistoryOk(log, next, Some(t), flow, deps, unreaped)
    ensures HistoryOk(log + [Faulted(t)], next, Some(t), flow.(failure := Some(reason)), deps, unreaped)
  {
    var e := Faulted(t);
    SafeExtends(log, e);
    EventKeepsTasks(log, next, Some(t), e);
    assert (log + [e])[..|log|] == log;
  }

  lemma SignalNoted(log: seq<Event>, next: nat, pending: Option<nat>, flow: Flow, deps: Dependencies, unreaped: set<nat>, pid: nat)
    requires HistoryOk(log, next, pending, flow, deps, unreaped) && pid in unreaped
    ensures HistoryOk(log + [Signaled(pid)], next, pending, flow, deps, unreaped)
  {
    var e := Signaled(pid);
    SafeExtends(log, e);
    EventKeepsTasks(log, next, pending, e);
    if pending.Some? { EventKeepsFlow(log, pending.value, flow, deps, e); }
    assert (log + [e])[..|log|] == log;
  }

  lemma ReapNoted(log: seq<Event>, next: nat, pending: Option<nat>, flow: Flow, deps: Dependencies, unreaped: set<nat>, pid: nat)
    requires HistoryOk(log, next, pending, flow, deps, unreaped) && pid in unreaped
    ensures HistoryOk(log + [Reaped(pid)], next, pending, flow, deps, unreaped - {pid})
  {
    var e := Reaped(pid);
    SafeExtends(log, e);
    EventKeepsTasks(log, next, pending, e);
    if pending.Some? { EventKeepsFlow(log, pending.value, flow, deps, e); }
    assert (log + [e])[..|log|] == log;
  }

  lemma SpawnNoted(log: seq<Event>, next: nat, pending: Option<nat>, flow: Flow, deps: Dependencies, unreaped: set<nat>, pid: nat)
    requires HistoryOk(log, next, pending, flow, deps, unreaped) && pid !in unreaped
    ensures HistoryOk(log + [Spawned(pid)], next, pending, flow, deps, unreaped + {pid})
  {
    var e := Spawned(pid);
    SafeExtends(log, e);
    EventKeepsTasks(log, next, pending, e);
    if pending.Some? { EventKeepsFlow(log, pending.value, flow, deps, e); }
    assert (log + [e])[..|log|] == log;
  }

  /** A new task: nothing has happened to it yet. */
  lemma BeginNoted(log: seq<Event>, next: nat, flow: Flow, deps: Dependencies, unreaped: set<nat>, start: Flow, recorded: Dependencies)
    requires HistoryOk(log, next, None, flow, deps, unreaped) && Recorded(recorded)
    requires start == Flow(false, false, false, false, false, None)
    ensures HistoryOk(log + [Asked(next, recorded.request)] + [Begun(next)], next + 1, Some(next), start, recorded, unreaped)
  {
    hide Recorded;
    var a, e := Asked(next, recorded.request), Begun(next);
    assert Untouched(log, next);
    assert TaskOf(Received(next)) == TaskOf(Faulted(next)) == Some(next);
    SafeExtends(log, a);
    assert (log + [a])[..|log|] == log;
    assert !Ended(log + [a], next);
    SafeExtends(log + [a], e);
    assert (log + [a] + [e])[..|log + [a]|] == log + [a];
    assert (log + [a] + [e])[|log|] == a && Unreaped(log + [a]) == unreaped;
    forall t: nat | Begun(t) in log + [a] + [e] && t != next ensures Ended(log + [a] + [e], t) {
      assert Ended(log, t);
    }
  }

  /** The worker named its executables, and nothing else was received before. */
  lemma HeardNoted(log: seq<Event>, next: nat, t: nat, flow: Flow, deps: Dependencies, unreaped: set<nat>, named: Dependencies)
    requires HistoryOk(log, next, Some(t), flow, deps, unreaped) && !flow.received
    requires named == deps.(binaryPath := named.binaryPath, binary := named.binary, agent := named.agent)
    requires named.binaryPath == deps.request.binaryPath || named.binaryPath == deps.request.lookupPath
    requires (named.agent.Some? <==> deps.agent.Some?) && (named.agent.Some? ==> named.agent.value.0 == deps.agent.value.0)
    ensures HistoryOk(log + [Heard(t, named.binaryPath, named.binary, AgentOf(named))], next, Some(t), flow, named, unreaped)
  {
    var e := Heard(t, named.binaryPath, named.binary, AgentOf(named));
    SafeExtends(log, e);
    EventKeepsTasks(log, next, Some(t), e);
    assert (log + [e])[..|log|] == log;
  }

  /** The line is complete, and what it says is in the history or broke the launch. */
  lemma ReceiptNoted(log: seq<Event>, next: nat, t: nat, flow: Flow, deps: Dependencies, unreaped: set<nat>)
    requires HistoryOk(log, next, Some(t), flow, deps, unreaped)
    requires flow.failure.Some? || Heard(t, deps.binaryPath, deps.binary, AgentOf(deps)) in log
    ensures HistoryOk(log + [Received(t)], next, Some(t), flow.(received := true), deps, unreaped)
  {
    var e := Received(t);
    SafeExtends(log, e);
    EventKeepsTasks(log, next, Some(t), e);
    assert (log + [e])[..|log|] == log;
  }

  lemma FailNoted(log: seq<Event>, next: nat, t: nat, flow: Flow, deps: Dependencies, unreaped: set<nat>)
    requires HistoryOk(log, next, Some(t), flow, deps, unreaped) && !flow.canceled
    ensures HistoryOk(log + [Failed(t)], next, None, flow, deps, unreaped)
  {
    SafeExtends(log, Failed(t));
    EndNoted(log, next, t, Failed(t));
    assert (log + [Failed(t)])[..|log|] == log;
  }

  lemma CommitNoted(log: seq<Event>, next: nat, t: nat, flow: Flow, deps: Dependencies, unreaped: set<nat>)
    requires HistoryOk(log, next, Some(t), flow, deps, unreaped) && Justified(log, Committed(t))
    ensures HistoryOk(log + [Committed(t)], next, None, flow, deps, unreaped)
  {
    SafeExtends(log, Committed(t));
    EndNoted(log, next, t, Committed(t));
    assert (log + [Committed(t)])[..|log|] == log;
  }

  /** After its end no launch is pending. */
  lemma EndNoted(log: seq<Event>, next: nat, t: nat, e: Event)
    requires TasksOk(log, next, Some(t)) && (e == Failed(t) || e == Committed(t))
    ensures TasksOk(log + [e], next, None)
  {
    forall u: nat | Begun(u) in log + [e] ensures Ended(log + [e], u) {
      assert u != t ==> Ended(log, u);
    }
  }

  function Canceling(flow: Flow, reason: Reason): Flow { flow.(canceled := true, failure := Some(reason)) }

  lemma CancelNoted(log: seq<Event>, next: nat, pending: Option<nat>, flow: Flow, deps: Dependencies, unreaped: set<nat>, reason: Reason)
    requires HistoryOk(log, next, pending, flow, deps, unreaped) && pending.Some? && !flow.canceled
    ensures HistoryOk(log + [Canceled(pending.value)], next, pending, Canceling(flow, reason), deps, unreaped)
  {
    var e := Canceled(pending.value);
    SafeExtends(log, e);
    EventKeepsTasks(log, next, pending, e);
    assert (log + [e])[..|log|] == log;
  }

  /** A canceled launch has ended already. */
  lemma CanceledEnds(log: seq<Event>, next: nat, t: nat, flow: Flow, deps: Dependencies, unreaped: set<nat>)
    requires HistoryOk(log, next, Some(t), flow, deps, unreaped) && flow.canceled
    ensures HistoryOk(log, next, None, flow, deps, unreaped)
  {
  }

  /** Flags that record an event already in the history. */
  lemma FlagsNoted(log: seq<Event>, next: nat, t: nat, flow: Flow, deps: Dependencies, unreaped: set<nat>, now: Flow)
    requires HistoryOk(log, next, Some(t), flow, deps, unreaped)
    requires now.canceled == flow.canceled && now.failure == flow.failure && now.received == flow.received
    requires now.validated ==> Validated(t) in log
    requires now.started ==> Started(t) in log
    ensures HistoryOk(log, next, Some(t), now, deps, unreaped)
  {
  }

  lemma StoppingNoted(log: seq<Event>, next: nat, t: nat, flow: Flow, deps: Dependencies, unreaped: set<nat>)
    requires HistoryOk(log, next, Some(t), flow, deps, unreaped)
    ensures HistoryOk(log, next, Some(t), flow.(stopping := true), deps, unreaped)
  {
  }

  /** The evidence was just recorded: the launch counts as validated. */
  lemma ValidateNoted(log: seq<Event>, next: nat, t: nat, flow: Flow, deps: Dependencies, unreaped: set<nat>)
    requires HistoryOk(log, next, Some(t), flow, deps, unreaped)
    requires flow.received && !flow.canceled && flow.failure.None? && log != [] && ShowsIdentity(log[|log| - 1], t)
    ensures HistoryOk(log + [Validated(t)], next, Some(t), flow.(validated := true), deps, unreaped)
  {
    Noted(log, next, t, flow, deps, unreaped, Validated(t));
    FlagsNoted(log + [Validated(t)], next, t, flow, deps, unreaped, flow.(validated := true));
  }

  lemma MayProceed(log: seq<Event>, next: nat, t: nat, flow: Flow, deps: Dependencies, unreaped: set<nat>)
    requires HistoryOk(log, next, Some(t), flow, deps, unreaped) && ReadyToProceed(flow)
    ensures Clear(log, t) && Validated(t) in log
  {
  }

  predicate ReadyToProceed(flow: Flow) {
    flow.received && flow.validated && !flow.canceled && flow.failure.None?
  }

  lemma StartNoted(log: seq<Event>, next: nat, t: nat, flow: Flow, deps: Dependencies, unreaped: set<nat>, world: World)
    requires HistoryOk(log, next, Some(t), flow, deps, unreaped) && ReadyToProceed(flow) && Identified(deps, world)
    ensures HistoryOk(log + [Launching(t, deps, world, false)] + [Started(t)], next, Some(t), flow.(started := true), deps, unreaped)
  {
    var e := Launching(t, deps, world, false);
    Noted(log, next, t, flow, deps, unreaped, e);
    assert (log + [e])[|log + [e]| - 1] == e;
    Noted(log + [e], next, t, flow, deps, unreaped, Started(t));
    FlagsNoted(log + [e] + [Started(t)], next, t, flow, deps, unreaped, flow.(started := true));
  }

  lemma PublishNoted(log: seq<Event>, next: nat, t: nat, flow: Flow, deps: Dependencies, unreaped: set<nat>, world: World, engine: Engine)
    requires HistoryOk(log, next, Some(t), flow, deps, unreaped) && ReadyToProceed(flow) && Identified(deps, world)
    requires Serves(engine, deps)
    ensures HistoryOk(log + [Publishing(t, deps, world, false, engine)] + [Committed(t)], next, None, flow, deps, unreaped)
  {
    var e := Publishing(t, deps, world, false, engine);
    Noted(log, next, t, flow, deps, unreaped, e);
    assert (log + [e])[|log + [e]| - 1] == e;
    CommitNoted(log + [e], next, t, flow, deps, unreaped);
  }

  /** The events of a launch that ends after its last comparison: published exactly when the
      server it needs is ready and the new engine starts. */
  ghost predicate Concluded(before: seq<Event>, after: seq<Event>, t: nat, deps: Dependencies, world: World, engine: Engine, spawned: bool) {
    after == if Serves(engine, deps) && spawned then before + [Publishing(t, deps, world, false, engine)] + [Committed(t)]
             else before + [Failed(t)]
  }

  // ----- Actions and their events -----

  /** What a launch acts on: the child, the server and the worker. */
  datatype View = View(child: Option<nat>, childStop: bool, engine: Engine, pid: Option<nat>, killed: bool)

  /** Whatever task `t` did to the child, the server and the worker is among the events. */
  ghost predicate Explained(t: nat, before: View, after: View, events: seq<Event>) {
    && (after.child != before.child || (before.childStop && !after.childStop) ==> Committed(t) in events)
    && (after.childStop && !before.childStop ==> ToldChild(t) in events)
    && (after.engine != before.engine ==> ToldEngine(t) in events || StoppedOwn(t) in events || Started(t) in events)
    && (after.engine.stopping && !before.engine.stopping ==> ToldEngine(t) in events || StoppedOwn(t) in events)
    && (after.engine.running && !before.engine.running ==> Started(t) in events)
    && (after.killed && !before.killed ==> before.pid.Some? && Signaled(before.pid.value) in events)
    && (after.pid != before.pid ==>
          && (after.pid.Some? ==> Spawned(after.pid.value) in events)
          && (before.pid.Some? ==> Reaped(before.pid.value) in events))
  }

  lemma ExplainedTwice(t: nat, a: View, b: View, c: View, first: seq<Event>, second: seq<Event>, third: seq<Event>)
    requires Grown(first, second) && Grown(second, third)
    requires Explained(t, a, b, second[|first|..]) && Explained(t, b, c, third[|second|..])
    requires b.pid.Some? ==> b.pid == a.pid
    ensures Grown(first, third) && Explained(t, a, c, third[|first|..])
  {
    assert third[|first|..] == second[|first|..] + third[|second|..];
  }

  lemma ExplainedBy(t: nat, a: View, b: View, first: seq<Event>, events: seq<Event>, second: seq<Event>)
    requires second == first + events && Explained(t, a, b, events)
    ensures Grown(first, second) && Explained(t, a, b, second[|first|..])
  {
    assert second[|first|..] == events;
  }

  lemma NothingDone(t: nat, v: View, first: seq<Event>, second: seq<Event>)
    requires Grown(first, second)
    ensures Explained(t, v, v, second[|first|..])
  {
  }

  datatype Turn = WaitForChild | WaitForEngine | LoadOwn | WaitForReady | PublishNow

  class Host {
    var task: Option<nat>
    var flow: Flow
    var worker: Worker
    var deps: Dependencies
    var child: Option<nat>
    var childStop: bool
    var engine: Engine
    var world: World
    var next: nat
    var unreaped: set<nat>
    ghost var log: seq<Event>

    ghost predicate Valid()
      reads this
    {
      && HistoryOk(log, next, task, flow, deps, unreaped) && EngineOk(engine)
      && (worker.pid.Some? ==> task.Some? && !flow.started && worker.pid.value in unreaped)
      && (worker.pid.Some? && flow.received ==> worker.killed)
      && |worker.result| < RESULT_MAX
    }

    function Look(): View
      reads this
    {
      View(child, childStop, engine, worker.pid, worker.killed)
    }

    /** Everything done here on behalf of task `t` was recorded. */
    twostate predicate Accounted(t: nat)
      reads this
    {
      Grown(old(log), log) && Explained(t, old(Look()), Look(), log[|old(log)|..])
    }

    /** Record an event of the pending launch that changes none of its flags. */
    method Note(e: Event)
      requires Valid() && task.Some? && TaskOf(e) == task && Justified(log, e)
      requires e != Received(task.value) && e != Faulted(task.value) && e != Failed(task.value) && e != Canceled(task.value) && e != Committed(task.value)
      modifies this`log
      ensures Valid() && Grown(old(log), log) && log == old(log) + [e]
    {
      Noted(log, next, task.value, flow, deps, unreaped, e);
      log := log + [e];
    }

    /** The first reason that keeps a launch from publication. */
    method Fault(reason: Reason)
      requires Valid() && task.Some?
      modifies this`log, this`flow
      ensures Valid() && Grown(old(log), log) && flow == old(flow).(failure := Some(reason)) && log == old(log) + [Faulted(task.value)]
    {
      FaultNoted(log, next, task.value, flow, deps, unreaped, reason);
      flow := flow.(failure := Some(reason));
      log := log + [Faulted(task.value)];
    }

    method KillWorker()
      requires Valid()
      modifies this`log, this`worker
      ensures Valid() && Grown(old(log), log) && worker == old(worker).(killed := worker.killed)
      ensures if worker.pid.None? || old(worker.killed) then log == old(log) && worker == old(worker)
              else log == old(log) + [Signaled(worker.pid.value)] && worker.killed
    {
      if worker.pid.None? || worker.killed { return; }
      SignalNoted(log, next, task, flow, deps, unreaped, worker.pid.value);
      log := log + [Signaled(worker.pid.value)];
      worker := worker.(killed := true);
    }

    /** `q36_request_stop`: the owner channel closes and the server is no longer ready. */
    method StopEngine()
      requires Valid()
      modifies this`engine
      ensures Valid() && engine == Halted(old(engine))
    {
      if engine.running && !engine.stopping { engine := engine.(stopping := true, ready := false); }
    }

    /** Stop the server, but only if this launch started it. */
    method StopOwnEngine()
      requires Valid() && task.Some?
      modifies this`engine, this`log
      ensures Valid() && Grown(old(log), log) && log == if flow.started && old(engine).task == task.value then old(log) + [StoppedOwn(task.value)] else old(log)
      ensures engine == if flow.started && old(engine).task == task.value then Halted(old(engine)) else old(engine)
    {
      if flow.started && engine.task == task.value {
        Note(StoppedOwn(task.value));
        StopEngine();
      }
    }

    method MarkCanceled(reason: Reason)
      requires Valid() && task.Some? && !flow.canceled
      modifies this`flow, this`log
      ensures Valid() && Grown(old(log), log) && flow == Canceling(old(flow), reason) && log == old(log) + [Canceled(task.value)]
    {
      CancelNoted(log, next, task, flow, deps, unreaped, reason);
      flow := Canceling(flow, reason);
      log := log + [Canceled(task.value)];
    }

    /** Cancel the pending launch.  Closing the guard asks the worker to clean up; it gets five
        seconds. */
    method CancelPending(reason: Reason, now: int)
      requires Valid() && task.Some? && !flow.canceled
      modifies this`flow, this`worker, this`engine, this`log
      ensures Valid() && Grown(old(log), log) && flow == Canceling(old(flow), reason)
      ensures worker == old(worker).(deadline := now + CANCEL_MS, guard := false)
      ensures var own := flow.started && old(engine).task == task.value;
              log == old(log) + (if own then [StoppedOwn(task.value)] else []) + [Canceled(task.value)]
              && engine == if own then Halted(old(engine)) else old(engine)
      ensures Accounted(task.value)
    {
      hide HistoryOk;
      ghost var first, own := log, flow.started && engine.task == task.value;
      StopOwnEngine();
      MarkCanceled(reason);
      worker := worker.(deadline := now + CANCEL_MS, guard := false);
      ghost var events := (if own then [StoppedOwn(task.value)] else []) + [Canceled(task.value)];
      assert own ==> events[0] == StoppedOwn(task.value);
      assert log == first + events;
      ExplainedBy(task.value, old(Look()), Look(), first, events, log);
    }

    /** A second cancellation changes nothing. */
    method Cancel(reason: Reason, now: int)
      requires Valid()
      modifies this`flow, this`worker, this`engine, this`log
      ensures Valid() && Grown(old(log), log) && worker.pid == old(worker.pid)
      ensures if old(task.Some? && !flow.canceled) then flow == Canceling(old(flow), reason)
              else log == old(log) && flow == old(flow) && worker == old(worker) && engine == old(engine)
      ensures task.Some? ==> Accounted(task.value)
      ensures engine == if old(task.Some? && !flow.canceled && flow.started && engine.task == task.value) then Halted(old(engine)) else old(engine)
    {
      if task.None? { return; }
      if flow.canceled { return; }
      CancelPending(reason, now);
    }

    // ----- The worker -----

    method GiveUpWorker(reason: Reason)
      requires Valid() && task.Some?
      modifies this`flow, this`worker, this`log
      ensures Valid() && Grown(old(log), log) && flow == old(flow).(failure := Some(reason))
      ensures worker == old(worker).(killed := old(worker.killed) || worker.pid.Some?)
      ensures Accounted(task.value)
    {
      hide HistoryOk;
      ghost var events := [Faulted(task.value)] + if worker.pid.None? || worker.killed then [] else [Signaled(worker.pid.value)];
      Fault(reason);
      KillWorker();
      assert log == old(log) + events;
      assert worker.killed && !old(worker.killed) ==> events[1] == Signaled(worker.pid.value);
      ExplainedBy(task.value, old(Look()), Look(), old(log), events, log);
    }

    /** Read what the worker has written, up to 64 KiB and up to its first line. */
    method ReadResult(hears: seq<Hearing>, verdict: Verdict) returns (ghost n: nat)
      requires Valid() && task.Some? && worker.pid.Some? && !worker.killed && !flow.received
      modifies this`flow, this`worker, this`deps, this`log
      ensures Valid() && Grown(old(log), log) && worker == old(worker).(result := worker.result, killed := worker.killed)
      ensures ReadingOk(old(flow), flow, old(worker.result), worker.result, worker.killed, hears, n, verdict)
      ensures deps == if flow.received && verdict.Prepared? then Named(old(deps), verdict) else old(deps)
      ensures Accounted(task.value)
    {
      hide Valid, Explained, Named, HearingAt, HasLine, ReadingOk, ReadSoFar, Collected;
      ghost var before, start, known := flow, worker.result, deps;
      var used, k, more := 0, 0, true;
      NothingDone(task.value, Look(), log, log);
      NothingRead(start, hears);
      while used < TICK_BYTES && more
        invariant Valid() && worker == old(worker).(result := worker.result, killed := worker.killed)
        invariant more ==> ReadSoFar(start, worker.result, hears, k, used)
        invariant more ==> flow == before && !worker.killed && !flow.received && (k > 0 ==> !HasLine(worker.result))
        invariant !more ==> ReadingOk(before, flow, start, worker.result, worker.killed, hears, k, verdict)
        invariant deps == if flow.received && verdict.Prepared? then Named(known, verdict) else known
        invariant Accounted(task.value)
        decreases (if more then 1 else 0) + TICK_BYTES - used
      {
        ghost var seen, was, result := log, Look(), worker.result;
        var got;
        got, more := ReadOnce(HearingAt(hears, k), verdict);
        ExplainedTwice(task.value, old(Look()), was, Look(), old(log), seen, log);
        if got {
          var size := |HearingAt(hears, k).data|;
          PieceRead(start, result, hears, k, used, HearingAt(hears, k).data);
          used, k := used + size, k + 1;
          if !more { EndsAtLine(before, flow, start, worker.result, hears, k, used, verdict); }
        } else {
          EndsAtHearing(before, flow, start, worker.result, worker.killed, hears, k, used, verdict);
        }
      }
      if more { EndsAtBudget(before, start, worker.result, hears, k, used, verdict); }
      return k;
    }

    /** One read: a piece was taken, and whether there is more to read. */
    method ReadOnce(hearing: Hearing, verdict: Verdict) returns (got: bool, more: bool)
      requires Valid() && task.Some? && worker.pid.Some? && !worker.killed && !flow.received
      modifies this`flow, this`worker, this`deps, this`log
      ensures Valid() && Accounted(task.value)
      ensures got <==> hearing.Piece? && |old(worker.result)| + |hearing.data| < RESULT_MAX
      ensures if got then
                var ended := HasLine(old(worker.result) + hearing.data);
                && more == !ended && worker == old(worker).(result := old(worker.result) + hearing.data, killed := ended)
                && flow == old(flow).(received := ended, failure := if ended && verdict.Refused? then Some(Refusal(verdict.error)) else old(flow).failure)
                && deps == if ended && verdict.Prepared? then Named(old(deps), verdict) else old(deps)
              else
                && !more && deps == old(deps) && worker == old(worker).(killed := !hearing.Silence?)
                && flow == if hearing.Silence? then old(flow)
                           else old(flow).(failure := Some(if hearing.Hangup? then NoResult else ResultTooLong))
    {
      hide HistoryOk, Explained, Identified, Recorded;
      got, more := false, false;
      NothingDone(task.value, Look(), log, log);
      match hearing {
        case Silence =>
        case Hangup =>
          GiveUpWorker(NoResult);
        case Piece(data) =>
          if |worker.result| + |data| >= RESULT_MAX {
            GiveUpWorker(ResultTooLong);
            return;
          }
          worker := worker.(result := worker.result + data);
          got, more := true, !HasLine(worker.result);
          if !more { TakeResult(verdict); }
      }
    }

    /** The dependencies with the executables that the worker's line names. */
    static function Named(d: Dependencies, verdict: Verdict): Dependencies
      requires verdict.Prepared?
    {
      d.(binaryPath := if verdict.lookup then d.request.lookupPath else d.request.binaryPath, binary := verdict.binary,
         agent := if d.agent.Some? then Some((d.agent.value.0, verdict.agent)) else None)
    }

    /** The worker's line is complete: record what it prepared, or why not, and let it go. */
    method TakeResult(verdict: Verdict)
      requires Valid() && task.Some? && worker.pid.Some? && !worker.killed && !flow.received
      modifies this`flow, this`worker, this`deps, this`log
      ensures Valid() && Grown(old(log), log) && worker == old(worker).(killed := true)
      ensures match verdict
              case Refused(error) =>
                && flow == old(flow).(received := true, failure := Some(Refusal(error))) && deps == old(deps)
                && log == old(log) + [Faulted(task.value)] + [Received(task.value)] + [Signaled(worker.pid.value)]
              case Prepared(lookup, binary, agent) =>
                && flow == old(flow).(received := true) && deps.request == old(deps).request
                && deps.binaryPath == (if lookup then deps.request.lookupPath else deps.request.binaryPath) && deps.binary == binary
                && deps.files == old(deps).files && deps.resident == old(deps).resident
                && deps.agent == (if old(deps).agent.Some? then Some((old(deps).agent.value.0, agent)) else None)
                && log == old(log) + [Heard(task.value, deps.binaryPath, binary, if deps.agent.Some? then agent else "")]
                          + [Received(task.value)] + [Signaled(worker.pid.value)]
      ensures Accounted(task.value)
    {
      hide HistoryOk;
      ghost var first := log;
      TakeVerdict(verdict);
      ghost var second, pid := log, worker.pid.value;
      Dismiss();
      ExplainedBy(task.value, old(Look()), Look(), second, [Received(task.value), Signaled(pid)], log);
      NothingDone(task.value, old(Look()), first, second);
      ExplainedTwice(task.value, old(Look()), old(Look()), Look(), first, second, log);
    }

    method Dismiss()
      requires Valid() && task.Some? && worker.pid.Some? && !worker.killed && !flow.received
      requires flow.failure.Some? || Heard(task.value, deps.binaryPath, deps.binary, AgentOf(deps)) in log
      modifies this`flow, this`worker, this`log
      ensures Valid() && Grown(old(log), log) && flow == old(flow).(received := true) && worker == old(worker).(killed := true)
      ensures log == old(log) + [Received(task.value)] + [Signaled(worker.pid.value)]
    {
      ReceiptNoted(log, next, task.value, flow, deps, unreaped);
      SignalNoted(log + [Received(task.value)], next, task, flow.(received := true), deps, unreaped, worker.pid.value);
      flow := flow.(received := true);
      log := log + [Received(task.value)] + [Signaled(worker.pid.value)];
      worker := worker.(killed := true);
    }

    /** What the line says: the executables, or why there are none. */
    method TakeVerdict(verdict: Verdict)
      requires Valid() && task.Some? && !flow.received
      modifies this`flow, this`deps, this`log
      ensures Valid() && Grown(old(log), log)
      ensures match verdict
              case Refused(error) =>
                flow == old(flow).(failure := Some(Refusal(error))) && deps == old(deps) && log == old(log) + [Faulted(task.value)]
              case Prepared(lookup, binary, agent) =>
                && flow == old(flow) && deps == Named(old(deps), verdict)
                && log == old(log) + [Heard(task.value, deps.binaryPath, deps.binary, AgentOf(deps))]
    {
      match verdict {
        case Refused(error) => Fault(Refusal(error));
        case Prepared(lookup, binary, agent) =>
          HeardNoted(log, next, task.value, flow, deps, unreaped, Named(deps, verdict));
          deps := Named(deps, verdict);
          log := log + [Heard(task.value, deps.binaryPath, deps.binary, AgentOf(deps))];
      }
    }

    /** Preparation may take fifteen minutes, cleaning up after a cancellation five seconds. */
    method CheckDeadline(now: int)
      requires Valid() && task.Some?
      modifies this`flow, this`worker, this`engine, this`log
      ensures Valid() && Grown(old(log), log) && flow == AtDeadline(old(flow), now >= old(worker).deadline)
      ensures var late := now >= old(worker).deadline;
              worker == if !late then old(worker)
                        else if old(flow).canceled then old(worker).(killed := old(worker.killed) || worker.pid.Some?)
                        else old(worker).(deadline := now + CANCEL_MS, guard := false)
      ensures now < old(worker).deadline ==> log == old(log)
      ensures Accounted(task.value) && (worker.pid.Some? ==> engine == old(engine))
    {
      hide HistoryOk, Explained, Identified, Recorded;
      NothingDone(task.value, Look(), log, log);
      if now < worker.deadline { return; }
      if flow.canceled {
        GiveUpWorker(CleanupFailed);
        return;
      }
      CancelPending(DeadlinePassed, now);
    }

    /** Wait for a worker that was told to go. */
    method ReapWorker(gone: bool)
      requires Valid()
      modifies this`worker, this`log, this`unreaped
      ensures Valid() && Grown(old(log), log)
      ensures worker == if old(worker.pid).Some? && old(worker).killed && gone then old(worker).(pid := None, guard := false) else old(worker)
      ensures log == if worker.pid == old(worker.pid) then old(log) else old(log) + [Reaped(old(worker.pid).value)]
      ensures task.Some? ==> Accounted(task.value)
    {
      if worker.pid.None? || !worker.killed { return; }
      if !gone { return; }
      var pid := worker.pid.value;
      ReapNoted(log, next, task, flow, deps, unreaped, pid);
      log, unreaped := log + [Reaped(pid)], unreaped - {pid};
      worker := worker.(pid := None, guard := false);
    }

    // ----- The handoff -----

    /** Compare every recorded identity with the disk.  `fit` stands for the checks of the
        request, the work directory and the configuration. */
    method Revalidate(fit: bool) returns (ok: bool)
      requires Valid() && task.Some?
      modifies this`log
      ensures Valid() && Grown(old(log), log) && (ok <==> fit && Identified(deps, world))
      ensures log == if ok then old(log) + [Compared(task.value, deps, world)] else old(log)
    {
      if !fit { return false; }
      for i := 0 to |deps.files|
        invariant Valid() && log == old(log) && forall k :: 0 <= k < i ==> IdentityOf(world, deps.files[k].0) == deps.files[k].1
      {
        if IdentityOf(world, deps.files[i].0) != deps.files[i].1 { return false; }
      }
      if deps.binaryPath !in world || world[deps.binaryPath] != deps.binary { return false; }
      if deps.agent.Some? {
        var (path, identity) := deps.agent.value;
        if path !in world || identity == "" || world[path] != identity { return false; }
      }
      Note(Compared(task.value, deps, world));
      return true;
    }

    /** Compare again at a handoff; a difference breaks the launch. */
    method Recheck(fit: bool, reason: Reason) returns (ok: bool)
      requires Valid() && task.Some?
      modifies this`flow, this`log
      ensures Valid() && Grown(old(log), log) && (ok <==> fit && Identified(deps, world))
      ensures flow == if ok then old(flow) else old(flow).(failure := Some(reason))
      ensures log == old(log) + [if ok then Compared(task.value, deps, world) else Faulted(task.value)]
    {
      ok := Revalidate(fit);
      if !ok { Fault(reason); }
    }

    /** The launch ends as failed, unless it was canceled before. */
    method EndFailed()
      requires Valid() && task.Some? && worker.pid.None?
      modifies this`task, this`log
      ensures Valid() && Grown(old(log), log) && task.None?
      ensures log == if flow.canceled then old(log) else old(log) + [Failed(old(task).value)]
    {
      if flow.canceled {
        CanceledEnds(log, next, task.value, flow, deps, unreaped);
      } else {
        FailNoted(log, next, task.value, flow, deps, unreaped);
        log := log + [Failed(task.value)];
      }
      task := None;
    }

    /** `request_child_stop` by the pending launch, once. */
    method StopPrevious()
      requires Valid() && task.Some? && child.Some? && ReadyToProceed(flow)
      modifies this`flow, this`childStop, this`log
      ensures Valid() && Grown(old(log), log) && flow == old(flow).(stopping := true)
      ensures childStop == old(childStop || !flow.stopping)
      ensures log == if old(flow.stopping || childStop) then old(log) else old(log) + [ToldChild(task.value)]
      ensures Accounted(task.value)
    {
      hide HistoryOk, Explained, Identified;
      NothingDone(task.value, Look(), log, log);
      if flow.stopping { return; }
      if !childStop { TellChild(); }
      StoppingNoted(log, next, task.value, flow, deps, unreaped);
      flow := flow.(stopping := true);
    }

    method TellChild()
      requires Valid() && task.Some? && child.Some? && !childStop && ReadyToProceed(flow)
      modifies this`childStop, this`log
      ensures Valid() && childStop && log == old(log) + [ToldChild(task.value)] && Accounted(task.value)
    {
      hide Identified, HistoryOk, Clear;
      MayProceed(log, next, task.value, flow, deps, unreaped);
      Note(ToldChild(task.value));
      childStop := true;
    }

    /** Start the owned server, after one more comparison with the disk. */
    method StartServer(fit: bool, forked: bool)
      requires Valid() && task.Some? && worker.pid.None? && child.None? && !engine.running && deps.resident.Some?
      requires ReadyToProceed(flow) && !flow.started
      modifies this`flow, this`engine, this`log
      ensures Valid() && Grown(old(log), log)
      ensures flow.started <==> fit && Identified(deps, world) && forked && deps.resident.value.modelIdentity != "missing"
      ensures if flow.started then flow == old(flow).(started := true) && engine == Loading(task.value, deps)
              else engine == old(engine) && flow == old(flow).(failure := Some(
                     if fit && Identified(deps, world) then ServerNotStarted else StaleBeforeStart))
      ensures var seen := [Compared(task.value, deps, world)];
              log == old(log) + if !(fit && Identified(deps, world)) then [Faulted(task.value)]
                                else if flow.started then seen + [Launching(task.value, deps, world, false)] + [Started(task.value)]
                                else seen + [Faulted(task.value)]
      ensures Accounted(task.value)
    {
      hide HistoryOk, Identified;
      var ok := Recheck(fit, StaleBeforeStart);
      if !ok { return; }
      if !forked || deps.resident.value.modelIdentity == "missing" {
        Fault(ServerNotStarted);
        return;
      }
      LoadServer();
      assert log == old(log) + [Compared(task.value, deps, world), Launching(task.value, deps, world, false), Started(task.value)];
      assert [Compared(task.value, deps, world), Launching(task.value, deps, world, false), Started(task.value)][2] == Started(task.value);
      ExplainedBy(task.value, old(Look()), Look(), old(log),
                  [Compared(task.value, deps, world), Launching(task.value, deps, world, false), Started(task.value)], log);
    }

    method LoadServer()
      requires Valid() && task.Some? && worker.pid.None? && child.None? && !engine.running && deps.resident.Some?
      requires ReadyToProceed(flow) && Identified(deps, world)
      modifies this`flow, this`engine, this`log
      ensures Valid() && Grown(old(log), log) && flow == old(flow).(started := true)
      ensures log == old(log) + [Launching(task.value, deps, world, false)] + [Started(task.value)]
      ensures engine == Loading(task.value, deps)
    {
      var t := task.value;
      StartNoted(log, next, t, flow, deps, unreaped, world);
      log := log + [Launching(t, deps, world, child.Some?)] + [Started(t)];
      flow := flow.(started := true);
      engine := Loading(t, deps);
    }

    /** Publish: compare with the disk in this very step, and for an owned server check
        that it is ready and the one that was asked for. */
    method Publish(fit: bool, spawned: bool, born: Option<nat>)
      requires Valid() && task.Some? && child.None? && worker.pid.None?
      requires ReadyToProceed(flow)
      modifies this`task, this`flow, this`child, this`childStop, this`log
      ensures Valid() && Grown(old(log), log)
      ensures !(fit && Identified(deps, world)) ==>
                task == old(task) && log == old(log) + [Faulted(task.value)]
                && flow == old(flow).(failure := Some(StaleBeforePublication))
                && child == old(child) && childStop == old(childStop)
      ensures var t, seen := old(task).value, Compared(old(task).value, deps, world);
              fit && Identified(deps, world) ==>
                && task.None? && flow == old(flow) && Concluded(old(log) + [seen], log, t, deps, world, engine, spawned)
                && child == (if Serves(engine, deps) && spawned then born else old(child))
                && childStop == (if Serves(engine, deps) && spawned then false else old(childStop))
      ensures Accounted(old(task).value)
    {
      hide HistoryOk, Explained, Identified, Recorded, Serves, Concluded;
      var ok := Recheck(fit, StaleBeforePublication);
      NothingDone(task.value, Look(), old(log), log);
      if !ok { return; }
      ghost var compared := log;
      Conclude(spawned, born);
      ExplainedTwice(old(task).value, old(Look()), old(Look()), Look(), old(log), compared, log);
    }

    /** The disk matches: publish if the server is the one that was asked for and the new
        engine starts. */
    method Conclude(spawned: bool, born: Option<nat>)
      requires Valid() && task.Some? && child.None? && worker.pid.None?
      requires ReadyToProceed(flow) && Identified(deps, world)
      modifies this`task, this`child, this`childStop, this`log
      ensures Valid() && task.None? && Grown(old(log), log)
      ensures Concluded(old(log), log, old(task).value, deps, world, engine, spawned)
      ensures child == (if Serves(engine, deps) && spawned then born else old(child))
      ensures childStop == (if Serves(engine, deps) && spawned then false else old(childStop))
      ensures Accounted(old(task).value)
    {
      hide HistoryOk, Identified;
      if !Serves(engine, deps) || !spawned {
        EndFailed();
        NothingDone(old(task).value, Look(), old(log), log);
        return;
      }
      ghost var t := task.value;
      Commit();
      child, childStop := born, false;
      ghost var events := [Publishing(t, deps, world, false, engine), Committed(t)];
      assert events[1] == Committed(t) && log == old(log) + events;
      ExplainedBy(t, old(Look()), Look(), old(log), events, log);
    }

    method Commit()
      requires Valid() && task.Some? && child.None? && worker.pid.None?
      requires ReadyToProceed(flow) && Identified(deps, world)
      requires Serves(engine, deps)
      modifies this`task, this`log
      ensures Valid() && Grown(old(log), log) && task.None?
      ensures log == old(log) + [Publishing(old(task).value, deps, world, false, engine)] + [Committed(old(task).value)]
    {
      var t := task.value;
      PublishNoted(log, next, t, flow, deps, unreaped, world, engine);
      log := log + [Publishing(t, deps, world, child.Some?, engine)] + [Committed(t)];
      task := None;
    }

    /** End without publication, and take along the server this launch started. */
    method Abandon()
      requires Valid() && task.Some? && worker.pid.None?
      modifies this`task, this`engine, this`log
      ensures Valid() && task.None? && Grown(old(log), log)
      ensures var own := flow.started && old(engine).task == old(task).value;
              && log == old(log) + (if own then [StoppedOwn(old(task).value)] else [])
                        + (if flow.canceled then [] else [Failed(old(task).value)])
              && engine == if own then Halted(old(engine)) else old(engine)
      ensures Accounted(old(task).value)
    {
      hide HistoryOk;
      ghost var t, first, own := task.value, log, flow.started && engine.task == task.value;
      StopOwnEngine();
      EndFailed();
      ghost var events := (if own then [StoppedOwn(t)] else []) + (if flow.canceled then [] else [Failed(t)]);
      assert own ==> events[0] == StoppedOwn(t);
      assert log == first + events;
      ExplainedBy(t, old(Look()), Look(), first, events, log);
    }

    /** The server this launch started is gone or going. */
    predicate Lost()
      reads this
    {
      flow.started && (!engine.running || engine.stopping)
    }

    /** A launch that cannot go on: unwanted, canceled, failed, without a result, with the server
        it started gone or going, or with a file on disk that is not the recorded one. */
    ghost predicate Hopeless(f: Flow, d: Dependencies, c: Chance)
      reads this
    {
      || !c.current || f.canceled || f.failure.Some? || !f.received
      || (f.started && (!engine.running || engine.stopping))
      || (!f.validated && !(c.fit && Identified(d, world)))
    }

    /** What becomes of a launch whose worker is gone, in one poll: it ends and takes along no
        server but its own; or the previous engine is told to stop, the server it needs is
        started or awaited, or it is published. */
    twostate predicate Decided(t: nat, f: Flow, c: Chance)
      reads this
    {
      var asked, e, going := deps.resident, old(engine), f.(validated := true);
      var fits := c.fit && Identified(deps, world);
      if (var d := deps; old(Hopeless(f, d, c))) then
        && task.None? && child == old(child) && childStop == old(childStop)
        && engine == if f.started && e.task == t then Halted(e) else e
      else if old(child).Some? then
        && task == Some(t) && child == old(child) && engine == e
        && flow == going.(stopping := true) && childStop == (old(childStop) || !f.stopping)
      else if e.running && (asked.None? || (!f.started && !(e.ready && !e.stopping && e.spec == Spec(asked.value, deps.binary)))) then
        task == Some(t) && child.None? && childStop == old(childStop) && flow == going && engine == Halted(e)
      else if asked.Some? && !f.started && !e.running then
        && task == Some(t) && child.None? && childStop == old(childStop)
        && if fits && c.forked && asked.value.modelIdentity != "missing" then
             && flow == going.(started := true)
             && engine == Engine(true, false, false, t, Spec(asked.value, deps.binary))
           else
             flow == going.(failure := Some(if fits then ServerNotStarted else StaleBeforeStart)) && engine == e
      else if asked.Some? && !(e.running && e.ready && !e.stopping) then
        task == Some(t) && child.None? && childStop == old(childStop) && flow == going && engine == e
      else if !fits then
        && task == Some(t) && child.None? && childStop == old(childStop) && engine == e
        && flow == going.(failure := Some(StaleBeforePublication))
      else
        && task.None? && engine == e
        && if (asked.None? || e.spec == Spec(asked.value, deps.binary)) && c.spawned then
             child == c.born && !childStop && Committed(t) in log
           else child.None? && childStop == old(childStop) && Failed(t) in log
    }

    /** A launch whose worker is gone: end it, or take the next step towards publication. */
    method Decide(c: Chance)
      requires Valid() && task.Some? && worker.pid.None?
      modifies this`task, this`flow, this`engine, this`child, this`childStop, this`log
      ensures Valid() && Grown(old(log), log) && Accounted(old(task).value)
      ensures Decided(old(task).value, old(flow), c)
    {
      hide HistoryOk, Explained, Identified, Recorded;
      ghost var t, first := task.value, log;
      var good := StillGood(c);
      ghost var second := log;
      NothingDone(t, Look(), first, second);
      if good { Handoff(c); } else { Abandon(); }
      ExplainedTwice(t, old(Look()), old(Look()), Look(), first, second, log);
    }

    /** Whether the launch may go on, after the first comparison if it has not been made. */
    method StillGood(c: Chance) returns (good: bool)
      requires Valid() && task.Some? && worker.pid.None?
      modifies this`flow, this`log
      ensures Valid() && Grown(old(log), log) && (good <==> !old(Hopeless(flow, deps, c)))
      ensures flow == old(flow).(failure := flow.failure, validated := flow.validated)
      ensures good ==> flow == old(flow).(validated := true) && ReadyToProceed(flow)
      ensures good && old(flow).validated ==> log == old(log)
    {
      hide HistoryOk, Identified, Recorded;
      if Lost() && flow.failure.None? { Fault(ServerStopped); }
      if flow.canceled || flow.failure.Some? || !flow.received { return false; }
      if !c.current { return false; }
      if flow.validated { return true; }
      good := Validate(c.fit);
    }

    /** The first comparison with the disk. */
    method Validate(fit: bool) returns (ok: bool)
      requires Valid() && task.Some? && flow.received && !flow.canceled && flow.failure.None?
      modifies this`flow, this`log
      ensures Valid() && flow == (if ok then old(flow).(validated := true) else old(flow)) && Grown(old(log), log)
      ensures ok <==> fit && Identified(deps, world)
    {
      hide HistoryOk, Identified;
      ok := Revalidate(fit);
      if !ok { return; }
      ValidateNoted(log, next, task.value, flow, deps, unreaped);
      log := log + [Validated(task.value)];
      flow := flow.(validated := true);
    }

    /** The step that is due once a launch is validated. */
    function Due(): Turn
      reads this
    {
      var wanted := deps.resident.Some?;
      if child.Some? then WaitForChild
      else if engine.running && (!wanted || (!flow.started && !Serves(engine, deps))) then WaitForEngine
      else if wanted && !flow.started && !engine.running then LoadOwn
      else if wanted && !(engine.running && engine.ready && !engine.stopping) then WaitForReady
      else PublishNow
    }

    /** `q36_request_stop` by the pending launch, for a server it did not start. */
    method StopOther()
      requires Valid() && task.Some? && engine.running && ReadyToProceed(flow)
      modifies this`engine, this`log
      ensures Valid() && engine == Halted(old(engine)) && Accounted(task.value)
      ensures log == if old(engine.stopping) then old(log) else old(log) + [ToldEngine(task.value)]
    {
      hide Identified, HistoryOk, Clear;
      MayProceed(log, next, task.value, flow, deps, unreaped);
      if !engine.stopping { Note(ToldEngine(task.value)); }
      StopEngine();
    }

    /** Stop what is in the way, load the owned server, publish: one step at a time. */
    method Handoff(c: Chance)
      requires Valid() && task.Some? && worker.pid.None?
      requires ReadyToProceed(flow)
      modifies this`task, this`flow, this`engine, this`child, this`childStop, this`log
      ensures Valid() && Grown(old(log), log) && Accounted(old(task).value)
      ensures match old(Due())
              case WaitForChild =>
                && task == old(task) && child == old(child) && engine == old(engine)
                && flow == old(flow).(stopping := true) && childStop == old(childStop || !flow.stopping)
                && log == if old(flow.stopping || childStop) then old(log) else old(log) + [ToldChild(task.value)]
              case WaitForEngine =>
                && task == old(task) && flow == old(flow) && child == old(child) && childStop == old(childStop)
                && engine == Halted(old(engine))
                && log == if old(engine.stopping) then old(log) else old(log) + [ToldEngine(task.value)]
              case LoadOwn =>
                && task == old(task) && child == old(child) && childStop == old(childStop)
                && var fits := c.fit && Identified(deps, world);
                   if fits && c.forked && deps.resident.value.modelIdentity != "missing"
                   then flow == old(flow).(started := true) && engine == Loading(task.value, deps)
                   else flow == old(flow).(failure := Some(if fits then ServerNotStarted else StaleBeforeStart)) && engine == old(engine)
              case WaitForReady =>
                && task == old(task) && flow == old(flow) && child == old(child) && childStop == old(childStop)
                && engine == old(engine) && log == old(log)
              case PublishNow =>
                && engine == old(engine)
                && if !(c.fit && Identified(deps, world)) then
                     && task == old(task) && flow == old(flow).(failure := Some(StaleBeforePublication))
                     && child == old(child) && childStop == old(childStop)
                   else
                     && task.None? && flow == old(flow)
                     && if Serves(engine, deps) && c.spawned then child == c.born && !childStop && Committed(old(task).value) in log
                        else child == old(child) && childStop == old(childStop) && Failed(old(task).value) in log
    {
      hide HistoryOk, Explained, Identified, Recorded;
      match Due() {
        case WaitForChild =>
          StopPrevious();
        case WaitForEngine =>
          StopOther();
        case LoadOwn =>
          StartServer(c.fit, c.forked);
        case WaitForReady =>
          NothingDone(task.value, Look(), log, log);
        case PublishNow =>
          Publish(c.fit, c.spawned, c.born);
      }
    }

    /** Hear the worker and watch its deadline. */
    method PollWorker(now: int, c: Chance) returns (ghost n: nat, ghost heard: Flow, ghost told: bool)
      requires Valid() && task.Some? && worker.pid.Some? && !worker.killed && !flow.received
      modifies this`flow, this`worker, this`deps, this`engine, this`log
      ensures Valid() && Grown(old(log), log) && Accounted(task.value) && engine == old(engine)
      ensures Polled(n, heard, told, now, c)
      ensures flow == AtDeadline(heard, now >= old(worker).deadline)
      ensures worker.pid == old(worker.pid) && worker.killed == (told || (now >= old(worker).deadline && heard.canceled))
      ensures !worker.killed ==> now < worker.deadline
    {
      hide HistoryOk, Explained, Identified, Recorded;
      ghost var first := log;
      n := ReadResult(c.hears, c.verdict);
      heard, told := flow, worker.killed;
      ghost var second, between := log, Look();
      CheckDeadline(now);
      ExplainedTwice(task.value, old(Look()), between, Look(), first, second, log);
    }

    /** What the launch heard in this poll, and that it told the worker to go. */
    twostate predicate Polled(n: nat, heard: Flow, told: bool, now: int, c: Chance)
      reads this
    {
      && ReadingOk(old(flow), heard, old(worker.result), worker.result, told, c.hears, n, c.verdict)
      && deps == if heard.received && c.verdict.Prepared? then Named(old(deps), c.verdict) else old(deps)
    }

    /** Nothing of the launch but what it heard has changed. */
    twostate predicate Waits(f: Flow)
      reads this
    {
      && task == old(task) && flow == f && child == old(child) && childStop == old(childStop) && engine == old(engine)
      && worker.pid == old(worker.pid)
    }

    /** A worker that was told to go is reaped, and then the launch is decided. */
    method Settle(c: Chance)
      requires Valid() && task.Some? && (worker.pid.Some? ==> worker.killed || !c.gone)
      modifies this`task, this`flow, this`worker, this`engine, this`child, this`childStop, this`log, this`unreaped
      ensures Valid() && Grown(old(log), log) && Accounted(old(task).value)
      ensures if old(worker.pid).Some? && !c.gone then Waits(old(flow)) && worker == old(worker) && log == old(log)
              else worker.pid.None? && worker.result == old(worker.result) && Decided(old(task).value, old(flow), c)
    {
      hide HistoryOk, Explained, Identified, Recorded, Serves, Halted;
      ghost var t, first, before := task.value, log, Look();
      ReapWorker(c.gone);
      ghost var second, reaped := log, Look();
      if worker.pid.Some? { return; }
      Decide(c);
      ExplainedTwice(t, before, reaped, Look(), first, second, log);
    }

    /** One poll of the owner.  While the worker lives the previous engine is left alone. */
    method Tick(now: int, c: Chance) returns (ghost n: nat, ghost heard: Flow, ghost told: bool)
      requires Valid()
      modifies this`task, this`flow, this`worker, this`deps, this`engine, this`child, this`childStop, this`log, this`unreaped
      ensures Valid() && Grown(old(log), log)
      ensures old(task).None? ==> unchanged(this)
      ensures old(task).Some? ==> Accounted(old(task).value)
      ensures old(task.Some? && worker.pid.None?) ==> Decided(old(task).value, old(flow), c) && deps == old(deps)
      ensures old(task.Some? && worker.pid.Some? && worker.killed) ==>
                deps == old(deps) && if c.gone then worker.pid.None? && Decided(old(task).value, old(flow), c) else Waits(old(flow))
      ensures old(task.Some? && worker.pid.Some? && !worker.killed) ==>
                && Polled(n, heard, told, now, c)
                && var late := now >= old(worker).deadline;
                   var f := AtDeadline(heard, late);
                   if (told || (late && heard.canceled)) && c.gone then worker.pid.None? && Decided(old(task).value, f, c)
                   else Waits(f) && (worker.killed <==> told || (late && heard.canceled)) && (!worker.killed ==> now < worker.deadline)
      ensures old(task.Some? ==> flow.canceled) ==> (task.Some? ==> flow.canceled)
    {
      hide HistoryOk, Explained, Identified, Recorded, Serves, Halted;
      n, heard, told := 0, flow, false;
      if task.None? { return; }
      ghost var t, first, before := task.value, log, Look();
      NothingDone(t, before, first, first);
      if worker.pid.Some? && !worker.killed {
        n, heard, told := PollWorker(now, c);
      }
      ghost var second, polled := log, Look();
      if worker.pid.Some? && !worker.killed { return; }
      Settle(c);
      ExplainedTwice(t, before, polled, Look(), first, second, log);
    }

    /** Admit a launch: record the identity of every dependency, then start the worker.  `fits`
        says that its paths can be built and read, `pid` is the worker that started. */
    method Begin(request: Request, fits: bool, pid: Option<nat>, now: int) returns (admitted: bool)
      requires Valid() && RequestOk(request)
      modifies this
      ensures Valid() && Grown(old(log), log)
      ensures admitted <==>
                && old(task).None? && !old(childStop) && !(engine.running && engine.stopping)
                && fits && |request.paths| <= DEPENDENCY_MAX && pid.Some? && pid.value !in old(unreaped)
      ensures admitted ==>
                && task == Some(old(next)) && flow == Flow(false, false, false, false, false, None)
                && worker == Worker(pid, false, true, [], now + PREPARE_MS)
                && log == old(log) + [Asked(old(next), request)] + [Begun(old(next))] + [Spawned(pid.value)]
      ensures admitted ==>
                && deps.request == request && |deps.files| == |request.paths|
                && (forall k :: 0 <= k < |request.paths| ==> deps.files[k] == (request.paths[k], IdentityOf(world, request.paths[k])))
                && deps.binaryPath == request.binaryPath && deps.binary == ""
                && deps.agent == (if request.agent.Some? then Some((request.agent.value, "")) else None)
                && deps.resident == (if request.resident.None? then None
                                     else Some(request.resident.value.(
                                       modelIdentity := IdentityOf(world, request.modelPath),
                                       visionIdentity := if request.visionPath.Some? then IdentityOf(world, request.visionPath.value) else "")))
      ensures !admitted ==> task == old(task)
      ensures child == old(child) && childStop == old(childStop) && engine == old(engine) && world == old(world)
      ensures Accounted(old(next))
    {
      hide HistoryOk, Explained, Recorded;
      admitted := false;
      NothingDone(next, Look(), log, log);
      if task.Some? || childStop || (engine.running && engine.stopping) { return; }
      if !fits || |request.paths| > DEPENDENCY_MAX { return; }
      var recorded := RecordDependencies(world, request);
      ghost var first, before := log, Look();
      AdmitTask(recorded);
      ghost var second := log;
      NothingDone(old(next), before, first, second);
      admitted := SpawnWorker(pid, now);
      ExplainedTwice(old(next), before, before, Look(), first, second, log);
    }

    method AdmitTask(recorded: Dependencies)
      requires Valid() && task.None? && Recorded(recorded)
      modifies this`task, this`next, this`flow, this`deps, this`log
      ensures Valid() && Grown(old(log), log) && task == Some(old(next)) && deps == recorded && flow == Flow(false, false, false, false, false, None)
      ensures log == old(log) + [Asked(old(next), recorded.request)] + [Begun(old(next))] && next == old(next) + 1
    {
      var flags := Flow(false, false, false, false, false, None);
      BeginNoted(log, next, flow, deps, unreaped, flags, recorded);
      log := log + [Asked(next, recorded.request)] + [Begun(next)];
      task, next, flow, deps := Some(next), next + 1, flags, recorded;
    }

    method SpawnWorker(pid: Option<nat>, now: int) returns (ok: bool)
      requires Valid() && task.Some? && worker.pid.None? && !flow.canceled && !flow.started && !flow.received
      modifies this`worker, this`task, this`unreaped, this`log
      ensures Valid() && Grown(old(log), log) && task == if ok then old(task) else None
      ensures ok <==> pid.Some? && pid.value !in old(unreaped)
      ensures ok ==> worker == Worker(pid, false, true, [], now + PREPARE_MS) && log == old(log) + [Spawned(pid.value)]
      ensures Accounted(old(task).value)
    {
      hide HistoryOk;
      ok := pid.Some? && pid.value !in unreaped;
      worker := Worker(None, false, false, [], now + PREPARE_MS);
      if !ok {
        EndFailed();
        ExplainedBy(old(task).value, old(Look()), Look(), old(log), [Failed(old(task).value)], log);
        return;
      }
      SpawnNoted(log, next, task, flow, deps, unreaped, pid.value);
      log, unreaped := log + [Spawned(pid.value)], unreaped + {pid.value};
      worker := Worker(pid, false, true, [], now + PREPARE_MS);
      ExplainedBy(old(task).value, old(Look()), Look(), old(log), [Spawned(pid.value)], log);
    }

    /** The owner closes: cancel, give the worker its grace, and leave nothing pending. */
    method Shutdown(rounds: nat)
      requires Valid()
      modifies this
      ensures Valid() && Grown(old(log), log) && task.None?
    {
      var now := ReadClock();
      Cancel(AtShutdown, now);
      for i := 0 to rounds
        invariant Valid() && Grown(old(log), log) && (task.Some? ==> flow.canceled)
      {
        now := ReadClock();
        var c := ReadChance();
        ghost var n, heard, told := Tick(now, c);
      }
      if task.Some? {
        KillWorker();
        CanceledEnds(log, next, task.value, flow, deps, unreaped);
        worker := worker.(pid := None, guard := false);
        task := None;
      }
    }

    // ----- Runs -----

    /** What happens between two polls: files change, the child exits or another appears, and
        the server loads, becomes ready, fails or exits. */
    method Environment()
      requires Valid()
      modifies this`world, this`child, this`childStop, this`engine
      ensures Valid()
    {
      world := ReadWorld();
      child := ReadChild();
      childStop := Happens();
      var ready := Happens();
      var stopping := Happens();
      var running := Happens();
      var live := engine.running && running;
      engine := engine.(running := live, stopping := live && (engine.stopping || stopping),
                        ready := live && ready && !(engine.stopping || stopping));
    }

    /** The child that was told to stop is gone. */
    method Exits()
      requires Valid()
      modifies this`child, this`childStop
      ensures Valid() && child.None? && !childStop
    {
      child, childStop := None, false;
    }

    /** The server that was told to stop is gone. */
    method ServerExits()
      requires Valid()
      modifies this`engine
      ensures Valid() && engine == old(engine).(running := false, ready := false, stopping := false)
    {
      engine := engine.(running := false, ready := false, stopping := false);
    }

    /** The server has loaded its model. */
    method ServerReady()
      requires Valid() && engine.running && !engine.stopping
      modifies this`engine
      ensures Valid() && engine == old(engine).(ready := true)
    {
      engine := engine.(ready := true);
    }

    /** A cancellation, if a user asks for one. */
    method MayCancel(now: int) returns (ghost deed: Deed)
      requires Valid()
      modifies this`flow, this`worker, this`engine, this`log
      ensures Valid() && DoneAs(deed)
    {
      hide HistoryOk, Explained;
      var cancel := Happens();
      ghost var t := if task.Some? then task.value else 0;
      NothingDone(t, Look(), log, log);
      if cancel { Cancel(ByUser, now); }
      deed := Deed(t, old(Look()), Look(), log[|old(log)|..]);
    }

    /** An admission, if a user asks for one. */
    method MayBegin(now: int) returns (ghost deed: Deed)
      requires Valid()
      modifies this
      ensures Valid() && DoneAs(deed)
    {
      hide HistoryOk, Explained;
      var begin := Happens();
      var request := ReadRequest();
      var fits := Happens();
      var pid := ReadPid();
      NothingDone(next, Look(), log, log);
      if begin && RequestOk(request) { var admitted := Begin(request, fits, pid, now); }
      deed := Deed(old(next), old(Look()), Look(), log[|old(log)|..]);
    }

    method Poll(now: int) returns (ghost deed: Deed)
      requires Valid()
      modifies this
      ensures Valid() && DoneAs(deed)
    {
      hide HistoryOk, Explained;
      var c := ReadChance();
      ghost var t := if task.Some? then task.value else 0;
      NothingDone(t, Look(), log, log);
      ghost var n, heard, told := Tick(now, c);
      deed := Deed(t, old(Look()), Look(), log[|old(log)|..]);
    }

    /** The deed tells what was done here. */
    twostate predicate DoneAs(deed: Deed)
      reads this
    {
      && Accountable(deed) && log == old(log) + deed.events
      && deed.before == old(Look()) && deed.after == Look()
    }

    /** Any run: polls, admissions and cancellations at any time, with anything between.
        Every stop, start, publication and signal in it was recorded when it was done, and
        the recorded events make up a safe history. */
    method Run(steps: nat) returns (ghost rounds: seq<Round>)
      requires Valid()
      modifies this
      ensures Valid() && Grown(old(log), log) && Safe(log)
      ensures |rounds| == steps && log == old(log) + EventsOf(rounds)
      ensures forall i :: 0 <= i < |rounds| ==> RoundOk(rounds[i])
      ensures steps > 0 ==> rounds[steps - 1].poll.after == Look()
    {
      hide HistoryOk, RoundOk;
      rounds := [];
      for i := 0 to steps
        invariant Valid() && |rounds| == i && log == old(log) + EventsOf(rounds)
        invariant forall k :: 0 <= k < i ==> RoundOk(rounds[k])
        invariant i > 0 ==> rounds[i - 1].poll.after == Look()
      {
        Environment();
        ghost var was := log;
        ghost var round := OneRound();
        OneMore(old(log), was, rounds, round);
        rounds := rounds + [round];
      }
      HistoryIsSafe();
    }

    method OneRound() returns (ghost round: Round)
      requires Valid()
      modifies this
      ensures Valid() && RoundOk(round) && log == old(log) + RoundEvents(round)
      ensures round.cancel.before == old(Look()) && round.poll.after == Look()
    {
      hide HistoryOk, Explained;
      var now := ReadClock();
      ghost var a := MayCancel(now);
      ghost var b := MayBegin(now);
      ghost var c := Poll(now);
      round := Round(a, b, c);
      assert log == old(log) + a.events + b.events + c.events;
    }

    lemma HistoryIsSafe()
      requires Valid()
      ensures Safe(log)
    {
    }
  }

  // ----- A launch that goes well -----

  /** Everything a launch needs to be published: it is wanted and fits, its worker's line comes
      in one piece and names the executables that are on disk, the model is there, the worker
      exits, and the server and the new engine start. */
  ghost predicate Favourable(c: Chance, request: Request, line: bytes, binary: string, agent: string, world: World) {
    && c.current && c.fit && c.hears == [Piece(line)] && 10 in line && |line| <= CHUNK
    && c.verdict == Prepared(false, binary, agent) && c.gone && c.forked && c.spawned
    && request.binaryPath in world && world[request.binaryPath] == binary && IdentityOf(world, request.modelPath) != "missing"
    && (request.agent.Some? ==> request.agent.value in world && world[request.agent.value] == agent != "")
  }

  /** The server a request asks for, as it must run in this world. */
  ghost function Wanted(request: Request, binary: string, world: World): Spec
    requires request.resident.Some?
  {
    Spec(request.resident.value.(
           modelIdentity := IdentityOf(world, request.modelPath),
           visionIdentity := if request.visionPath.Some? then IdentityOf(world, request.visionPath.value) else ""),
         binary)
  }

  /** From a running engine to another: admitted, prepared, the previous child told to stop, then
      the other server, the server of the request loaded and, when it is ready, published. */
  method Replacement(h: Host, request: Request, pid: nat, now: int, line: bytes, binary: string, agent: string, c: Chance)
    requires h.Valid() && h.task.None? && h.child.Some? && !h.childStop && pid !in h.unreaped
    requires h.engine.running && !h.engine.stopping
    requires RequestOk(request) && request.resident.Some? && |request.paths| <= DEPENDENCY_MAX
    requires Favourable(c, request, line, binary, agent, h.world)
    requires h.engine.spec != Wanted(request, binary, h.world)
    modifies h
    ensures h.Valid() && h.task.None? && Committed(old(h.next)) in h.log
    ensures h.child == c.born && h.engine == Engine(true, true, false, old(h.next), Wanted(request, binary, h.world))
  {
    hide HistoryOk, Explained, Identified, Recorded, Host.Valid;
    Readied(h, request, pid, now, line, binary, agent, c);
    h.Exits();
    ghost var n, heard, told := h.Tick(now, c);
    h.ServerExits();
    n, heard, told := h.Tick(now, c);
    h.ServerReady();
    n, heard, told := h.Tick(now, c);
  }

  /** Up to the moment the previous child is told to stop. */
  method Readied(h: Host, request: Request, pid: nat, now: int, line: bytes, binary: string, agent: string, c: Chance)
    requires h.Valid() && h.task.None? && h.child.Some? && !h.childStop && pid !in h.unreaped && !h.engine.stopping
    requires RequestOk(request) && request.resident.Some? && |request.paths| <= DEPENDENCY_MAX
    requires Favourable(c, request, line, binary, agent, h.world)
    modifies h
    ensures h.Valid() && h.task == Some(old(h.next)) && h.worker.pid.None? && h.childStop
    ensures h.child == old(h.child) && h.engine == old(h.engine) && h.world == old(h.world)
    ensures h.flow == Flow(true, false, true, true, false, None)
    ensures Identified(h.deps, h.world) && h.deps.binary == binary && h.deps.resident == Some(Wanted(request, binary, h.world).resident)
    ensures h.deps.resident.value.modelIdentity != "missing"
  {
    hide HistoryOk, Explained, Recorded, Host.Valid;
    var admitted := h.Begin(request, true, Some(pid), now);
    ghost var n, heard, told := h.Tick(now, c);
    assert n == 1;
  }

  // ----- Deeds -----

  /** What one call of the owner did, and the events it recorded. */
  datatype Deed = Deed(task: nat, before: View, after: View, events: seq<Event>)

  ghost predicate Accountable(d: Deed) { Explained(d.task, d.before, d.after, d.events) }

  /** One turn of the owner loop. */
  datatype Round = Round(cancel: Deed, begin: Deed, poll: Deed)

  ghost predicate RoundOk(r: Round) {
    && Accountable(r.cancel) && Accountable(r.begin) && Accountable(r.poll)
    && r.cancel.after == r.begin.before && r.begin.after == r.poll.before
  }

  ghost function RoundEvents(r: Round): seq<Event> { r.cancel.events + r.begin.events + r.poll.events }

  ghost function EventsOf(rounds: seq<Round>): seq<Event> {
    if rounds == [] then [] else EventsOf(rounds[..|rounds| - 1]) + RoundEvents(rounds[|rounds| - 1])
  }

  lemma OneMore(log: seq<Event>, was: seq<Event>, rounds: seq<Round>, r: Round)
    requires was == log + EventsOf(rounds)
    ensures was + RoundEvents(r) == log + EventsOf(rounds + [r])
  {
    assert (rounds + [r])[..|rounds|] == rounds;
  }

  /** Whoever told the child or another server to stop had received a result, had compared
      every recorded file with the disk, and was neither canceled nor broken. */
  lemma StopsAreDeserved(log: seq<Event>, d: Deed, at: nat) returns (k: nat, i: nat, j: nat)
    requires Safe(log) && Accountable(d) && at + |d.events| <= |log| && log[at..at + |d.events|] == d.events
    requires (d.after.childStop && !d.before.childStop)
             || (d.after.engine.stopping && !d.before.engine.stopping && StoppedOwn(d.task) !in d.events)
    ensures at <= k < at + |d.events| && i < k && log[i] == Received(d.task)
    ensures 0 < j < k && log[j - 1].Compared? && log[j - 1].task == d.task && Identified(log[j - 1].deps, log[j - 1].world)
    ensures forall m :: 0 <= m < k ==> log[m] != Faulted(d.task) && log[m] != Canceled(d.task) && log[m] != Failed(d.task)
  {
    var n :| 0 <= n < |d.events| && (d.events[n] == ToldChild(d.task) || d.events[n] == ToldEngine(d.task));
    k := at + n;
    assert log[k] == d.events[n];
    i, j := PreviousEngineIsSafe(log, k);
  }

  /** The identities a launch starts from. */
  method RecordDependencies(world: World, request: Request) returns (deps: Dependencies)
    requires RequestOk(request)
    ensures Recorded(deps) && deps.request == request && |deps.files| == |request.paths|
    ensures forall k :: 0 <= k < |request.paths| ==> deps.files[k] == (request.paths[k], IdentityOf(world, request.paths[k]))
    ensures deps.binaryPath == request.binaryPath && deps.binary == ""
    ensures deps.agent == if request.agent.Some? then Some((request.agent.value, "")) else None
    ensures deps.resident == if request.resident.None? then None
                             else Some(request.resident.value.(
                               modelIdentity := IdentityOf(world, request.modelPath),
                               visionIdentity := if request.visionPath.Some? then IdentityOf(world, request.visionPath.value) else ""))
  {
    var files, wanted, paths := [], request.resident, request.paths;
    for i := 0 to |paths|
      invariant |files| == i && forall k :: 0 <= k < i ==> files[k] == (paths[k], IdentityOf(world, paths[k]))
    {
      files := files + [(paths[i], IdentityOf(world, paths[i]))];
    }
    if wanted.Some? {
      var vision := if request.visionPath.Some? then IdentityOf(world, request.visionPath.value) else "";
      wanted := Some(wanted.value.(modelIdentity := IdentityOf(world, request.modelPath), visionIdentity := vision));
      RecordedFile(paths, files, world, request.modelPath);
      if request.visionPath.Some? { RecordedFile(paths, files, world, request.visionPath.value); }
    }
    deps := Dependencies(request, files, request.binaryPath, "", if request.agent.Some? then Some((request.agent.value, "")) else None, wanted);
  }

  lemma RecordedFile(paths: seq<string>, files: seq<(string, string)>, world: World, path: string)
    requires path in paths && |files| == |paths|
    requires forall k :: 0 <= k < |paths| ==> files[k] == (paths[k], IdentityOf(world, paths[k]))
    ensures (path, IdentityOf(world, path)) in files
  {
    var k :| 0 <= k < |paths| && paths[k] == path;
    assert files[k] == (path, IdentityOf(world, path));
  }

  // ----- The environment's choices -----

  method Happens() returns (b: bool) { b := *; }

  method ReadClock() returns (now: int) { now := *; }

  method ReadPid() returns (pid: Option<nat>) { pid := *; }

  method ReadChance() returns (chance: Chance) { chance := *; }

  method ReadWorld() returns (world: World) { world := *; }

  method ReadChild() returns (child: Option<nat>) { child := *; }

  method ReadRequest() returns (request: Request) { request := *; }
}
