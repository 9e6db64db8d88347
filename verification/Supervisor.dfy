/**
The supervisor of the `dsh web` child (apps/shell/src/main/harness-supervisor.ts).

JavaScript runs one segment of code between two awaits without interruption, so a run of the
supervisor is a sequence of such segments in an order the environment chooses: calls from the
shell, continuations of lifecycle operations, child events and timers. `Step` says what each
segment does; the class in SupervisorObject.dfy is the code in its own form, and each of its
methods is proved to do exactly what `Step` says.
*/
module Supervision {
  import opened Common

  const RESTART_WINDOW_MS := 60_000
  const BACKOFF_MAX_MS := 30_000

  datatype Config = Config(backoffBaseMs: nat, restartBudget: nat)

  datatype Status = Stopped | Starting | Ready | Unhealthy

  /** A launched child: what the operating system knows, and what Node has told the shell. */
  datatype Child = Child(
    generation: nat,     // the generation it was launched with
    alive: bool,         // its process runs
    killed: bool,        // killTree has been called on it
    exitSeen: bool,      // its `exit` event has been delivered
    errorSeen: bool,     // its `error` event has been delivered
    hasExitCode: bool,   // proc.exitCode !== null; stays false after a death by signal
    deadline: bool)      // its readiness timer has not fired

  datatype Timer = Timer(generation: nat, due: int, pending: bool)

  /** One activation of spawn(); `rejects` when the promise it awaits is rejected. */
  datatype Activation = Activation(id: nat, rejects: bool)

  /** How far an operation that called withLock has come. */
  datatype Phase =
    | Queued
    | AwaitExit
    | AwaitSpawn(earlier: Activation)
    | Ending(own: Option<Activation>)
    | Finished

  datatype Kind = Start | Stop | Restart

  /** Operation i owns lock promise i + 1; `prev` is the promise it awaits, and 0 is resolved. */
  datatype Op = Op(kind: Kind, prev: nat, phase: Phase)

  /** A child failure that passed the guard of maybeRespawn. */
  datatype Failed = Failed(at: int, delay: Option<int>)

  datatype State = State(
    // fields of the supervisor
    proc: Option<nat>,
    status: Status,
    url: Option<nat>,    // the child whose output held the ready line
    restarts: nat,
    lastRestartAt: int,
    stopping: bool,
    restartTimer: Option<nat>,
    generation: nat,
    spawnPromise: Option<Activation>,
    lifecycleLock: nat,
    // what it reaches through Node
    children: seq<Child>,
    timers: seq<Timer>,
    ops: seq<Op>,
    activations: nat,
    clock: int,
    failures: seq<Failed>,
    homeDirFailed: bool) // the latest attempt died in mkdirSync and no stop has followed

  const Initial := State(
    None, Stopped, None, 0, 0, false, None, 0, None, 0,
    [], [], [], 0, 0, [], false)

  /** What the environment does to one attempt to launch. */
  datatype Launch = HomeDirFails | LaunchFails(listenerThrows: bool) | Launched

  datatype Event =
    | CallStart | CallStop | CallRestart
    | Enter(op: nat, launch: Launch)
    | ExitAwaited(op: nat, launch: Launch)
    | SpawnAwaited(op: nat, launch: Launch)
    | Release(op: nat)
    | SpawnSettles
    | Dies(child: nat)
    | ExitEvent(child: nat, withCode: bool)
    | ErrorEvent(child: nat)
    | DeadlineFires(child: nat)
    | Output(child: nat, readyLine: bool)
    | TimerFires(timer: nat, launch: Launch)
    | Tick(ms: nat)

  // ---- the segments as functions ----

  predicate ProcUnexited(s: State) {
    s.proc.Some? && s.proc.value < |s.children| && !s.children[s.proc.value].hasExitCode
  }

  predicate Rejects(launch: Launch) {
    launch.HomeDirFails? || (launch.LaunchFails? && launch.listenerThrows)
  }

  function SpawnOnce(s: State, launch: Launch): State {
    if s.stopping || ProcUnexited(s) then s else
    var t := s.(generation := s.generation + 1, status := Starting, url := None, homeDirFailed := false);
    match launch
    case HomeDirFails => t.(homeDirFailed := true)
    case LaunchFails(_) => t.(status := Unhealthy)
    case Launched =>
      t.(proc := Some(|s.children|),
         children := s.children + [Child(t.generation, true, false, false, false, false, true)])
  }

  /** spawn() up to its await: the new state, and the activation the caller waits for. */
  function Spawn(s: State, launch: Launch): (State, Option<Activation>) {
    if s.stopping || ProcUnexited(s) then (s, None)
    else if s.spawnPromise.Some? then (s, s.spawnPromise)
    else
      var a := Activation(s.activations, Rejects(launch));
      (SpawnOnce(s, launch).(spawnPromise := Some(a), activations := s.activations + 1), Some(a))
  }

  function ClearRestartTimer(s: State): State {
    if s.restartTimer.Some? && s.restartTimer.value < |s.timers| then
      var t := s.restartTimer.value;
      s.(restartTimer := None, timers := s.timers[t := s.timers[t].(pending := false)])
    else
      s.(restartTimer := None)
  }

  function Kill(s: State, c: nat): State
    requires c < |s.children|
  {
    s.(children := s.children[c := s.children[c].(killed := true)])
  }

  function BackoffDelay(cfg: Config, k: nat): int
    requires k > 0
  {
    Min(cfg.backoffBaseMs * Pow2(k - 1), BACKOFF_MAX_MS)
  }

  function MaybeRespawn(cfg: Config, s: State, generation: nat): State {
    if s.stopping || generation != s.generation || s.proc.Some? then s else
    var r := if s.clock - s.lastRestartAt >= RESTART_WINDOW_MS then 0 else s.restarts;
    if r >= cfg.restartBudget then
      s.(restarts := r, lastRestartAt := s.clock, failures := s.failures + [Failed(s.clock, None)])
    else
      var delay := BackoffDelay(cfg, r + 1);
      s.(restarts := r + 1, lastRestartAt := s.clock,
         failures := s.failures + [Failed(s.clock, Some(delay))],
         restartTimer := Some(|s.timers|),
         timers := s.timers + [Timer(generation, s.clock + delay, true)])
  }

  function AddOp(s: State, kind: Kind): State {
    s.(ops := s.ops + [Op(kind, s.lifecycleLock, Queued)], lifecycleLock := |s.ops| + 1)
  }

  function SetPhase(s: State, i: nat, phase: Phase): State
    requires i < |s.ops|
  {
    s.(ops := s.ops[i := s.ops[i].(phase := phase)])
  }

  /** start() returns without queueing when a child is starting or has not exited. */
  predicate StartIsNoop(s: State) {
    s.status.Starting? || ProcUnexited(s)
  }

  function SpawnThenEnd(s: State, i: nat, launch: Launch): State
    requires i < |s.ops|
  {
    var (t, own) := Spawn(s.(stopping := false), launch);
    SetPhase(t, i, Ending(own))
  }

  /** What stop and restart do next once the old child needs no more waiting. */
  function AfterExit(s: State, i: nat, launch: Launch): State
    requires i < |s.ops|
  {
    if s.spawnPromise.Some? then SetPhase(s, i, AwaitSpawn(s.spawnPromise.value))
    else if s.ops[i].kind.Stop? then SetPhase(s, i, Ending(None))
    else SpawnThenEnd(s, i, launch)
  }

  /** The shared head of stop and restart: invalidate the generation and drop the timer. */
  function Invalidate(s: State): State {
    ClearRestartTimer(s.(stopping := true, generation := s.generation + 1))
  }

  function EnterStop(s: State, i: nat, launch: Launch): State
    requires i < |s.ops| && s.ops[i].kind.Stop?
  {
    var t := Invalidate(s).(proc := None, status := Stopped, url := None, homeDirFailed := false);
    if ProcUnexited(s) then SetPhase(Kill(t, s.proc.value), i, AwaitExit) else AfterExit(t, i, launch)
  }

  function EnterRestart(s: State, i: nat, launch: Launch): State
    requires i < |s.ops| && s.ops[i].kind.Restart?
  {
    var t := Invalidate(s);
    if ProcUnexited(s) then
      SetPhase(Kill(t.(proc := None, status := Stopped, url := None, homeDirFailed := false), s.proc.value), i, AwaitExit)
    else
      AfterExit(t, i, launch)
  }

  function EnterBody(s: State, i: nat, launch: Launch): State
    requires i < |s.ops|
  {
    match s.ops[i].kind
    case Start => if StartIsNoop(s) then SetPhase(s, i, Ending(None)) else SpawnThenEnd(s, i, launch)
    case Stop => EnterStop(s, i, launch)
    case Restart => EnterRestart(s, i, launch)
  }

  /** The awaited activation has settled; a rejection leaves the body through its finally. */
  function AfterSpawn(s: State, i: nat, earlier: Activation, launch: Launch): State
    requires i < |s.ops|
  {
    if earlier.rejects || s.ops[i].kind.Stop? then SetPhase(s, i, Ending(None))
    else SpawnThenEnd(s, i, launch)
  }

  predicate OwnsProc(s: State, c: nat)
    requires c < |s.children|
  {
    !s.stopping && s.children[c].generation == s.generation && s.proc == Some(c)
  }

  function OnExit(cfg: Config, s: State, c: nat, withCode: bool): State
    requires c < |s.children|
  {
    var t := s.(children := s.children[c := s.children[c].(exitSeen := true, hasExitCode := withCode)]);
    if !OwnsProc(s, c) then t else
    MaybeRespawn(cfg,
                 t.(proc := None, url := None, status := if s.status.Ready? then Unhealthy else Stopped),
                 s.children[c].generation)
  }

  function OnError(cfg: Config, s: State, c: nat): State
    requires c < |s.children|
  {
    var t := s.(children := s.children[c := s.children[c].(errorSeen := true, hasExitCode := true)]);
    if !OwnsProc(s, c) then t else
    MaybeRespawn(cfg, t.(proc := None, url := None, status := Unhealthy), s.children[c].generation)
  }

  function OnDeadline(s: State, c: nat): State
    requires c < |s.children|
  {
    var t := s.(children := s.children[c := s.children[c].(deadline := false)]);
    if s.children[c].generation == s.generation && s.proc == Some(c) && s.status.Starting?
       && !s.children[c].hasExitCode
    then Kill(t, c) else t
  }

  function OnOutput(s: State, c: nat, readyLine: bool): State {
    if s.status.Starting? && readyLine then s.(url := Some(c), status := Ready) else s
  }

  function OnTimer(s: State, t: nat, launch: Launch): State
    requires t < |s.timers|
  {
    var u := s.(restartTimer := None, timers := s.timers[t := s.timers[t].(pending := false)]);
    if s.stopping || s.timers[t].generation != s.generation || s.proc.Some? then u else Spawn(u, launch).0
  }

  // ---- the transition system ----

  predicate Resolved(s: State, promise: nat) {
    promise == 0 || (promise <= |s.ops| && s.ops[promise - 1].phase.Finished?)
  }

  predicate Enabled(s: State, e: Event) {
    match e
    case CallStart => true
    case CallStop => true
    case CallRestart => true
    case Enter(i, _) => i < |s.ops| && s.ops[i].phase.Queued? && Resolved(s, s.ops[i].prev)
    case ExitAwaited(i, _) => i < |s.ops| && s.ops[i].phase.AwaitExit?
    case SpawnAwaited(i, _) =>
      i < |s.ops| && s.ops[i].phase.AwaitSpawn? && s.spawnPromise != Some(s.ops[i].phase.earlier)
    case Release(i) =>
      i < |s.ops| && s.ops[i].phase.Ending?
      && (s.ops[i].phase.own.Some? ==> s.spawnPromise != s.ops[i].phase.own)
    case SpawnSettles => s.spawnPromise.Some?
    case Dies(c) => c < |s.children| && s.children[c].alive
    case ExitEvent(c, _) => c < |s.children| && !s.children[c].alive && !s.children[c].exitSeen
    case ErrorEvent(c) => c < |s.children| && !s.children[c].alive && !s.children[c].errorSeen
    case DeadlineFires(c) => c < |s.children| && s.children[c].deadline
    case Output(c, _) => c < |s.children|
    case TimerFires(t, _) => t < |s.timers| && s.timers[t].pending && s.timers[t].due <= s.clock
    case Tick(_) => true
  }

  function Step(cfg: Config, s: State, e: Event): State
    requires Enabled(s, e)
  {
    match e
    case CallStart => if StartIsNoop(s) then s else AddOp(s, Start)
    case CallStop => AddOp(s, Stop)
    case CallRestart => AddOp(s, Restart)
    case Enter(i, launch) => EnterBody(s, i, launch)
    case ExitAwaited(i, launch) => AfterExit(s, i, launch)
    case SpawnAwaited(i, launch) => AfterSpawn(s, i, s.ops[i].phase.earlier, launch)
    case Release(i) => SetPhase(s, i, Finished)
    case SpawnSettles => s.(spawnPromise := None)
    case Dies(c) => s.(children := s.children[c := s.children[c].(alive := false)])
    case ExitEvent(c, withCode) => OnExit(cfg, s, c, withCode)
    case ErrorEvent(c) => OnError(cfg, s, c)
    case DeadlineFires(c) => OnDeadline(s, c)
    case Output(c, readyLine) => OnOutput(s, c, readyLine)
    case TimerFires(t, launch) => OnTimer(s, t, launch)
    case Tick(ms) => s.(clock := s.clock + ms)
  }

  /** `states` is a run driven by `events`. */
  ghost predicate IsRun(cfg: Config, states: seq<State>, events: seq<Event>) {
    && |states| == |events| + 1
    && states[0] == Initial
    && forall i :: 0 <= i < |events| ==>
         Enabled(states[i], events[i]) && states[i + 1] == Step(cfg, states[i], events[i])
  }

  // ---- what every state of every run satisfies ----

  predicate Serving(c: Child) {
    c.alive && !c.killed
  }

  ghost predicate ProcInv(s: State) {
    && (s.proc.Some? ==>
          && s.proc.value < |s.children|
          && var c := s.children[s.proc.value];
             c.generation == s.generation && !c.exitSeen && !c.errorSeen && !c.hasExitCode && !s.stopping)
    && (forall c :: 0 <= c < |s.children| && Serving(s.children[c]) ==> s.proc == Some(c))
  }

  ghost predicate StatusInv(s: State) {
    && (s.url.Some? <==> s.status.Ready?)
    && ((s.status.Starting? || s.status.Ready?) <==> (s.proc.Some? || s.homeDirFailed))
    && !(s.proc.Some? && s.homeDirFailed)
  }

  ghost predicate LockInv(s: State) {
    && s.lifecycleLock == |s.ops|
    && (forall i :: 0 <= i < |s.ops| ==> s.ops[i].prev == i)
    && (forall i, j :: 0 <= j < i < |s.ops| && !s.ops[i].phase.Queued? ==> s.ops[j].phase.Finished?)
  }

  /** An operation still waiting for the past finds nothing new launched behind its back. */
  ghost predicate WaitingInv(s: State) {
    forall i :: 0 <= i < |s.ops| ==>
      && (s.ops[i].phase.AwaitExit? || s.ops[i].phase.AwaitSpawn? ==>
            s.stopping && s.proc.None? && !s.ops[i].kind.Start?)
      && (s.ops[i].phase.AwaitSpawn? && s.spawnPromise.Some? ==>
            s.spawnPromise.value == s.ops[i].phase.earlier)
  }

  ghost predicate Inv(s: State) {
    ProcInv(s) && StatusInv(s) && LockInv(s) && WaitingInv(s)
  }

  // ---- each building block keeps what it should ----

  ghost predicate Core(s: State) {
    ProcInv(s) && StatusInv(s)
  }

  /** The fields the lifecycle operations live in are untouched. */
  ghost predicate SameOps(s: State, t: State) {
    s.ops == t.ops && s.lifecycleLock == t.lifecycleLock
  }

  lemma SpawnOnceKeepsCore(s: State, launch: Launch)
    requires Core(s)
    ensures Core(SpawnOnce(s, launch)) && SameOps(s, SpawnOnce(s, launch))
  {
    var t := SpawnOnce(s, launch);
    forall c | 0 <= c < |t.children| && Serving(t.children[c])
      ensures t.proc == Some(c)
    {
      if c < |s.children| {
        assert t.children[c] == s.children[c];
      }
    }
  }

  lemma SpawnKeepsCore(s: State, launch: Launch)
    requires Core(s)
    ensures Core(Spawn(s, launch).0) && SameOps(s, Spawn(s, launch).0)
    ensures s.stopping ==> Spawn(s, launch) == (s, None)
  {
    SpawnOnceKeepsCore(s, launch);
  }

  lemma MaybeRespawnKeepsCore(cfg: Config, s: State, generation: nat)
    requires Core(s)
    ensures Core(MaybeRespawn(cfg, s, generation)) && SameOps(s, MaybeRespawn(cfg, s, generation))
  {
  }

  /** A child of the past may be updated freely as long as it does not come alive. */
  lemma UpdateChildKeepsCore(s: State, c: nat, child: Child)
    requires Core(s) && c < |s.children|
    requires child.generation == s.children[c].generation
    requires Serving(child) ==> Serving(s.children[c])
    requires s.proc == Some(c) ==> !child.exitSeen && !child.errorSeen && !child.hasExitCode
    ensures Core(s.(children := s.children[c := child]))
  {
    var t := s.(children := s.children[c := child]);
    forall d | 0 <= d < |t.children| && Serving(t.children[d])
      ensures t.proc == Some(d)
    {
      assert Serving(s.children[d]);
    }
  }

  /** Letting go of a child is safe once it is dead or has been killed. */
  lemma DropProcKeepsCore(s: State, t: State)
    requires Core(s)
    requires t.proc == None && |t.children| == |s.children|
    requires forall c :: 0 <= c < |t.children| ==> (Serving(t.children[c]) ==> Serving(s.children[c]))
    requires s.proc.Some? ==> !Serving(t.children[s.proc.value])
    requires StatusInv(t)
    ensures Core(t)
  {
    forall c | 0 <= c < |t.children| && Serving(t.children[c])
      ensures t.proc == Some(c)
    {
      assert Serving(s.children[c]);
    }
  }

  lemma InvalidateIsStop(s: State)
    ensures var t := Invalidate(s);
            && SameOps(s, t) && t.stopping && t.generation == s.generation + 1
            && t.proc == s.proc && t.children == s.children && t.status == s.status && t.url == s.url
            && t.homeDirFailed == s.homeDirFailed && t.spawnPromise == s.spawnPromise
            && t.restartTimer == None && |t.timers| == |s.timers|
            && (forall k :: 0 <= k < |s.timers| ==>
                  t.timers[k] == if s.restartTimer == Some(k) then s.timers[k].(pending := false) else s.timers[k])
            && t.activations == s.activations && t.restarts == s.restarts && t.clock == s.clock
            && t.lastRestartAt == s.lastRestartAt && t.failures == s.failures
  {
  }

  // ---- lifecycle operations ----

  /** Operation i is the only one inside its body: all before it are done, all after it wait. */
  ghost predicate Inside(s: State, i: nat) {
    && i < |s.ops|
    && (forall j :: 0 <= j < i ==> s.ops[j].phase.Finished?)
    && (forall j :: i < j < |s.ops| ==> s.ops[j].phase.Queued?)
  }

  lemma SetPhaseKeepsInv(s: State, i: nat, phase: Phase)
    requires Core(s) && LockInv(s) && Inside(s, i) && !phase.Queued?
    requires phase.AwaitExit? || phase.AwaitSpawn? ==> s.stopping && s.proc.None? && !s.ops[i].kind.Start?
    requires phase.AwaitSpawn? && s.spawnPromise.Some? ==> s.spawnPromise.value == phase.earlier
    ensures Inv(SetPhase(s, i, phase))
  {
  }

  lemma SpawnThenEndKeepsInv(s: State, i: nat, launch: Launch)
    requires Core(s) && LockInv(s) && Inside(s, i)
    ensures Inv(SpawnThenEnd(s, i, launch))
  {
    var u := s.(stopping := false);
    assert Core(u);
    SpawnKeepsCore(u, launch);
    var (t, own) := Spawn(u, launch);
    SetPhaseKeepsInv(t, i, Ending(own));
  }

  lemma AfterExitKeepsInv(s: State, i: nat, launch: Launch)
    requires Core(s) && LockInv(s) && Inside(s, i)
    requires s.stopping && s.proc.None? && !s.ops[i].kind.Start?
    ensures Inv(AfterExit(s, i, launch))
  {
    if s.spawnPromise.Some? {
      SetPhaseKeepsInv(s, i, AwaitSpawn(s.spawnPromise.value));
    } else if s.ops[i].kind.Stop? {
      SetPhaseKeepsInv(s, i, Ending(None));
    } else {
      SpawnThenEndKeepsInv(s, i, launch);
    }
  }

  lemma StopOrRestartKeepsInv(s: State, i: nat, launch: Launch)
    requires Inv(s) && Inside(s, i) && !s.ops[i].kind.Start?
    ensures Inv(EnterBody(s, i, launch))
  {
    var t := Invalidate(s);
    InvalidateIsStop(s);
    var u := t.(proc := None, status := Stopped, url := None, homeDirFailed := false);
    if ProcUnexited(s) {
      DropProcKeepsCore(s, Kill(u, s.proc.value));
      SetPhaseKeepsInv(Kill(u, s.proc.value), i, AwaitExit);
    } else if s.ops[i].kind.Stop? {
      DropProcKeepsCore(s, u);
      AfterExitKeepsInv(u, i, launch);
    } else {
      DropProcKeepsCore(s, t);
      AfterExitKeepsInv(t, i, launch);
    }
  }

  lemma EnterKeepsInv(s: State, i: nat, launch: Launch)
    requires Inv(s) && Enabled(s, Enter(i, launch))
    ensures Inside(s, i) && Inv(EnterBody(s, i, launch))
  {
    TurnsComeInOrder(s, i, launch);
    if !s.ops[i].kind.Start? {
      StopOrRestartKeepsInv(s, i, launch);
    } else if StartIsNoop(s) {
      SetPhaseKeepsInv(s, i, Ending(None));
    } else {
      SpawnThenEndKeepsInv(s, i, launch);
    }
  }

  /** Whoever enters the critical section is the oldest unfinished operation. */
  lemma TurnsComeInOrder(s: State, i: nat, launch: Launch)
    requires LockInv(s) && Enabled(s, Enter(i, launch))
    ensures Inside(s, i)
  {
    assert i > 0 ==> s.ops[i - 1].phase.Finished?;
    forall j | 0 <= j < i
      ensures s.ops[j].phase.Finished?
    {
      assert i > 0 && !s.ops[i - 1].phase.Queued?;
    }
    forall j | i < j < |s.ops|
      ensures s.ops[j].phase.Queued?
    {
      if !s.ops[j].phase.Queued? {
        assert false;
      }
    }
  }

  lemma InsideWhenUnfinished(s: State, i: nat)
    requires LockInv(s) && i < |s.ops| && !s.ops[i].phase.Queued? && !s.ops[i].phase.Finished?
    ensures Inside(s, i)
  {
  }

  lemma ContinuationKeepsInv(s: State, e: Event, cfg: Config)
    requires Inv(s) && Enabled(s, e)
    requires e.ExitAwaited? || e.SpawnAwaited? || e.Release?
    ensures Inv(Step(cfg, s, e))
  {
    InsideWhenUnfinished(s, e.op);
    match e
    case ExitAwaited(i, launch) => AfterExitKeepsInv(s, i, launch);
    case SpawnAwaited(i, launch) =>
      if s.ops[i].phase.earlier.rejects || s.ops[i].kind.Stop? {
        SetPhaseKeepsInv(s, i, Ending(None));
      } else {
        SpawnThenEndKeepsInv(s, i, launch);
      }
    case Release(i) => SetPhaseKeepsInv(s, i, Finished);
  }

  lemma CallKeepsInv(s: State, kind: Kind)
    requires Inv(s)
    ensures Inv(AddOp(s, kind))
  {
  }

  // ---- child events and timers ----

  lemma NothingAwaitedMoves(s: State, t: State)
    requires Inv(s) && Core(t) && SameOps(s, t)
    requires s.stopping ==> t.stopping && (s.proc.None? ==> t.proc.None?)
    requires s.stopping ==> t.spawnPromise == s.spawnPromise || t.spawnPromise.None?
    ensures Inv(t)
  {
  }

  lemma ExitKeepsInv(cfg: Config, s: State, c: nat, withCode: bool)
    requires Inv(s) && Enabled(s, ExitEvent(c, withCode))
    ensures Inv(OnExit(cfg, s, c, withCode))
  {
    var child := s.children[c].(exitSeen := true, hasExitCode := withCode);
    var t := s.(children := s.children[c := child]);
    if !OwnsProc(s, c) {
      UpdateChildKeepsCore(s, c, child);
      NothingAwaitedMoves(s, t);
    } else {
      var u := t.(proc := None, url := None, status := if s.status.Ready? then Unhealthy else Stopped);
      DropProcKeepsCore(s, u);
      MaybeRespawnKeepsCore(cfg, u, s.children[c].generation);
      NothingAwaitedMoves(s, OnExit(cfg, s, c, withCode));
    }
  }

  lemma ErrorKeepsInv(cfg: Config, s: State, c: nat)
    requires Inv(s) && Enabled(s, ErrorEvent(c))
    ensures Inv(OnError(cfg, s, c))
  {
    var child := s.children[c].(errorSeen := true, hasExitCode := true);
    var t := s.(children := s.children[c := child]);
    if !OwnsProc(s, c) {
      UpdateChildKeepsCore(s, c, child);
      NothingAwaitedMoves(s, t);
    } else {
      var u := t.(proc := None, url := None, status := Unhealthy);
      DropProcKeepsCore(s, u);
      MaybeRespawnKeepsCore(cfg, u, s.children[c].generation);
      NothingAwaitedMoves(s, OnError(cfg, s, c));
    }
  }

  lemma DeadlineKeepsInv(s: State, c: nat)
    requires Inv(s) && c < |s.children|
    ensures Inv(OnDeadline(s, c))
  {
    var child := s.children[c].(deadline := false);
    var t := s.(children := s.children[c := child]);
    UpdateChildKeepsCore(s, c, child);
    UpdateChildKeepsCore(t, c, child.(killed := true));
    NothingAwaitedMoves(s, OnDeadline(s, c));
  }

  lemma TimerKeepsInv(s: State, n: nat, launch: Launch)
    requires Inv(s) && n < |s.timers|
    ensures Inv(OnTimer(s, n, launch))
  {
    var u := s.(restartTimer := None, timers := s.timers[n := s.timers[n].(pending := false)]);
    assert Core(u);
    SpawnKeepsCore(u, launch);
    NothingAwaitedMoves(s, OnTimer(s, n, launch));
  }

  lemma StepKeepsInv(cfg: Config, s: State, e: Event)
    requires Inv(s) && Enabled(s, e)
    ensures Inv(Step(cfg, s, e))
  {
    match e
    case CallStart => CallKeepsInv(s, Start);
    case CallStop => CallKeepsInv(s, Stop);
    case CallRestart => CallKeepsInv(s, Restart);
    case Enter(i, launch) => EnterKeepsInv(s, i, launch);
    case ExitAwaited(_, _) => ContinuationKeepsInv(s, e, cfg);
    case SpawnAwaited(_, _) => ContinuationKeepsInv(s, e, cfg);
    case Release(_) => ContinuationKeepsInv(s, e, cfg);
    case SpawnSettles =>
    case Dies(c) =>
      UpdateChildKeepsCore(s, c, s.children[c].(alive := false));
      NothingAwaitedMoves(s, Step(cfg, s, e));
    case ExitEvent(c, withCode) => ExitKeepsInv(cfg, s, c, withCode);
    case ErrorEvent(c) => ErrorKeepsInv(cfg, s, c);
    case DeadlineFires(c) => DeadlineKeepsInv(s, c);
    case Output(c, readyLine) => NothingAwaitedMoves(s, OnOutput(s, c, readyLine));
    case TimerFires(n, launch) => TimerKeepsInv(s, n, launch);
    case Tick(_) =>
  }

  lemma {:induction false} RunKeepsInv(cfg: Config, states: seq<State>, events: seq<Event>, n: nat)
    requires IsRun(cfg, states, events) && n < |states|
    ensures Inv(states[n])
  {
    if n > 0 {
      RunKeepsInv(cfg, states, events, n - 1);
      StepKeepsInv(cfg, states[n - 1], events[n - 1]);
    }
  }

  // ---- what operations leave alone ----

  /** The part of the state the failure log lives in. */
  predicate SameBackoff(s: State, t: State) {
    s.failures == t.failures && s.restarts == t.restarts && s.lastRestartAt == t.lastRestartAt && s.clock == t.clock
  }

  /** What is held is what was held, nothing, or a child just launched. */
  predicate HoldsOnlyNew(s: State, t: State) {
    |s.children| <= |t.children| && (t.proc.Some? ==> t.proc == s.proc || t.proc.value >= |s.children|)
  }

  /** A lifecycle operation never touches the failure log and never publishes a URL, takes hold of no child
      but one it launches, and only a launch whose home directory fails leaves that mark. */
  predicate OperationFrame(s: State, t: State, launch: Launch) {
    && SameBackoff(s, t)
    && (t.url.Some? ==> t.url == s.url && t.proc == s.proc)
    && (t.homeDirFailed ==> s.homeDirFailed || launch.HomeDirFails?)
    && HoldsOnlyNew(s, t)
  }

  lemma SpawnFrame(s: State, launch: Launch)
    ensures OperationFrame(s, Spawn(s, launch).0, launch)
  {
  }

  lemma SpawnThenEndFrame(s: State, i: nat, launch: Launch)
    requires i < |s.ops|
    ensures OperationFrame(s, SpawnThenEnd(s, i, launch), launch)
  {
    SpawnFrame(s.(stopping := false), launch);
  }

  lemma AfterExitFrame(s: State, i: nat, launch: Launch)
    requires i < |s.ops|
    ensures OperationFrame(s, AfterExit(s, i, launch), launch)
  {
    SpawnThenEndFrame(s, i, launch);
  }

  lemma EnterStopFrame(s: State, i: nat, launch: Launch)
    requires i < |s.ops| && s.ops[i].kind.Stop?
    ensures OperationFrame(s, EnterStop(s, i, launch), launch)
  {
    InvalidateIsStop(s);
    var t := Invalidate(s);
    AfterExitFrame(t, i, launch);
    AfterExitFrame(t.(proc := None, status := Stopped, url := None, homeDirFailed := false), i, launch);
  }

  lemma EnterRestartFrame(s: State, i: nat, launch: Launch)
    requires i < |s.ops| && s.ops[i].kind.Restart?
    ensures OperationFrame(s, EnterRestart(s, i, launch), launch)
  {
    InvalidateIsStop(s);
    var t := Invalidate(s);
    AfterExitFrame(t, i, launch);
    AfterExitFrame(t.(proc := None, status := Stopped, url := None, homeDirFailed := false), i, launch);
  }

  lemma EnterBodyFrame(s: State, i: nat, launch: Launch)
    requires i < |s.ops|
    ensures OperationFrame(s, EnterBody(s, i, launch), launch)
  {
    hide SpawnThenEnd, AfterExit;
    match s.ops[i].kind
    case Start => SpawnThenEndFrame(s, i, launch);
    case Stop => EnterStopFrame(s, i, launch);
    case Restart => EnterRestartFrame(s, i, launch);
  }

  // ---- the main results about runs ----

  /** At most one child is alive and not yet killed, and it is the current one. */
  lemma AtMostOneServingChild(cfg: Config, states: seq<State>, events: seq<Event>, n: nat)
    requires IsRun(cfg, states, events) && n < |states|
    ensures forall c, d | 0 <= c < |states[n].children| && 0 <= d < |states[n].children| ::
              Serving(states[n].children[c]) && Serving(states[n].children[d]) ==> c == d
    ensures forall c :: 0 <= c < |states[n].children| && Serving(states[n].children[c]) ==>
              states[n].proc == Some(c) && states[n].children[c].generation == states[n].generation
  {
    RunKeepsInv(cfg, states, events, n);
  }

  predicate LosesHomeDir(e: Event) {
    (e.Enter? || e.ExitAwaited? || e.SpawnAwaited? || e.TimerFires?) && e.launch.HomeDirFails?
  }

  lemma {:induction false} HomeDirHolds(cfg: Config, states: seq<State>, events: seq<Event>, n: nat)
    requires IsRun(cfg, states, events) && n < |states|
    requires forall i :: 0 <= i < n ==> !LosesHomeDir(events[i])
    ensures !states[n].homeDirFailed
  {
    if n > 0 {
      HomeDirHolds(cfg, states, events, n - 1);
      assert !LosesHomeDir(events[n - 1]);
      StepKeepsHomeDir(cfg, states[n - 1], events[n - 1]);
    }
  }

  lemma StepKeepsHomeDir(cfg: Config, s: State, e: Event)
    requires Enabled(s, e) && !LosesHomeDir(e) && !s.homeDirFailed
    ensures !Step(cfg, s, e).homeDirFailed
  {
    match e
    case Enter(i, launch) => EnterBodyFrame(s, i, launch);
    case ExitAwaited(i, launch) => AfterExitFrame(s, i, launch);
    case SpawnAwaited(i, launch) => SpawnThenEndFrame(s, i, launch);
    case TimerFires(n, launch) =>
      SpawnFrame(s.(restartTimer := None, timers := s.timers[n := s.timers[n].(pending := false)]), launch);
    case CallStart =>
    case CallStop =>
    case CallRestart =>
    case Release(_) =>
    case SpawnSettles =>
    case Dies(_) =>
    case ExitEvent(_, _) =>
    case ErrorEvent(_) =>
    case DeadlineFires(_) =>
    case Output(_, _) =>
    case Tick(_) =>
  }

  /** A URL is published exactly while ready; a child is held exactly while starting or ready,
      as long as no attempt has died creating the home directory. */
  lemma StatusMatchesChild(cfg: Config, states: seq<State>, events: seq<Event>, n: nat)
    requires IsRun(cfg, states, events) && n < |states|
    ensures states[n].url.Some? <==> states[n].status.Ready?
    ensures (forall i :: 0 <= i < n ==> !LosesHomeDir(events[i])) ==>
              (states[n].proc.Some? <==> states[n].status.Starting? || states[n].status.Ready?)
    ensures (states[n].proc.Some? <==> states[n].status.Starting? || states[n].status.Ready?)
              <==> !states[n].homeDirFailed
  {
    RunKeepsInv(cfg, states, events, n);
    if forall i :: 0 <= i < n ==> !LosesHomeDir(events[i]) {
      HomeDirHolds(cfg, states, events, n);
    }
  }

  /** When the home directory cannot be created the supervisor reports `starting` with no child,
      and every later start() is a no-op. */
  lemma FailedHomeDirLooksLikeStarting(cfg: Config)
    ensures var run := [Initial,
                        Step(cfg, Initial, CallStart),
                        Step(cfg, Step(cfg, Initial, CallStart), Enter(0, HomeDirFails))];
            && IsRun(cfg, run, [CallStart, Enter(0, HomeDirFails)])
            && run[2].status.Starting? && run[2].proc.None?
            && Step(cfg, run[2], CallStart) == run[2]
  {
    var s1 := Step(cfg, Initial, CallStart);
    var s2 := Step(cfg, s1, Enter(0, HomeDirFails));
    var run, events := [Initial, s1, s2], [CallStart, Enter(0, HomeDirFails)];
    forall i | 0 <= i < |events|
      ensures Enabled(run[i], events[i]) && run[i + 1] == Step(cfg, run[i], events[i])
    {
      assert i == 0 || i == 1;
    }
  }

  ghost predicate InBody(op: Op) {
    !op.phase.Queued? && !op.phase.Finished?
  }

  /** Critical sections never overlap, and one begins only when all earlier calls have ended. */
  lemma CriticalSectionsAreFifo(cfg: Config, states: seq<State>, events: seq<Event>, n: nat)
    requires IsRun(cfg, states, events) && n < |states|
    ensures forall i, j | 0 <= i < |states[n].ops| && 0 <= j < |states[n].ops| ::
              InBody(states[n].ops[i]) && InBody(states[n].ops[j]) ==> i == j
    ensures forall i, j :: 0 <= j < i < |states[n].ops| && !states[n].ops[i].phase.Queued? ==>
              states[n].ops[j].phase.Finished?
  {
    RunKeepsInv(cfg, states, events, n);
  }

  /** The lock cannot wedge: the oldest unfinished operation always has a step of its own to take,
      at the latest once a pending activation settles. */
  lemma LockNeverWedges(cfg: Config, states: seq<State>, events: seq<Event>, n: nat, i: nat, launch: Launch)
    requires IsRun(cfg, states, events) && n < |states|
    requires i < |states[n].ops| && !states[n].ops[i].phase.Finished?
    requires forall j :: 0 <= j < i ==> states[n].ops[j].phase.Finished?
    ensures var s := states[n];
            var t := if s.spawnPromise.Some? then Step(cfg, s, SpawnSettles) else s;
            || Enabled(t, Enter(i, launch)) || Enabled(t, ExitAwaited(i, launch))
            || Enabled(t, SpawnAwaited(i, launch)) || Enabled(t, Release(i))
  {
    RunKeepsInv(cfg, states, events, n);
    assert states[n].ops[i].prev == i;
  }

  predicate StaleFor(s: State, e: Event)
    requires Enabled(s, e)
  {
    match e
    case ExitEvent(c, _) => s.children[c].generation != s.generation
    case ErrorEvent(c) => s.children[c].generation != s.generation
    case DeadlineFires(c) => s.children[c].generation != s.generation
    case TimerFires(t, _) => s.timers[t].generation != s.generation
    case _ => false
  }

  /** Events of an earlier generation change nothing that matters, launch nothing and kill nothing. */
  lemma StaleEventsAreInert(cfg: Config, s: State, e: Event)
    requires Enabled(s, e) && StaleFor(s, e)
    ensures var t := Step(cfg, s, e);
            && t.proc == s.proc && t.status == s.status && t.url == s.url
            && t.generation == s.generation && t.restarts == s.restarts
            && |t.children| == |s.children| && t.failures == s.failures
            && forall c :: 0 <= c < |s.children| ==> t.children[c].killed == s.children[c].killed
  {
  }

  // ---- children of the past ----

  /** The child an event comes from. */
  function From(e: Event): Option<nat> {
    match e
    case Dies(c) => Some(c)
    case ExitEvent(c, _) => Some(c)
    case ErrorEvent(c) => Some(c)
    case DeadlineFires(c) => Some(c)
    case Output(c, _) => Some(c)
    case _ => None
  }

  lemma StepHoldsOnlyNew(cfg: Config, s: State, e: Event)
    requires Enabled(s, e)
    ensures HoldsOnlyNew(s, Step(cfg, s, e))
  {
    hide EnterBody, SpawnThenEnd, AfterExit, Spawn;
    match e
    case Enter(i, launch) => EnterBodyFrame(s, i, launch);
    case ExitAwaited(i, launch) => AfterExitFrame(s, i, launch);
    case SpawnAwaited(i, launch) => SpawnThenEndFrame(s, i, launch);
    case TimerFires(n, launch) =>
      SpawnFrame(s.(restartTimer := None, timers := s.timers[n := s.timers[n].(pending := false)]), launch);
    case _ =>
  }

  /** A child let go of is never held again. */
  lemma {:induction false} LetGoForGood(cfg: Config, states: seq<State>, events: seq<Event>, a: nat, b: nat, c: nat)
    requires IsRun(cfg, states, events) && a <= b < |states|
    requires c < |states[a].children| && states[a].proc != Some(c)
    ensures c < |states[b].children| && states[b].proc != Some(c)
    decreases b
  {
    hide Step, Enabled;
    if a < b {
      LetGoForGood(cfg, states, events, a, b - 1, c);
      StepHoldsOnlyNew(cfg, states[b - 1], events[b - 1]);
    }
  }

  lemma PastChildStep(cfg: Config, s: State, e: Event, c: nat)
    requires Enabled(s, e) && From(e) == Some(c) && s.proc != Some(c)
    ensures var t := Step(cfg, s, e);
            && t.proc == s.proc && t.generation == s.generation && t.restarts == s.restarts
            && t.failures == s.failures && |t.timers| == |s.timers| && |t.children| == |s.children|
            && (forall d :: 0 <= d < |s.children| ==> t.children[d].killed == s.children[d].killed)
            && (ReadyFromHeldChild(s, e) ==> t.status == s.status && t.url == s.url)
  {
    hide MaybeRespawn;
  }

  /** From the moment a child is let go of, in every run, nothing that child does changes what is held, the
      status, the generation or the failure count, launches or kills anything or schedules a respawn; and
      only a ready line of its, read while its successor starts, touches the URL. */
  lemma PastChildrenAreInert(cfg: Config, states: seq<State>, events: seq<Event>, a: nat, b: nat, c: nat)
    requires IsRun(cfg, states, events) && a <= b < |events|
    requires c < |states[a].children| && states[a].proc != Some(c) && From(events[b]) == Some(c)
    ensures var s, t := states[b], states[b + 1];
            && s.proc != Some(c) && t.proc == s.proc && t.generation == s.generation && t.restarts == s.restarts
            && t.failures == s.failures && |t.timers| == |s.timers| && |t.children| == |s.children|
            && (forall d :: 0 <= d < |s.children| ==> t.children[d].killed == s.children[d].killed)
            && (ReadyFromHeldChild(s, events[b]) ==> t.status == s.status && t.url == s.url)
  {
    LetGoForGood(cfg, states, events, a, b, c);
    PastChildStep(cfg, states[b], events[b], c);
    hide Step, Enabled;
  }

  /** Stopping, and nobody who could launch is inside the critical section. */
  ghost predicate Quiescent(s: State) {
    s.stopping && forall i :: 0 <= i < |s.ops| && InBody(s.ops[i]) ==> s.ops[i].kind.Stop?
  }

  predicate EntersToLaunch(s: State, e: Event) {
    e.Enter? && e.op < |s.ops| && !s.ops[e.op].kind.Stop?
  }

  lemma QuiescentStep(cfg: Config, s: State, e: Event)
    requires Inv(s) && Enabled(s, e) && Quiescent(s) && !EntersToLaunch(s, e)
    ensures Quiescent(Step(cfg, s, e)) && |Step(cfg, s, e).children| == |s.children|
  {
    InvalidateIsStop(s);
    if e.Enter? {
      TurnsComeInOrder(s, e.op, e.launch);
    }
  }

  /** From the moment a stop is inside the critical section, nothing is launched until a start or
      restart that was called after it enters in its turn. */
  lemma {:induction false} NothingLaunchedAfterStop(
    cfg: Config, states: seq<State>, events: seq<Event>, a: nat, b: nat, i: nat, launch: Launch)
    requires IsRun(cfg, states, events) && a < b < |states|
    requires events[a] == Enter(i, launch) && states[a].ops[i].kind.Stop?
    requires forall k :: a < k < b ==> !EntersToLaunch(states[k], events[k])
    ensures |states[b].children| == |states[a].children| && Quiescent(states[b])
    decreases b
  {
    RunKeepsInv(cfg, states, events, b - 1);
    if b == a + 1 {
      TurnsComeInOrder(states[a], i, launch);
      InvalidateIsStop(states[a]);
    } else {
      NothingLaunchedAfterStop(cfg, states, events, a, b - 1, i, launch);
      QuiescentStep(cfg, states[b - 1], events[b - 1]);
    }
  }

  /** A restart that has waited for the past and was not thrown out, or had nothing to wait for, always
      makes its attempt: if the launch succeeds, the new child is the current one, under a new generation. */
  lemma RestartLaunches(cfg: Config, states: seq<State>, events: seq<Event>, n: nat)
    requires IsRun(cfg, states, events) && n < |events|
    requires (events[n].ExitAwaited? && states[n].spawnPromise.None?)
          || (events[n].SpawnAwaited? && !states[n].ops[events[n].op].phase.earlier.rejects)
          || (events[n].Enter? && states[n].spawnPromise.None? && !ProcUnexited(states[n]))
    requires states[n].ops[events[n].op].kind.Restart? && events[n].launch.Launched?
    ensures var s, t := states[n], states[n + 1];
            && |t.children| == |s.children| + 1 && t.proc == Some(|s.children|)
            && t.generation == s.generation + (if events[n].Enter? then 2 else 1)
            && t.children[|s.children|].generation == t.generation
            && t.status.Starting? && !t.stopping
  {
    RunKeepsInv(cfg, states, events, n);
    assert Enabled(states[n], events[n]);
  }

  // ---- which child's URL is published ----

  /** A ready line that is read while starting comes from the child that is held. */
  ghost predicate ReadyFromHeldChild(s: State, e: Event) {
    e.Output? && e.readyLine && s.status.Starting? ==> s.proc == Some(e.child)
  }

  ghost predicate UrlOwned(s: State) {
    s.url.Some? ==> s.url == s.proc
  }

  lemma StepKeepsUrlOwned(cfg: Config, s: State, e: Event)
    requires Inv(s) && Enabled(s, e) && ReadyFromHeldChild(s, e)
    requires UrlOwned(s)
    ensures UrlOwned(Step(cfg, s, e))
  {
    match e
    case Enter(i, launch) => EnterBodyFrame(s, i, launch);
    case ExitAwaited(i, launch) => AfterExitFrame(s, i, launch);
    case SpawnAwaited(i, launch) =>
      if !s.ops[i].phase.earlier.rejects && !s.ops[i].kind.Stop? {
        SpawnThenEndFrame(s, i, launch);
      }
    case ExitEvent(_, _) =>
    case ErrorEvent(_) =>
    case TimerFires(n, launch) =>
      SpawnFrame(s.(restartTimer := None, timers := s.timers[n := s.timers[n].(pending := false)]), launch);
    case _ =>
  }

  lemma {:induction false} HeldChildrenOwnTheUrl(cfg: Config, states: seq<State>, events: seq<Event>, n: nat)
    requires IsRun(cfg, states, events) && n < |states|
    requires forall i :: 0 <= i < n ==> ReadyFromHeldChild(states[i], events[i])
    ensures UrlOwned(states[n])
  {
    if n > 0 {
      HeldChildrenOwnTheUrl(cfg, states, events, n - 1);
      RunKeepsInv(cfg, states, events, n - 1);
      StepKeepsUrlOwned(cfg, states[n - 1], events[n - 1]);
    }
  }

  /** Output is not guarded by generation, so this is exact: in every run the published URL is always that
      of the current child if and only if no ready line was ever read, while starting, from another. */
  lemma UrlComesFromCurrentChild(cfg: Config, states: seq<State>, events: seq<Event>, n: nat)
    requires IsRun(cfg, states, events) && n < |states|
    ensures (forall k :: 0 <= k <= n ==> UrlOwned(states[k]))
            <==> (forall i :: 0 <= i < n ==> ReadyFromHeldChild(states[i], events[i]))
  {
    if forall i :: 0 <= i < n ==> ReadyFromHeldChild(states[i], events[i]) {
      forall k | 0 <= k <= n
        ensures UrlOwned(states[k])
      {
        HeldChildrenOwnTheUrl(cfg, states, events, k);
      }
    }
    if forall k :: 0 <= k <= n ==> UrlOwned(states[k]) {
      forall i | 0 <= i < n
        ensures ReadyFromHeldChild(states[i], events[i])
      {
        assert UrlOwned(states[i + 1]) && states[i + 1] == Step(cfg, states[i], events[i]);
      }
    }
  }

  function Exec(cfg: Config, s: State, events: seq<Event>): Option<State>
    decreases |events|
  {
    if events == [] then Some(s)
    else if !Enabled(s, events[0]) then None
    else Exec(cfg, Step(cfg, s, events[0]), events[1..])
  }

  /** The state once a first start has launched child 0 and released the lock. */
  const OneStarted := Initial.(
    proc := Some(0), status := Starting, generation := 1, lifecycleLock := 1,
    children := [Child(1, true, false, false, false, false, true)],
    ops := [Op(Start, 0, Finished)], activations := 1)

  lemma FirstStart(cfg: Config)
    ensures Exec(cfg, Initial, [CallStart, Enter(0, Launched), SpawnSettles, Release(0)]) == Some(OneStarted)
  {
    var s1 := Step(cfg, Initial, CallStart);
    var s2 := Step(cfg, s1, Enter(0, Launched));
    var s3 := Step(cfg, s2, SpawnSettles);
    assert Step(cfg, s3, Release(0)).ops == OneStarted.ops && s3.children == OneStarted.children;
    assert Exec(cfg, s3, [Release(0)]) == Some(OneStarted);
    assert Exec(cfg, s2, [SpawnSettles, Release(0)]) == Some(OneStarted);
    assert Exec(cfg, s1, [Enter(0, Launched), SpawnSettles, Release(0)]) == Some(OneStarted);
  }

  /** And it happens: a killed child that outlives the grace period can have its URL published as its
      successor's. */
  lemma LateOutputIsMisattributed(cfg: Config)
    ensures Exec(cfg, Initial, [CallStart, Enter(0, Launched), SpawnSettles, Release(0)]) == Some(OneStarted)
    ensures var last := Exec(cfg, OneStarted, [CallRestart, Enter(1, Launched), ExitAwaited(1, Launched),
                                               Output(0, true)]);
            last.Some? && last.value.proc == Some(1) && last.value.url == Some(0)
  {
    FirstStart(cfg);
    var s5 := Step(cfg, OneStarted, CallRestart);
    var s6 := Step(cfg, s5, Enter(1, Launched));
    assert ProcUnexited(s5) && s6.proc == None && s6.spawnPromise == None && s6.ops == [Op(Start, 0, Finished), Op(Restart, 1, AwaitExit)];
    var s7 := Step(cfg, s6, ExitAwaited(1, Launched));
    var s8 := Step(cfg, s7, Output(0, true));
    assert Exec(cfg, s7, [Output(0, true)]) == Some(s8);
    assert Exec(cfg, s6, [ExitAwaited(1, Launched), Output(0, true)]) == Some(s8);
    assert Exec(cfg, s5, [Enter(1, Launched), ExitAwaited(1, Launched), Output(0, true)]) == Some(s8);
  }

  // ---- the restart budget ----

  /** Respawns scheduled since failures last stopped coming less than a window apart. */
  function Streak(log: seq<Failed>): nat
    decreases |log|, 1
  {
    if log == [] then 0
    else StreakBefore(log) + if log[|log| - 1].delay.Some? then 1 else 0
  }

  /** The streak the latest failure continues. */
  function StreakBefore(log: seq<Failed>): nat
    requires log != []
    decreases |log|, 0
  {
    var n := |log|;
    if n >= 2 && log[n - 1].at - log[n - 2].at < RESTART_WINDOW_MS then Streak(log[..n - 1]) else 0
  }

  function Scheduled(log: seq<Failed>): nat {
    if log == [] then 0 else (if log[0].delay.Some? then 1 else 0) + Scheduled(log[1..])
  }

  /** The latest failure was answered as the budget and the backoff demand. */
  ghost predicate Answered(cfg: Config, log: seq<Failed>)
    requires log != []
  {
    var k := StreakBefore(log);
    log[|log| - 1].delay == if k < cfg.restartBudget then Some(BackoffDelay(cfg, k + 1)) else None
  }

  ghost predicate GoodLog(cfg: Config, log: seq<Failed>) {
    && (forall i :: 0 < i < |log| ==> log[i - 1].at <= log[i].at)
    && (forall i :: 0 < i <= |log| ==> Answered(cfg, log[..i]))
  }

  ghost predicate BackoffInv(cfg: Config, s: State) {
    && GoodLog(cfg, s.failures)
    && s.restarts == Streak(s.failures)
    && (s.failures != [] ==> s.lastRestartAt == s.failures[|s.failures| - 1].at <= s.clock)
  }

  lemma GoodLogGrows(cfg: Config, log: seq<Failed>, latest: Failed)
    requires GoodLog(cfg, log) && Answered(cfg, log + [latest])
    requires log != [] ==> log[|log| - 1].at <= latest.at
    ensures GoodLog(cfg, log + [latest])
  {
    hide Answered;
    var longer := log + [latest];
    forall i | 0 < i <= |longer|
      ensures Answered(cfg, longer[..i])
    {
      assert longer[..i] == if i <= |log| then log[..i] else longer;
    }
  }

  /** The count maybeRespawn starts from is the streak in the log. */
  lemma StreakGoesOn(cfg: Config, s: State, delay: Option<int>)
    requires BackoffInv(cfg, s)
    ensures var log := s.failures + [Failed(s.clock, delay)];
            && StreakBefore(log) == (if s.clock - s.lastRestartAt >= RESTART_WINDOW_MS then 0 else s.restarts)
            && Streak(log) == StreakBefore(log) + if delay.Some? then 1 else 0
  {
    hide GoodLog;
    assert (s.failures + [Failed(s.clock, delay)])[..|s.failures|] == s.failures;
  }

  lemma FailureKeepsBackoff(cfg: Config, s: State, t: State, delay: Option<int>)
    requires BackoffInv(cfg, s)
    requires var r := if s.clock - s.lastRestartAt >= RESTART_WINDOW_MS then 0 else s.restarts;
             && delay == (if r < cfg.restartBudget then Some(BackoffDelay(cfg, r + 1)) else None)
             && t.restarts == r + if delay.Some? then 1 else 0
    requires t.failures == s.failures + [Failed(s.clock, delay)] && t.lastRestartAt == s.clock == t.clock
    ensures BackoffInv(cfg, t)
  {
    hide GoodLog, Streak, StreakBefore, BackoffDelay;
    StreakGoesOn(cfg, s, delay);
    assert Answered(cfg, t.failures);
    GoodLogGrows(cfg, s.failures, Failed(s.clock, delay));
  }

  lemma MaybeRespawnKeepsBackoff(cfg: Config, s: State, generation: nat)
    requires BackoffInv(cfg, s)
    ensures BackoffInv(cfg, MaybeRespawn(cfg, s, generation))
  {
    var t := MaybeRespawn(cfg, s, generation);
    if t.failures != s.failures {
      hide BackoffInv, BackoffDelay;
      FailureKeepsBackoff(cfg, s, t, t.failures[|s.failures|].delay);
    }
  }

  lemma SameBackoffKeepsInv(cfg: Config, s: State, t: State)
    requires BackoffInv(cfg, s) && SameBackoff(s, t)
    ensures BackoffInv(cfg, t)
  {
  }

  lemma ExitKeepsBackoff(cfg: Config, s: State, c: nat, withCode: bool)
    requires BackoffInv(cfg, s) && c < |s.children|
    ensures BackoffInv(cfg, OnExit(cfg, s, c, withCode))
  {
    var child := s.children[c].(exitSeen := true, hasExitCode := withCode);
    var t := s.(children := s.children[c := child]);
    SameBackoffKeepsInv(cfg, s, t);
    var u := t.(proc := None, url := None, status := if s.status.Ready? then Unhealthy else Stopped);
    SameBackoffKeepsInv(cfg, s, u);
    MaybeRespawnKeepsBackoff(cfg, u, s.children[c].generation);
  }

  lemma ErrorKeepsBackoff(cfg: Config, s: State, c: nat)
    requires BackoffInv(cfg, s) && c < |s.children|
    ensures BackoffInv(cfg, OnError(cfg, s, c))
  {
    var child := s.children[c].(errorSeen := true, hasExitCode := true);
    var t := s.(children := s.children[c := child]);
    SameBackoffKeepsInv(cfg, s, t);
    var u := t.(proc := None, url := None, status := Unhealthy);
    SameBackoffKeepsInv(cfg, s, u);
    MaybeRespawnKeepsBackoff(cfg, u, s.children[c].generation);
  }

  lemma StepKeepsBackoff(cfg: Config, s: State, e: Event)
    requires Enabled(s, e) && BackoffInv(cfg, s)
    ensures BackoffInv(cfg, Step(cfg, s, e))
  {
    if e.ExitEvent? {
      ExitKeepsBackoff(cfg, s, e.child, e.withCode);
    } else if e.ErrorEvent? {
      ErrorKeepsBackoff(cfg, s, e.child);
    } else if !e.Tick? {
      OtherStepsKeepBackoff(cfg, s, e);
      SameBackoffKeepsInv(cfg, s, Step(cfg, s, e));
    }
  }

  lemma OtherStepsKeepBackoff(cfg: Config, s: State, e: Event)
    requires Enabled(s, e) && !e.ExitEvent? && !e.ErrorEvent? && !e.Tick?
    ensures SameBackoff(s, Step(cfg, s, e))
  {
    match e
    case Enter(i, launch) => EnterBodyFrame(s, i, launch);
    case ExitAwaited(i, launch) => AfterExitFrame(s, i, launch);
    case SpawnAwaited(i, launch) => SpawnThenEndFrame(s, i, launch);
    case TimerFires(n, launch) =>
      SpawnFrame(s.(restartTimer := None, timers := s.timers[n := s.timers[n].(pending := false)]), launch);
    case _ =>
  }

  /** In every run the k-th respawn of an unbroken streak is scheduled after
      min(base * 2^(k-1), 30 s), and refused exactly when the streak has used up the budget. */
  lemma {:induction false} FailuresAreAnswered(cfg: Config, states: seq<State>, events: seq<Event>, n: nat)
    requires IsRun(cfg, states, events) && n < |states|
    ensures BackoffInv(cfg, states[n])
  {
    if n > 0 {
      FailuresAreAnswered(cfg, states, events, n - 1);
      StepKeepsBackoff(cfg, states[n - 1], events[n - 1]);
    }
  }

  lemma {:induction false} WindowWithinStreak(cfg: Config, log: seq<Failed>, i: nat, j: nat)
    requires GoodLog(cfg, log) && i <= j < |log|
    requires log[j].at - log[i].at < RESTART_WINDOW_MS
    ensures Scheduled(log[i..j + 1]) <= Streak(log[..j + 1]) <= cfg.restartBudget
  {
    assert Answered(cfg, log[..j + 1]);
    if i == j {
      assert log[i..j + 1] == [log[i]];
      StreakWithinBudget(cfg, log, j);
    } else {
      InOrder(cfg, log, i, j - 1);
      WindowWithinStreak(cfg, log, i, j - 1);
      assert log[i..j + 1] == log[i..j] + [log[j]];
      ScheduledSnoc(log[i..j], log[j]);
      assert log[..j + 1][..j] == log[..j];
      StreakWithinBudget(cfg, log, j);
    }
  }

  lemma {:induction false} StreakWithinBudget(cfg: Config, log: seq<Failed>, j: nat)
    requires GoodLog(cfg, log) && j < |log|
    ensures Streak(log[..j + 1]) <= cfg.restartBudget
  {
    assert Answered(cfg, log[..j + 1]);
    if j > 0 {
      StreakWithinBudget(cfg, log, j - 1);
      assert log[..j + 1][..j] == log[..j];
    }
  }

  lemma {:induction false} InOrder(cfg: Config, log: seq<Failed>, i: nat, j: nat)
    requires GoodLog(cfg, log) && i <= j < |log|
    ensures log[i].at <= log[j].at
  {
    if i < j {
      InOrder(cfg, log, i, j - 1);
    }
  }

  lemma {:induction false} ScheduledSnoc(log: seq<Failed>, f: Failed)
    ensures Scheduled(log + [f]) == Scheduled(log) + if f.delay.Some? then 1 else 0
  {
    if log != [] {
      assert (log + [f])[1..] == log[1..] + [f];
      ScheduledSnoc(log[1..], f);
    }
  }

  /** Failures less than a window apart, first to last, schedule at most `restartBudget` respawns. */
  lemma BudgetBoundsEveryWindow(cfg: Config, states: seq<State>, events: seq<Event>, n: nat, i: nat, j: nat)
    requires IsRun(cfg, states, events) && n < |states|
    requires i <= j < |states[n].failures|
    requires states[n].failures[j].at - states[n].failures[i].at < RESTART_WINDOW_MS
    ensures Scheduled(states[n].failures[i..j + 1]) <= cfg.restartBudget
  {
    FailuresAreAnswered(cfg, states, events, n);
    WindowWithinStreak(cfg, states[n].failures, i, j);
  }

  /** The code is stricter than "respawns per window": failures each less than a window after the
      one before are counted together however long the whole takes, and respawning ends for good
      once the budget is used. */
  lemma {:induction false} UnbrokenFailuresExhaustTheBudget(cfg: Config, log: seq<Failed>, k: nat)
    requires GoodLog(cfg, log) && k < |log|
    requires forall i :: 0 < i < |log| ==> log[i].at - log[i - 1].at < RESTART_WINDOW_MS
    ensures log[k].delay.Some? <==> k < cfg.restartBudget
    ensures Streak(log[..k + 1]) == Min(k + 1, cfg.restartBudget)
  {
    assert Answered(cfg, log[..k + 1]);
    if k > 0 {
      UnbrokenFailuresExhaustTheBudget(cfg, log, k - 1);
      assert log[..k + 1][..k] == log[..k];
      assert log[k].at - log[k - 1].at < RESTART_WINDOW_MS;
    }
  }

  // ---- what each event brings about ----

  /** The moments at which the supervisor attempts a launch. */
  ghost predicate LaunchIsDue(s: State, e: Event)
    requires Enabled(s, e)
  {
    match e
    case Enter(i, _) =>
      && s.proc.None? && s.spawnPromise.None? && !s.ops[i].kind.Stop?
      && (s.ops[i].kind.Start? ==> !s.status.Starting?)
    case ExitAwaited(i, _) => s.ops[i].kind.Restart? && s.spawnPromise.None?
    case SpawnAwaited(i, _) => s.ops[i].kind.Restart? && !s.ops[i].phase.earlier.rejects
    case TimerFires(n, _) => s.timers[n].generation == s.generation && s.spawnPromise.None? && s.proc.None? && !s.stopping
    case _ => false
  }

  /** A stop, or a restart that finds a child, enters its body. */
  ghost predicate LetsGo(s: State, e: Event)
    requires Enabled(s, e)
  {
    e.Enter? && (s.ops[e.op].kind.Stop? || (s.ops[e.op].kind.Restart? && s.proc.Some?))
  }

  /** The child that is held reports its end. */
  ghost predicate HeldEnds(s: State, e: Event) {
    (e.ExitEvent? || e.ErrorEvent?) && s.proc == Some(e.child)
  }

  ghost predicate ReadyLineRead(s: State, e: Event) {
    e.Output? && e.readyLine && s.status.Starting?
  }

  /** What the shell can see of the supervisor after an event. */
  ghost predicate Published(s: State, e: Event, t: State)
    requires Enabled(s, e)
  {
    var due, ends, letsGo := LaunchIsDue(s, e), HeldEnds(s, e), LetsGo(s, e);
    && t.proc == (if due && e.launch.Launched? then Some(|s.children|) else if ends || letsGo then None else s.proc)
    && t.url == (if due || ends || letsGo then None else if ReadyLineRead(s, e) then Some(e.child) else s.url)
    && t.status == (if due then (if e.launch.LaunchFails? then Unhealthy else Starting)
                    else if ends then (if e.ErrorEvent? || s.status.Ready? then Unhealthy else Stopped)
                    else if letsGo then Stopped
                    else if ReadyLineRead(s, e) then Ready
                    else s.status)
  }

  /** Which processes an event starts and kills: a due launch that works adds one child under the latest
      generation, and a kill is for the child let go of and for one that is not ready by its deadline. */
  ghost predicate Processes(s: State, e: Event, t: State)
    requires Enabled(s, e)
  {
    && |t.children| == |s.children| + (if LaunchIsDue(s, e) && e.launch.Launched? then 1 else 0)
    && (|t.children| > |s.children| ==>
          t.children[|s.children|] == Child(t.generation, true, false, false, false, false, true))
    && (forall c :: 0 <= c < |s.children| ==>
          var was := s.children[c];
          t.children[c] == Child(
            was.generation, was.alive && e != Dies(c),
            was.killed || (s.proc == Some(c) && (LetsGo(s, e) || (e == DeadlineFires(c) && s.status.Starting?))),
            was.exitSeen || (e.ExitEvent? && e.child == c), was.errorSeen || e == ErrorEvent(c),
            if e.ExitEvent? && e.child == c then e.withCode else was.hasExitCode || e == ErrorEvent(c),
            was.deadline && e != DeadlineFires(c)))
  }

  /** Every attempt counts a generation, as does every stop and restart; the lock is held until the promise
      of the attempt settles, which is rejected when the attempt threw. */
  ghost predicate Attempts(s: State, e: Event, t: State)
    requires Enabled(s, e)
  {
    var due := LaunchIsDue(s, e);
    && t.generation == s.generation + (if due then 1 else 0) + (if e.Enter? && !s.ops[e.op].kind.Start? then 1 else 0)
    && (due ==> t.spawnPromise.Some? && (t.spawnPromise.value.rejects <==> e.launch.HomeDirFails? || e.launch == LaunchFails(true)))
    && (due && !e.TimerFires? ==> e.op < |t.ops| && t.ops[e.op].phase == Ending(t.spawnPromise))
    && (!due ==> t.spawnPromise == if e.SpawnSettles? then None else s.spawnPromise)
  }

  ghost predicate Effect(s: State, e: Event, t: State)
    requires Enabled(s, e)
  {
    Published(s, e, t) && Processes(s, e, t) && Attempts(s, e, t)
  }

  /** A failure is logged exactly when the child that is held ends, and one that is granted a delay arms a
      timer of the latest generation; a timer is disarmed by firing and by a stop or restart. */
  ghost predicate Timed(s: State, e: Event, t: State)
    requires Enabled(s, e)
  {
    var ends, halts := HeldEnds(s, e), e.Enter? && !s.ops[e.op].kind.Start?;
    && t.clock == s.clock + (if e.Tick? then e.ms else 0)
    && |t.failures| == |s.failures| + (if ends then 1 else 0) && t.failures[..|s.failures|] == s.failures
    && (ends ==> t.failures[|s.failures|].at == s.clock)
    && (if ends && t.failures[|s.failures|].delay.Some? then
          && t.restartTimer == Some(|s.timers|)
          && t.timers == s.timers + [Timer(t.generation, t.clock + t.failures[|s.failures|].delay.value, true)]
        else
          && t.restartTimer == (if halts || e.TimerFires? then None else s.restartTimer)
          && |t.timers| == |s.timers|
          && forall k :: 0 <= k < |s.timers| ==>
               t.timers[k] == if (e.TimerFires? && e.timer == k) || (halts && s.restartTimer == Some(k))
                              then s.timers[k].(pending := false) else s.timers[k])
  }

  /** Where an operation is once its segment has run. */
  ghost function NextPhase(s: State, e: Event, t: State): Phase
    requires Enabled(s, e) && (e.Enter? || e.ExitAwaited? || e.SpawnAwaited? || e.Release?)
  {
    if e.Release? then Finished
    else if e.Enter? && !s.ops[e.op].kind.Start? && s.proc.Some? then AwaitExit
    else if !e.SpawnAwaited? && !s.ops[e.op].kind.Start? && s.spawnPromise.Some? then AwaitSpawn(s.spawnPromise.value)
    else if LaunchIsDue(s, e) then Ending(t.spawnPromise)
    else if e.Enter? && s.ops[e.op].kind.Start? && !s.status.Starting? && s.proc.None? then Ending(s.spawnPromise)
    else Ending(None)
  }

  /** Calls queue up, except a start that finds a child or one on its way, and only the operation whose turn
      it is moves. */
  ghost predicate Turns(s: State, e: Event, t: State)
    requires Enabled(s, e)
  {
    match e
    case CallStart => t.ops == if s.status.Starting? || s.proc.Some? then s.ops else s.ops + [Op(Start, |s.ops|, Queued)]
    case CallStop => t.ops == s.ops + [Op(Stop, |s.ops|, Queued)]
    case CallRestart => t.ops == s.ops + [Op(Restart, |s.ops|, Queued)]
    case Enter(i, _) => t.ops == s.ops[i := s.ops[i].(phase := NextPhase(s, e, t))]
    case ExitAwaited(i, _) => t.ops == s.ops[i := s.ops[i].(phase := NextPhase(s, e, t))]
    case SpawnAwaited(i, _) => t.ops == s.ops[i := s.ops[i].(phase := NextPhase(s, e, t))]
    case Release(i) => t.ops == s.ops[i := s.ops[i].(phase := NextPhase(s, e, t))]
    case _ => t.ops == s.ops
  }

  /** Stopping begins with a stop or restart and ends with the next launch of a start or restart. */
  ghost predicate Stops(s: State, e: Event, t: State)
    requires Enabled(s, e)
  {
    t.stopping == if e.Enter? && s.ops[e.op].kind.Start? && !s.status.Starting? && s.proc.None? then false
                  else if LaunchIsDue(s, e) then false
                  else s.stopping || (e.Enter? && !s.ops[e.op].kind.Start?)
  }

  /** The other half of what an event brings about. */
  ghost predicate Books(s: State, e: Event, t: State)
    requires Enabled(s, e)
  {
    Timed(s, e, t) && Turns(s, e, t) && Stops(s, e, t)
  }

  lemma LaunchEffect(s: State, launch: Launch)
    requires ProcInv(s) && s.proc.None?
    ensures var (t, own) := Spawn(s, launch);
            var due := !s.stopping && s.spawnPromise.None?;
            && t.proc == (if due && launch.Launched? then Some(|s.children|) else None)
            && t.url == (if due then None else s.url)
            && t.status == (if due then (if launch.LaunchFails? then Unhealthy else Starting) else s.status)
            && t.children == s.children + (if due && launch.Launched?
                                           then [Child(t.generation, true, false, false, false, false, true)] else [])
            && t.generation == s.generation + (if due then 1 else 0)
            && t.ops == s.ops && t.timers == s.timers && t.restartTimer == s.restartTimer && t.stopping == s.stopping
            && (due ==> t.spawnPromise.Some? && own == t.spawnPromise
                        && (own.value.rejects <==> launch.HomeDirFails? || launch == LaunchFails(true)))
            && (!due ==> t.spawnPromise == s.spawnPromise)
  {
  }

  lemma SpawnThenEndEffect(cfg: Config, s: State, e: Event, i: nat, launch: Launch)
    requires e == Enter(i, launch) || e == ExitAwaited(i, launch) || e == SpawnAwaited(i, launch)
    requires Inv(s) && Enabled(s, e) && Step(cfg, s, e) == SpawnThenEnd(s, i, launch)
    requires s.proc.None? && !LetsGo(s, e) && (LaunchIsDue(s, e) <==> s.spawnPromise.None?)
    requires e.Enter? ==> s.ops[i].kind.Start?
    ensures Effect(s, e, Step(cfg, s, e))
  {
    LaunchEffect(s.(stopping := false), launch);
    hide Spawn, Step, Inv, ProcUnexited;
  }

  lemma EnterEffect(cfg: Config, s: State, i: nat, launch: Launch)
    requires Inv(s) && Enabled(s, Enter(i, launch))
    ensures var e := Enter(i, launch);
            Effect(s, e, Step(cfg, s, e))
  {
    hide SpawnThenEnd, Invalidate;
    if !s.ops[i].kind.Start? {
      HaltEffect(cfg, s, i, launch);
    } else if !StartIsNoop(s) {
      SpawnThenEndEffect(cfg, s, Enter(i, launch), i, launch);
    }
  }

  lemma ContinuationEffect(cfg: Config, s: State, e: Event)
    requires Inv(s) && Enabled(s, e) && (e.ExitAwaited? || e.SpawnAwaited?)
    ensures Effect(s, e, Step(cfg, s, e))
  {
    hide SpawnThenEnd;
    if LaunchIsDue(s, e) {
      SpawnThenEndEffect(cfg, s, e, e.op, e.launch);
    }
  }

  lemma HaltEffect(cfg: Config, s: State, i: nat, launch: Launch)
    requires Inv(s) && Enabled(s, Enter(i, launch)) && !s.ops[i].kind.Start?
    ensures Effect(s, Enter(i, launch), Step(cfg, s, Enter(i, launch)))
  {
    hide Invalidate, Spawn;
    InvalidateIsStop(s);
    if s.ops[i].kind.Restart? && s.proc.None? {
      LaunchEffect(Invalidate(s).(stopping := false), launch);
    }
  }

  lemma RespawnFrame(cfg: Config, s: State, generation: nat)
    ensures var t := MaybeRespawn(cfg, s, generation);
            && t.proc == s.proc && t.url == s.url && t.status == s.status && t.children == s.children
            && t.generation == s.generation && t.spawnPromise == s.spawnPromise
  {
  }

  lemma EndEffect(cfg: Config, s: State, e: Event)
    requires Inv(s) && Enabled(s, e) && (e.ExitEvent? || e.ErrorEvent?)
    ensures Effect(s, e, Step(cfg, s, e))
  {
    hide MaybeRespawn;
    var c := e.child;
    var child := if e.ExitEvent? then s.children[c].(exitSeen := true, hasExitCode := e.withCode)
                 else s.children[c].(errorSeen := true, hasExitCode := true);
    var t := s.(children := s.children[c := child]);
    var status := if e.ErrorEvent? || s.status.Ready? then Unhealthy else Stopped;
    RespawnFrame(cfg, t.(proc := None, url := None, status := status), s.children[c].generation);
  }

  lemma TimerEffect(cfg: Config, s: State, n: nat, launch: Launch)
    requires Inv(s) && Enabled(s, TimerFires(n, launch))
    ensures Effect(s, TimerFires(n, launch), Step(cfg, s, TimerFires(n, launch)))
  {
    hide Spawn;
    if s.proc.None? {
      LaunchEffect(s.(restartTimer := None, timers := s.timers[n := s.timers[n].(pending := false)]), launch);
    }
  }

  /** Calls, releases, silent deaths and the clock. */
  ghost predicate Quiet(e: Event) {
    e.CallStart? || e.CallStop? || e.CallRestart? || e.Release? || e.SpawnSettles? || e.Dies? || e.Tick?
  }

  lemma QuietEffect(cfg: Config, s: State, e: Event)
    requires Inv(s) && Enabled(s, e) && Quiet(e)
    ensures Effect(s, e, Step(cfg, s, e))
  {
  }

  lemma ChildEffect(cfg: Config, s: State, e: Event)
    requires Inv(s) && Enabled(s, e) && (e.DeadlineFires? || e.Output?)
    ensures Effect(s, e, Step(cfg, s, e))
  {
  }

  lemma StepEffect(cfg: Config, s: State, e: Event)
    requires Inv(s) && Enabled(s, e)
    ensures Effect(s, e, Step(cfg, s, e))
  {
    hide Effect, Step, Inv;
    match e
    case Enter(i, launch) => EnterEffect(cfg, s, i, launch);
    case ExitAwaited(i, launch) => ContinuationEffect(cfg, s, e);
    case SpawnAwaited(i, launch) => ContinuationEffect(cfg, s, e);
    case TimerFires(n, launch) => TimerEffect(cfg, s, n, launch);
    case ExitEvent(_, _) => EndEffect(cfg, s, e);
    case ErrorEvent(_) => EndEffect(cfg, s, e);
    case DeadlineFires(_) => ChildEffect(cfg, s, e);
    case Output(_, _) => ChildEffect(cfg, s, e);
    case _ => QuietEffect(cfg, s, e);
  }

  // ---- and what it does to timers, turns and the log ----

  lemma SpawnThenEndBooks(cfg: Config, s: State, e: Event, i: nat, launch: Launch)
    requires e == Enter(i, launch) || e == ExitAwaited(i, launch) || e == SpawnAwaited(i, launch)
    requires Inv(s) && Enabled(s, e) && Step(cfg, s, e) == SpawnThenEnd(s, i, launch)
    requires s.proc.None? && (LaunchIsDue(s, e) <==> s.spawnPromise.None?)
    requires e.Enter? ==> s.ops[i].kind.Start? && !s.status.Starting?
    ensures Books(s, e, Step(cfg, s, e))
  {
    LaunchEffect(s.(stopping := false), launch);
    SpawnFrame(s.(stopping := false), launch);
    hide Spawn, Step, Inv, ProcUnexited;
  }

  lemma EnterBooks(cfg: Config, s: State, i: nat, launch: Launch)
    requires Inv(s) && Enabled(s, Enter(i, launch))
    ensures Books(s, Enter(i, launch), Step(cfg, s, Enter(i, launch)))
  {
    hide SpawnThenEnd, Invalidate;
    if !s.ops[i].kind.Start? {
      HaltBooks(cfg, s, i, launch);
    } else if !StartIsNoop(s) {
      SpawnThenEndBooks(cfg, s, Enter(i, launch), i, launch);
    }
  }

  lemma HaltBooks(cfg: Config, s: State, i: nat, launch: Launch)
    requires Inv(s) && Enabled(s, Enter(i, launch)) && !s.ops[i].kind.Start?
    ensures Books(s, Enter(i, launch), Step(cfg, s, Enter(i, launch)))
  {
    hide Invalidate, Spawn;
    InvalidateIsStop(s);
    if s.ops[i].kind.Restart? && s.proc.None? {
      LaunchEffect(Invalidate(s).(stopping := false), launch);
      SpawnFrame(Invalidate(s).(stopping := false), launch);
    }
  }

  lemma EndBooks(cfg: Config, s: State, e: Event)
    requires Inv(s) && Enabled(s, e) && (e.ExitEvent? || e.ErrorEvent?)
    ensures Books(s, e, Step(cfg, s, e))
  {
    hide BackoffDelay;
  }

  lemma TimerBooks(cfg: Config, s: State, n: nat, launch: Launch)
    requires Inv(s) && Enabled(s, TimerFires(n, launch))
    ensures Books(s, TimerFires(n, launch), Step(cfg, s, TimerFires(n, launch)))
  {
    hide Spawn;
    var u := s.(restartTimer := None, timers := s.timers[n := s.timers[n].(pending := false)]);
    if s.proc.None? {
      LaunchEffect(u, launch);
      SpawnFrame(u, launch);
    }
  }

  lemma ContinuationBooks(cfg: Config, s: State, e: Event)
    requires Inv(s) && Enabled(s, e) && (e.ExitAwaited? || e.SpawnAwaited?)
    ensures Books(s, e, Step(cfg, s, e))
  {
    hide SpawnThenEnd;
    if LaunchIsDue(s, e) {
      SpawnThenEndBooks(cfg, s, e, e.op, e.launch);
    }
  }

  lemma QuietBooks(cfg: Config, s: State, e: Event)
    requires Inv(s) && Enabled(s, e) && (Quiet(e) || e.DeadlineFires? || e.Output?)
    ensures Books(s, e, Step(cfg, s, e))
  {
  }

  lemma StepBooks(cfg: Config, s: State, e: Event)
    requires Inv(s) && Enabled(s, e)
    ensures Books(s, e, Step(cfg, s, e))
  {
    hide Step, Books, Inv;
    match e
    case Enter(i, launch) => EnterBooks(cfg, s, i, launch);
    case ExitAwaited(i, launch) => ContinuationBooks(cfg, s, e);
    case SpawnAwaited(i, launch) => ContinuationBooks(cfg, s, e);
    case TimerFires(n, launch) => TimerBooks(cfg, s, n, launch);
    case ExitEvent(_, _) => EndBooks(cfg, s, e);
    case ErrorEvent(_) => EndBooks(cfg, s, e);
    case _ => QuietBooks(cfg, s, e);
  }

  /** In every run every event has exactly these effects: one table for what is held and reported, one for
      what is launched and killed, and the books that go with them. */
  lemma EveryEventHasItsEffect(cfg: Config, states: seq<State>, events: seq<Event>, n: nat)
    requires IsRun(cfg, states, events) && n < |events|
    ensures Enabled(states[n], events[n])
    ensures Effect(states[n], events[n], states[n + 1]) && Books(states[n], events[n], states[n + 1])
  {
    hide Effect, Books, Step, Inv;
    RunKeepsInv(cfg, states, events, n);
    StepEffect(cfg, states[n], events[n]);
    StepBooks(cfg, states[n], events[n]);
  }

  // ---- recovery from a crash ----

  /** A pending timer of the latest generation finds nothing held and nobody stopping. */
  ghost predicate TimerInv(s: State) {
    forall k :: 0 <= k < |s.timers| ==>
      s.timers[k].generation <= s.generation
      && (s.timers[k].pending && s.timers[k].generation == s.generation ==> s.proc.None? && !s.stopping)
  }

  lemma StepKeepsTimerInv(s: State, e: Event, t: State)
    requires Enabled(s, e) && ProcInv(s) && TimerInv(s) && Effect(s, e, t) && Books(s, e, t)
    ensures TimerInv(t)
  {
    hide Turns, Processes;
    assert t.generation >= s.generation;
    forall k | 0 <= k < |t.timers|
      ensures t.timers[k].generation <= t.generation
      ensures t.timers[k].pending && t.timers[k].generation == t.generation ==> t.proc.None? && !t.stopping
    {
      if k < |s.timers| {
        assert t.timers[k].generation == s.timers[k].generation;
      }
    }
  }

  lemma ProcInvOf(s: State)
    requires Inv(s)
    ensures ProcInv(s)
  {
  }

  lemma NoTimersYet(cfg: Config, states: seq<State>, events: seq<Event>)
    requires IsRun(cfg, states, events)
    ensures |states| > 0 && TimerInv(states[0])
  {
    hide Step, Enabled;
  }

  lemma {:induction false} TimersFindNothingHeld(cfg: Config, states: seq<State>, events: seq<Event>, n: nat)
    requires IsRun(cfg, states, events) && n < |states| == |events| + 1
    ensures TimerInv(states[n])
  {
    hide Effect, Books, Step, Inv, TimerInv, IsRun;
    if n == 0 {
      NoTimersYet(cfg, states, events);
    } else {
      TimersFindNothingHeld(cfg, states, events, n - 1);
      RunKeepsInv(cfg, states, events, n - 1);
      EveryEventHasItsEffect(cfg, states, events, n - 1);
      ProcInvOf(states[n - 1]);
      StepKeepsTimerInv(states[n - 1], events[n - 1], states[n]);
    }
  }

  lemma GenerationStays(s: State, e: Event, t: State)
    requires Enabled(s, e) && Effect(s, e, t)
    ensures s.generation <= t.generation
  {
    hide Published, Processes, LaunchIsDue;
  }

  lemma {:induction false} GenerationsGrow(cfg: Config, states: seq<State>, events: seq<Event>, a: nat, b: nat)
    requires IsRun(cfg, states, events) && a <= b < |states| == |events| + 1
    ensures states[a].generation <= states[b].generation
    decreases b
  {
    hide Step, Enabled, IsRun, Books, Effect;
    if a < b {
      GenerationsGrow(cfg, states, events, a, b - 1);
      EveryEventHasItsEffect(cfg, states, events, b - 1);
      GenerationStays(states[b - 1], events[b - 1], states[b]);
    }
  }

  lemma TimerStays(s: State, e: Event, t: State, k: nat)
    requires Enabled(s, e) && Effect(s, e, t) && Books(s, e, t) && t.generation == s.generation
    requires k < |s.timers| && s.timers[k].pending && !(e.TimerFires? && e.timer == k)
    ensures k < |t.timers| && t.timers[k] == s.timers[k]
  {
    hide Published, Processes, Turns, Stops, LaunchIsDue;
  }

  /** While the generation lasts, a pending timer of its waits until it fires. */
  lemma {:induction false} TimerWaits(cfg: Config, states: seq<State>, events: seq<Event>, a: nat, b: nat, k: nat)
    requires IsRun(cfg, states, events) && a <= b < |states| == |events| + 1
    requires k < |states[a].timers| && states[a].timers[k].pending
    requires states[a].timers[k].generation == states[a].generation == states[b].generation
    requires forall i :: a <= i < b && events[i].TimerFires? ==> events[i].timer != k
    ensures k < |states[b].timers| && states[b].timers[k] == states[a].timers[k]
    ensures states[b].proc.None? && !states[b].stopping
    decreases b
  {
    hide Step, Enabled, IsRun, Effect, Books;
    TimersFindNothingHeld(cfg, states, events, b);
    if a < b {
      GenerationsGrow(cfg, states, events, a, b - 1);
      GenerationsGrow(cfg, states, events, b - 1, b);
      TimerWaits(cfg, states, events, a, b - 1, k);
      EveryEventHasItsEffect(cfg, states, events, b - 1);
      TimerStays(states[b - 1], events[b - 1], states[b], k);
    }
  }

  /** A crash is recovered from. Once the child that is held ends and the failure is granted a delay, then
      in every run, as long as no operation takes over, the respawn is due at once that delay has passed
      and not before, and when it fires with no other attempt pending and the launch succeeds there is
      exactly one more child: the current one, of the next generation. */
  lemma CrashIsRecovered(cfg: Config, states: seq<State>, events: seq<Event>, a: nat, b: nat, launch: Launch)
    requires IsRun(cfg, states, events) && a < b < |states| == |events| + 1
    requires HeldEnds(states[a], events[a])
    requires states[a + 1].failures != [] && states[a + 1].failures[|states[a + 1].failures| - 1].delay.Some?
    requires states[b].generation == states[a].generation
    requires forall i :: a < i < b && events[i].TimerFires? ==> events[i].timer != |states[a].timers|
    ensures var s := states[b];
            var e := TimerFires(|states[a].timers|, launch);
            var delay := states[a + 1].failures[|states[a + 1].failures| - 1].delay.value;
            && (Enabled(s, e) <==> s.clock >= states[a].clock + delay)
            && (Enabled(s, e) && s.spawnPromise.None? && launch.Launched? ==>
                  var t := Step(cfg, s, e);
                  && |t.children| == |s.children| + 1 && t.proc == Some(|s.children|)
                  && t.generation == s.generation + 1 == t.children[|s.children|].generation
                  && t.status.Starting? && !t.stopping && t.restartTimer.None?)
  {
    hide Step, Inv, IsRun;
    var k := |states[a].timers|;
    var last := |states[a].failures|;
    assert states[a + 1].generation == states[a].generation && |states[a + 1].failures| == last + 1
           && k < |states[a + 1].timers|
           && states[a + 1].timers[k]
              == Timer(states[a].generation, states[a].clock + states[a + 1].failures[last].delay.value, true) by {
      EveryEventHasItsEffect(cfg, states, events, a);
    }
    TimerWaits(cfg, states, events, a + 1, b, k);
    RunKeepsInv(cfg, states, events, b);
    var s, e := states[b], TimerFires(k, launch);
    if Enabled(s, e) {
      StepEffect(cfg, s, e);
      StepBooks(cfg, s, e);
    }
  }

  /** Nothing is held and no respawn is to come. */
  ghost predicate Stranded(s: State) {
    s.proc.None? && forall k :: 0 <= k < |s.timers| && s.timers[k].pending ==> s.timers[k].generation < s.generation
  }

  lemma StepStrands(s: State, e: Event, t: State)
    requires Enabled(s, e) && ProcInv(s) && TimerInv(s) && Effect(s, e, t) && Books(s, e, t)
    ensures e.TimerFires? && LaunchIsDue(s, e) && !e.launch.Launched? ==> Stranded(t)
    ensures HeldEnds(s, e) && t.failures[|s.failures|].delay.None? ==> Stranded(t)
    ensures Stranded(s) && !e.Enter? && !e.ExitAwaited? && !e.SpawnAwaited? ==>
              Stranded(t) && |t.children| == |s.children|
  {
    hide Turns, Stops;
    forall k | 0 <= k < |t.timers| && k < |s.timers|
      ensures t.timers[k].generation == s.timers[k].generation && (t.timers[k].pending ==> s.timers[k].pending)
    {
    }
  }

  /** The other endings are for good. After a failure that is granted no delay, and after a respawn whose
      launch throws, nothing is held and nothing launched in any run until an operation has its turn. */
  lemma StrandedUntilCalled(cfg: Config, states: seq<State>, events: seq<Event>, a: nat, b: nat)
    requires IsRun(cfg, states, events) && a < b < |states| == |events| + 1
    requires Enabled(states[a], events[a])
    requires (events[a].TimerFires? && LaunchIsDue(states[a], events[a]) && !events[a].launch.Launched?)
          || (HeldEnds(states[a], events[a]) && |states[a].failures| < |states[a + 1].failures|
              && states[a + 1].failures[|states[a].failures|].delay.None?)
    requires forall i :: a < i < b ==> !events[i].Enter? && !events[i].ExitAwaited? && !events[i].SpawnAwaited?
    ensures Stranded(states[b]) && |states[b].children| == |states[a].children|
    decreases b
  {
    hide Step, IsRun, Effect, Books, Inv, TimerInv, ProcInv, Stranded, LaunchIsDue, HeldEnds, Enabled;
    RunKeepsInv(cfg, states, events, b - 1);
    ProcInvOf(states[b - 1]);
    TimersFindNothingHeld(cfg, states, events, b - 1);
    EveryEventHasItsEffect(cfg, states, events, b - 1);
    StepStrands(states[b - 1], events[b - 1], states[b]);
    if b == a + 1 {
      NoneLaunched(states[a], events[a], states[b]);
    } else {
      StrandedUntilCalled(cfg, states, events, a, b - 1);
    }
  }

  lemma NoneLaunched(s: State, e: Event, t: State)
    requires Enabled(s, e) && Effect(s, e, t)
    requires HeldEnds(s, e) || (e.TimerFires? && !e.launch.Launched?)
    ensures |t.children| == |s.children|
  {
  }

  /** The delays of a streak, each in terms of the one before: the base delay first, then twice the last,
      never above thirty seconds; a failure a minute or more after the last starts a new streak. */
  lemma RespawnDelaysDouble(cfg: Config, states: seq<State>, events: seq<Event>, n: nat, k: nat)
    requires IsRun(cfg, states, events) && n < |states| && k < |states[n].failures|
    ensures var log := states[n].failures;
            if k == 0 || log[k].at - log[k - 1].at >= 60_000 then
              log[k].delay == if cfg.restartBudget == 0 then None
                              else Some(if cfg.backoffBaseMs <= 30_000 then cfg.backoffBaseMs else 30_000)
            else
              log[k].delay.Some? ==>
                log[k - 1].delay.Some?
                && log[k].delay.value == if 2 * log[k - 1].delay.value <= 30_000 then 2 * log[k - 1].delay.value else 30_000
  {
    FailuresAreAnswered(cfg, states, events, n);
    hide Step, IsRun, BackoffDelay;
    var log := states[n].failures;
    assert Answered(cfg, log[..k + 1]);
    FirstDelay(cfg);
    if k > 0 {
      var longer, shorter := log[..k + 1], log[..k];
      assert Answered(cfg, shorter) && longer[..k] == shorter;
      assert shorter[k - 1] == longer[k - 1] == log[k - 1];
      assert StreakBefore(longer) == if log[k].at - log[k - 1].at >= 60_000 then 0 else Streak(shorter);
      DelayDoubles(cfg, StreakBefore(shorter) + 1);
    }
  }

  lemma FirstDelay(cfg: Config)
    ensures BackoffDelay(cfg, 1) == if cfg.backoffBaseMs <= 30_000 then cfg.backoffBaseMs else 30_000
  {
    assert Pow2(0) == 1;
  }

  lemma DelayDoubles(cfg: Config, k: nat)
    requires k > 0
    ensures BackoffDelay(cfg, k + 1) == Min(2 * BackoffDelay(cfg, k), BACKOFF_MAX_MS)
  {
    assert cfg.backoffBaseMs * Pow2(k) == 2 * (cfg.backoffBaseMs * Pow2(k - 1));
  }
}
