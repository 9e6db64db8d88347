/**
The supervisor in the form of its source: a class whose fields the code segments assign in turn.
Every method is one segment between two awaits (or a helper such a segment calls), and its
`ensures` equates the whole new state with the specification of that segment in `Supervision`,
so the results proved there about runs hold of runs of these methods.
*/
module SupervisorObject {
  import opened Common
  import opened Supervision

  class HarnessSupervisor {
    const cfg: Config
    var proc: Option<nat>
    var status: Status
    var url: Option<nat>
    var restarts: nat
    var lastRestartAt: int
    var stopping: bool
    var restartTimer: Option<nat>
    var generation: nat
    var spawnPromise: Option<Activation>
    var lifecycleLock: nat
    // the world behind Node's interfaces
    var children: seq<Child>
    var timers: seq<Timer>
    var ops: seq<Op>
    var activations: nat
    var clock: int
    var failures: seq<Failed>
    var homeDirFailed: bool

    function View(): State
      reads this
    {
      State(proc, status, url, restarts, lastRestartAt, stopping, restartTimer, generation, spawnPromise,
            lifecycleLock, children, timers, ops, activations, clock, failures, homeDirFailed)
    }

    constructor (config: Config)
      ensures View() == Initial && cfg == config
    {
      cfg := config;
      proc, status, url := None, Stopped, None;
      restarts, lastRestartAt := 0, 0;
      stopping, restartTimer, generation, spawnPromise, lifecycleLock := false, None, 0, None, 0;
      children, timers, ops, activations, clock, failures := [], [], [], 0, 0, [];
      homeDirFailed := false;
    }

    // ---- helpers ----

    predicate ChildUnexited()
      reads this
    {
      ProcUnexited(View())
    }

    method KillTree(c: nat)
      requires c < |children|
      modifies this
      ensures View() == Kill(old(View()), c)
    {
      children := children[c := children[c].(killed := true)];
    }

    method ClearTimer()
      modifies this
      ensures View() == ClearRestartTimer(old(View()))
    {
      if restartTimer.Some? {
        var t := restartTimer.value;
        if t < |timers| {
          timers := timers[t := timers[t].(pending := false)];
        }
        restartTimer := None;
      }
    }

    method DoSpawnOnce(launch: Launch)
      modifies this
      ensures View() == SpawnOnce(old(View()), launch)
    {
      if stopping || ChildUnexited() {
        return;
      }
      generation := generation + 1;
      var launchGeneration := generation;
      status := Starting;
      url := None;
      homeDirFailed := false;
      match launch {
        case HomeDirFails =>
          homeDirFailed := true;
          return;
        case LaunchFails(_) =>
          status := Unhealthy;
          return;
        case Launched =>
          children := children + [Child(launchGeneration, true, false, false, false, false, true)];
      }
      proc := Some(|children| - 1);
    }

    /** spawn() up to its await; the result is the activation the caller goes on to await. */
    method DoSpawn(launch: Launch) returns (pending: Option<Activation>)
      modifies this
      ensures (View(), pending) == Spawn(old(View()), launch)
    {
      if stopping {
        return None;
      }
      if ChildUnexited() {
        return None;
      }
      if spawnPromise.Some? {
        return spawnPromise;
      }
      DoSpawnOnce(launch);
      pending := Some(Activation(activations, Rejects(launch)));
      activations := activations + 1;
      spawnPromise := pending;
    }

    /** The finally block of spawn(). */
    method SpawnSettled()
      requires Enabled(View(), SpawnSettles)
      modifies this
      ensures View() == Step(cfg, old(View()), SpawnSettles)
    {
      spawnPromise := None;
    }

    method DoMaybeRespawn(launchGeneration: nat)
      modifies this
      ensures View() == MaybeRespawn(cfg, old(View()), launchGeneration)
    {
      if stopping || launchGeneration != generation || proc.Some? {
        return;
      }
      var now := clock;
      if now - lastRestartAt >= RESTART_WINDOW_MS {
        restarts := 0;
      }
      lastRestartAt := now;
      if restarts >= cfg.restartBudget {
        failures := failures + [Failed(now, None)];
        return;
      }
      restarts := restarts + 1;
      var delay := BackoffDelay(cfg, restarts);
      failures := failures + [Failed(now, Some(delay))];
      restartTimer := Some(|timers|);
      timers := timers + [Timer(launchGeneration, now + delay, true)];
    }

    // ---- lifecycle operations ----

    /** withLock up to its await: take the last promise and put one's own in its place. */
    method WithLock(kind: Kind)
      modifies this
      ensures View() == AddOp(old(View()), kind)
    {
      var prev := lifecycleLock;
      ops := ops + [Op(kind, prev, Queued)];
      lifecycleLock := |ops|;
    }

    method CallStarts()
      modifies this
      ensures View() == Step(cfg, old(View()), CallStart)
    {
      if status == Starting || ChildUnexited() {
        return;
      }
      WithLock(Start);
    }

    method CallStops()
      modifies this
      ensures View() == Step(cfg, old(View()), CallStop)
    {
      WithLock(Stop);
    }

    method CallRestarts()
      modifies this
      ensures View() == Step(cfg, old(View()), CallRestart)
    {
      WithLock(Restart);
    }

    method Reach(i: nat, phase: Phase)
      requires i < |ops|
      modifies this
      ensures View() == SetPhase(old(View()), i, phase)
    {
      ops := ops[i := ops[i].(phase := phase)];
    }

    method SpawnAndEnd(i: nat, launch: Launch)
      requires i < |ops|
      modifies this
      ensures View() == SpawnThenEnd(old(View()), i, launch)
    {
      stopping := false;
      var pending := DoSpawn(launch);
      Reach(i, Ending(pending));
    }

    method EnterStartBody(i: nat, launch: Launch)
      requires i < |ops| && ops[i].kind.Start?
      modifies this
      ensures View() == EnterBody(old(View()), i, launch)
    {
      if status == Starting || ChildUnexited() {
        Reach(i, Ending(None));
        return;
      }
      SpawnAndEnd(i, launch);
    }

    /** Invalidate exit, readiness and timer callbacks of the generation that ends here. */
    method EndGeneration()
      modifies this
      ensures View() == Invalidate(old(View()))
    {
      stopping := true;
      generation := generation + 1;
      ClearTimer();
    }

    method LetGo()
      modifies this`proc, this`status, this`url, this`homeDirFailed
      ensures View() == old(View()).(proc := None, status := Stopped, url := None, homeDirFailed := false)
    {
      proc := None;
      status := Stopped;
      url := None;
      homeDirFailed := false;
    }

    method EnterStopBody(i: nat, launch: Launch)
      requires i < |ops| && ops[i].kind.Stop?
      modifies this
      ensures View() == EnterStop(old(View()), i, launch)
    {
      var unexited, current := ChildUnexited(), proc;
      EndGeneration();
      LetGo();
      if unexited {
        KillTree(current.value);
        Reach(i, AwaitExit);
      } else {
        PastExit(i, launch);
      }
    }

    method EnterRestartBody(i: nat, launch: Launch)
      requires i < |ops| && ops[i].kind.Restart?
      modifies this
      ensures View() == EnterRestart(old(View()), i, launch)
    {
      var unexited, earlier := ChildUnexited(), proc;
      EndGeneration();
      if unexited {
        LetGo();
        KillTree(earlier.value);
        Reach(i, AwaitExit);
      } else {
        PastExit(i, launch);
      }
    }

    /** The operation whose turn has come begins its body. */
    method EnterBodyOf(i: nat, launch: Launch)
      requires Enabled(View(), Enter(i, launch))
      modifies this
      ensures View() == Step(cfg, old(View()), Enter(i, launch))
    {
      match ops[i].kind {
        case Start => EnterStartBody(i, launch);
        case Stop => EnterStopBody(i, launch);
        case Restart => EnterRestartBody(i, launch);
      }
    }

    method PastExit(i: nat, launch: Launch)
      requires i < |ops|
      modifies this
      ensures View() == AfterExit(old(View()), i, launch)
    {
      if spawnPromise.Some? {
        Reach(i, AwaitSpawn(spawnPromise.value));
      } else if ops[i].kind.Stop? {
        Reach(i, Ending(None));
      } else {
        SpawnAndEnd(i, launch);
      }
    }

    method PastSpawn(i: nat, launch: Launch)
      requires Enabled(View(), Event.SpawnAwaited(i, launch))
      modifies this
      ensures View() == Step(cfg, old(View()), Event.SpawnAwaited(i, launch))
    {
      if ops[i].phase.earlier.rejects || ops[i].kind.Stop? {
        Reach(i, Ending(None));
      } else {
        SpawnAndEnd(i, launch);
      }
    }

    // ---- child events ----

    method ExitHandler(c: nat, withCode: bool)
      requires c < |children|
      modifies this
      ensures View() == OnExit(cfg, old(View()), c, withCode)
    {
      hide MaybeRespawn;
      var launchGeneration := children[c].generation;
      children := children[c := children[c].(exitSeen := true, hasExitCode := withCode)];
      if stopping || launchGeneration != generation || proc != Some(c) {
        return;
      }
      proc := None;
      if status == Ready {
        status := Unhealthy;
      } else {
        status := Stopped;
      }
      url := None;
      DoMaybeRespawn(launchGeneration);
    }

    method ErrorHandler(c: nat)
      requires c < |children|
      modifies this
      ensures View() == OnError(cfg, old(View()), c)
    {
      hide MaybeRespawn;
      var launchGeneration := children[c].generation;
      children := children[c := children[c].(errorSeen := true, hasExitCode := true)];
      if stopping || launchGeneration != generation || proc != Some(c) {
        return;
      }
      proc := None;
      url := None;
      status := Unhealthy;
      DoMaybeRespawn(launchGeneration);
    }

    method ReadinessDeadline(c: nat)
      requires Enabled(View(), DeadlineFires(c))
      modifies this
      ensures View() == Step(cfg, old(View()), DeadlineFires(c))
    {
      children := children[c := children[c].(deadline := false)];
      if generation == children[c].generation && proc == Some(c) && status == Starting && !children[c].hasExitCode {
        KillTree(c);
      }
    }

    method TryGrabs(c: nat, readyLine: bool)
      modifies this
      ensures View() == OnOutput(old(View()), c, readyLine)
    {
      if status != Starting {
        return;
      }
      if !readyLine {
        return;
      }
      url := Some(c);
      status := Ready;
    }

    method RestartTimerCallback(t: nat, launch: Launch)
      requires Enabled(View(), Event.TimerFires(t, launch))
      modifies this
      ensures View() == Step(cfg, old(View()), Event.TimerFires(t, launch))
    {
      timers := timers[t := timers[t].(pending := false)];
      restartTimer := None;
      if stopping || timers[t].generation != generation || proc.Some? {
        return;
      }
      var _ := DoSpawn(launch);
    }

    // ---- the event loop ----

    /** Node delivers one event: the segment that awaited it runs, or the world behind Node changes. */
    method Deliver(e: Event)
      requires Enabled(View(), e)
      modifies this
      ensures View() == Step(cfg, old(View()), e)
    {
      hide SpawnOnce, EnterBody, AfterExit, AfterSpawn, OnDeadline, OnTimer, AddOp, OnExit, OnError, SetPhase, MaybeRespawn;
      match e {
        case CallStart => CallStarts();
        case CallStop => CallStops();
        case CallRestart => CallRestarts();
        case Enter(i, launch) => EnterBodyOf(i, launch);
        case ExitAwaited(i, launch) => PastExit(i, launch);
        case SpawnAwaited(i, launch) => PastSpawn(i, launch);
        case Release(i) => Reach(i, Finished);
        case SpawnSettles => SpawnSettled();
        case Dies(c) => children := children[c := children[c].(alive := false)];
        case ExitEvent(c, withCode) => ExitHandler(c, withCode);
        case ErrorEvent(c) => ErrorHandler(c);
        case DeadlineFires(c) => ReadinessDeadline(c);
        case Output(c, readyLine) => TryGrabs(c, readyLine);
        case TimerFires(t, launch) => RestartTimerCallback(t, launch);
        case Tick(ms) => clock := clock + ms;
      }
    }

    /** Whatever events come to a new supervisor, up to the first that cannot happen: its states are a run,
        so every result about runs is one about this object. */
    method EventLoop(events: seq<Event>) returns (states: seq<State>)
      requires View() == Initial
      modifies this
      ensures 1 <= |states| <= |events| + 1 && states[|states| - 1] == View()
      ensures IsRun(cfg, states, events[..|states| - 1])
      ensures |states| <= |events| ==> !Enabled(View(), events[|states| - 1])
      ensures forall c, d | 0 <= c < |children| && 0 <= d < |children| :: Serving(children[c]) && Serving(children[d]) ==> c == d
    {
      hide Step, Enabled;
      states := [View()];
      var n := 0;
      while n < |events| && Enabled(View(), events[n])
        invariant 0 <= n <= |events| && |states| == n + 1 && states[n] == View()
        invariant IsRun(cfg, states, events[..n])
      {
        Deliver(events[n]);
        assert events[..n] + [events[n]] == events[..n + 1];
        states := states + [View()];
        n := n + 1;
      }
      AtMostOneServingChild(cfg, states, events[..n], n);
    }
  }

}
