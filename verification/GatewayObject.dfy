/**
The closures of startPhoenixGateway (apps/shell/src/main/phoenix-gateway.ts) as methods over the variables
they share and over RunningChild records they change in place. Each leaves exactly the state that the
function of the same segment in PhoenixGateway computes.
*/
module PhoenixGatewayObject {
  import opened Common
  import opened PhoenixGateway

  class RunningChild {
    var alive: bool
    var signalled: bool
    var intentional: bool
    var ready: bool
    var restartScheduled: bool

    constructor ()
      ensures Value() == FRESH
    {
      alive, signalled, intentional, ready, restartScheduled := true, false, false, false, false;
    }

    function Value(): Child
      reads this
    {
      Child(alive, signalled, intentional, ready, restartScheduled)
    }
  }

  class Gateway {
    const base: int
    var children: seq<RunningChild>
    var active: Option<nat>
    var stopped: bool
    var attempt: nat
    var timer: Option<Timer>
    var flights: seq<Flight>
    var returned: bool
    var stops: nat
    var restarts: nat
    var log: seq<Line>

    function Abs(): State
      reads this, children
    {
      State(base, seq(|children|, i requires 0 <= i < |children| reads this, children => children[i].Value()),
            active, stopped, attempt, timer, flights, returned, stops, restarts, log)
    }

    /** The records are distinct objects. */
    ghost predicate Valid()
      reads this, children
    {
      (forall i, j | 0 <= i < j < |children| :: children[i] != children[j]) && WellFormed(Abs())
    }

    /** The first launch, or its failure. */
    constructor (restartBaseDelayMs: int, throws: bool)
      ensures Valid() && Abs() == Begin(restartBaseDelayMs, throws) && fresh(children)
    {
      base := restartBaseDelayMs;
      active, stopped, attempt, timer, flights, returned, stops, restarts, log := None, false, 0, None, [], false, 0, 0, [];
      children := [];
      new;
      if throws {
        stopped := true;
      } else {
        LaunchAndWait(First);
      }
    }

    method ScheduleRestart(r: nat)
      requires Valid() && r < |children|
      modifies this, children[r]
      ensures Valid() && children == old(children) && Abs() == PhoenixGateway.ScheduleRestart(old(Abs()), r)
    {
      var record := children[r];
      if stopped || record.intentional || !record.ready || record.restartScheduled || timer.Some? {
        return;
      }
      record.restartScheduled := true;
      var delay := Delay(base, attempt);
      attempt := attempt + 1;
      log := log + [Restarting(delay)];
      timer := Some(Timer(r, delay));
      assert Abs().children == old(Abs()).children[r := record.Value()];
    }

    method Terminate(r: nat)
      requires Valid() && r < |children|
      modifies children[r]
      ensures Valid() && children == old(children) && Abs() == PhoenixGateway.Terminate(old(Abs()), r)
    {
      var record := children[r];
      record.intentional := true;
      if record.alive {
        record.signalled := true;
      }
      assert Abs().children == old(Abs()).children[r := record.Value()];
    }

    method LaunchAndWait(origin: Origin)
      requires Valid() && (origin.Auto? ==> origin.owner < |children|)
      modifies this
      ensures Valid() && Abs() == Launch(old(Abs()), origin)
      ensures |children| == |old(children)| + 1 && children[..|children| - 1] == old(children) && fresh(children[|children| - 1])
    {
      var record := new RunningChild();
      flights := flights + [Flight(|children|, origin, false)];
      active := Some(|children|);
      children := children + [record];
      assert Abs().children == old(Abs()).children + [FRESH];
    }

    /** What the caller of a launchAndWait does with a rejection. */
    method OnRejected(origin: Origin)
      requires Valid() && (origin.Auto? ==> origin.owner < |children|)
      modifies this, children
      ensures Valid() && children == old(children) && Abs() == Rejected(old(Abs()), origin)
    {
      match origin
      case First => stopped := true;
      case Asked =>
      case Auto(o) =>
        children[o].restartScheduled := false;
        ghost var cleared := Abs();
        assert cleared.children == old(Abs()).children[o := children[o].Value()];
        ScheduleRestart(o);
    }

    method OnResolved(origin: Origin)
      requires Valid()
      modifies this
      ensures Valid() && children == old(children) && Abs() == Resolved(old(Abs()), origin)
    {
      match origin
      case First => returned := true;
      case Asked =>
        attempt := 0;
        log := log + [Renewed];
      case Auto(_) =>
        attempt := 0;
        log := log + [Recovered];
    }

    method EndLaunch(i: nat)
      requires Valid() && i < |flights|
      modifies this, children
      ensures Valid() && children == old(children) && Abs() == Abandon(old(Abs()), i)
    {
      var flight := flights[i];
      if active == Some(flight.child) {
        active := None;
      }
      flights := flights[..i] + flights[i + 1..];
      assert Abs().children == old(Abs()).children;
      hide PhoenixGateway.ScheduleRestart, Rejected;
      OnRejected(flight.origin);
    }

    // ---- the events ----

    method OnExit(r: nat)
      requires Valid() && r < |children|
      modifies this, children[r]
      ensures Valid() && children == old(children) && Abs() == Dies(old(Abs()), r)
    {
      children[r].alive := false;
      assert Abs().children == old(Abs()).children[r := children[r].Value()];
      ScheduleRestart(r);
    }

    method MarkReady(r: nat)
      requires Valid() && r < |children|
      modifies children[r]
      ensures Valid() && children == old(children)
      ensures Abs() == old(Abs()).(children := old(Abs()).children[r := old(Abs()).children[r].(ready := true)])
    {
      children[r].ready := true;
      assert Abs().children == old(Abs()).children[r := children[r].Value()];
    }

    method OnHealthy(i: nat)
      requires Valid() && i < |flights|
      modifies this, children
      ensures Valid() && children == old(children) && Abs() == Serve(old(Abs()), i)
    {
      var flight := flights[i];
      MarkReady(flight.child);
      hide Resolved;
      flights := flights[..i] + flights[i + 1..];
      OnResolved(flight.origin);
    }

    method OnLaunchFailure(i: nat)
      requires Valid() && i < |flights|
      modifies this, children
      ensures Valid() && children == old(children) && Abs() == Quit(old(Abs()), i)
    {
      var flight := flights[i];
      var running := children[flight.child].alive;
      Terminate(flight.child);
      if running {
        flights := flights[i := flight.(closing := true)];
      } else {
        EndLaunch(i);
      }
    }

    method OnTimer(throws: bool)
      requires Valid() && timer.Some?
      modifies this, children
      ensures Valid() && Abs() == FireTimer(old(Abs()), throws)
      ensures old(children) <= children && fresh(children[|old(children)|..])
    {
      var origin := Auto(timer.value.owner);
      timer := None;
      if stopped {
        return;
      }
      if throws {
        OnRejected(origin);
      } else {
        LaunchAndWait(origin);
      }
    }

    method Stop()
      requires Valid()
      modifies this, children
      ensures Valid() && children == old(children) && Abs() == StopCalled(old(Abs()))
    {
      stopped := true;
      timer := None;
      assert Abs().children == old(Abs()).children;
      if active.None? {
        return;
      }
      var running := children[active.value].alive;
      Terminate(active.value);
      if running {
        stops := stops + 1;
      } else {
        active := None;
      }
    }

    method StopSettled(closed: bool)
      requires Valid() && stops > 0
      modifies this
      ensures Valid() && children == old(children) && Abs() == Step(old(Abs()), StopSettles(closed))
    {
      stops := stops - 1;
      if closed {
        active := None;
      }
    }

    /** restart() once the old child needs no more waiting. */
    method LaunchAsked(throws: bool)
      requires Valid()
      modifies this
      ensures Valid() && Abs() == Relaunch(old(Abs()), throws)
      ensures old(children) <= children && fresh(children[|old(children)|..])
    {
      active := None;
      assert Abs().children == old(Abs()).children;
      if !throws {
        LaunchAndWait(Asked);
      }
    }

    method Restart(throws: bool)
      requires Valid()
      modifies this, children
      ensures Valid() && Abs() == RestartCalled(old(Abs()), throws)
      ensures old(children) <= children && fresh(children[|old(children)|..])
    {
      if stopped {
        return;
      }
      timer := None;
      assert Abs().children == old(Abs()).children;
      if active.None? {
        LaunchAsked(throws);
        return;
      }
      var running := children[active.value].alive;
      Terminate(active.value);
      if running {
        restarts := restarts + 1;
      } else {
        LaunchAsked(throws);
      }
    }

    method RestartSettled(closed: bool, throws: bool)
      requires Valid() && restarts > 0
      modifies this
      ensures Valid() && Abs() == Step(old(Abs()), RestartSettles(closed, throws))
      ensures old(children) <= children && fresh(children[|old(children)|..])
    {
      restarts := restarts - 1;
      assert Abs().children == old(Abs()).children;
      if closed {
        LaunchAsked(throws);
      }
    }

    // ---- the event loop ----

    /** Node delivers one event; one that cannot happen changes nothing. */
    method Deliver(e: Event)
      requires Valid()
      modifies this, children
      ensures Valid() && Abs() == Step(old(Abs()), e)
      ensures old(children) <= children && fresh(children[|old(children)|..])
    {
      if !Enabled(Abs(), e) {
        return;
      }
      hide PhoenixGateway.ScheduleRestart, PhoenixGateway.Terminate, Launch, Rejected, Resolved, Abandon, Dies, Serve,
           Quit, FireTimer, StopCalled, RestartCalled, Relaunch;
      match e {
        case ChildDies(r) => OnExit(r);
        case Answers(i) => OnHealthy(i);
        case GivesUp(i) => OnLaunchFailure(i);
        case Closes(i) => EndLaunch(i);
        case TimerFires(throws) => OnTimer(throws);
        case Stop => Stop();
        case StopSettles(closed) => StopSettled(closed);
        case Restart(throws) => Restart(throws);
        case RestartSettles(closed, throws) => RestartSettled(closed, throws);
      }
    }

    /** Whatever events come to a new gateway: its state is that of the run, so every result about runs is
        one about this object. */
    method EventLoop(throws: bool, events: seq<Event>)
      requires Valid() && Abs() == Begin(base, throws)
      modifies this, children
      ensures Valid() && Abs() == Run(base, throws, events)
      ensures old(children) <= children && fresh(children[|old(children)|..])
    {
      hide Step;
      assert events[..0] == [];
      for n := 0 to |events|
        invariant Valid() && Abs() == Run(base, throws, events[..n])
        invariant old(children) <= children && fresh(children[|old(children)|..])
        invariant forall i :: 0 <= i < |children| ==> children[i] in old(children) || fresh(children[i])
      {
        ghost var m, before := |old(children)|, children;
        assert events[..n + 1][..n] == events[..n] && events[..n + 1][n] == events[n];
        Deliver(events[n]);
        assert children == before + children[|before|..];
        assert children[m..] == before[m..] + children[|before|..];
      }
      assert events[..|events|] == events;
    }
  }
}
