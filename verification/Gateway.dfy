/**
The restart loop of the packaged gateway (apps/shell/src/main/phoenix-gateway.ts): the closures of
startPhoenixGateway as a state machine. A segment between awaits is one step, and an adversary
chooses which child dies, which health probe answers, which launch throws and which call comes next.
*/
module PhoenixGateway {
  import opened Common

  const MAX_RESTART_DELAY_MS := 30_000

  /** A RunningChild record; `alive` is that neither an exit code nor a signal has been seen, and
      `signalled` that it was sent SIGTERM. */
  datatype Child = Child(alive: bool, signalled: bool, intentional: bool, ready: bool, restartScheduled: bool)

  const FRESH := Child(true, false, false, false, false)

  /** Who awaits a launchAndWait. */
  datatype Origin = First | Auto(owner: nat) | Asked

  /** A launchAndWait in progress: polling, or closing its failed candidate. */
  datatype Flight = Flight(child: nat, origin: Origin, closing: bool)

  datatype Timer = Timer(owner: nat, delay: int)

  /** The lines the restart loop logs; and Renewed, where a restart() succeeds without a line. */
  datatype Line = Restarting(delay: int) | Recovered | Renewed

  datatype State = State(
    base: int,                // restartBaseDelayMs
    children: seq<Child>,     // every child ever launched
    active: Option<nat>,
    stopped: bool,
    attempt: nat,             // restartAttempt
    timer: Option<Timer>,     // restartTimer
    flights: seq<Flight>,
    returned: bool,             // startPhoenixGateway has returned its instance
    stops: nat,               // stop() calls that wait for a child to close
    restarts: nat,            // restart() calls that wait for a child to close
    log: seq<Line>)

  datatype Event =
    | ChildDies(child: nat)                       // its exit event, or an error event of a child that never ran
    | Answers(flight: nat)                        // a health probe returns 200
    | GivesUp(flight: nat)                        // the loop saw a dead child, or its deadline
    | Closes(flight: nat)                         // terminate(record) settles, one way or the other
    | TimerFires(throws: bool)                    // throws: launchHidden throws
    | Stop
    | StopSettles(closed: bool)
    | Restart(throws: bool)                       // throws: should it launch at once
    | RestartSettles(closed: bool, throws: bool)

  function Delay(base: int, attempt: nat): int {
    Min(MAX_RESTART_DELAY_MS, base * Pow2(if attempt <= 6 then attempt else 6))
  }

  // ---- segments ----

  ghost predicate WellFormed(s: State) {
    && (s.active.Some? ==> s.active.value < |s.children|)
    && (s.timer.Some? ==> s.timer.value.owner < |s.children|)
    && forall i :: 0 <= i < |s.flights| ==>
         s.flights[i].child < |s.children| && (s.flights[i].origin.Auto? ==> s.flights[i].origin.owner < |s.children|)
  }

  function ScheduleRestart(s: State, r: nat): (t: State)
    requires WellFormed(s) && r < |s.children|
    ensures WellFormed(t) && t.flights == s.flights && t.restarts == s.restarts && t.base == s.base
    ensures |t.children| == |s.children| && (s.stopped ==> t.stopped && t.timer == s.timer)
  {
    var c := s.children[r];
    if s.stopped || c.intentional || !c.ready || c.restartScheduled || s.timer.Some? then s
    else
      var delay := Delay(s.base, s.attempt);
      s.(children := s.children[r := c.(restartScheduled := true)],
         timer := Some(Timer(r, delay)),
         attempt := s.attempt + 1,
         log := s.log + [Restarting(delay)])
  }

  /** terminate up to its first await. */
  function Terminate(s: State, r: nat): (t: State)
    requires WellFormed(s) && r < |s.children|
    ensures WellFormed(t) && t.flights == s.flights
  {
    var c := s.children[r];
    s.(children := s.children[r := c.(intentional := true, signalled := c.signalled || c.alive)])
  }

  /** launchAndWait up to its first await. */
  function Launch(s: State, origin: Origin): (t: State)
    requires WellFormed(s) && (origin.Auto? ==> origin.owner < |s.children|)
    ensures WellFormed(t)
  {
    var n := |s.children|;
    s.(children := s.children + [FRESH], active := Some(n), flights := s.flights + [Flight(n, origin, false)])
  }

  function Remove(flights: seq<Flight>, i: nat): seq<Flight>
    requires i < |flights|
  {
    flights[..i] + flights[i + 1..]
  }

  /** What follows a launchAndWait that rejects. */
  function Rejected(s: State, origin: Origin): (t: State)
    requires WellFormed(s) && (origin.Auto? ==> origin.owner < |s.children|)
    ensures WellFormed(t) && t.flights == s.flights && t.restarts == s.restarts && t.base == s.base
    ensures |t.children| == |s.children| && (s.stopped ==> t.stopped && t.timer == s.timer)
  {
    match origin
    case First => s.(stopped := true)
    case Asked => s
    case Auto(o) =>
      var c := s.children[o];
      ScheduleRestart(s.(children := s.children[o := c.(restartScheduled := false)]), o)
  }

  function Resolved(s: State, origin: Origin): (t: State)
    requires WellFormed(s)
    ensures WellFormed(t)
  {
    match origin
    case First => s.(returned := true)
    case Asked => s.(attempt := 0, log := s.log + [Renewed])
    case Auto(_) => s.(attempt := 0, log := s.log + [Recovered])
  }

  /** The end of launchAndWait's catch block. */
  function Abandon(s: State, i: nat): (t: State)
    requires WellFormed(s) && i < |s.flights|
    ensures WellFormed(t)
  {
    var f := s.flights[i];
    Rejected(s.(flights := Remove(s.flights, i), active := if s.active == Some(f.child) then None else s.active), f.origin)
  }

  function Dies(s: State, r: nat): (t: State)
    requires WellFormed(s) && r < |s.children|
    ensures WellFormed(t)
  {
    ScheduleRestart(s.(children := s.children[r := s.children[r].(alive := false)]), r)
  }

  function Serve(s: State, i: nat): (t: State)
    requires WellFormed(s) && i < |s.flights|
    ensures WellFormed(t)
  {
    var f := s.flights[i];
    Resolved(s.(children := s.children[f.child := s.children[f.child].(ready := true)], flights := Remove(s.flights, i)), f.origin)
  }

  function Quit(s: State, i: nat): (t: State)
    requires WellFormed(s) && i < |s.flights|
    ensures WellFormed(t)
  {
    var f := s.flights[i];
    var ended := Terminate(s, f.child);
    if s.children[f.child].alive then ended.(flights := s.flights[i := f.(closing := true)]) else Abandon(ended, i)
  }

  function FireTimer(s: State, throws: bool): (t: State)
    requires WellFormed(s) && s.timer.Some?
    ensures WellFormed(t)
  {
    var origin := Auto(s.timer.value.owner);
    var fired := s.(timer := None);
    if s.stopped then fired else if throws then Rejected(fired, origin) else Launch(fired, origin)
  }

  /** stop() and restart() start by terminating the active child; a dead one is not waited for. */
  function StopCalled(s: State): (t: State)
    requires WellFormed(s)
    ensures WellFormed(t)
  {
    var quiet := s.(stopped := true, timer := None);
    if s.active.None? then quiet
    else
      var ended := Terminate(quiet, s.active.value);
      if s.children[s.active.value].alive then ended.(stops := s.stops + 1) else ended.(active := None)
  }

  function RestartCalled(s: State, throws: bool): (t: State)
    requires WellFormed(s)
    ensures WellFormed(t)
  {
    if s.stopped then s
    else
      var quiet := s.(timer := None);
      if s.active.None? then Relaunch(quiet, throws)
      else
        var ended := Terminate(quiet, s.active.value);
        if s.children[s.active.value].alive then ended.(restarts := s.restarts + 1) else Relaunch(ended, throws)
  }

  /** restart() once the old child needs no more waiting; what launchAndWait throws, restart() throws. */
  function Relaunch(s: State, throws: bool): (t: State)
    requires WellFormed(s)
    ensures WellFormed(t)
  {
    if throws then s.(active := None) else Launch(s.(active := None), Asked)
  }

  /** An event that cannot happen in the state changes nothing. */
  predicate Enabled(s: State, e: Event) {
    match e
    case ChildDies(r) => r < |s.children| && s.children[r].alive
    case Answers(i) => i < |s.flights| && !s.flights[i].closing
    case GivesUp(i) => i < |s.flights| && !s.flights[i].closing
    case Closes(i) => i < |s.flights| && s.flights[i].closing
    case TimerFires(_) => s.timer.Some?
    case Stop => s.returned
    case StopSettles(_) => s.stops > 0
    case Restart(_) => s.returned
    case RestartSettles(_, _) => s.restarts > 0
  }

  function Step(s: State, e: Event): (t: State)
    requires WellFormed(s)
    ensures WellFormed(t)
  {
    if !Enabled(s, e) then s
    else
      match e
      case ChildDies(r) => Dies(s, r)
      case Answers(i) => Serve(s, i)
      case GivesUp(i) => Quit(s, i)
      case Closes(i) => Abandon(s, i)
      case TimerFires(throws) => FireTimer(s, throws)
      case Stop => StopCalled(s)
      case StopSettles(closed) =>
        if closed then s.(stops := s.stops - 1, active := None) else s.(stops := s.stops - 1)
      case Restart(throws) => RestartCalled(s, throws)
      case RestartSettles(closed, throws) =>
        var settled := s.(restarts := s.restarts - 1);
        if closed then Relaunch(settled, throws) else settled
  }

  /** The first launch: it throws, or the gateway polls its first child. */
  function Begin(base: int, throws: bool): (s: State)
    ensures WellFormed(s)
  {
    var s := State(base, [], None, false, 0, None, [], false, 0, 0, []);
    if throws then Rejected(s, First) else Launch(s, First)
  }

  function Run(base: int, throws: bool, events: seq<Event>): (s: State)
    ensures WellFormed(s)
  {
    if events == [] then Begin(base, throws)
    else
      var before := Run(base, throws, events[..|events| - 1]);
      Step(before, events[|events| - 1])
  }

  // ---- the hypothesis ----

  /** A restart() overlaps no launch in progress and no other restart(), and no stop() overlaps the wait of
      a restart(). A restart() may come while a timer is pending, and a stop() while the child that a
      restart() launched is polled. */
  ghost predicate Regular(s: State, e: Event) {
    && (e.Restart? ==> s.stopped || (s.flights == [] && s.restarts == 0))
    && (e.Stop? ==> s.restarts == 0)
  }

  ghost predicate RegularRun(base: int, throws: bool, events: seq<Event>) {
    events != [] ==>
      && RegularRun(base, throws, events[..|events| - 1])
      && Regular(Run(base, throws, events[..|events| - 1]), events[|events| - 1])
  }

  // ---- the invariant ----

  /** Alive and never told to go. */
  predicate Loose(c: Child) {
    c.alive && !c.signalled
  }

  ghost predicate NoneLoose(s: State) {
    forall r :: 0 <= r < |s.children| ==> !Loose(s.children[r])
  }

  /** The record a relaunch or a timer works for: it served, died, and is marked. */
  ghost predicate Mourned(s: State, r: nat) {
    && r < |s.children|
    && s.children[r].ready && !s.children[r].alive && s.children[r].restartScheduled
    && (!s.stopped ==> !s.children[r].intentional)
  }

  ghost predicate ChildFacts(s: State, c: Child, r: int) {
    && (Loose(c) ==> s.active == Some(r) && r == |s.children| - 1 && (c.ready ==> !c.restartScheduled))
    && (c.restartScheduled ==> c.ready)
    && (c.signalled ==> c.intentional)
    && (c.intentional && c.alive ==> c.signalled)
  }

  ghost predicate FlightFacts(s: State, f: Flight) {
    && s.timer.None? && s.restarts == 0
    && f.child == |s.children| - 1
    && !s.children[f.child].ready
    && (!s.stopped ==> s.active == Some(f.child))
    && (f.origin.Asked? ==> s.returned)
    && (f.origin.Auto? ==> f.origin.owner < f.child && Mourned(s, f.origin.owner) && s.returned)
    && (f.origin.First? ==> !s.returned && !s.stopped)
    && (f.closing ==> s.children[f.child].intentional)
    && (s.children[f.child].intentional ==> f.closing || s.stopped)
  }

  /** A child that serves. */
  predicate Serving(s: State) {
    && s.children != []
    && var c := s.children[|s.children| - 1];
       c.alive && c.ready && !c.intentional && s.active == Some(|s.children| - 1)
  }

  ghost predicate Inv(s: State) {
    && WellFormed(s)
    && (forall r :: 0 <= r < |s.children| ==> ChildFacts(s, s.children[r], r))
    && |s.flights| <= 1
    && (s.flights != [] ==> FlightFacts(s, s.flights[0]))
    && (s.timer.Some? ==> Mourned(s, s.timer.value.owner) && s.returned && !s.stopped && NoneLoose(s))
    && s.restarts <= 1
    && (s.restarts > 0 ==> s.timer.None? && !s.stopped && s.returned && NoneLoose(s))
    && (s.stopped ==> NoneLoose(s))
    && (s.stops > 0 ==> s.stopped)
    && (Serving(s) ==> s.returned)
  }

  lemma BeginKeepsInv(base: int, throws: bool)
    ensures Inv(Begin(base, throws))
  {
  }

  lemma DiesKeepsInv(s: State, r: nat)
    requires Inv(s) && r < |s.children| && s.children[r].alive
    ensures Inv(Dies(s, r))
  {
  }

  lemma ServeKeepsInv(s: State)
    requires Inv(s) && s.flights != [] && !s.flights[0].closing
    ensures Inv(Serve(s, 0))
  {
    var t := Serve(s, 0);
    assert Remove(s.flights, 0) == [] && t.flights == [];
    assert t.children == s.children[s.flights[0].child := s.children[s.flights[0].child].(ready := true)];
    hide Resolved, Remove;
    forall r | 0 <= r < |t.children|
      ensures ChildFacts(t, t.children[r], r)
    {
      assert ChildFacts(s, s.children[r], r);
    }
  }

  lemma AbandonKeepsInv(s: State)
    requires Inv(s) && s.flights != [] && !Loose(s.children[s.flights[0].child])
    ensures Inv(Abandon(s, 0))
  {
  }

  /** Whether the candidate's end is waited for or not. */
  lemma QuitKeepsInv(s: State)
    requires Inv(s) && s.flights != []
    ensures Inv(Quit(s, 0))
  {
    var f := s.flights[0];
    var t := Terminate(s, f.child);
    var u := t.(flights := [f.(closing := true)]);
    AbandonKeepsInv(u);
    hide Inv, Terminate, Rejected;
    assert Remove(u.flights, 0) == Remove(t.flights, 0);
    assert s.flights[0 := f.(closing := true)] == [f.(closing := true)];
    assert Abandon(u, 0) == Abandon(t, 0);
  }

  lemma FireTimerKeepsInv(s: State, throws: bool)
    requires Inv(s) && s.timer.Some?
    ensures Inv(FireTimer(s, throws))
  {
  }

  lemma StopKeepsInv(s: State)
    requires Inv(s) && s.returned && s.restarts == 0
    ensures Inv(StopCalled(s))
  {
  }

  lemma RestartKeepsInv(s: State, throws: bool)
    requires Inv(s) && s.returned && (s.stopped || (s.flights == [] && s.restarts == 0))
    ensures Inv(RestartCalled(s, throws))
  {
  }

  lemma SettledRestartKeepsInv(s: State, closed: bool, throws: bool)
    requires Inv(s) && s.restarts > 0
    ensures Inv(Step(s, RestartSettles(closed, throws)))
  {
  }

  lemma SettledStopKeepsInv(s: State, closed: bool)
    requires Inv(s) && s.stops > 0
    ensures Inv(if closed then s.(stops := s.stops - 1, active := None) else s.(stops := s.stops - 1))
  {
  }

  lemma StepKeepsInv(s: State, e: Event)
    requires Inv(s) && Regular(s, e)
    ensures Inv(Step(s, e))
  {
    hide Dies, Serve, Quit, Abandon, FireTimer, StopCalled, Mourned, Serving, NoneLoose, RestartCalled;
    if Enabled(s, e) {
      match e
      case ChildDies(r) => DiesKeepsInv(s, r);
      case Answers(_) => ServeKeepsInv(s);
      case GivesUp(_) => QuitKeepsInv(s);
      case Closes(_) => AbandonKeepsInv(s);
      case TimerFires(throws) => FireTimerKeepsInv(s, throws);
      case Stop => StopKeepsInv(s);
      case StopSettles(closed) => SettledStopKeepsInv(s, closed);
      case Restart(throws) => RestartKeepsInv(s, throws);
      case RestartSettles(closed, throws) => SettledRestartKeepsInv(s, closed, throws);
    }
  }

  lemma {:induction false} RunKeepsInv(base: int, throws: bool, events: seq<Event>)
    requires RegularRun(base, throws, events)
    ensures Inv(Run(base, throws, events))
  {
    if events == [] {
      BeginKeepsInv(base, throws);
    } else {
      RunKeepsInv(base, throws, events[..|events| - 1]);
      StepKeepsInv(Run(base, throws, events[..|events| - 1]), events[|events| - 1]);
    }
  }

  // ---- what the invariant means ----

  /** In a regular run, restarts included and whatever answers the health probes, two children are never
      both alive and untold to go, and the one that may be is the active one; there is one timer slot, and
      never a pending timer beside a launch in progress or a waiting restart(). */
  lemma AtMostOneLooseChild(base: int, throws: bool, events: seq<Event>, q: nat, r: nat)
    requires RegularRun(base, throws, events)
    ensures var s := Run(base, throws, events);
            && (q < |s.children| && r < |s.children| && Loose(s.children[q]) && Loose(s.children[r]) ==> q == r && s.active == Some(q))
            && (s.timer.Some? ==> s.flights == [] && s.restarts == 0) && |s.flights| <= 1
  {
    RunKeepsInv(base, throws, events);
  }

  /** The gateway serves, or something is under way that will launch, or it was stopped. */
  predicate Attended(s: State) {
    s.stopped || Serving(s) || s.timer.Some? || s.flights != [] || s.restarts > 0
  }

  /** The steps that leave nobody in charge: a 200 believed of a dead child, and a restart() that comes to
      nothing because its wait gives up, its launch throws, or its child dies or never answers. */
  predicate Strands(s: State, e: Event)
    requires WellFormed(s)
  {
    && !s.stopped && Enabled(s, e)
    && match e
       case Answers(i) => !s.children[s.flights[i].child].alive
       case GivesUp(i) => s.flights[i].origin.Asked? && !s.children[s.flights[i].child].alive
       case Closes(i) => s.flights[i].origin.Asked?
       case Restart(throws) => throws && (s.active.None? || !s.children[s.active.value].alive)
       case RestartSettles(closed, throws) => !closed || throws
       case _ => false
  }

  lemma FlightStrands(s: State, e: Event)
    requires Inv(s) && Attended(s) && (e.Answers? || e.GivesUp? || e.Closes?)
    ensures !Attended(Step(s, e)) <==> Strands(s, e)
  {
    match e
    case Answers(_) =>
    case GivesUp(_) =>
    case Closes(_) =>
  }

  lemma OtherStrands(s: State, e: Event)
    requires Inv(s) && Attended(s) && Regular(s, e) && (e.ChildDies? || e.TimerFires? || e.Stop? || e.StopSettles?)
    ensures Attended(Step(s, e))
  {
  }

  lemma RestartStrands(s: State, e: Event)
    requires Inv(s) && Attended(s) && Regular(s, e) && (e.Restart? || e.RestartSettles?)
    ensures !Attended(Step(s, e)) <==> Strands(s, e)
  {
  }

  lemma StepStrandsExactly(s: State, e: Event)
    requires Inv(s) && Attended(s) && Regular(s, e)
    ensures !Attended(Step(s, e)) <==> Strands(s, e)
  {
    if e.Answers? || e.GivesUp? || e.Closes? {
      FlightStrands(s, e);
    } else if e.Restart? || e.RestartSettles? {
      RestartStrands(s, e);
    } else {
      OtherStrands(s, e);
    }
  }

  lemma {:induction false} PrefixIsRegular(base: int, throws: bool, events: seq<Event>, n: nat)
    requires RegularRun(base, throws, events) && n <= |events|
    ensures RegularRun(base, throws, events[..n])
    decreases |events|
  {
    if n < |events| {
      PrefixIsRegular(base, throws, events[..|events| - 1], n);
      assert events[..|events| - 1][..n] == events[..n];
    } else {
      assert events[..n] == events;
    }
  }

  lemma NextState(base: int, throws: bool, events: seq<Event>, n: nat)
    requires RegularRun(base, throws, events) && n < |events|
    ensures Run(base, throws, events[..n + 1]) == Step(Run(base, throws, events[..n]), events[n])
    ensures Regular(Run(base, throws, events[..n]), events[n]) && Inv(Run(base, throws, events[..n]))
  {
    PrefixIsRegular(base, throws, events, n + 1);
    PrefixIsRegular(base, throws, events, n);
    RunKeepsInv(base, throws, events[..n]);
    var prefix := events[..n + 1];
    assert prefix[..n] == events[..n] && prefix[|prefix| - 1] == events[n];
    hide Inv, Step, Regular;
  }

  /** Somebody is in charge after the first n events. */
  ghost predicate AttendedAfter(base: int, throws: bool, events: seq<Event>, n: nat)
    requires n <= |events|
  {
    Attended(Run(base, throws, events[..n]))
  }

  ghost predicate StrandsAt(base: int, throws: bool, events: seq<Event>, n: nat)
    requires n < |events|
  {
    Strands(Run(base, throws, events[..n]), events[n])
  }

  lemma AttendedGoesOn(base: int, throws: bool, events: seq<Event>, n: nat)
    requires RegularRun(base, throws, events) && n < |events| && AttendedAfter(base, throws, events, n)
    ensures AttendedAfter(base, throws, events, n + 1) <==> !StrandsAt(base, throws, events, n)
  {
    hide Run, Step, Inv, Regular, RegularRun, Strands, Attended;
    NextState(base, throws, events, n);
    StepStrandsExactly(Run(base, throws, events[..n]), events[n]);
  }

  lemma AttendedAtFirst(base: int, throws: bool, events: seq<Event>)
    ensures AttendedAfter(base, throws, events, 0)
  {
    assert events[..0] == [];
  }

  lemma {:induction false} AttendedUpTo(base: int, throws: bool, events: seq<Event>, m: nat)
    requires RegularRun(base, throws, events) && m <= |events|
    ensures (forall n: nat :: n <= m ==> AttendedAfter(base, throws, events, n))
            <==> (forall n: nat :: n < m ==> !StrandsAt(base, throws, events, n))
  {
    hide AttendedAfter, StrandsAt, RegularRun;
    AttendedAtFirst(base, throws, events);
    if m > 0 {
      AttendedUpTo(base, throws, events, m - 1);
      if AttendedAfter(base, throws, events, m - 1) {
        AttendedGoesOn(base, throws, events, m - 1);
      }
    }
  }

  /** Over every regular run: until stop() somebody is in charge at all times, a child that served and
      died is never simply gone, exactly when no step was one of those. */
  lemma AttendedUnlessStranded(base: int, throws: bool, events: seq<Event>)
    requires RegularRun(base, throws, events)
    ensures (forall n: nat :: n <= |events| ==> AttendedAfter(base, throws, events, n))
            <==> (forall n: nat :: n < |events| ==> !StrandsAt(base, throws, events, n))
  {
    AttendedUpTo(base, throws, events, |events|);
  }

  /** Nothing is left of restart(). */
  predicate NeverAsked(s: State) {
    s.restarts == 0 && forall i :: 0 <= i < |s.flights| ==> !s.flights[i].origin.Asked?
  }

  lemma {:induction false} WithoutRestarts(base: int, throws: bool, events: seq<Event>)
    requires forall n :: 0 <= n < |events| ==> !events[n].Restart?
    ensures RegularRun(base, throws, events) && NeverAsked(Run(base, throws, events))
  {
    if events != [] {
      var earlier := events[..|events| - 1];
      WithoutRestarts(base, throws, earlier);
      NeverAskedStep(Run(base, throws, earlier), events[|events| - 1]);
    }
  }

  lemma NeverAskedStep(s: State, e: Event)
    requires WellFormed(s) && NeverAsked(s) && !e.Restart?
    ensures NeverAsked(Step(s, e))
  {
    hide ScheduleRestart, Rejected, WellFormed;
  }

  /** The event is no 200 that arrives, before stop(), for a dead child. */
  ghost predicate TimelyAt(base: int, throws: bool, events: seq<Event>, n: nat)
    requires n < |events|
  {
    var s, e := Run(base, throws, events[..n]), events[n];
    e.Answers? && Enabled(s, e) && !s.stopped ==> s.children[s.flights[e.flight].child].alive
  }

  /** So without restart() the one thing that matters is the health probe: somebody is in charge at all
      times if and only if every 200 taken before stop() found its child alive. */
  lemma DeathIsAlwaysAnswered(base: int, throws: bool, events: seq<Event>)
    requires forall n :: 0 <= n < |events| ==> !events[n].Restart?
    ensures (forall n: nat :: n <= |events| ==> AttendedAfter(base, throws, events, n))
            <==> (forall n: nat :: n < |events| ==> TimelyAt(base, throws, events, n))
  {
    WithoutRestarts(base, throws, events);
    AttendedUnlessStranded(base, throws, events);
    forall n: nat | n < |events|
      ensures StrandsAt(base, throws, events, n) <==> !TimelyAt(base, throws, events, n)
    {
      WithoutRestarts(base, throws, events[..n]);
      hide Run;
    }
    hide AttendedAfter, StrandsAt, TimelyAt;
  }

  /** Nobody in charge, that is for good: until restart() or stop() is called, nothing launches, arms a
      timer or serves. */
  lemma StrandedForGood(s: State, e: Event)
    requires Inv(s) && !Attended(s) && !e.Restart? && !e.Stop?
    ensures !Attended(Step(s, e)) && |Step(s, e).children| == |s.children|
  {
  }

  /** The death of a serving child arms a timer at once. */
  lemma DeathArmsATimer(s: State)
    requires Inv(s) && !s.stopped && Serving(s)
    ensures var t := Step(s, ChildDies(|s.children| - 1));
            && t.timer == Some(Timer(|s.children| - 1, Delay(s.base, s.attempt)))
            && t.attempt == s.attempt + 1 && !Serving(t)
  {
  }

  /** A relaunch that fails, whether its launch throws, its child dies or it never answers, arms exactly
      one new timer for the same dead child, with the next delay; before stop() nothing else ends it but a
      200. */
  lemma FailedRelaunchArmsOneTimer(s: State, e: Event)
    requires Inv(s) && !s.stopped
    requires || (e == TimerFires(true) && s.timer.Some?)
             || (s.flights != [] && s.flights[0].origin.Auto? && e == Closes(0) && s.flights[0].closing)
             || (s.flights != [] && s.flights[0].origin.Auto? && e == GivesUp(0) && !s.flights[0].closing
                 && !s.children[s.flights[0].child].alive)
    ensures var owner := if e.TimerFires? then s.timer.value.owner else s.flights[0].origin.owner;
            var t := Step(s, e);
            && t.timer == Some(Timer(owner, Delay(s.base, s.attempt)))
            && t.attempt == s.attempt + 1 && t.flights == [] && |t.children| == |s.children|
            && t.log == s.log + [Restarting(Delay(s.base, s.attempt))]
  {
  }

  /** The number of restarts in a row at the end of the log. */
  function Trailing(log: seq<Line>): nat {
    if log == [] || !log[|log| - 1].Restarting? then 0 else 1 + Trailing(log[..|log| - 1])
  }

  /** Every delay in the log is the doubled one for its place since the last recovery. */
  ghost predicate Backoff(base: int, log: seq<Line>) {
    forall i :: 0 <= i < |log| && log[i].Restarting? ==> log[i].delay == Delay(base, Trailing(log[..i]))
  }

  lemma BackoffGrows(base: int, log: seq<Line>, line: Line)
    requires Backoff(base, log)
    requires line.Restarting? ==> line.delay == Delay(base, Trailing(log))
    ensures Backoff(base, log + [line])
    ensures Trailing(log + [line]) == if line.Restarting? then 1 + Trailing(log) else 0
  {
    var longer := log + [line];
    assert longer[..|log|] == log;
    assert forall i :: 0 <= i < |log| ==> longer[..i] == log[..i];
  }

  ghost predicate Counted(s: State) {
    Backoff(s.base, s.log) && s.attempt == Trailing(s.log)
  }

  lemma ScheduleRestartCounts(s: State, r: nat)
    requires WellFormed(s) && r < |s.children| && Counted(s)
    ensures Counted(ScheduleRestart(s, r))
  {
    BackoffGrows(s.base, s.log, Restarting(Delay(s.base, s.attempt)));
  }

  lemma RejectedCounts(s: State, origin: Origin)
    requires WellFormed(s) && (origin.Auto? ==> origin.owner < |s.children|) && Counted(s)
    ensures Counted(Rejected(s, origin))
  {
    if origin.Auto? {
      var o := origin.owner;
      ScheduleRestartCounts(s.(children := s.children[o := s.children[o].(restartScheduled := false)]), o);
    }
  }

  lemma AbandonCounts(s: State, i: nat)
    requires WellFormed(s) && i < |s.flights| && Counted(s)
    ensures Counted(Abandon(s, i))
  {
    var f := s.flights[i];
    RejectedCounts(s.(flights := Remove(s.flights, i), active := if s.active == Some(f.child) then None else s.active), f.origin);
  }

  lemma ServeCounts(s: State, i: nat)
    requires WellFormed(s) && i < |s.flights| && Counted(s)
    ensures Counted(Serve(s, i))
  {
    BackoffGrows(s.base, s.log, Recovered);
    BackoffGrows(s.base, s.log, Renewed);
    hide Backoff, Trailing;
  }

  lemma StepCounts(s: State, e: Event)
    requires WellFormed(s) && Counted(s)
    ensures Counted(Step(s, e))
  {
    if Enabled(s, e) {
      match e
      case ChildDies(r) => ScheduleRestartCounts(s.(children := s.children[r := s.children[r].(alive := false)]), r);
      case Answers(i) => ServeCounts(s, i);
      case GivesUp(i) => AbandonCounts(Terminate(s, s.flights[i].child), i);
      case Closes(i) => AbandonCounts(s, i);
      case TimerFires(_) => RejectedCounts(s.(timer := None), Auto(s.timer.value.owner));
      case Stop =>
      case StopSettles(_) =>
      case Restart(throws) =>
      case RestartSettles(_, _) =>
    }
    hide Backoff, Trailing, Abandon, Rejected, Serve, RestartCalled, StopCalled, ScheduleRestart;
  }

  /** Over any run at all: the k-th restart since the last recovery or renewal waits base * 2^(k-1) ms, the exponent at
      most six and the wait at most 30 s. */
  lemma {:induction false} DelaysDouble(base: int, throws: bool, events: seq<Event>)
    ensures Run(base, throws, events).base == base
    ensures Counted(Run(base, throws, events))
  {
    if events != [] {
      var earlier := events[..|events| - 1];
      DelaysDouble(base, throws, earlier);
      StepCounts(Run(base, throws, earlier), events[|events| - 1]);
      BaseStays(Run(base, throws, earlier), events[|events| - 1]);
    }
  }

  lemma BaseStays(s: State, e: Event)
    requires WellFormed(s)
    ensures Step(s, e).base == s.base
  {
    hide ScheduleRestart, Rejected, WellFormed;
  }

  // ---- what each event brings about ----

  /** The moments at which a child is launched. */
  ghost predicate Launches(s: State, e: Event)
    requires WellFormed(s) && Enabled(s, e)
  {
    match e
    case TimerFires(throws) => !throws && !s.stopped
    case Restart(throws) => !throws && !s.stopped && (s.active.Some? ==> !s.children[s.active.value].alive)
    case RestartSettles(closed, throws) => closed && !throws
    case _ => false
  }

  /** The moments at which the active child, if there is one, is forgotten without a successor. */
  ghost predicate Forgets(s: State, e: Event)
    requires WellFormed(s) && Enabled(s, e)
  {
    match e
    case GivesUp(i) => s.active == Some(s.flights[i].child) && !s.children[s.flights[i].child].alive
    case Closes(i) => s.active == Some(s.flights[i].child)
    case Stop => s.active.Some? && !s.children[s.active.value].alive
    case StopSettles(closed) => closed
    case Restart(throws) => throws && !s.stopped && (s.active.Some? ==> !s.children[s.active.value].alive)
    case RestartSettles(closed, throws) => closed && throws
    case _ => false
  }

  /** The children an event tells to go. */
  ghost predicate Told(s: State, e: Event, r: nat)
    requires WellFormed(s) && Enabled(s, e)
  {
    match e
    case GivesUp(i) => s.flights[i].child == r
    case Stop => s.active == Some(r)
    case Restart(_) => !s.stopped && s.active == Some(r)
    case _ => false
  }

  /** A child before and after an event. */
  ghost predicate ChildEffect(s: State, e: Event, r: nat, c: Child)
    requires WellFormed(s) && Enabled(s, e) && r < |s.children|
  {
    var was := s.children[r];
    && (c.alive <==> was.alive && e != ChildDies(r))
    && (c.intentional <==> was.intentional || Told(s, e, r))
    && (c.signalled <==> was.signalled || (Told(s, e, r) && was.alive))
    && (c.ready <==> was.ready || (e.Answers? && s.flights[e.flight].child == r))
  }

  /** The calls that wait for a child to close, and what ends for good. */
  ghost predicate Waits(s: State, e: Event, t: State)
    requires WellFormed(s) && Enabled(s, e)
  {
    var closing := s.active.Some? && s.children[s.active.value].alive;
    && t.stops == s.stops + (if e.Stop? && closing then 1 else if e.StopSettles? then -1 else 0)
    && t.restarts == s.restarts + (if e.Restart? && !s.stopped && closing then 1 else if e.RestartSettles? then -1 else 0)
    && (t.stopped <==> s.stopped || e.Stop? || (FailedFlight(s, e) && s.flights[e.flight].origin.First?))
    && (t.returned <==> s.returned || (e.Answers? && s.flights[e.flight].origin.First?))
  }

  /** A launch in progress ends without a child. */
  ghost predicate FailedFlight(s: State, e: Event)
    requires WellFormed(s) && Enabled(s, e)
  {
    e.Closes? || (e.GivesUp? && !s.children[s.flights[e.flight].child].alive)
  }

  ghost predicate Effect(s: State, e: Event, t: State)
    requires WellFormed(s) && Enabled(s, e)
  {
    && Waits(s, e, t)
    && |t.children| == |s.children| + (if Launches(s, e) then 1 else 0)
    && (Launches(s, e) ==> t.children[|s.children|] == FRESH)
    && t.active == (if Launches(s, e) then Some(|s.children|) else if Forgets(s, e) then None else s.active)
    && forall r :: 0 <= r < |s.children| ==> ChildEffect(s, e, r, t.children[r])
  }

  lemma ScheduleRestartFrame(s: State, r: nat)
    requires WellFormed(s) && r < |s.children|
    ensures var t := ScheduleRestart(s, r);
            && t.active == s.active && |t.children| == |s.children|
            && t.stops == s.stops && t.stopped == s.stopped && t.returned == s.returned
            && forall q :: 0 <= q < |s.children| ==>
                 t.children[q] == s.children[q].(restartScheduled := t.children[q].restartScheduled)
  {
  }

  lemma RejectedFrame(s: State, origin: Origin)
    requires WellFormed(s) && (origin.Auto? ==> origin.owner < |s.children|)
    ensures var t := Rejected(s, origin);
            && t.active == s.active && |t.children| == |s.children|
            && t.stops == s.stops && t.stopped == (s.stopped || origin.First?) && t.returned == s.returned
            && forall q :: 0 <= q < |s.children| ==>
                 t.children[q] == s.children[q].(restartScheduled := t.children[q].restartScheduled)
  {
    if origin.Auto? {
      var o := origin.owner;
      ScheduleRestartFrame(s.(children := s.children[o := s.children[o].(restartScheduled := false)]), o);
    }
    hide ScheduleRestart;
  }

  lemma DeathEffect(s: State, r: nat)
    requires WellFormed(s) && Enabled(s, ChildDies(r))
    ensures Effect(s, ChildDies(r), Step(s, ChildDies(r)))
  {
    hide ScheduleRestart;
    ScheduleRestartFrame(s.(children := s.children[r := s.children[r].(alive := false)]), r);
  }

  lemma RemoveKeepsWellFormed(s: State, i: nat)
    requires WellFormed(s) && i < |s.flights|
    ensures WellFormed(s.(flights := Remove(s.flights, i)))
  {
  }

  lemma EndEffect(s: State, e: Event)
    requires WellFormed(s) && Enabled(s, e) && (e.GivesUp? || e.Closes?)
    ensures Effect(s, e, Step(s, e))
  {
    hide Rejected, Remove;
    var i, f := e.flight, s.flights[e.flight];
    var u := if e.GivesUp? then Terminate(s, f.child) else s;
    RemoveKeepsWellFormed(u, i);
    RejectedFrame(u.(flights := Remove(u.flights, i), active := if u.active == Some(f.child) then None else u.active), f.origin);
  }

  lemma TimerEffect(s: State, throws: bool)
    requires WellFormed(s) && Enabled(s, TimerFires(throws))
    ensures Effect(s, TimerFires(throws), Step(s, TimerFires(throws)))
  {
    hide Rejected;
    RejectedFrame(s.(timer := None), Auto(s.timer.value.owner));
  }

  lemma AnswerEffect(s: State, i: nat)
    requires WellFormed(s) && Enabled(s, Answers(i))
    ensures Effect(s, Answers(i), Step(s, Answers(i)))
  {
    hide Remove;
  }

  lemma StopEffect(s: State, e: Event)
    requires WellFormed(s) && Enabled(s, e) && (e.Stop? || e.StopSettles?)
    ensures Effect(s, e, Step(s, e))
  {
  }

  lemma RestartEffect(s: State, throws: bool)
    requires WellFormed(s) && Enabled(s, Restart(throws))
    ensures Effect(s, Restart(throws), Step(s, Restart(throws)))
  {
    if !s.stopped && s.active.Some? {
      TerminateFrame(s.(timer := None), s.active.value);
      hide Terminate;
    }
  }

  lemma TerminateFrame(s: State, r: nat)
    requires WellFormed(s) && r < |s.children|
    ensures var c := s.children[r];
            Terminate(s, r) == s.(children := s.children[r := c.(intentional := true, signalled := c.signalled || c.alive)])
  {
  }

  lemma SettledEffect(s: State, closed: bool, throws: bool)
    requires WellFormed(s) && Enabled(s, RestartSettles(closed, throws))
    ensures Effect(s, RestartSettles(closed, throws), Step(s, RestartSettles(closed, throws)))
  {
  }

  /** Every event, by what it does to the children and to which of them is active. */
  lemma EveryEventHasItsEffect(s: State, e: Event)
    requires WellFormed(s) && Enabled(s, e)
    ensures Effect(s, e, Step(s, e))
  {
    hide Effect, Step, WellFormed;
    match e
    case ChildDies(r) => DeathEffect(s, r);
    case GivesUp(_) => EndEffect(s, e);
    case Closes(_) => EndEffect(s, e);
    case TimerFires(throws) => TimerEffect(s, throws);
    case Restart(throws) => RestartEffect(s, throws);
    case RestartSettles(closed, throws) => SettledEffect(s, closed, throws);
    case Answers(i) => AnswerEffect(s, i);
    case Stop => StopEffect(s, e);
    case StopSettles(_) => StopEffect(s, e);
  }

  /** The delays in milliseconds: the base, then twice the last, up to 64 times the base, and never more
      than thirty seconds. */
  lemma DelaysInFigures(base: nat, attempt: nat)
    ensures Delay(base, 0) == if base <= 30_000 then base else 30_000
    ensures Delay(base, attempt + 1)
            == if attempt >= 6 then Delay(base, attempt)
               else if 2 * Delay(base, attempt) <= 30_000 then 2 * Delay(base, attempt) else 30_000
    ensures attempt >= 6 ==> Delay(base, attempt) == if 64 * base <= 30_000 then 64 * base else 30_000
  {
    assert Pow2(0) == 1;
    if attempt < 6 {
      assert base * Pow2(attempt + 1) == 2 * (base * Pow2(attempt));
    }
    assert Pow2(6) == 64;
  }

  /** An answer to an automatic relaunch or to a restart() starts the count over, so the child that answered
      is mourned with the base delay; the first answer only returns the instance. */
  lemma AnswersStartOver(base: int, throws: bool, events: seq<Event>, i: nat)
    requires var s := Run(base, throws, events); i < |s.flights| && !s.flights[i].closing
    ensures var s, t := Run(base, throws, events), Run(base, throws, events + [Answers(i)]);
            && t.children[s.flights[i].child].ready && |t.flights| == |s.flights| - 1
            && match s.flights[i].origin
               case First => t.returned && t.attempt == s.attempt && t.log == s.log
               case Asked => t.attempt == 0 && t.log == s.log + [Renewed]
               case Auto(_) => t.attempt == 0 && t.log == s.log + [Recovered]
  {
    assert (events + [Answers(i)])[..|events|] == events;
  }

  // ---- after stop() ----

  /** Steps that start from a stopped gateway. */
  function Onward(s: State, events: seq<Event>): (t: State)
    requires WellFormed(s)
    ensures WellFormed(t)
  {
    if events == [] then s else Step(Onward(s, events[..|events| - 1]), events[|events| - 1])
  }

  lemma StoppedStep(s: State, e: Event)
    requires Inv(s) && s.stopped
    ensures var t := Step(s, e); t.stopped && |t.children| == |s.children| && t.timer.None?
  {
    hide ScheduleRestart, Rejected, ChildFacts, Mourned, Serving;
  }

  /** After a stop() that no restart() was waiting for, nothing is ever launched or scheduled, whatever
      happens and even when a relaunch was in progress, and every child is dead or has been told to go. */
  lemma {:induction false} NothingLaunchedAfterStop(s: State, events: seq<Event>)
    requires Inv(s) && s.stopped
    ensures var t := Onward(s, events);
            && Inv(t) && t.stopped && |t.children| == |s.children| && t.timer.None? && NoneLoose(t)
  {
    if events != [] {
      var before := Onward(s, events[..|events| - 1]);
      NothingLaunchedAfterStop(s, events[..|events| - 1]);
      StoppedStep(before, events[|events| - 1]);
      StepKeepsInv(before, events[|events| - 1]);
    }
  }

  lemma StoppedLaunch(s: State, e: Event)
    requires WellFormed(s) && s.stopped
    ensures var t := Step(s, e);
            && t.stopped && t.restarts <= s.restarts
            && (|t.children| == |s.children| || s.restarts > 0)
  {
    hide ScheduleRestart, Rejected;
  }

  lemma {:induction false} StoppedRun(s: State, events: seq<Event>)
    requires WellFormed(s) && s.stopped && s.restarts == 0
    ensures var t := Onward(s, events); t.stopped && t.restarts == 0 && |t.children| == |s.children|
  {
    if events != [] {
      StoppedRun(s, events[..|events| - 1]);
      StoppedLaunch(Onward(s, events[..|events| - 1]), events[|events| - 1]);
    }
  }

  /** And that is exact: a stopped gateway, in any state at all, can still launch a child if and only if
      a restart() was waiting when it was stopped. */
  lemma LaunchAfterStopExactly(s: State)
    requires WellFormed(s) && s.stopped
    ensures (exists events :: |Onward(s, events).children| > |s.children|) <==> s.restarts > 0
  {
    if s.restarts > 0 {
      var events := [RestartSettles(true, false)];
      assert events[..0] == [] && Onward(s, events) == Step(Onward(s, events[..0]), events[0]);
      assert |Onward(s, events).children| > |s.children|;
    } else {
      forall events
        ensures |Onward(s, events).children| == |s.children|
      {
        StoppedRun(s, events);
      }
    }
  }

  // ---- a restart() during a relaunch ----

  ghost predicate TwoLoose(s: State) {
    exists q, r | 0 <= q < r < |s.children| :: Loose(s.children[q]) && Loose(s.children[r])
  }

  /** No further call of restart() or stop(). */
  ghost predicate Uncalled(events: seq<Event>) {
    forall n :: 0 <= n < |events| ==> !events[n].Restart? && !events[n].Stop?
  }

  lemma OnwardSnoc(s: State, events: seq<Event>, e: Event)
    requires WellFormed(s)
    ensures Onward(s, events + [e]) == Step(Onward(s, events), e)
  {
    assert (events + [e])[..|events|] == events;
  }

  /** The asked-for child is polled while the relaunch that was cut short, flight 0, is still to notice. */
  ghost predicate Raced(s: State) {
    && WellFormed(s) && !s.stopped && s.timer.None? && |s.flights| == 2
    && s.children != [] && Loose(s.children[|s.children| - 1])
    && var f := s.flights[0];
       && f.origin.Auto? && f.child < |s.children| - 1 && f.origin.owner < f.child
       && s.children[f.child].intentional
       && s.children[f.origin.owner].ready && !s.children[f.origin.owner].intentional
  }

  lemma RacedFlightEnds(s: State)
    requires Raced(s) && (s.flights[0].closing || !s.children[s.flights[0].child].alive)
    ensures var e := if s.flights[0].closing then Closes(0) else GivesUp(0);
            TwoLoose(Step(Step(s, e), TimerFires(false)))
  {
    var e := if s.flights[0].closing then Closes(0) else GivesUp(0);
    var t := Step(s, e);
    assert t.timer.Some? && !t.stopped && |t.children| == |s.children| && Loose(t.children[|s.children| - 1]);
    var u := Step(t, TimerFires(false));
    assert Loose(u.children[|s.children| - 1]) && Loose(u.children[|s.children|]);
  }

  lemma RacedGivesUp(s: State)
    requires Raced(s) && !s.flights[0].closing && s.children[s.flights[0].child].alive
    ensures var t := Step(s, GivesUp(0)); Raced(t) && t.flights[0].closing
  {
  }

  lemma OnwardTwo(s: State, e: Event, f: Event)
    requires WellFormed(s)
    ensures Onward(s, [e, f]) == Step(Step(s, e), f)
  {
    hide Step;
    OnwardSnoc(s, [], e);
    OnwardSnoc(s, [e], f);
    assert [e, f] == [e] + [f] && [e] == [] + [e];
  }

  /** From there the timer of the relaunch launches a second child. */
  lemma RacedLeadsToTwo(s: State)
    requires Raced(s)
    ensures exists events :: Uncalled(events) && TwoLoose(Onward(s, events))
  {
    hide Step, TwoLoose;
    if s.flights[0].closing || !s.children[s.flights[0].child].alive {
      RacedFlightEnds(s);
      var e := if s.flights[0].closing then Closes(0) else GivesUp(0);
      OnwardTwo(s, e, TimerFires(false));
      assert Uncalled([e, TimerFires(false)]);
    } else {
      RacedGivesUp(s);
      var t := Step(s, GivesUp(0));
      RacedFlightEnds(t);
      OnwardTwo(t, Closes(0), TimerFires(false));
      OnwardAfter(s, GivesUp(0), [Closes(0), TimerFires(false)]);
      assert Uncalled([GivesUp(0)] + [Closes(0), TimerFires(false)]);
    }
  }

  lemma {:induction false} OnwardAfter(s: State, e: Event, events: seq<Event>)
    requires WellFormed(s)
    ensures Onward(s, [e] + events) == Onward(Step(s, e), events)
  {
    hide Step;
    if events == [] {
      assert [e] + events == [] + [e];
      OnwardSnoc(s, [], e);
    } else {
      var m := |events| - 1;
      OnwardAfter(s, e, events[..m]);
      assert [e] + events == ([e] + events[..m]) + [events[m]] && events == events[..m] + [events[m]];
      OnwardSnoc(s, [e] + events[..m], events[m]);
      OnwardSnoc(Step(s, e), events[..m], events[m]);
    }
  }

  /** A restart() during any automatic relaunch: the relaunch fails, arms a timer of its own, and that timer
      launches a child beside the one restart() launched. */
  lemma RestartRacesARelaunch(s: State)
    requires Inv(s) && !s.stopped && s.flights != [] && s.flights[0].origin.Auto?
    ensures exists events :: Uncalled(events) && TwoLoose(Onward(Step(s, Restart(false)), events))
  {
    var t := Step(s, Restart(false));
    if Raced(t) {
      RacedLeadsToTwo(t);
    } else {
      var e := RestartSettles(true, false);
      RacedLeadsToTwo(Step(t, e));
      var events :| Uncalled(events) && TwoLoose(Onward(Step(t, e), events));
      hide Step, TwoLoose;
      OnwardAfter(t, e, events);
      assert Uncalled([e] + events);
    }
  }

  /** Where no launch is in progress it never does. */
  lemma {:induction false} LoneRestartKeepsOne(s: State, events: seq<Event>)
    requires Inv(s) && Uncalled(events)
    ensures Inv(Onward(s, events)) && !TwoLoose(Onward(s, events))
  {
    if events != [] {
      LoneRestartKeepsOne(s, events[..|events| - 1]);
      StepKeepsInv(Onward(s, events[..|events| - 1]), events[|events| - 1]);
    }
  }

  /** So between calls, a restart() can lead to two live children exactly when it comes during an automatic
      relaunch. */
  lemma RestartRacesExactly(s: State)
    requires Inv(s) && s.returned && s.restarts == 0
    requires s.flights != [] ==> s.flights[0].origin.Auto?
    ensures (exists events :: Uncalled(events) && TwoLoose(Onward(Step(s, Restart(false)), events)))
            <==> !s.stopped && s.flights != []
  {
    if !s.stopped && s.flights != [] {
      RestartRacesARelaunch(s);
    } else {
      StepKeepsInv(s, Restart(false));
      forall events | Uncalled(events)
        ensures !TwoLoose(Onward(Step(s, Restart(false)), events))
      {
        LoneRestartKeepsOne(Step(s, Restart(false)), events);
      }
    }
  }

  /** Two restarts that wait at once launch a child each, in any state. */
  lemma OverlappingRestartsLaunchTwo(s: State)
    requires WellFormed(s) && s.restarts >= 2
    ensures TwoLoose(Step(Step(s, RestartSettles(true, false)), RestartSettles(true, false)))
  {
    var n := |s.children|;
    var t := Step(Step(s, RestartSettles(true, false)), RestartSettles(true, false));
    assert Loose(t.children[n]) && Loose(t.children[n + 1]);
  }

  // ---- single runs ----

  /** A 200 that arrives after the child died, from whatever else answers on the port, is believed: the
      gateway counts as ready with a dead child and no timer, and no further event short of restart() or
      stop() changes anything. */
  lemma LateAnswerStrandsTheGateway(base: int)
    ensures var s := Step(Step(Begin(base, false), ChildDies(0)), Answers(0));
            && s.children[0].ready && !s.children[0].alive && s.active == Some(0)
            && !s.stopped && s.timer.None? && s.flights == []
            && forall e: Event :: !e.Stop? && !e.Restart? ==> Step(s, e) == s
  {
  }

  /** A restart() that races nothing, and whose launch throws: the old child is gone, and nothing follows. */
  lemma FailedRestartStrandsTheGateway(base: int)
    ensures var served := Step(Begin(base, false), Answers(0));
            var asked := Step(Step(served, Restart(false)), ChildDies(0));
            var s := Step(asked, RestartSettles(true, true));
            && Regular(served, Restart(false)) && Serving(served)
            && !Attended(s) && s.active.None? && !s.children[0].alive && |s.children| == 1
  {
  }

  /** stop() while restart() waits for the old child: restart() goes on and launches after it. */
  lemma RestartOutlivesStop(base: int)
    ensures var served := Step(Begin(base, false), Answers(0));
            var stopped := Step(Step(served, Restart(false)), Stop);
            var s := Step(Step(stopped, ChildDies(0)), RestartSettles(true, false));
            s.stopped && |s.children| == |stopped.children| + 1 && Loose(s.children[1])
  {
  }
}
