/**
The published view of catalog refreshes and the hold that keeps it loading
(apps/shell/src/main/model-refresh-state.ts), and the coalescing of callers onto one promise
(apps/shell/src/main/single-flight.ts). The environment interleaves calls, endings and timers.
*/
module RefreshState {
  import opened Common

  datatype Status = Idle | Loading

  datatype Snapshot = Snapshot(revision: nat, status: Status, startedAt: Option<int>)

  /** A call of run(): work of its own, or the pending promise of a hold. */
  datatype Run = Run(hold: Option<nat>, ended: bool)

  datatype Hold = Hold(resolved: bool, timer: bool)

  datatype State = State(
    state: Snapshot,
    activeRuns: nat,
    release: Option<nat>,      // the hold whose release closure is installed
    runs: seq<Run>,
    holds: seq<Hold>,
    published: seq<Snapshot>,  // what the listeners have been given, in order
    clock: int)

  const Initial := State(Snapshot(0, Idle, None), 0, None, [], [], [], 0)

  datatype Event =
    | BeginRun
    | EndRun(run: nat)      // its operation has settled, well or badly
    | CallHold
    | CallRelease
    | TimerFires(hold: nat)
    | Tick(ms: nat)

  function Publish(s: State, status: Status): State {
    var next := Snapshot(s.state.revision + 1, status, if status == Loading then Some(s.clock) else None);
    s.(state := next, published := s.published + [next])
  }

  /** run() up to its await. */
  function Begin(s: State, hold: Option<nat>): State {
    var t := s.(activeRuns := s.activeRuns + 1, runs := s.runs + [Run(hold, false)]);
    if t.activeRuns == 1 then Publish(t, Loading) else t
  }

  /** The finally block of run(). */
  function End(s: State, i: nat): State
    requires i < |s.runs| && s.activeRuns > 0
  {
    var t := s.(activeRuns := s.activeRuns - 1, runs := s.runs[i := s.runs[i].(ended := true)]);
    if t.activeRuns == 0 then Publish(t, Idle) else t
  }

  function DoHold(s: State): State {
    if s.release.Some? then s
    else
      var h := |s.holds|;
      Begin(s, Some(h)).(holds := s.holds + [Hold(false, true)], release := Some(h))
  }

  /** The installed release closure: cancel the timer, uninstall, resolve. */
  function DoRelease(s: State): State {
    if s.release.Some? && s.release.value < |s.holds| then
      s.(release := None, holds := s.holds[s.release.value := Hold(true, false)])
    else s
  }

  predicate Enabled(s: State, e: Event) {
    match e
    case EndRun(i) =>
      i < |s.runs| && !s.runs[i].ended && s.activeRuns > 0
      && (s.runs[i].hold.Some? ==> s.runs[i].hold.value < |s.holds| && s.holds[s.runs[i].hold.value].resolved)
    case TimerFires(h) => h < |s.holds| && s.holds[h].timer
    case _ => true
  }

  function Step(s: State, e: Event): State
    requires Enabled(s, e)
  {
    match e
    case BeginRun => Begin(s, None)
    case EndRun(i) => End(s, i)
    case CallHold => DoHold(s)
    case CallRelease => DoRelease(s)
    case TimerFires(h) => DoRelease(s.(holds := s.holds[h := s.holds[h].(timer := false)]))
    case Tick(ms) => s.(clock := s.clock + ms)
  }

  ghost predicate IsRun(states: seq<State>, events: seq<Event>) {
    && |states| == |events| + 1 && states[0] == Initial
    && forall i :: 0 <= i < |events| ==> Enabled(states[i], events[i]) && states[i + 1] == Step(states[i], events[i])
  }

  // ---- invariants ----

  function Open(runs: seq<Run>): nat {
    if runs == [] then 0 else Open(runs[..|runs| - 1]) + if runs[|runs| - 1].ended then 0 else 1
  }

  ghost predicate CountInv(s: State) {
    && s.activeRuns == Open(s.runs)
    && (s.state.status == Loading <==> s.activeRuns > 0)
    && (s.state.startedAt.Some? <==> s.state.status == Loading)
  }

  /** Revision k is the k-th thing published, and loading and idle take turns. */
  ghost predicate HistoryInv(s: State) {
    && s.state.revision == |s.published|
    && (s.published == [] ==> s.state.status == Idle)
    && (s.published != [] ==> s.state == s.published[|s.published| - 1])
    && (forall k :: 0 <= k < |s.published| ==>
          s.published[k].revision == k + 1 && s.published[k].status == if k % 2 == 0 then Loading else Idle)
  }

  /** The hold installed is the only unresolved one and the only one with a live timer. */
  ghost predicate HoldInv(s: State) {
    && (s.release.Some? ==> s.release.value < |s.holds|)
    && (forall h :: 0 <= h < |s.holds| ==>
          && (!s.holds[h].resolved <==> s.release == Some(h))
          && (s.holds[h].timer ==> s.release == Some(h)))
    && (forall h :: 0 <= h < |s.holds| ==> HasRun(s, h))
    && (forall i :: 0 <= i < |s.runs| && s.runs[i].hold.Some? ==> s.runs[i].hold.value < |s.holds|)
    && (forall i, j :: 0 <= i < j < |s.runs| && s.runs[i].hold.Some? ==> s.runs[i].hold != s.runs[j].hold)
    && (forall i :: 0 <= i < |s.runs| && s.runs[i].hold.Some? && s.runs[i].ended ==>
          s.holds[s.runs[i].hold.value].resolved)
  }

  ghost predicate HasRun(s: State, h: nat) {
    exists i :: 0 <= i < |s.runs| && s.runs[i].hold == Some(h)
  }

  ghost predicate Inv(s: State) {
    CountInv(s) && HistoryInv(s) && HoldInv(s)
  }

  lemma {:induction false} OpenUpdate(runs: seq<Run>, i: nat)
    requires i < |runs| && !runs[i].ended
    ensures Open(runs) > 0 && Open(runs[i := runs[i].(ended := true)]) == Open(runs) - 1
  {
    var n := |runs| - 1;
    var after := runs[i := runs[i].(ended := true)];
    if i < n {
      OpenUpdate(runs[..n], i);
      assert after[..n] == runs[..n][i := runs[i].(ended := true)];
    } else {
      assert after[..n] == runs[..n];
    }
  }

  lemma BeginKeepsCounts(s: State, hold: Option<nat>)
    requires CountInv(s) && HistoryInv(s)
    ensures CountInv(Begin(s, hold)) && HistoryInv(Begin(s, hold))
    ensures Begin(s, hold).runs == s.runs + [Run(hold, false)]
    ensures Begin(s, hold).holds == s.holds && Begin(s, hold).release == s.release
  {
    assert (s.runs + [Run(hold, false)])[..|s.runs|] == s.runs;
    BeginKeepsHistory(s, hold);
    hide HistoryInv;
  }

  lemma BeginKeepsHistory(s: State, hold: Option<nat>)
    requires CountInv(s) && HistoryInv(s)
    ensures HistoryInv(Begin(s, hold))
  {
    hide Open;
  }

  lemma EndKeepsCounts(s: State, i: nat)
    requires CountInv(s) && HistoryInv(s) && i < |s.runs| && !s.runs[i].ended && s.activeRuns > 0
    ensures CountInv(End(s, i)) && HistoryInv(End(s, i))
    ensures End(s, i).runs == s.runs[i := s.runs[i].(ended := true)]
    ensures End(s, i).holds == s.holds && End(s, i).release == s.release
  {
    OpenUpdate(s.runs, i);
  }

  lemma SameRunsKeepHasRun(s: State, t: State)
    requires |s.runs| <= |t.runs| && forall i :: 0 <= i < |s.runs| ==> t.runs[i].hold == s.runs[i].hold
    ensures forall h: nat :: HasRun(s, h) ==> HasRun(t, h)
  {
    forall h: nat | HasRun(s, h)
      ensures HasRun(t, h)
    {
      var i :| 0 <= i < |s.runs| && s.runs[i].hold == Some(h);
      assert t.runs[i].hold == Some(h);
    }
  }

  lemma BeginWorkKeepsInv(s: State)
    requires Inv(s)
    ensures Inv(Begin(s, None))
  {
    hide Begin, CountInv, HistoryInv, HasRun;
    BeginKeepsCounts(s, None);
    SameRunsKeepHasRun(s, Begin(s, None));
  }

  lemma EndKeepsInv(s: State, i: nat)
    requires Inv(s) && Enabled(s, EndRun(i))
    ensures Inv(End(s, i))
  {
    EndKeepsCounts(s, i);
    SameRunsKeepHasRun(s, End(s, i));
  }

  lemma HoldKeepsInv(s: State)
    requires Inv(s)
    ensures Inv(DoHold(s))
  {
    if s.release.None? {
      var h, t := |s.holds|, DoHold(s);
      hide Begin, CountInv, HistoryInv;
      BeginKeepsCounts(s, Some(h));
      HoldKeepsCounts(s, t, h);
      SameRunsKeepHasRun(s, t);
      assert t.runs[|s.runs|].hold == Some(h);
      assert HasRun(t, h);
      hide HasRun;
    }
  }

  lemma HoldKeepsCounts(s: State, t: State, h: nat)
    requires CountInv(Begin(s, Some(h))) && HistoryInv(Begin(s, Some(h)))
    requires t == Begin(s, Some(h)).(holds := t.holds, release := t.release)
    ensures CountInv(t) && HistoryInv(t)
  {
  }

  lemma StepKeepsInv(s: State, e: Event)
    requires Inv(s) && Enabled(s, e)
    ensures Inv(Step(s, e))
  {
    match e
    case BeginRun => BeginWorkKeepsInv(s);
    case EndRun(i) => EndKeepsInv(s, i);
    case CallHold => HoldKeepsInv(s);
    case CallRelease =>
      SameRunsKeepHasRun(s, DoRelease(s));
    case TimerFires(h) =>
      SameRunsKeepHasRun(s, Step(s, e));
    case Tick(_) => SameRunsKeepHasRun(s, Step(s, e));
  }

  lemma {:induction false} RunKeepsInv(states: seq<State>, events: seq<Event>, n: nat)
    requires IsRun(states, events) && n < |states|
    ensures Inv(states[n])
  {
    if n > 0 {
      RunKeepsInv(states, events, n - 1);
      StepKeepsInv(states[n - 1], events[n - 1]);
    }
  }

  // ---- the main results ----

  /** The published state is loading exactly while some run has not ended. */
  lemma LoadingWhileRunning(states: seq<State>, events: seq<Event>, n: nat)
    requires IsRun(states, events) && n < |states|
    ensures states[n].state.status == Loading <==>
              exists i :: 0 <= i < |states[n].runs| && !states[n].runs[i].ended
  {
    RunKeepsInv(states, events, n);
    OpenIsPositive(states[n].runs);
  }

  lemma {:induction false} OpenIsPositive(runs: seq<Run>)
    ensures Open(runs) > 0 <==> exists i :: 0 <= i < |runs| && !runs[i].ended
  {
    if runs != [] {
      var n := |runs| - 1;
      OpenIsPositive(runs[..n]);
      if i :| 0 <= i < |runs| && !runs[i].ended {
        if i < n {
          assert !runs[..n][i].ended;
        }
      }
    }
  }

  /** Listeners see revisions 1, 2, 3, ... alternating between loading and idle. */
  lemma RevisionsAlternate(states: seq<State>, events: seq<Event>, n: nat, k: nat)
    requires IsRun(states, events) && n < |states| && k < |states[n].published|
    ensures states[n].published[k].revision == k + 1
    ensures states[n].published[k].status == Loading <==> k % 2 == 0
    ensures states[n].state.revision == |states[n].published|
  {
    RunKeepsInv(states, events, n);
  }

  /** A hold contributes exactly one run, and calling hold while held contributes none. */
  lemma OneRunPerHold(states: seq<State>, events: seq<Event>, n: nat, h: nat)
    requires IsRun(states, events) && n < |states| && h < |states[n].holds|
    ensures exists i :: 0 <= i < |states[n].runs| && states[n].runs[i].hold == Some(h)
    ensures forall i, j | 0 <= i < |states[n].runs| && 0 <= j < |states[n].runs| ::
              states[n].runs[i].hold == Some(h) && states[n].runs[j].hold == Some(h) ==> i == j
    ensures states[n].release.Some? ==> Step(states[n], CallHold) == states[n]
  {
    RunKeepsInv(states, events, n);
    assert HasRun(states[n], h);
  }

  /** A timer still pending belongs to the hold in force: when it fires it releases that one and
      never a later one. While the hold lasts the state stays loading. */
  lemma TimersReleaseTheirOwnHold(states: seq<State>, events: seq<Event>, n: nat, h: nat)
    requires IsRun(states, events) && n < |states| && h < |states[n].holds|
    ensures states[n].holds[h].timer ==> states[n].release == Some(h)
    ensures states[n].holds[h].timer ==>
              var t := Step(states[n], TimerFires(h));
              t.release.None? && forall g :: 0 <= g < |t.holds| && g != h ==> t.holds[g] == states[n].holds[g]
    ensures !states[n].holds[h].resolved ==> states[n].state.status == Loading
  {
    RunKeepsInv(states, events, n);
    var s := states[n];
    assert HasRun(s, h);
    var i :| 0 <= i < |s.runs| && s.runs[i].hold == Some(h);
    OpenIsPositive(s.runs);
  }

  // ---- the code in its own form ----

  class RefreshStore {
    var state: Snapshot
    var activeRuns: nat
    var release: Option<nat>
    var runs: seq<Run>
    var holds: seq<Hold>
    var published: seq<Snapshot>
    var clock: int

    function View(): State
      reads this
    {
      State(state, activeRuns, release, runs, holds, published, clock)
    }

    constructor ()
      ensures View() == Initial
    {
      state := Snapshot(0, Idle, None);
      activeRuns, release, runs, holds, published, clock := 0, None, [], [], [], 0;
    }

    method PublishStatus(status: Status)
      modifies this
      ensures View() == Publish(old(View()), status)
    {
      state := Snapshot(state.revision + 1, status, if status == Loading then Some(clock) else None);
      published := published + [state];
    }

    method BeginOperation(hold: Option<nat>)
      modifies this
      ensures View() == Begin(old(View()), hold)
    {
      activeRuns := activeRuns + 1;
      runs := runs + [Run(hold, false)];
      if activeRuns == 1 {
        PublishStatus(Loading);
      }
    }

    method EndOperation(i: nat)
      requires Enabled(View(), EndRun(i))
      modifies this
      ensures View() == Step(old(View()), EndRun(i))
    {
      activeRuns := activeRuns - 1;
      runs := runs[i := runs[i].(ended := true)];
      if activeRuns == 0 {
        PublishStatus(Idle);
      }
    }

    method HoldLoading()
      modifies this
      ensures View() == Step(old(View()), CallHold)
    {
      if release.Some? {
        return;
      }
      var h := |holds|;
      BeginOperation(Some(h));
      holds := holds + [Hold(false, true)];
      release := Some(h);
    }

    method ReleaseHold()
      modifies this
      ensures View() == Step(old(View()), CallRelease)
    {
      if release.Some? {
        var h := release.value;
        if h < |holds| {
          release := None;
          holds := holds[h := Hold(true, false)];
        }
      }
    }

    method HoldTimer(h: nat)
      requires Enabled(View(), Event.TimerFires(h))
      modifies this
      ensures View() == Step(old(View()), Event.TimerFires(h))
    {
      holds := holds[h := holds[h].(timer := false)];
      ReleaseHold();
    }
  }
}

module SingleFlight {
  import opened Common

  /** A shared promise: its operation not yet started, running, settled, and forgotten by the
      finally callback that follows. */
  datatype Flight = Queued | Running | Settled | Forgotten

  datatype State = State(inFlight: Option<nat>, flights: seq<Flight>, answers: seq<nat>)

  const Initial := State(None, [], [])

  datatype Event = Call | Starts(flight: nat) | Settles(flight: nat) | Finally(flight: nat)

  predicate Enabled(s: State, e: Event) {
    match e
    case Call => true
    case Starts(f) => f < |s.flights| && s.flights[f].Queued?
    case Settles(f) => f < |s.flights| && s.flights[f].Running?
    case Finally(f) => f < |s.flights| && s.flights[f].Settled?
  }

  /** `answers` lists the promises handed to the callers, in order. */
  function Step(s: State, e: Event): State
    requires Enabled(s, e)
  {
    match e
    case Call =>
      if s.inFlight.Some? then s.(answers := s.answers + [s.inFlight.value])
      else State(Some(|s.flights|), s.flights + [Queued], s.answers + [|s.flights|])
    case Starts(f) => s.(flights := s.flights[f := Running])
    case Settles(f) => s.(flights := s.flights[f := Settled])
    case Finally(f) =>
      s.(flights := s.flights[f := Forgotten], inFlight := if s.inFlight == Some(f) then None else s.inFlight)
  }

  ghost predicate IsRun(states: seq<State>, events: seq<Event>) {
    && |states| == |events| + 1 && states[0] == Initial
    && forall i :: 0 <= i < |events| ==> Enabled(states[i], events[i]) && states[i + 1] == Step(states[i], events[i])
  }

  ghost predicate Inv(s: State) {
    && (s.inFlight.Some? ==> s.inFlight == Some(|s.flights| - 1) && s.flights != [])
    && forall f :: 0 <= f < |s.flights| ==> (s.flights[f].Forgotten? <==> s.inFlight != Some(f))
  }

  lemma {:induction false} RunKeepsInv(states: seq<State>, events: seq<Event>, n: nat)
    requires IsRun(states, events) && n < |states|
    ensures Inv(states[n])
  {
    if n > 0 {
      RunKeepsInv(states, events, n - 1);
    }
  }

  /** Operations never overlap; a caller joins the operation that has not been forgotten, and a new
      one is begun only when there is none. */
  lemma OperationsNeverOverlap(states: seq<State>, events: seq<Event>, n: nat)
    requires IsRun(states, events) && n < |states|
    ensures forall f, g | 0 <= f < |states[n].flights| && 0 <= g < |states[n].flights| ::
              !states[n].flights[f].Forgotten? && !states[n].flights[g].Forgotten? ==> f == g
    ensures var s, t := states[n], Step(states[n], Call);
            var answer := t.answers[|s.answers|];
            && answer < |t.flights| && !t.flights[answer].Forgotten?
            && (|t.flights| == |s.flights| <==> exists f :: 0 <= f < |s.flights| && !s.flights[f].Forgotten?)
  {
    RunKeepsInv(states, events, n);
  }

  class Coalescer {
    var inFlight: Option<nat>
    var flights: seq<Flight>
    var answers: seq<nat>

    function View(): State
      reads this
    {
      State(inFlight, flights, answers)
    }

    constructor ()
      ensures View() == Initial
    {
      inFlight, flights, answers := None, [], [];
    }

    method Request() returns (shared: nat)
      modifies this
      ensures View() == Step(old(View()), Call) && answers == old(answers) + [shared]
    {
      if inFlight.Some? {
        shared := inFlight.value;
      } else {
        shared := |flights|;
        flights := flights + [Queued];
        inFlight := Some(shared);
      }
      answers := answers + [shared];
    }

    method ForgetFlight(f: nat)
      requires Enabled(View(), Finally(f))
      modifies this
      ensures View() == Step(old(View()), Finally(f))
    {
      flights := flights[f := Forgotten];
      if inFlight == Some(f) {
        inFlight := None;
      }
    }
  }
}
