/** The single-flight guard (internal/dump/guard.go), the callers of `Trigger.Run`
    (internal/httpapi/httpapi.go) and the shutdown drain (cmd/pg-autodump/main.go) as one
    transition system.

    Every atomic load, store and compare-and-swap, every channel close and every gate
    evaluation is one event. Any number of callers and one teardown interleave freely.
    A caller is named by its index, and so are its cancel function and its done channel. */
module Guard {
  import opened Results

  /** Where a caller of `Trigger.Run` stands.
      Fresh: before its compare-and-swap. Refused: lost it. Won: the flag is set.
      CancelStored, Published: the cancel pointer, then the done pointer are stored; a
      published caller is also where the cycle coordinator evaluates the gate.
      Passed: the gate said yes. Running: inside `orch.Run`.
      Leaving: the coordinator returned. Cancelled, Closed, DoneCleared, CancelCleared: the
      deferred steps in order. Finished: the flag is cleared. */
  datatype Pc =
    | Fresh | Refused | Won | CancelStored | Published | Passed | Running | Leaving
    | Cancelled | Closed | DoneCleared | CancelCleared | Finished

  /** Where the teardown stands: not begun, about to load the done pointer for its first or
      second wait, waiting on the channel of `run`, about to load and then about to call the
      cancel function, or ended with the second wait's answer. */
  datatype Drain =
    | NotBegun
    | Loading(round: nat)
    | Waiting(round: nat, run: nat)
    | CancelLoading(run: nat)
    | CancelCalling(run: nat, target: Option<nat>)
    | Ended(idle: bool)

  /** Per caller: its point `pcs`, the captured result `first` of its own run, and every
      result its job closure produced, in order, `runs`.
      `sawIdle`: some wait of the teardown has answered true. `outlived`: the run whose
      first wait answered false, once the cancel call behind it is over. */
  datatype State = State(
    pcs: seq<Pc>, first: map<nat, nat>, runs: map<nat, seq<nat>>, running: bool, cancel: Option<nat>, done: Option<nat>,
    closed: set<nat>, cancelled: set<nat>, shutdown: bool,
    drain: Drain, sawIdle: bool, outlived: Option<nat>)

  /** One step of a caller, in program order; the coordinator may evaluate the gate and run
      the closure again for queued demand before it returns. */
  datatype Step =
    | CompareAndSwap
    | StoreCancel
    | StoreDone
    | EvaluateGate
    | BeginRun
    | EndRun(result: nat)
    | CoordinatorReturns
    | CancelOwn
    | CloseDone
    | ClearDone
    | ClearCancel
    | ClearRunning

  datatype Event =
    | By(caller: nat, step: Step)
    | Signal
    | BeginDrain
    | LoadDone
    | WaitEnds
    | WaitTimesOut
    | LoadCancel
    | CallCancel

  function Init(n: nat): State {
    State(seq(n, i => Fresh), map[], map[], false, None, None, {}, {}, false, NotBegun, false, None)
  }

  /** The program point at which a step happens. */
  function Before(step: Step): Pc {
    match step
    case CompareAndSwap => Fresh
    case StoreCancel => Won
    case StoreDone => CancelStored
    case EvaluateGate => Published
    case BeginRun => Passed
    case EndRun(_) => Running
    case CoordinatorReturns => Published
    case CancelOwn => Leaving
    case CloseDone => Cancelled
    case ClearDone => Closed
    case ClearCancel => DoneCleared
    case ClearRunning => CancelCleared
  }

  /** The program point it leads to. */
  function After(s: State, step: Step): Pc {
    match step
    case CompareAndSwap => if s.running then Refused else Won
    case StoreCancel => CancelStored
    case StoreDone => Published
    case EvaluateGate => if s.shutdown then Leaving else Passed
    case BeginRun => Running
    case EndRun(_) => Published
    case CoordinatorReturns => Leaving
    case CancelOwn => Cancelled
    case CloseDone => Closed
    case ClearDone => DoneCleared
    case ClearCancel => CancelCleared
    case ClearRunning => Finished
  }

  predicate Enabled(s: State, e: Event) {
    match e
    case By(i, step) => i < |s.pcs| && s.pcs[i] == Before(step)
    case Signal => !s.shutdown
    // the server calls the teardown only once the signal context is over
    case BeginDrain => s.drain == NotBegun && s.shutdown
    case LoadDone => s.drain.Loading?
    case WaitEnds => s.drain.Waiting? && s.drain.run in s.closed
    // AwaitDone rechecks completion after its context fires
    case WaitTimesOut => s.drain.Waiting? && s.drain.run !in s.closed
    case LoadCancel => s.drain.CancelLoading?
    case CallCancel => s.drain.CancelCalling?
  }

  /** What a caller's step does to the guard and to the caller's captured variables. A
      refused caller calls its own cancel function, a captured result is never replaced. */
  function ApplyStep(s: State, i: nat, step: Step): State
    requires i < |s.pcs|
  {
    s.(pcs := s.pcs[i := After(s, step)],
       running := if step.CompareAndSwap? then true else if step.ClearRunning? then false else s.running,
       cancel := if step.StoreCancel? then Some(i) else if step.ClearCancel? then None else s.cancel,
       done := if step.StoreDone? then Some(i) else if step.ClearDone? then None else s.done,
       closed := if step.CloseDone? then s.closed + {i} else s.closed,
       cancelled :=
         if step.CancelOwn? || (step.CompareAndSwap? && s.running) then s.cancelled + {i} else s.cancelled,
       first := if step.EndRun? && i !in s.first then s.first[i := step.result] else s.first,
       runs := if step.EndRun? then s.runs[i := RunsOf(s, i) + [step.result]] else s.runs)
  }

  function RunsOf(s: State, i: nat): seq<nat> {
    if i in s.runs then s.runs[i] else []
  }

  /** A wait of the given round that answered true. */
  function AnswerIdle(s: State, round: nat): State {
    s.(sawIdle := true, drain := if round == 1 then Loading(2) else Ended(true))
  }

  function Apply(s: State, e: Event): State
    requires Enabled(s, e)
  {
    match e
    case By(i, step) => ApplyStep(s, i, step)
    case Signal => s.(shutdown := true)
    case BeginDrain => s.(drain := Loading(1))
    case LoadDone =>
      if s.done.None? then AnswerIdle(s, s.drain.round)
      else s.(drain := Waiting(s.drain.round, s.done.value))
    case WaitEnds => AnswerIdle(s, s.drain.round)
    case WaitTimesOut => s.(drain := if s.drain.round == 1 then CancelLoading(s.drain.run) else Ended(false))
    case LoadCancel => s.(drain := CancelCalling(s.drain.run, s.cancel))
    case CallCancel =>
      var target := s.drain.target;
      s.(cancelled := if target.Some? then s.cancelled + {target.value} else s.cancelled,
         outlived := Some(s.drain.run), drain := Loading(2))
  }

  /** The state after an interleaving over n callers, or None when it is not possible. */
  function Exec(n: nat, events: seq<Event>): Option<State> {
    if events == [] then Some(Init(n)) else
    match Exec(n, events[..|events| - 1])
    case None => None
    case Some(s) =>
      var e := events[|events| - 1];
      if Enabled(s, e) then Some(Apply(s, e)) else None
  }

  /** Between the compare-and-swap and clearing the flag. */
  predicate Holds(pc: Pc) {
    !pc.Fresh? && !pc.Refused? && !pc.Finished?
  }

  /** Between storing and clearing the done pointer. */
  predicate DoneVisible(pc: Pc) {
    pc.Published? || pc.Passed? || pc.Running? || pc.Leaving? || pc.Cancelled? || pc.Closed?
  }

  /** Between storing and clearing the cancel pointer. */
  predicate CancelVisible(pc: Pc) {
    Holds(pc) && !pc.Won? && !pc.CancelCleared?
  }

  predicate HasClosed(pc: Pc) {
    pc.Closed? || pc.DoneCleared? || pc.CancelCleared? || pc.Finished?
  }

  /** Past the gate, with a run about to start or in progress. */
  predicate RunsOrWill(pc: Pc) {
    pc.Passed? || pc.Running?
  }

  predicate PastPublishing(pc: Pc) {
    DoneVisible(pc) || HasClosed(pc)
  }

  /** At most one caller holds the guard, and the flag is set exactly while one does. */
  ghost predicate Exclusive(s: State) {
    && (forall i, j | 0 <= i < |s.pcs| && 0 <= j < |s.pcs| ::
          Holds(s.pcs[i]) && Holds(s.pcs[j]) ==> i == j)
    && (s.running <==> exists i :: 0 <= i < |s.pcs| && Holds(s.pcs[i]))
  }

  /** Each pointer is the holder's own, exactly between its two stores. */
  ghost predicate DoneOwned(s: State) {
    && (s.done.Some? ==> s.done.value < |s.pcs|)
    && forall i :: 0 <= i < |s.pcs| ==> (s.done == Some(i) <==> DoneVisible(s.pcs[i]))
  }

  ghost predicate CancelOwned(s: State) {
    && (s.cancel.Some? ==> s.cancel.value < |s.pcs|)
    && forall i :: 0 <= i < |s.pcs| ==> (s.cancel == Some(i) <==> CancelVisible(s.pcs[i]))
  }

  ghost predicate ClosedOwned(s: State) {
    forall i :: 0 <= i < |s.pcs| ==> (i in s.closed <==> HasClosed(s.pcs[i]))
  }

  ghost predicate Ownership(s: State) {
    Exclusive(s) && DoneOwned(s) && CancelOwned(s) && ClosedOwned(s)
  }

  /** Nobody is in, or past the gate on the way to, a dump run. */
  ghost predicate Quiesced(s: State) {
    forall i :: 0 <= i < |s.pcs| ==> !RunsOrWill(s.pcs[i])
  }

  /** Once a wait has answered true, shutdown is signalled and nobody is past the gate. */
  ghost predicate IdleMeansQuiesced(s: State) {
    (s.drain != NotBegun ==> s.shutdown) && (s.sawIdle ==> s.shutdown && Quiesced(s))
  }

  /** While the teardown waits on a run, only that run can be past the gate. */
  ghost predicate WaitsForTheRun(s: State) {
    match s.drain
    case Waiting(_, run) =>
      && run < |s.pcs| && PastPublishing(s.pcs[run])
      && forall i :: 0 <= i < |s.pcs| && RunsOrWill(s.pcs[i]) ==> i == run
    case _ => true
  }

  /** The cancel call the teardown makes, or has made, reaches the run it waited for unless
      that run has already closed its channel. */
  ghost predicate CancelReaches(s: State) {
    && (s.outlived.Some? ==> s.outlived.value in s.cancelled || s.outlived.value in s.closed)
    && match s.drain
       case CancelLoading(run) => run < |s.pcs| && PastPublishing(s.pcs[run])
       case CancelCalling(run, target) => target == Some(run) || run in s.closed
       case _ => true
  }

  /** Every caller's captured result is the one of the first run its closure made. */
  ghost predicate FirstRunCaptured(s: State) {
    && s.first.Keys == s.runs.Keys
    && forall i :: i in s.runs ==> s.runs[i] != [] && s.first[i] == s.runs[i][0]
  }

  ghost predicate Inv(s: State) {
    Ownership(s) && IdleMeansQuiesced(s) && WaitsForTheRun(s) && CancelReaches(s) && FirstRunCaptured(s)
  }

  lemma StepKeepsExclusive(s: State, e: Event)
    requires Exclusive(s) && Enabled(s, e)
    ensures Exclusive(Apply(s, e))
  {
    var after := Apply(s, e);
    if i :| 0 <= i < |s.pcs| && Holds(s.pcs[i]) {
      if !Holds(after.pcs[i]) {
        assert e == By(i, ClearRunning);
      }
    } else if e.By? && e.step.CompareAndSwap? {
      assert Holds(after.pcs[e.caller]);
    }
  }

  lemma StepKeepsDone(s: State, e: Event)
    requires Exclusive(s) && DoneOwned(s) && Enabled(s, e)
    ensures DoneOwned(Apply(s, e))
  {
  }

  lemma StepKeepsCancel(s: State, e: Event)
    requires Exclusive(s) && CancelOwned(s) && Enabled(s, e)
    ensures CancelOwned(Apply(s, e))
  {
  }

  lemma StepKeepsClosed(s: State, e: Event)
    requires ClosedOwned(s) && Enabled(s, e)
    ensures ClosedOwned(Apply(s, e))
  {
  }

  lemma StepKeepsQuiesced(s: State, e: Event)
    requires DoneOwned(s) && ClosedOwned(s) && IdleMeansQuiesced(s) && WaitsForTheRun(s) && Enabled(s, e)
    ensures IdleMeansQuiesced(Apply(s, e))
  {
  }

  lemma StepKeepsWaiting(s: State, e: Event)
    requires Exclusive(s) && DoneOwned(s) && IdleMeansQuiesced(s) && WaitsForTheRun(s) && Enabled(s, e)
    ensures WaitsForTheRun(Apply(s, e))
  {
  }

  lemma StepKeepsReach(s: State, e: Event)
    requires Ownership(s) && WaitsForTheRun(s) && CancelReaches(s) && Enabled(s, e)
    ensures CancelReaches(Apply(s, e))
  {
  }

  lemma StepKeepsCapture(s: State, e: Event)
    requires FirstRunCaptured(s) && Enabled(s, e)
    ensures FirstRunCaptured(Apply(s, e))
  {
  }

  lemma StepKeepsInv(s: State, e: Event)
    requires Inv(s) && Enabled(s, e)
    ensures Inv(Apply(s, e))
  {
    StepKeepsExclusive(s, e);
    StepKeepsDone(s, e);
    StepKeepsCancel(s, e);
    StepKeepsClosed(s, e);
    StepKeepsQuiesced(s, e);
    StepKeepsWaiting(s, e);
    StepKeepsReach(s, e);
    StepKeepsCapture(s, e);
  }

  lemma {:induction false} ReachableInv(n: nat, events: seq<Event>)
    requires Exec(n, events).Some?
    ensures Inv(Exec(n, events).value)
  {
    if events != [] {
      ReachableInv(n, events[..|events| - 1]);
      StepKeepsInv(Exec(n, events[..|events| - 1]).value, events[|events| - 1]);
    }
  }

  /** Single flight: in every interleaving at most one caller holds the guard, so at most one
      dump run executes; the flag is set exactly while someone holds it; and any pointer
      that is set is the holder's own. */
  lemma SingleFlight(n: nat, events: seq<Event>)
    requires Exec(n, events).Some?
    ensures var s := Exec(n, events).value;
            && (forall i, j | 0 <= i < |s.pcs| && 0 <= j < |s.pcs| ::
                  Holds(s.pcs[i]) && Holds(s.pcs[j]) ==> i == j)
            && (s.running <==> exists i :: 0 <= i < |s.pcs| && Holds(s.pcs[i]))
            && (s.done.Some? ==> s.done.value < |s.pcs| && Holds(s.pcs[s.done.value]))
            && (s.cancel.Some? ==> s.cancel.value < |s.pcs| && Holds(s.pcs[s.cancel.value]))
            && (s.done.Some? ==> s.cancel == s.done)
  {
    ReachableInv(n, events);
  }

  /** However late a release step comes, what it clears is still the caller's own: it never
      erases a newer run's pointers or flag. */
  lemma ReleaseClearsItsOwn(n: nat, events: seq<Event>, i: nat, step: Step)
    requires Exec(n, events).Some? && Enabled(Exec(n, events).value, By(i, step))
    ensures var s := Exec(n, events).value;
            && (step.ClearDone? ==> s.done == Some(i))
            && (step.ClearCancel? ==> s.cancel == Some(i))
            && (step.ClearRunning? ==> s.running && s.done.None? && s.cancel.None?
                                       && forall j :: 0 <= j < |s.pcs| && j != i ==> !Holds(s.pcs[j]))
  {
    ReachableInv(n, events);
  }

  /** A non-empty continuation ends in one enabled event. */
  lemma LastEvent(n: nat, events: seq<Event>, more: seq<Event>)
    requires more != [] && Exec(n, events + more).Some?
    ensures var before := Exec(n, events + more[..|more| - 1]);
            && before.Some? && Enabled(before.value, more[|more| - 1])
            && Exec(n, events + more).value == Apply(before.value, more[|more| - 1])
  {
    assert (events + more)[..|events + more| - 1] == events + more[..|more| - 1];
  }

  predicate IsBeginRun(e: Event) {
    e.By? && e.step.BeginRun?
  }

  lemma IdleBlocksRuns(s: State, e: Event)
    requires Inv(s) && s.sawIdle && Enabled(s, e)
    ensures !IsBeginRun(e) && Apply(s, e).sawIdle
  {
  }

  /** Drain safety: once a wait of the teardown has answered true, shutdown is signalled and
      in every continuation no run is executing or about to, and none ever begins. */
  lemma {:induction false} DrainSafety(n: nat, events: seq<Event>, more: seq<Event>)
    requires Exec(n, events).Some? && Exec(n, events).value.sawIdle
    requires Exec(n, events + more).Some?
    ensures var s := Exec(n, events + more).value; s.sawIdle && s.shutdown && Quiesced(s)
    ensures forall k :: 0 <= k < |more| ==> !IsBeginRun(more[k])
  {
    hide Exec, Enabled, Apply;
    ReachableInv(n, events + more);
    if more == [] {
      assert events + more == events;
    } else {
      LastEvent(n, events, more);
      var before := more[..|more| - 1];
      DrainSafety(n, events, before);
      ReachableInv(n, events + before);
      IdleBlocksRuns(Exec(n, events + before).value, more[|more| - 1]);
      forall k | 0 <= k < |more|
        ensures !IsBeginRun(more[k])
      {
        assert k < |before| ==> more[k] == before[k];
      }
    }
  }

  /** Holding the guard while no done pointer shows it. */
  predicate Unpublished(pc: Pc) {
    pc.Won? || pc.CancelStored? || pc.DoneCleared? || pc.CancelCleared?
  }

  /** Past the close, with the flag still set. */
  predicate Releasing(pc: Pc) {
    pc.Closed? || pc.DoneCleared? || pc.CancelCleared?
  }

  /** A wait that would answer true at once, because it finds no done pointer, misses a held
      guard if and only if some caller stands between its compare-and-swap and its done store,
      or between clearing that pointer and clearing the flag. */
  lemma IdleMissesIff(n: nat, events: seq<Event>)
    requires Exec(n, events).Some?
    ensures var s := Exec(n, events).value;
            s.done.None? && s.running <==> exists i :: 0 <= i < |s.pcs| && Unpublished(s.pcs[i])
  {
    hide Exec;
    ReachableInv(n, events);
    var s := Exec(n, events).value;
    assert s.done.Some? ==> Holds(s.pcs[s.done.value]);
    assert forall i :: 0 <= i < |s.pcs| && Unpublished(s.pcs[i]) ==> Holds(s.pcs[i]) && s.done != Some(i);
    assert forall i :: 0 <= i < |s.pcs| && Holds(s.pcs[i]) ==> DoneVisible(s.pcs[i]) || Unpublished(s.pcs[i]);
  }

  /** A wait that ends on the channel it waited for answers true with the guard still held if
      and only if that run has yet to clear the flag, or a later caller holds the guard. */
  lemma EndedWaitMissesIff(n: nat, events: seq<Event>)
    requires Exec(n, events).Some? && Enabled(Exec(n, events).value, WaitEnds)
    ensures var s := Exec(n, events).value;
            && s.drain.run < |s.pcs|
            && (s.running <==> Releasing(s.pcs[s.drain.run])
                               || exists i :: 0 <= i < |s.pcs| && i != s.drain.run && Holds(s.pcs[i]))
  {
    hide Exec;
    ReachableInv(n, events);
    var s := Exec(n, events).value;
    assert HasClosed(s.pcs[s.drain.run]);
  }

  /** The gate is what makes the answer mean anything: a wait can answer true while a caller
      already holds the guard. */
  lemma IdleCanMissAHolder()
    ensures var s := Exec(1, [Signal, By(0, CompareAndSwap), BeginDrain, LoadDone]);
            s.Some? && s.value.sawIdle && s.value.running && |s.value.pcs| == 1 && Holds(s.value.pcs[0])
  {
    var signalled := Init(1).(shutdown := true);
    var held := signalled.(pcs := signalled.pcs[0 := Won], running := true);
    assert Exec(1, []) == Some(Init(1));
    assert [Signal][..0] == [];
    assert Exec(1, [Signal]) == Some(signalled);
    assert [Signal, By(0, CompareAndSwap)][..1] == [Signal];
    assert Exec(1, [Signal, By(0, CompareAndSwap)]) == Some(held);
    assert [Signal, By(0, CompareAndSwap), BeginDrain][..2] == [Signal, By(0, CompareAndSwap)];
    assert Exec(1, [Signal, By(0, CompareAndSwap), BeginDrain]) == Some(held.(drain := Loading(1)));
    assert [Signal, By(0, CompareAndSwap), BeginDrain, LoadDone][..3] == [Signal, By(0, CompareAndSwap), BeginDrain];
  }

  /** The cancel never misses: when the first wait times out on a run, the cancel call that
      follows is that run's own or the run has closed its channel by then, and afterwards
      the run's context is cancelled or its channel closed. */
  lemma CancelNeverMisses(n: nat, events: seq<Event>)
    requires Exec(n, events).Some?
    ensures var s := Exec(n, events).value;
            && (s.drain.CancelCalling? ==> s.drain.target == Some(s.drain.run) || s.drain.run in s.closed)
            && (s.outlived.Some? ==> s.outlived.value in s.cancelled + s.closed)
  {
    ReachableInv(n, events);
  }

  /** A caller is given the result of the first run its closure made, never that of a rerun
      made for somebody else's demand, and nothing when no run was made. */
  lemma CallerGetsItsOwnRun(n: nat, events: seq<Event>, i: nat)
    requires Exec(n, events).Some?
    ensures var s := Exec(n, events).value;
            && (i in s.first <==> RunsOf(s, i) != [])
            && (i in s.first ==> s.first[i] == RunsOf(s, i)[0])
  {
    ReachableInv(n, events);
  }

  // What a caller gets.

  /** A refused or leaving caller's context is cancelled, and any other only by the drain. */
  ghost predicate ContextsKept(s: State) {
    && (forall i :: 0 <= i < |s.pcs| && (s.pcs[i].Refused? || s.pcs[i].Cancelled? || HasClosed(s.pcs[i])) ==>
          i in s.cancelled)
    && (forall i :: i in s.cancelled ==>
          i < |s.pcs| && (s.pcs[i].Refused? || s.pcs[i].Cancelled? || HasClosed(s.pcs[i]) || s.outlived.Some?))
    && (s.drain.CancelCalling? && s.drain.target.Some? ==> s.drain.target.value < |s.pcs|)
  }

  /** Only a caller that got as far as publishing has runs. */
  ghost predicate RunsKept(s: State) {
    && (forall i :: 0 <= i < |s.pcs| && !PastPublishing(s.pcs[i]) && !s.pcs[i].Cancelled? ==> i !in s.runs)
    && (forall i :: i in s.runs ==> i < |s.pcs|)
  }

  ghost predicate CallersKept(s: State) {
    ContextsKept(s) && RunsKept(s)
  }

  lemma CallerKeepsContexts(s: State, i: nat, step: Step)
    requires ContextsKept(s) && Enabled(s, By(i, step))
    ensures ContextsKept(ApplyStep(s, i, step))
  {
  }

  lemma CallerKeepsRuns(s: State, i: nat, step: Step)
    requires RunsKept(s) && Enabled(s, By(i, step))
    ensures RunsKept(ApplyStep(s, i, step))
  {
  }

  lemma CancelKeepsContexts(s: State)
    requires ContextsKept(s) && Enabled(s, CallCancel)
    ensures ContextsKept(Apply(s, CallCancel))
  {
    hide HasClosed;
  }

  lemma DrainKeepsContexts(s: State, e: Event)
    requires ContextsKept(s) && CancelOwned(s) && Enabled(s, e) && !e.By?
    ensures ContextsKept(Apply(s, e))
  {
    hide ApplyStep, HasClosed;
    if e.CallCancel? {
      CancelKeepsContexts(s);
    }
  }

  lemma DrainKeepsRuns(s: State, e: Event)
    requires RunsKept(s) && Enabled(s, e) && !e.By?
    ensures RunsKept(Apply(s, e))
  {
    hide ApplyStep, PastPublishing;
  }

  lemma StepKeepsCallers(s: State, e: Event)
    requires CallersKept(s) && CancelOwned(s) && Enabled(s, e)
    ensures CallersKept(Apply(s, e))
  {
    hide ApplyStep, ContextsKept, RunsKept, CancelOwned, Enabled;
    match e
    case By(i, step) =>
      CallerKeepsContexts(s, i, step);
      CallerKeepsRuns(s, i, step);
    case _ =>
      DrainKeepsContexts(s, e);
      DrainKeepsRuns(s, e);
  }

  lemma {:induction false} ReachableCallers(n: nat, events: seq<Event>)
    requires Exec(n, events).Some?
    ensures CallersKept(Exec(n, events).value)
  {
    hide Enabled, Apply, CallersKept, CancelOwned;
    if events == [] {
      CallersAtStart(n);
    } else {
      ReachableCallers(n, events[..|events| - 1]);
      ReachableInv(n, events[..|events| - 1]);
      StepKeepsCallers(Exec(n, events[..|events| - 1]).value, events[|events| - 1]);
    }
  }

  lemma CallersAtStart(n: nat)
    ensures CallersKept(Init(n))
  {
  }

  /** A caller is refused exactly when somebody holds the guard; it then has no run, and its
      context is cancelled. */
  lemma RefusedIff(n: nat, events: seq<Event>, i: nat)
    requires Exec(n, events).Some? && Enabled(Exec(n, events).value, By(i, CompareAndSwap))
    ensures var s := Exec(n, events).value;
            var next := Apply(s, By(i, CompareAndSwap));
            && (next.pcs[i].Refused? <==> exists k :: 0 <= k < |s.pcs| && Holds(s.pcs[k]))
            && (next.pcs[i].Refused? ==> i !in next.runs && i !in next.first && i in next.cancelled)
  {
    hide Exec;
    ReachableInv(n, events);
    ReachableCallers(n, events);
  }

  /** The gate: after its evaluation a run can begin if and only if no shutdown was signalled. */
  lemma GateIff(n: nat, events: seq<Event>, i: nat)
    requires Exec(n, events).Some? && Enabled(Exec(n, events).value, By(i, EvaluateGate))
    ensures var s := Exec(n, events).value;
            var next := Apply(s, By(i, EvaluateGate));
            && (Enabled(next, By(i, BeginRun)) <==> !s.shutdown)
            && (Enabled(next, By(i, CancelOwn)) <==> s.shutdown)
  {
    hide Exec;
  }

  /** A run in flight is cancelled by nobody but the drain, after its first wait has timed out. */
  lemma OnlyTheDrainCancels(n: nat, events: seq<Event>, i: nat)
    requires Exec(n, events).Some? && i < |Exec(n, events).value.pcs|
    requires RunsOrWill(Exec(n, events).value.pcs[i]) && i in Exec(n, events).value.cancelled
    ensures Exec(n, events).value.outlived.Some? && Exec(n, events).value.shutdown
  {
    hide Exec;
    ReachableCallers(n, events);
    ReachableInv(n, events);
    ReachableOrder(n, events);
  }

  /** One more event of an interleaving. */
  lemma OneMore(n: nat, events: seq<Event>, e: Event)
    requires Exec(n, events).Some? && Enabled(Exec(n, events).value, e)
    ensures Exec(n, events + [e]) == Some(Apply(Exec(n, events).value, e))
  {
    assert (events + [e])[..|events|] == events;
  }

  /** The calls of one undisturbed caller, up to the end of its run. */
  function RunEvents(i: nat, result: nat): seq<Event> {
    [By(i, CompareAndSwap), By(i, StoreCancel), By(i, StoreDone), By(i, EvaluateGate), By(i, BeginRun),
     By(i, EndRun(result))]
  }

  /** And from there to its return. */
  function LeaveEvents(i: nat): seq<Event> {
    [By(i, CoordinatorReturns), By(i, CancelOwn), By(i, CloseDone), By(i, ClearDone), By(i, ClearCancel),
     By(i, ClearRunning)]
  }

  /** A run of enabled events is an interleaving. */
  function Steps(s: State, events: seq<Event>): Option<State>
    decreases |events|
  {
    if events == [] then Some(s)
    else if Enabled(s, events[0]) then Steps(Apply(s, events[0]), events[1..]) else None
  }

  lemma {:induction false} StepsExtend(n: nat, events: seq<Event>, more: seq<Event>)
    requires Exec(n, events).Some? && Steps(Exec(n, events).value, more).Some?
    ensures Exec(n, events + more) == Steps(Exec(n, events).value, more)
    decreases |more|
  {
    hide Enabled, Apply, Exec;
    if more == [] {
      assert events + more == events;
    } else {
      OneMore(n, events, more[0]);
      StepsExtend(n, events + [more[0]], more[1..]);
      assert events + [more[0]] + more[1..] == events + more;
    }
  }

  /** A healthy server dumps: with nobody holding the guard and no shutdown signalled, a caller
      that has not called yet can take the guard, pass the gate, run and be given its run's
      result. */
  lemma RunIsPossible(n: nat, events: seq<Event>, i: nat, result: nat)
    requires Exec(n, events).Some? && !Exec(n, events).value.shutdown
    requires i < |Exec(n, events).value.pcs| && Exec(n, events).value.pcs[i].Fresh?
    requires forall k :: 0 <= k < |Exec(n, events).value.pcs| ==> !Holds(Exec(n, events).value.pcs[k])
    ensures Exec(n, events + RunEvents(i, result)).Some?
    ensures var s := Exec(n, events + RunEvents(i, result)).value;
            i in s.first && s.first[i] == result && s.running && s.cancel == s.done == Some(i)
  {
    hide Exec;
    ReachableInv(n, events);
    ReachableCallers(n, events);
    var s := Exec(n, events).value;
    RunFrom(s, i, result, 0);
    assert RunEvents(i, result)[0..] == RunEvents(i, result);
    StepsExtend(n, events, RunEvents(i, result));
  }

  /** Where the caller stands after k of its run's steps. */
  predicate OnTheWay(s: State, i: nat, result: nat, k: nat) {
    && i < |s.pcs| && !s.shutdown && k <= 6
    && s.pcs[i] == [Fresh, Won, CancelStored, Published, Passed, Running, Published][k]
    && s.running == (k > 0)
    && (k >= 2 ==> s.cancel == Some(i)) && (k >= 3 ==> s.done == Some(i))
    && (if k == 6 then i in s.first && s.first[i] == result else i !in s.first)
  }

  lemma RunStep(s: State, i: nat, result: nat, k: nat)
    requires OnTheWay(s, i, result, k) && k < 6
    ensures Enabled(s, RunEvents(i, result)[k])
    ensures OnTheWay(Apply(s, RunEvents(i, result)[k]), i, result, k + 1)
  {
  }

  lemma {:induction false} RunFrom(s: State, i: nat, result: nat, k: nat)
    requires OnTheWay(s, i, result, k)
    ensures Steps(s, RunEvents(i, result)[k..]).Some?
    ensures OnTheWay(Steps(s, RunEvents(i, result)[k..]).value, i, result, 6)
    decreases 6 - k
  {
    hide Enabled, Apply, OnTheWay;
    OnTheWayBound(s, i, result, k);
    var events := RunEvents(i, result)[k..];
    if k < 6 {
      RunStep(s, i, result, k);
      assert events[0] == RunEvents(i, result)[k] && events[1..] == RunEvents(i, result)[k + 1..];
      RunFrom(Apply(s, events[0]), i, result, k + 1);
    }
  }

  lemma OnTheWayBound(s: State, i: nat, result: nat, k: nat)
    requires OnTheWay(s, i, result, k)
    ensures k <= 6
  {
  }

  /** And it gives the guard back: after its return the guard is as free as before, for the next
      caller. */
  lemma GuardIsReturned(n: nat, events: seq<Event>, i: nat)
    requires Exec(n, events).Some? && i < |Exec(n, events).value.pcs| && Exec(n, events).value.pcs[i].Published?
    ensures Exec(n, events + LeaveEvents(i)).Some?
    ensures var s := Exec(n, events + LeaveEvents(i)).value;
            && i < |s.pcs| && s.pcs[i].Finished? && !s.running && s.cancel.None? && s.done.None?
            && i in s.closed && i in s.cancelled
  {
    hide Exec;
    LeaveFrom(Exec(n, events).value, i, 0);
    assert LeaveEvents(i)[0..] == LeaveEvents(i);
    StepsExtend(n, events, LeaveEvents(i));
  }

  /** Where the caller stands after k of its release's steps. */
  predicate OnTheWayOut(s: State, i: nat, k: nat) {
    && i < |s.pcs| && k <= 6
    && s.pcs[i] == [Published, Leaving, Cancelled, Closed, DoneCleared, CancelCleared, Finished][k]
    && (k >= 2 ==> i in s.cancelled) && (k >= 3 ==> i in s.closed)
    && (k >= 4 ==> s.done.None?) && (k >= 5 ==> s.cancel.None?) && (k >= 6 ==> !s.running)
  }

  lemma LeaveStep(s: State, i: nat, k: nat)
    requires OnTheWayOut(s, i, k) && k < 6
    ensures Enabled(s, LeaveEvents(i)[k]) && OnTheWayOut(Apply(s, LeaveEvents(i)[k]), i, k + 1)
  {
  }

  lemma {:induction false} LeaveFrom(s: State, i: nat, k: nat)
    requires OnTheWayOut(s, i, k)
    ensures Steps(s, LeaveEvents(i)[k..]).Some? && OnTheWayOut(Steps(s, LeaveEvents(i)[k..]).value, i, 6)
    decreases 6 - k
  {
    hide Enabled, Apply, OnTheWayOut;
    WayOutBound(s, i, k);
    var events := LeaveEvents(i)[k..];
    if k < 6 {
      LeaveStep(s, i, k);
      assert events[0] == LeaveEvents(i)[k] && events[1..] == LeaveEvents(i)[k + 1..];
      LeaveFrom(Apply(s, events[0]), i, k + 1);
    }
  }

  lemma WayOutBound(s: State, i: nat, k: nat)
    requires OnTheWayOut(s, i, k)
    ensures k <= 6
  {
  }

  // What the drain does.

  /** The drain's rounds come in order: a second wait follows a first that answered true, or the
      cancel call behind one that timed out; and it has begun only after the signal. */
  ghost predicate DrainInOrder(s: State) {
    && (s.drain != NotBegun ==> s.shutdown)
    && (s.outlived.Some? ==> s.shutdown)
    && (s.drain == NotBegun ==> s.outlived.None? && !s.sawIdle)
    && (InRound(s.drain, 1) || s.drain.CancelLoading? || s.drain.CancelCalling? ==> s.outlived.None? && !s.sawIdle)
    && (InRound(s.drain, 2) ==> (s.sawIdle <==> s.outlived.None?))
    && (s.drain.Loading? || s.drain.Waiting? ==> s.drain.round == 1 || s.drain.round == 2)
    && (s.drain.Ended? ==> (s.drain.idle ==> s.sawIdle) && (s.sawIdle || s.outlived.Some?))
  }

  predicate InRound(d: Drain, round: nat) {
    (d.Loading? || d.Waiting?) && d.round == round
  }

  lemma StepKeepsOrder(s: State, e: Event)
    requires DrainInOrder(s) && Enabled(s, e)
    ensures DrainInOrder(Apply(s, e))
  {
  }

  lemma {:induction false} ReachableOrder(n: nat, events: seq<Event>)
    requires Exec(n, events).Some?
    ensures DrainInOrder(Exec(n, events).value)
  {
    hide Enabled, Apply;
    if events != [] {
      ReachableOrder(n, events[..|events| - 1]);
      StepKeepsOrder(Exec(n, events[..|events| - 1]).value, events[|events| - 1]);
    }
  }

  /** How many events of its own the drain has left, at most. */
  function DrainLeft(d: Drain): nat {
    match d
    case NotBegun => 7
    case Loading(round) => if round == 1 then 6 else 2
    case Waiting(round, _) => if round == 1 then 5 else 1
    case CancelLoading(_) => 4
    case CancelCalling(_, _) => 3
    case Ended(_) => 0
  }

  predicate IsDrainEvent(e: Event) {
    !e.By? && !e.Signal?
  }

  lemma DrainStep(s: State, e: Event)
    requires DrainInOrder(s) && Enabled(s, e)
    ensures if IsDrainEvent(e) then DrainLeft(Apply(s, e).drain) < DrainLeft(s.drain)
            else Apply(s, e).drain == s.drain
  {
    hide ApplyStep;
    if e.By? {
      StepKeepsDrain(s, e.caller, e.step);
    }
  }

  lemma StepKeepsDrain(s: State, i: nat, step: Step)
    requires i < |s.pcs|
    ensures ApplyStep(s, i, step).drain == s.drain
  {
  }

  /** The drain is never stuck, whatever the callers do, and every event of its own brings it
      nearer its end; nobody else's moves it. */
  lemma DrainProceeds(n: nat, events: seq<Event>)
    requires Exec(n, events).Some?
    ensures var s := Exec(n, events).value;
            && (s.shutdown && !s.drain.Ended? ==> exists e :: IsDrainEvent(e) && Enabled(s, e))
            && (forall e :: Enabled(s, e) && IsDrainEvent(e) ==>
                  DrainLeft(Apply(s, e).drain) < DrainLeft(s.drain))
            && (forall e :: Enabled(s, e) && !IsDrainEvent(e) ==> Apply(s, e).drain == s.drain)
  {
    ReachableOrder(n, events);
    hide Exec, Apply, DrainInOrder;
    var s := Exec(n, events).value;
    if s.shutdown && !s.drain.Ended? {
      var e := match s.drain
        case NotBegun => BeginDrain
        case Loading(_) => LoadDone
        case Waiting(_, run) => if run in s.closed then WaitEnds else WaitTimesOut
        case CancelLoading(_) => LoadCancel
        case CancelCalling(_, _) => CallCancel;
      assert IsDrainEvent(e) && Enabled(s, e);
    }
    forall e | Enabled(s, e)
      ensures if IsDrainEvent(e) then DrainLeft(Apply(s, e).drain) < DrainLeft(s.drain)
              else Apply(s, e).drain == s.drain
    {
      DrainStep(s, e);
    }
  }

  function AfterIdle(round: nat): Drain {
    if round == 1 then Loading(2) else Ended(true)
  }

  function AfterLoad(s: State): Drain
    requires s.drain.Loading?
  {
    if s.done.None? then AfterIdle(s.drain.round) else Waiting(s.drain.round, s.done.value)
  }

  function AfterTimeout(d: Drain): Drain
    requires d.Waiting?
  {
    if d.round == 1 then CancelLoading(d.run) else Ended(false)
  }

  /** How a wait answers. Without a done pointer it is idle at once; with one it waits for that
      very run, is idle once the run has closed its channel, and on a timeout the first wait goes
      on to cancel and the second gives up. */
  lemma WaitAnswers(n: nat, events: seq<Event>)
    requires Exec(n, events).Some?
    ensures var s := Exec(n, events).value;
            && (s.drain.Loading? ==> Enabled(s, LoadDone) && Apply(s, LoadDone).drain == AfterLoad(s))
            && (s.drain.Waiting? ==>
                  && (Enabled(s, WaitEnds) <==> s.drain.run in s.closed)
                  && (Enabled(s, WaitTimesOut) <==> s.drain.run !in s.closed)
                  && (s.drain.run in s.closed ==> Apply(s, WaitEnds).drain == AfterIdle(s.drain.round))
                  && (s.drain.run !in s.closed ==> Apply(s, WaitTimesOut).drain == AfterTimeout(s.drain)))
  {
    hide Exec;
  }
}
