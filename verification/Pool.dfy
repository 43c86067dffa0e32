/** The bounded dispatcher of internal/dump/pool.go as a transition system.

    Every channel operation, context check and worker action of `runPool` is one event.
    The select statement picks freely among its ready cases, workers interleave freely,
    and the run context may be cancelled before any event. */
module Pool {
  import opened Results
  import Arith

  /** A database handed to the pool: what a skipped result reports about it. */
  datatype Target = Target(host: string, dbname: string)

  /** `permits` is the capacity of the semaphore channel. */
  datatype Config = Config(permits: nat, targets: seq<Target>)

  /** Where the dispatcher stands: at the context check of its loop, at the select,
      past the select with a permit, in `wg.Wait`, or returned. */
  datatype Pc = Checking | Selecting | Launching | Draining | Returned

  /** `held` are the indices whose permit sits in the semaphore, `live` the indices the
      WaitGroup counts, `written` what `dumpOne` returned for each finished index.
      `dispatched` (in launch order) and `late` (launches after cancellation) are history. */
  datatype State = State(
    next: nat, pc: Pc, held: set<nat>, live: set<nat>, written: map<nat, Result>,
    results: seq<Result>, cancelled: bool, dispatched: seq<nat>, late: nat)

  datatype Event =
    | Cancel
    | Check
    | SelectDone
    | SelectPermit
    | Launch
    | Finish(worker: nat, result: Result)
    | Release(worker: nat)
    | Exit(worker: nat)
    | Return

  function SkippedResult(t: Target): Result {
    Result(t.host, t.dbname, Skipped, 0, 0)
  }

  function Init(c: Config): State {
    State(0, Checking, {}, {}, map[], seq(|c.targets|, i requires 0 <= i < |c.targets| => SkippedResult(c.targets[i])),
          false, [], 0)
  }

  predicate Enabled(c: Config, s: State, e: Event) {
    match e
    case Cancel => !s.cancelled
    case Check => s.pc == Checking
    case SelectDone => s.pc == Selecting && s.cancelled
    case SelectPermit => s.pc == Selecting && |s.held| < c.permits
    case Launch => s.pc == Launching
    case Finish(j, _) => j in s.live && j !in s.written && j < |s.results|
    case Release(j) => j in s.live && j in s.written && j in s.held
    case Exit(j) => j in s.live && j in s.written && j !in s.held
    case Return => s.pc == Draining && s.live == {}
  }

  function Apply(c: Config, s: State, e: Event): State
    requires Enabled(c, s, e)
  {
    match e
    case Cancel => s.(cancelled := true)
    case Check => s.(pc := if s.next < |c.targets| && !s.cancelled then Selecting else Draining)
    case SelectDone => s.(pc := Draining)
    case SelectPermit => s.(held := s.held + {s.next}, pc := Launching)
    case Launch =>
      s.(live := s.live + {s.next}, dispatched := s.dispatched + [s.next], next := s.next + 1, pc := Checking,
         late := if s.cancelled then s.late + 1 else s.late)
    case Finish(j, r) => s.(written := s.written[j := r], results := s.results[j := r])
    case Release(j) => s.(held := s.held - {j})
    case Exit(j) => s.(live := s.live - {j})
    case Return => s.(pc := Returned)
  }

  /** The state after a run, or None when some event of it was not enabled. */
  function Exec(c: Config, events: seq<Event>): Option<State> {
    if events == [] then Some(Init(c)) else
    match Exec(c, events[..|events| - 1])
    case None => None
    case Some(s) =>
      var e := events[|events| - 1];
      if Enabled(c, s, e) then Some(Apply(c, s, e)) else None
  }

  /** The indices whose `dumpOne` call is in progress. */
  ghost function Executing(s: State): set<nat> {
    set j | j in s.live && j !in s.written
  }

  /** Who holds a permit and who is alive. */
  ghost predicate Bookkeeping(c: Config, s: State) {
    && s.next <= |c.targets|
    && (forall j :: j in s.live ==> j < s.next)
    && (forall j :: j in s.written ==> j < s.next)
    && (forall j :: j in s.held ==> j in s.live || (s.pc == Launching && j == s.next))
    && (forall j :: 0 <= j < s.next && j !in s.written ==> j in s.live && j in s.held)
    && |s.held| <= c.permits
    && (s.pc == Launching ==> s.next in s.held)
    && (s.pc == Returned ==> s.live == {})
  }

  /** 0, 1, ..., n - 1. */
  ghost predicate CountsUp(indices: seq<nat>, n: nat) {
    |indices| == n && forall k :: 0 <= k < n ==> indices[k] == k
  }

  /** What has been dispatched, and what the results hold. */
  ghost predicate Progress(c: Config, s: State) {
    && |s.results| == |c.targets|
    && CountsUp(s.dispatched, s.next)
    && (forall j :: 0 <= j < |s.results| ==>
          s.results[j] == if j in s.written then s.written[j] else SkippedResult(c.targets[j]))
    && (s.pc.Selecting? || s.pc.Launching? ==> s.next < |c.targets| && s.late == 0)
    && (s.pc.Draining? || s.pc.Returned? ==> s.next == |c.targets| || s.cancelled)
    && s.late <= 1
    && (s.late == 1 ==> s.cancelled)
  }

  ghost predicate Inv(c: Config, s: State) {
    Bookkeeping(c, s) && Progress(c, s)
  }

  lemma PermitKeepsInv(c: Config, s: State)
    requires Inv(c, s) && Enabled(c, s, SelectPermit)
    ensures Inv(c, Apply(c, s, SelectPermit))
  {
    hide SkippedResult;
  }

  lemma LaunchKeepsInv(c: Config, s: State)
    requires Inv(c, s) && Enabled(c, s, Launch)
    ensures Inv(c, Apply(c, s, Launch))
  {
    hide SkippedResult;
  }

  lemma FinishKeepsInv(c: Config, s: State, j: nat, r: Result)
    requires Inv(c, s) && Enabled(c, s, Finish(j, r))
    ensures Inv(c, Apply(c, s, Finish(j, r)))
  {
    hide SkippedResult;
  }

  lemma ReleaseKeepsInv(c: Config, s: State, j: nat)
    requires Inv(c, s) && Enabled(c, s, Release(j))
    ensures Inv(c, Apply(c, s, Release(j)))
  {
    hide SkippedResult;
  }

  lemma ExitKeepsInv(c: Config, s: State, j: nat)
    requires Inv(c, s) && Enabled(c, s, Exit(j))
    ensures Inv(c, Apply(c, s, Exit(j)))
  {
    hide SkippedResult;
  }

  /** The events that only move the dispatcher. */
  lemma DispatcherKeepsInv(c: Config, s: State, e: Event)
    requires e.Cancel? || e.Check? || e.SelectDone? || e.Return?
    requires Inv(c, s) && Enabled(c, s, e)
    ensures Inv(c, Apply(c, s, e))
  {
    hide SkippedResult;
  }

  lemma StepKeepsInv(c: Config, s: State, e: Event)
    requires Inv(c, s) && Enabled(c, s, e)
    ensures Inv(c, Apply(c, s, e))
  {
    hide Inv, Enabled, Apply;
    match e
    case SelectPermit => PermitKeepsInv(c, s);
    case Launch => LaunchKeepsInv(c, s);
    case Finish(j, r) => FinishKeepsInv(c, s, j, r);
    case Release(j) => ReleaseKeepsInv(c, s, j);
    case Exit(j) => ExitKeepsInv(c, s, j);
    case _ => DispatcherKeepsInv(c, s, e);
  }

  lemma {:induction false} ReachableInv(c: Config, events: seq<Event>)
    requires Exec(c, events).Some?
    ensures Inv(c, Exec(c, events).value)
  {
    if events != [] {
      ReachableInv(c, events[..|events| - 1]);
      StepKeepsInv(c, Exec(c, events[..|events| - 1]).value, events[|events| - 1]);
    }
  }

  /** At no point of any run are more than `permits` dumps executing. */
  lemma BoundedConcurrency(c: Config, events: seq<Event>)
    requires Exec(c, events).Some?
    ensures |Executing(Exec(c, events).value)| <= c.permits
  {
    ReachableInv(c, events);
    var s := Exec(c, events).value;
    Arith.SubsetCardinality(Executing(s), s.held);
  }

  /** What `runPool` hands back, for every interleaving and every moment of cancellation. */
  ghost predicate Complete(c: Config, s: State) {
    && s.live == {} && s.held == {}
    && |s.results| == |c.targets|
    && s.next <= |c.targets|
    // the dispatched indices are a prefix, each once and in order
    && CountsUp(s.dispatched, s.next)
    && (forall j :: j in s.written <==> 0 <= j < s.next)
    // a dispatched position holds what its own dumpOne returned, any other is skipped
    && (forall j :: 0 <= j < s.next ==> s.results[j] == s.written[j])
    && (forall j :: s.next <= j < |c.targets| ==> s.results[j] == SkippedResult(c.targets[j]))
    && (s.next < |c.targets| ==> s.cancelled)
    && s.late <= 1
  }

  lemma ReturnedIsComplete(c: Config, events: seq<Event>)
    requires Exec(c, events).Some? && Exec(c, events).value.pc == Returned
    ensures Complete(c, Exec(c, events).value)
  {
    ReachableInv(c, events);
    var s := Exec(c, events).value;
    assert forall j :: j in s.held ==> j in s.live;
    assert s.held == {};
  }

  /** Every position of a returned run holds what its own dump returned, or, from some point on
      and only after a cancellation, a skipped result under its own name. */
  lemma EveryPosition(c: Config, events: seq<Event>, j: nat)
    requires Exec(c, events).Some? && Exec(c, events).value.pc == Returned && j < |c.targets|
    ensures var s := Exec(c, events).value;
            && |s.results| == |c.targets|
            && if j < |s.dispatched| then j in s.written && s.results[j] == s.written[j]
               else && s.cancelled && s.results[j].reason == Skipped && s.results[j].bytes == 0
                    && s.results[j].host == c.targets[j].host && s.results[j].dbname == c.targets[j].dbname
  {
    ReturnedIsComplete(c, events);
  }

  /** The caller clamps the permits to at least one. Then a run that has not returned
      always has something to do other than being cancelled: a dump returning, a worker
      unwinding or the dispatcher moving on. */
  lemma NoDeadlock(c: Config, events: seq<Event>)
    requires c.permits >= 1
    requires Exec(c, events).Some? && Exec(c, events).value.pc != Returned
    ensures exists e: Event :: !e.Cancel? && Enabled(c, Exec(c, events).value, e)
  {
    ReachableInv(c, events);
    var s := Exec(c, events).value;
    if s.pc == Checking {
      assert Enabled(c, s, Check);
    } else if s.pc == Launching {
      assert Enabled(c, s, Launch);
    } else if s.pc == Draining && s.live == {} {
      assert Enabled(c, s, Return);
    } else if s.pc == Selecting && |s.held| < c.permits {
      assert Enabled(c, s, SelectPermit);
    } else {
      var j := SomeLive(c, s);
      WorkerCanMove(c, s, j);
    }
  }

  lemma SomeLive(c: Config, s: State) returns (j: nat)
    requires Inv(c, s) && c.permits >= 1
    requires (s.pc == Selecting && |s.held| >= c.permits) || (s.pc == Draining && s.live != {})
    ensures j in s.live
  {
    if s.pc == Selecting {
      j :| j in s.held;
    } else {
      j :| j in s.live;
    }
  }

  lemma WorkerCanMove(c: Config, s: State, j: nat)
    requires Inv(c, s) && j in s.live
    ensures exists e: Event :: !e.Cancel? && Enabled(c, s, e)
  {
    if j !in s.written {
      assert Enabled(c, s, Finish(j, SkippedResult(c.targets[j])));
    } else if j in s.held {
      assert Enabled(c, s, Release(j));
    } else {
      assert Enabled(c, s, Exit(j));
    }
  }

  function PcRank(pc: Pc): nat {
    match pc
    case Checking => 4
    case Selecting => 3
    case Launching => 1
    case Draining => 1
    case Returned => 0
  }

  /** An upper bound on the events still to come. */
  function Remaining(c: Config, s: State): int {
    10 * (|c.targets| - s.next) + PcRank(s.pc) + (s.next - |s.written|) + |s.held| + |s.live|
      + if s.cancelled then 0 else 1
  }

  lemma StepConsumes(c: Config, s: State, e: Event)
    requires Inv(c, s) && Enabled(c, s, e)
    ensures Remaining(c, Apply(c, s, e)) < Remaining(c, s)
  {
    hide SkippedResult;
    StepShrinks(c, s, e);
    hide Bookkeeping, Progress;
  }

  /** How one event moves each of the sizes that `Remaining` adds up. */
  lemma StepShrinks(c: Config, s: State, e: Event)
    requires Bookkeeping(c, s) && Enabled(c, s, e)
    ensures e.Launch? ==> |Apply(c, s, e).live| == |s.live| + 1
    ensures e.SelectPermit? ==> |Apply(c, s, e).held| <= |s.held| + 1
    ensures e.Finish? ==> |Apply(c, s, e).written| == |s.written| + 1
    ensures e.Release? ==> |Apply(c, s, e).held| == |s.held| - 1
    ensures e.Exit? ==> |Apply(c, s, e).live| == |s.live| - 1
  {
    if e.Finish? {
      assert |s.written[e.worker := e.result]| == |s.written| + 1;
    }
  }

  lemma RemainingIsNatural(c: Config, s: State)
    requires Inv(c, s)
    ensures Remaining(c, s) >= 0
  {
    RangeCardinality(s.written.Keys, 0, s.next);
  }

  /** No run is longer than ten events per database plus five, so with NoDeadlock every
      run that is not abandoned returns. */
  lemma {:induction false} RunsAreBounded(c: Config, events: seq<Event>)
    requires Exec(c, events).Some?
    ensures |events| + Remaining(c, Exec(c, events).value) <= 10 * |c.targets| + 5
    ensures |events| <= 10 * |c.targets| + 5
  {
    ReachableInv(c, events);
    if events != [] {
      var before := events[..|events| - 1];
      RunsAreBounded(c, before);
      ReachableInv(c, before);
      StepConsumes(c, Exec(c, before).value, events[|events| - 1]);
    }
    RemainingIsNatural(c, Exec(c, events).value);
  }

  /** A set of numbers from [lo, hi) has at most hi - lo members. */
  lemma {:induction false} RangeCardinality(a: set<nat>, lo: nat, hi: nat)
    requires lo <= hi
    requires forall x :: x in a ==> lo <= x < hi
    ensures |a| <= hi - lo
    decreases hi - lo
  {
    if a != {} {
      RangeCardinality(a - {hi - 1}, lo, hi - 1);
    }
  }
}
