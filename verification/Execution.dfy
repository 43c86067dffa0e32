/** A cycle in motion: the dispatcher of internal/dump/pool.go and the workers it launches
    (internal/dump/dump.go, internal/dump/verify.go) as one system over the dump directory.

    A worker moves only between its launch and its return, and the pool takes from it the
    result the worker reached. The context a worker looks at is derived from the run's: it
    reports a cancellation only once the run is cancelled. */
module Execution {
  import opened Results
  import opened Disk
  import opened Worker
  import opened Workers
  import History
  import Pool

  datatype State = State(pool: Pool.State, disk: History.State)

  datatype Event = Coordinate(pool: Pool.Event) | Touch(disk: History.Event)

  /** What the context says at the gate a worker takes next. */
  function GateCtx(s: Script, pc: Pc): Option<CtxErr> {
    match pc
    case Probing => s.probeCtx
    case Creating => s.createCtx
    case Dumping(k) => if k < |s.chunks| then None else s.dumpCtx
    case Verifying => s.verifyCtx
    case Committing => s.commitCtx
    case _ => None
  }

  ghost predicate Enabled(c: Pool.Config, s: State, e: Event) {
    match e
    case Coordinate(p) =>
      && Pool.Enabled(c, s.pool, p)
      && (p.Finish? ==> p.worker < |s.disk.pcs| && s.disk.pcs[p.worker] == Done(p.result))
    case Touch(d) =>
      && History.Enabled(s.disk, d) && !d.Begin? && !d.Stop?
      && (d.Work? ==>
            && d.worker in s.pool.live && d.worker !in s.pool.written && !s.disk.pcs[d.worker].Done?
            && (GateCtx(s.disk.tasks[d.worker].script, s.disk.pcs[d.worker]) == Some(Canceled) ==> s.pool.cancelled))
  }

  ghost function Apply(toc: Toc, c: Pool.Config, s: State, e: Event): State
    requires Enabled(c, s, e)
  {
    match e
    case Coordinate(p) => s.(pool := Pool.Apply(c, s.pool, p))
    case Touch(d) => s.(disk := History.Apply(toc, s.disk, d))
  }

  /** A run of the pool over the tasks of a cycle that has just begun. */
  ghost function Exec(toc: Toc, c: Pool.Config, begun: History.State, events: seq<Event>): Option<State> {
    if events == [] then Some(State(Pool.Init(c), begun)) else
    match Exec(toc, c, begun, events[..|events| - 1])
    case None => None
    case Some(s) =>
      var e := events[|events| - 1];
      if Enabled(c, s, e) then Some(Apply(toc, c, s, e)) else None
  }

  // A run is a run of each part.

  function PoolEvents(events: seq<Event>): seq<Pool.Event> {
    if events == [] then [] else
    var e := events[|events| - 1];
    PoolEvents(events[..|events| - 1]) + (if e.Coordinate? then [e.pool] else [])
  }

  function DiskEvents(events: seq<Event>): seq<History.Event> {
    if events == [] then [] else
    var e := events[|events| - 1];
    DiskEvents(events[..|events| - 1]) + (if e.Touch? then [e.disk] else [])
  }

  lemma {:induction false} RunsThePool(toc: Toc, c: Pool.Config, begun: History.State, events: seq<Event>)
    requires Exec(toc, c, begun, events).Some?
    ensures Pool.Exec(c, PoolEvents(events)) == Some(Exec(toc, c, begun, events).value.pool)
  {
    hide Pool.Enabled, Pool.Apply, Pool.Init, History.Enabled, History.Apply;
    if events != [] {
      var before := events[..|events| - 1];
      RunsThePool(toc, c, begun, before);
      assert PoolEvents(events) != [] ==> PoolEvents(events)[..|PoolEvents(events)|] == PoolEvents(events);
      if e: Pool.Event :| events[|events| - 1] == Coordinate(e) {
        assert (PoolEvents(before) + [e])[..|PoolEvents(before)|] == PoolEvents(before);
      } else {
        assert PoolEvents(events) == PoolEvents(before);
      }
    }
  }

  lemma {:induction false} ExtendsTheHistory(
    toc: Toc, t0: Tree, past: seq<History.Event>, c: Pool.Config, begun: History.State, events: seq<Event>)
    requires History.Exec(toc, t0, past) == Some(begun) && Exec(toc, c, begun, events).Some?
    ensures History.Exec(toc, t0, past + DiskEvents(events)) == Some(Exec(toc, c, begun, events).value.disk)
  {
    hide Pool.Enabled, Pool.Apply, Pool.Init, History.Enabled, History.Apply;
    if events == [] {
      assert past + [] == past;
    } else {
      var before := events[..|events| - 1];
      ExtendsTheHistory(toc, t0, past, c, begun, before);
      if e: History.Event :| events[|events| - 1] == Touch(e) {
        var all := past + (DiskEvents(before) + [e]);
        assert all[..|all| - 1] == past + DiskEvents(before) && all[|all| - 1] == e;
      } else {
        assert DiskEvents(events) == DiskEvents(before);
      }
    }
  }

  // What workers tell the pool.

  predicate Reported(pc: Pc) {
    pc.CleaningUp? || pc.Listing? || pc.Removing? || pc.Done?
  }

  /** A result names its own database, is never skipped, and is killed only after a cancel. */
  predicate Told(task: Task, pc: Pc, cancelled: bool) {
    Reported(pc) ==>
      && pc.outcome.host == task.job.host && pc.outcome.dbname == task.job.dbname
      && pc.outcome.reason != Skipped && (pc.outcome.reason == Killed ==> cancelled)
  }

  lemma GateReason(ctx: Option<CtxErr>, kind: FailKind, fallback: Reason)
    requires fallback != Killed && fallback != Skipped
    ensures AbortOr(ctx, fallback) != Skipped && Classify(0, ctx, kind) != Skipped
    ensures AbortOr(ctx, fallback) == Killed ==> ctx == Some(Canceled)
    ensures Classify(0, ctx, kind) == Killed ==> ctx == Some(Canceled)
  {
  }

  lemma StepKeepsTold(toc: Toc, task: Task, t: Tree, pc: Pc, cancelled: bool)
    requires Told(task, pc, cancelled) && (GateCtx(task.script, pc) == Some(Canceled) ==> cancelled)
    ensures Told(task, StepOf(toc, task, World(t, pc)).pc, cancelled)
  {
    hide AbortOr, Classify, Doomed, Staged;
    match pc
    case Probing => GateReason(task.script.probeCtx, task.script.probeKind, Other);
    case Creating => GateReason(task.script.createCtx, FailNone, Other);
    case Dumping(_) => GateReason(task.script.dumpCtx, FailNone, Other);
    case Verifying => GateReason(task.script.verifyCtx, FailNone, Truncated);
    case Committing => GateReason(task.script.commitCtx, FailNone, RenameFailed);
    case _ =>
  }

  /** The pool is to run exactly these tasks. */
  ghost predicate Matches(c: Pool.Config, tasks: seq<Task>) {
    |c.targets| == |tasks|
    && forall i :: 0 <= i < |tasks| ==> c.targets[i] == Pool.Target(tasks[i].job.host, tasks[i].job.dbname)
  }

  ghost predicate JustBegun(begun: History.State) {
    |begun.pcs| == |begun.tasks| && forall i :: 0 <= i < |begun.pcs| ==> begun.pcs[i] == Probing
  }

  /** Every result the pool holds is the one its worker ended with. */
  ghost predicate Linked(c: Pool.Config, s: State) {
    && Matches(c, s.disk.tasks) && |s.disk.pcs| == |s.disk.tasks|
    && (forall n :: n in s.pool.written ==> n < |s.disk.pcs| && s.disk.pcs[n] == Done(s.pool.written[n]))
    && (forall i :: 0 <= i < |s.disk.pcs| ==> Told(s.disk.tasks[i], s.disk.pcs[i], s.pool.cancelled))
  }

  lemma PoolStepKeepsLinked(c: Pool.Config, s: State, p: Pool.Event)
    requires Linked(c, s) && Enabled(c, s, Coordinate(p))
    ensures Linked(c, State(Pool.Apply(c, s.pool, p), s.disk))
  {
  }

  lemma DiskStepKeepsLinked(toc: Toc, c: Pool.Config, s: State, d: History.Event)
    requires Linked(c, s) && Enabled(c, s, Touch(d))
    ensures Linked(c, State(s.pool, History.Apply(toc, s.disk, d)))
  {
    hide Told, StepOf, GateCtx;
    if d.Work? {
      var i := d.worker;
      StepKeepsTold(toc, s.disk.tasks[i], s.disk.tree, s.disk.pcs[i], s.pool.cancelled);
    }
  }

  lemma {:induction false} ReachableLinked(toc: Toc, c: Pool.Config, begun: History.State, events: seq<Event>)
    requires JustBegun(begun) && Matches(c, begun.tasks) && Exec(toc, c, begun, events).Some?
    ensures Linked(c, Exec(toc, c, begun, events).value)
    ensures Exec(toc, c, begun, events).value.disk.tasks == begun.tasks
  {
    hide Enabled, Pool.Apply, Linked;
    if events == [] {
      StartIsLinked(c, begun);
    } else {
      ReachableLinked(toc, c, begun, events[..|events| - 1]);
      var s := Exec(toc, c, begun, events[..|events| - 1]).value;
      match events[|events| - 1]
      case Coordinate(p) => PoolStepKeepsLinked(c, s, p);
      case Touch(d) =>
        DiskStepKeepsLinked(toc, c, s, d);
        SameTasks(toc, c, s, d);
    }
  }

  lemma StartIsLinked(c: Pool.Config, begun: History.State)
    requires JustBegun(begun) && Matches(c, begun.tasks)
    ensures Linked(c, State(Pool.Init(c), begun))
  {
  }

  lemma SameTasks(toc: Toc, c: Pool.Config, s: State, d: History.Event)
    requires Enabled(c, s, Touch(d))
    ensures History.Apply(toc, s.disk, d).tasks == s.disk.tasks
  {
  }

  /** What the pool hands back about one task: its own host and database, with ok only as its
      worker's own end. Without a cancellation it is always the worker's end, and neither
      killed nor skipped. */
  lemma ReturnedResult(toc: Toc, c: Pool.Config, begun: History.State, events: seq<Event>, i: nat)
    requires JustBegun(begun) && Matches(c, begun.tasks) && i < |begun.tasks|
    requires Exec(toc, c, begun, events).Some? && Exec(toc, c, begun, events).value.pool.pc == Pool.Returned
    ensures var s := Exec(toc, c, begun, events).value;
            && |s.pool.results| == |begun.tasks| == |s.disk.pcs| && s.disk.tasks == begun.tasks
            && var r := s.pool.results[i];
               && r.host == begun.tasks[i].job.host && r.dbname == begun.tasks[i].job.dbname
               && (r.reason == OK ==> s.disk.pcs[i] == Done(r))
               && (!s.pool.cancelled ==>
                     && i in s.pool.written && s.disk.pcs[i] == Done(r)
                     && r.reason != Killed && r.reason != Skipped)
  {
    hide Exec, Pool.Exec;
    RunsThePool(toc, c, begun, events);
    Pool.ReturnedIsComplete(c, PoolEvents(events));
    ReachableLinked(toc, c, begun, events);
    var s := Exec(toc, c, begun, events).value;
    if i in s.pool.written {
      assert Told(s.disk.tasks[i], s.disk.pcs[i], s.pool.cancelled);
    } else {
      assert s.pool.results[i] == Pool.SkippedResult(c.targets[i]);
    }
  }

  // A cycle always gets on.

  /** No gate of any worker reports a cancellation. */
  predicate NeverCanceled(tasks: seq<Task>) {
    forall i :: 0 <= i < |tasks| ==>
      var s := tasks[i].script;
      && s.probeCtx != Some(Canceled) && s.createCtx != Some(Canceled) && s.dumpCtx != Some(Canceled)
      && s.verifyCtx != Some(Canceled) && s.commitCtx != Some(Canceled)
  }

  predicate IsOutside(e: Event) {
    e.Touch? && e.disk.Outside?
  }

  /** A cycle that has not returned can always take a step of its own: the dispatcher's, a
      worker's, or, if a worker is about to see a cancellation, that cancellation. */
  lemma CanProceed(toc: Toc, c: Pool.Config, begun: History.State, events: seq<Event>)
    requires JustBegun(begun) && Matches(c, begun.tasks) && c.permits >= 1
    requires Exec(toc, c, begun, events).Some? && Exec(toc, c, begun, events).value.pool.pc != Pool.Returned
    ensures exists e ::
      && Enabled(c, Exec(toc, c, begun, events).value, e) && !IsOutside(e)
      && (NeverCanceled(begun.tasks) ==> e != Coordinate(Pool.Cancel))
  {
    hide Exec, Pool.Exec, Linked, Enabled;
    RunsThePool(toc, c, begun, events);
    ReachableLinked(toc, c, begun, events);
    Pool.NoDeadlock(c, PoolEvents(events));
    Pool.ReachableInv(c, PoolEvents(events));
    var s := Exec(toc, c, begun, events).value;
    var p: Pool.Event :| !p.Cancel? && Pool.Enabled(c, s.pool, p);
    if p.Finish? {
      WorkerCanProceed(c, s, p.worker);
    } else {
      PoolCanProceed(c, s, p);
    }
  }

  lemma PoolCanProceed(c: Pool.Config, s: State, p: Pool.Event)
    requires Pool.Enabled(c, s.pool, p) && !p.Finish? && !p.Cancel?
    ensures exists e :: Enabled(c, s, e) && !IsOutside(e) && e != Coordinate(Pool.Cancel)
  {
    assert Enabled(c, s, Coordinate(p));
  }

  lemma WorkerCanProceed(c: Pool.Config, s: State, j: nat)
    requires Linked(c, s) && Pool.Inv(c, s.pool) && j in s.pool.live && j !in s.pool.written
    ensures exists e ::
      && Enabled(c, s, e) && !IsOutside(e)
      && (NeverCanceled(s.disk.tasks) ==> e != Coordinate(Pool.Cancel))
  {
    var task, pc := s.disk.tasks[j], s.disk.pcs[j];
    if pc.Done? {
      assert Enabled(c, s, Coordinate(Pool.Finish(j, pc.outcome)));
    } else if GateCtx(task.script, pc) == Some(Canceled) && !s.pool.cancelled {
      assert Enabled(c, s, Coordinate(Pool.Cancel));
    } else {
      assert Enabled(c, s, Touch(History.Work(j)));
    }
  }
}
