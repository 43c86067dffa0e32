/** What a cycle in motion amounts to (internal/dump/dump.go, internal/dump/pool.go): whatever the
    dispatcher, the workers, a cancellation and other programs did in between, the dispatched
    databases end up as if they had been dumped one after another. */
module Serial {
  import opened Results
  import opened DumpName
  import opened Disk
  import opened Worker
  import opened Workers
  import Effects
  import Execution
  import History
  import Pool

  /** The order in which the workers took their steps. */
  function ScheduleOf(events: seq<Execution.Event>): seq<nat> {
    if events == [] then [] else
    var e := events[|events| - 1];
    ScheduleOf(events[..|events| - 1]) + (if e.Touch? && e.disk.Work? then [e.disk.worker] else [])
  }

  /** Every worker stands where it would stand alone. */
  ghost predicate AllAlone(toc: Toc, t0: Tree, disk: History.State, schedule: seq<nat>) {
    |disk.pcs| == |disk.tasks|
    && forall i :: 0 <= i < |disk.tasks| ==>
         AsIfAlone(toc, disk.tasks, t0, System(disk.tree, disk.pcs), schedule, i)
  }

  lemma OutsideIsAlike(task: Task, t: Tree, u: Tree)
    requires forall p: Path :: History.OwnName(p.name) ==> SameAt(t, u, p)
    requires SameAt(t, u, RootEntry(task.job.server)) && IsTemp(task.script.temp)
    ensures Alike(task, t, u)
  {
    hide IsTemp;
    forall p | Touches(task, p)
      ensures SameAt(t, u, p)
    {
      if p.name != task.script.temp {
        FinalHasSuffix(task.job.dbname, p.name);
      }
      assert History.OwnName(p.name);
    }
  }

  lemma FinalHasSuffix(db: string, name: string)
    requires IsFinal(db, name)
    ensures HasSuffix(name, SUFFIX)
  {
    assert StableName(db)[|StableName(db)| - |SUFFIX|..] == SUFFIX;
  }

  lemma WorkKeepsAllAlone(toc: Toc, t0: Tree, disk: History.State, schedule: seq<nat>, m: nat)
    requires ValidTasks(disk.tasks) && AllAlone(toc, t0, disk, schedule) && History.Enabled(disk, History.Work(m))
    ensures AllAlone(toc, t0, History.Apply(toc, disk, History.Work(m)), schedule + [m])
  {
    hide ValidTasks, AsIfAlone, StepOf;
    var next := History.Apply(toc, disk, History.Work(m));
    assert System(next.tree, next.pcs) == Move(toc, disk.tasks, System(disk.tree, disk.pcs), m);
    forall i | 0 <= i < |disk.tasks|
      ensures AsIfAlone(toc, disk.tasks, t0, Move(toc, disk.tasks, System(disk.tree, disk.pcs), m), schedule + [m], i)
    {
      MoveKeepsAlone(toc, disk.tasks, t0, System(disk.tree, disk.pcs), schedule, m, i);
    }
  }

  lemma OutsideKeepsAllAlone(toc: Toc, t0: Tree, disk: History.State, schedule: seq<nat>, tree: Tree)
    requires ValidTasks(disk.tasks) && AllAlone(toc, t0, disk, schedule)
    requires History.Enabled(disk, History.Outside(tree))
    ensures AllAlone(toc, t0, disk.(tree := tree), schedule)
  {
    hide Alike, AloneOf, Count, OwnDoomed, History.OwnName, WellNamed, ValidJob, IsTemp;
    forall i | 0 <= i < |disk.tasks|
      ensures AsIfAlone(toc, disk.tasks, t0, System(tree, disk.pcs), schedule, i)
    {
      assert AsIfAlone(toc, disk.tasks, t0, System(disk.tree, disk.pcs), schedule, i);
      OutsideIsAlike(disk.tasks[i], disk.tree, tree);
      AlikeTwice(disk.tasks[i], disk.tree, AloneOf(toc, disk.tasks[i], t0, Count(schedule, i)).tree, tree);
    }
  }

  lemma {:induction false} ReachableAlone(toc: Toc, c: Pool.Config, begun: History.State, events: seq<Execution.Event>)
    requires Execution.JustBegun(begun) && Execution.Matches(c, begun.tasks) && ValidTasks(begun.tasks)
    requires Execution.Exec(toc, c, begun, events).Some?
    ensures AllAlone(toc, begun.tree, Execution.Exec(toc, c, begun, events).value.disk, ScheduleOf(events))
  {
    hide AllAlone, ValidTasks, Execution.Matches, Pool.Enabled, Pool.Apply, History.Enabled, History.Apply;
    if events == [] {
      AloneAtStart(toc, begun);
    } else {
      var before, e := events[..|events| - 1], events[|events| - 1];
      ReachableAlone(toc, c, begun, before);
      Execution.ReachableLinked(toc, c, begun, before);
      EventKeepsAlone(toc, c, begun.tree, Execution.Exec(toc, c, begun, before).value, ScheduleOf(before), e);
    }
  }

  lemma AloneAtStart(toc: Toc, begun: History.State)
    requires Execution.JustBegun(begun)
    ensures AllAlone(toc, begun.tree, begun, [])
  {
  }

  lemma EventKeepsAlone(
    toc: Toc, c: Pool.Config, t0: Tree, s: Execution.State, schedule: seq<nat>, e: Execution.Event)
    requires ValidTasks(s.disk.tasks) && AllAlone(toc, t0, s.disk, schedule) && Execution.Enabled(c, s, e)
    ensures AllAlone(toc, t0, Execution.Apply(toc, c, s, e).disk,
                     schedule + (if e.Touch? && e.disk.Work? then [e.disk.worker] else []))
  {
    hide AllAlone, ValidTasks, History.Enabled, Pool.Enabled, Pool.Apply;
    if e.Touch? && e.disk.Work? {
      WorkKeepsAllAlone(toc, t0, s.disk, schedule, e.disk.worker);
    } else {
      assert schedule + [] == schedule;
      if e.Touch? {
        OutsideKeepsAllAlone(toc, t0, s.disk, schedule, e.disk.tree);
      }
    }
  }

  // Only dispatched workers move, and no longer than they have to.

  /** Nobody beyond the dispatched prefix has moved, and nobody has moved past its end. */
  ghost predicate WithinLength(toc: Toc, t0: Tree, tasks: seq<Task>, next: nat, schedule: seq<nat>) {
    && ValidSchedule(tasks, schedule)
    && (forall i :: next <= i ==> Count(schedule, i) == 0)
    && (forall i :: 0 <= i < |tasks| ==> Count(schedule, i) <= Length(toc, tasks[i].job, tasks[i].script, t0))
  }

  /** A worker that is not done has steps left. */
  lemma NotDoneYet(toc: Toc, task: Task, t0: Tree, k: nat)
    requires !AloneOf(toc, task, t0, k).pc.Done?
    ensures k < Length(toc, task.job, task.script, t0)
  {
    hide Alone, Length;
    var n := Length(toc, task.job, task.script, t0);
    EndsDone(toc, task.job, task.script, t0);
    if n <= k {
      StaysDone(toc, task.job, task.script, t0, n, k);
    }
  }

  lemma EventKeepsWithin(
    toc: Toc, c: Pool.Config, t0: Tree, s: Execution.State, schedule: seq<nat>, e: Execution.Event)
    requires AllAlone(toc, t0, s.disk, schedule) && Pool.Inv(c, s.pool) && Execution.Enabled(c, s, e)
    requires WithinLength(toc, t0, s.disk.tasks, s.pool.next, schedule)
    ensures WithinLength(toc, t0, s.disk.tasks, Execution.Apply(toc, c, s, e).pool.next,
                         schedule + (if e.Touch? && e.disk.Work? then [e.disk.worker] else []))
  {
    hide Count, Length, AloneOf, StepOf, Pool.Progress;
    if e.Touch? && e.disk.Work? {
      var m := e.disk.worker;
      assert AsIfAlone(toc, s.disk.tasks, t0, System(s.disk.tree, s.disk.pcs), schedule, m);
      NotDoneYet(toc, s.disk.tasks[m], t0, Count(schedule, m));
      forall i: nat
        ensures Count(schedule + [m], i) == Count(schedule, i) + (if m == i then 1 else 0)
      {
        CountMore(schedule, m, i);
      }
    } else {
      assert schedule + [] == schedule;
    }
  }

  lemma {:induction false} ReachableWithin(toc: Toc, c: Pool.Config, begun: History.State, events: seq<Execution.Event>)
    requires Execution.JustBegun(begun) && Execution.Matches(c, begun.tasks) && ValidTasks(begun.tasks)
    requires Execution.Exec(toc, c, begun, events).Some?
    ensures var s := Execution.Exec(toc, c, begun, events).value;
            WithinLength(toc, begun.tree, begun.tasks, s.pool.next, ScheduleOf(events))
  {
    hide WithinLength, ValidTasks, Execution.Matches, Execution.Enabled, Execution.Apply, Execution.Linked, AllAlone;
    if events == [] {
      WithinAtStart(toc, begun);
    } else {
      var before := events[..|events| - 1];
      ReachableWithin(toc, c, begun, before);
      ReachableAlone(toc, c, begun, before);
      Execution.ReachableLinked(toc, c, begun, before);
      Execution.RunsThePool(toc, c, begun, before);
      Pool.ReachableInv(c, Execution.PoolEvents(before));
      var s := Execution.Exec(toc, c, begun, before).value;
      EventKeepsWithin(toc, c, begun.tree, s, ScheduleOf(before), events[|events| - 1]);
    }
  }

  lemma WithinAtStart(toc: Toc, begun: History.State)
    ensures WithinLength(toc, begun.tree, begun.tasks, 0, [])
  {
    hide Length;
  }

  // How long a cycle can go on.

  ghost function TotalLength(toc: Toc, tasks: seq<Task>, t0: Tree, n: nat): nat
    requires n <= |tasks|
  {
    if n == 0 then 0
    else TotalLength(toc, tasks, t0, n - 1) + Length(toc, tasks[n - 1].job, tasks[n - 1].script, t0)
  }

  ghost function Moves(schedule: seq<nat>, n: nat): nat {
    if n == 0 then 0 else Moves(schedule, n - 1) + Count(schedule, n - 1)
  }

  lemma {:induction false} MovesMore(schedule: seq<nat>, m: nat, n: nat)
    ensures Moves(schedule + [m], n) == Moves(schedule, n) + (if m < n then 1 else 0)
  {
    hide Count;
    if n > 0 {
      MovesMore(schedule, m, n - 1);
      CountMore(schedule, m, n - 1);
    }
  }

  lemma {:induction false} NoMoves(n: nat)
    ensures Moves([], n) == 0
  {
    if n > 0 {
      NoMoves(n - 1);
    }
  }

  lemma {:induction false} MovesAreSteps(schedule: seq<nat>, n: nat)
    requires forall k :: 0 <= k < |schedule| ==> schedule[k] < n
    ensures Moves(schedule, n) == |schedule|
  {
    if schedule == [] {
      NoMoves(n);
    } else {
      var before := schedule[..|schedule| - 1];
      MovesAreSteps(before, n);
      MovesMore(before, schedule[|schedule| - 1], n);
      assert before + [schedule[|schedule| - 1]] == schedule;
    }
  }

  lemma {:induction false} MovesWithin(toc: Toc, t0: Tree, tasks: seq<Task>, schedule: seq<nat>, n: nat)
    requires n <= |tasks|
    requires forall i :: 0 <= i < |tasks| ==> Count(schedule, i) <= Length(toc, tasks[i].job, tasks[i].script, t0)
    ensures Moves(schedule, n) <= TotalLength(toc, tasks, t0, n)
  {
    hide Count, Length;
    if n > 0 {
      MovesWithin(toc, t0, tasks, schedule, n - 1);
    }
  }

  /** A cycle takes at most ten dispatcher events per database and five more, and as many worker
      steps as the workers take alone. With `Execution.CanProceed`, every cycle that keeps
      moving returns. */
  lemma CyclesAreBounded(toc: Toc, c: Pool.Config, begun: History.State, events: seq<Execution.Event>)
    requires Execution.JustBegun(begun) && Execution.Matches(c, begun.tasks) && ValidTasks(begun.tasks)
    requires Execution.Exec(toc, c, begun, events).Some?
    ensures |Execution.PoolEvents(events)| <= 10 * |begun.tasks| + 5
    ensures |ScheduleOf(events)| <= TotalLength(toc, begun.tasks, begun.tree, |begun.tasks|)
  {
    ReachableWithin(toc, c, begun, events);
    hide Execution.Exec, Count, Length;
    Execution.RunsThePool(toc, c, begun, events);
    Pool.RunsAreBounded(c, Execution.PoolEvents(events));
    MovesAreSteps(ScheduleOf(events), |begun.tasks|);
    MovesWithin(toc, begun.tree, begun.tasks, ScheduleOf(events), |begun.tasks|);
  }

  // The serial run.

  /** The dispatched prefix dumped one after another from the tree the cycle began with. */
  ghost function SerialRun(toc: Toc, begun: History.State, k: nat): System
    requires k <= |begun.tasks|
  {
    After(toc, begun.tasks, begun.tree, Workers.Serial(toc, begun.tasks, begun.tree, k))
  }

  /** The program's own files below the root. */
  predicate IsOwn(p: Path) {
    p.dir != "" && History.OwnName(p.name)
  }

  /** An own path that no task touches stays as the cycle found it. */
  lemma {:induction false} OwnRestKept(
    toc: Toc, c: Pool.Config, begun: History.State, events: seq<Execution.Event>, p: Path)
    requires Execution.JustBegun(begun) && Execution.Matches(c, begun.tasks) && ValidTasks(begun.tasks)
    requires Execution.Exec(toc, c, begun, events).Some?
    requires IsOwn(p) && Untouched(begun.tasks, p)
    ensures SameAt(begun.tree, Execution.Exec(toc, c, begun, events).value.disk.tree, p)
  {
    hide ValidTasks, Execution.Matches, AllAlone, Execution.Linked, Execution.Enabled, Execution.Apply, Untouched;
    if events != [] {
      var before := events[..|events| - 1];
      OwnRestKept(toc, c, begun, before, p);
      ReachableAlone(toc, c, begun, before);
      Execution.ReachableLinked(toc, c, begun, before);
      var s := Execution.Exec(toc, c, begun, before).value;
      EventKeepsOwn(toc, c, begun.tree, s, ScheduleOf(before), events[|events| - 1], p);
    }
  }

  lemma EventKeepsOwn(
    toc: Toc, c: Pool.Config, t0: Tree, s: Execution.State, schedule: seq<nat>, e: Execution.Event, p: Path)
    requires ValidTasks(s.disk.tasks) && AllAlone(toc, t0, s.disk, schedule) && Execution.Enabled(c, s, e)
    requires IsOwn(p) && Untouched(s.disk.tasks, p)
    ensures SameAt(s.disk.tree, Execution.Apply(toc, c, s, e).disk.tree, p)
  {
    hide StepOf, AloneOf, Count, Touches, History.OwnName, IsTemp, ValidJob, Alike, Pool.Enabled, Pool.Apply;
    if e.Touch? && e.disk.Work? {
      var m := e.disk.worker;
      assert AsIfAlone(toc, s.disk.tasks, t0, System(s.disk.tree, s.disk.pcs), schedule, m);
      assert ValidJob(s.disk.tasks[m].job) && !Touches(s.disk.tasks[m], p);
      StepIsFramed(toc, s.disk.tasks[m], s.disk.tree, s.disk.pcs[m], p);
    }
  }

  /** Where worker i ended is where the serial run ends it, or neither has moved it. */
  lemma SameEnd(toc: Toc, tasks: seq<Task>, t0: Tree, x: System, a: seq<nat>, k: nat, i: nat)
    requires ValidTasks(tasks) && i < |tasks| == |x.pcs| && k <= |tasks|
    requires AsIfAlone(toc, tasks, t0, x, a, i)
    requires if i < k then x.pcs[i].Done? else Count(a, i) == 0
    ensures var b := Workers.Serial(toc, tasks, t0, k);
            && AsIfAlone(toc, tasks, t0, After(toc, tasks, t0, b), b, i)
            && AloneOf(toc, tasks[i], t0, Count(a, i)) == AloneOf(toc, tasks[i], t0, Count(b, i))
  {
    var b := Workers.Serial(toc, tasks, t0, k);
    AfterIsSound(toc, tasks, t0, b);
    SerialCounts(toc, tasks, t0, k, i);
    EndsDone(toc, tasks[i].job, tasks[i].script, t0);
    hide Alone, Length, Count, Alike, OwnDoomed, Workers.Serial, After, RestKept, ValidTasks;
    if i < k {
      DoneAtTheSameWorld(toc, tasks[i], t0, Count(a, i), Count(b, i));
    }
  }

  lemma SerialKeepsOwn(toc: Toc, tasks: seq<Task>, t0: Tree, b: seq<nat>, p: Path)
    requires ValidTasks(tasks) && ValidSchedule(tasks, b) && IsOwn(p) && Untouched(tasks, p)
    ensures SameAt(t0, After(toc, tasks, t0, b).tree, p)
  {
    hide After, Untouched, AsIfAlone, AloneOf, Count, History.OwnName, ValidTasks;
    AfterIsSound(toc, tasks, t0, b);
  }

  /** At its return, a dispatched worker is done and any other has not moved. */
  lemma EndsOrNeverStarts(toc: Toc, c: Pool.Config, begun: History.State, events: seq<Execution.Event>)
    requires Execution.JustBegun(begun) && Execution.Matches(c, begun.tasks) && ValidTasks(begun.tasks)
    requires Execution.Exec(toc, c, begun, events).Some?
    requires Execution.Exec(toc, c, begun, events).value.pool.pc == Pool.Returned
    ensures var s := Execution.Exec(toc, c, begun, events).value;
            && s.disk.tasks == begun.tasks && |s.disk.pcs| == |begun.tasks| && s.pool.next <= |begun.tasks|
            && (forall i :: 0 <= i < |begun.tasks| ==>
                  if i < s.pool.next then s.disk.pcs[i].Done? else Count(ScheduleOf(events), i) == 0)
            && (!s.pool.cancelled ==> s.pool.next == |begun.tasks|)
  {
    ReachableWithin(toc, c, begun, events);
    hide Execution.Exec, Pool.Exec, Count, Length, ValidTasks;
    Execution.ReachableLinked(toc, c, begun, events);
    Execution.RunsThePool(toc, c, begun, events);
    Pool.ReturnedIsComplete(c, Execution.PoolEvents(events));
  }

  /** Whatever the dispatcher, the workers, a cancellation and other programs did, when the pool
      returns every worker stands where the serial run of the dispatched prefix leaves it, and
      every file of the program's own is the one that run leaves. Without a cancellation the
      prefix is the whole list. */
  lemma CycleIsSerial(toc: Toc, c: Pool.Config, begun: History.State, events: seq<Execution.Event>)
    requires Execution.JustBegun(begun) && Execution.Matches(c, begun.tasks) && ValidTasks(begun.tasks)
    requires Execution.Exec(toc, c, begun, events).Some?
    requires Execution.Exec(toc, c, begun, events).value.pool.pc == Pool.Returned
    ensures var s := Execution.Exec(toc, c, begun, events).value;
            && s.pool.next <= |begun.tasks| && (!s.pool.cancelled ==> s.pool.next == |begun.tasks|)
            && var serial := SerialRun(toc, begun, s.pool.next);
               && s.disk.pcs == serial.pcs
               && forall p :: IsOwn(p) ==> SameAt(s.disk.tree, serial.tree, p)
  {
    EndsOrNeverStarts(toc, c, begun, events);
    ReachableAlone(toc, c, begun, events);
    hide Execution.Exec, ValidTasks, Execution.Matches, History.OwnName;
    hide AsIfAlone, AloneOf, Count, Touches, After, Workers.Serial;
    var s := Execution.Exec(toc, c, begun, events).value;
    var tasks, t0, a, x := begun.tasks, begun.tree, ScheduleOf(events), System(s.disk.tree, s.disk.pcs);
    var b := Workers.Serial(toc, tasks, t0, s.pool.next);
    var y := After(toc, tasks, t0, b);
    forall i | 0 <= i < |tasks|
      ensures AsIfAlone(toc, tasks, t0, y, b, i)
      ensures AloneOf(toc, tasks[i], t0, Count(a, i)) == AloneOf(toc, tasks[i], t0, Count(b, i))
      ensures s.disk.pcs[i] == y.pcs[i]
    {
      SameEnd(toc, tasks, t0, x, a, s.pool.next, i);
      AgreeOnTouched(toc, tasks, t0, x, a, y, b, i);
    }
    forall p | IsOwn(p)
      ensures SameAt(s.disk.tree, y.tree, p)
    {
      if i :| 0 <= i < |tasks| && Touches(tasks[i], p) {
        AgreeOnTouched(toc, tasks, t0, x, a, y, b, i);
      } else {
        OwnRestKept(toc, c, begun, events, p);
        SerialKeepsOwn(toc, tasks, t0, b, p);
      }
    }
  }

  /** When no other program wrote in between, the whole tree is the serial run's. */
  lemma {:induction false} NoOutsideIsAfter(
    toc: Toc, c: Pool.Config, begun: History.State, events: seq<Execution.Event>)
    requires Execution.JustBegun(begun) && Execution.Matches(c, begun.tasks) && ValidTasks(begun.tasks)
    requires Execution.Exec(toc, c, begun, events).Some?
    requires forall n :: 0 <= n < |events| ==> !Execution.IsOutside(events[n])
    ensures ValidSchedule(begun.tasks, ScheduleOf(events))
    ensures var s := Execution.Exec(toc, c, begun, events).value;
            After(toc, begun.tasks, begun.tree, ScheduleOf(events)) == System(s.disk.tree, s.disk.pcs)
  {
    hide ValidTasks, Execution.Matches, Execution.Linked, Pool.Enabled, Pool.Apply, StepOf;
    if events != [] {
      var before, e := events[..|events| - 1], events[|events| - 1];
      assert forall n :: 0 <= n < |before| ==> before[n] == events[n];
      assert !Execution.IsOutside(e);
      NoOutsideIsAfter(toc, c, begun, before);
      Execution.ReachableLinked(toc, c, begun, before);
      if e.Touch? {
        assert ScheduleOf(events) == ScheduleOf(before) + [e.disk.worker];
        assert ScheduleOf(events)[..|ScheduleOf(before)|] == ScheduleOf(before);
      } else {
        assert ScheduleOf(events) == ScheduleOf(before);
      }
    }
  }

  /** And then nothing else on disk differs either: the tree at the pool's return is the one the
      serial run of the dispatched prefix leaves. */
  lemma UndisturbedCycleIsSerial(toc: Toc, c: Pool.Config, begun: History.State, events: seq<Execution.Event>)
    requires Execution.JustBegun(begun) && Execution.Matches(c, begun.tasks) && ValidTasks(begun.tasks)
    requires Execution.Exec(toc, c, begun, events).Some?
    requires Execution.Exec(toc, c, begun, events).value.pool.pc == Pool.Returned
    requires forall n :: 0 <= n < |events| ==> !Execution.IsOutside(events[n])
    ensures var s := Execution.Exec(toc, c, begun, events).value;
            s.pool.next <= |begun.tasks| && s.disk.tree == SerialRun(toc, begun, s.pool.next).tree
  {
    EndsOrNeverStarts(toc, c, begun, events);
    NoOutsideIsAfter(toc, c, begun, events);
    hide Execution.Exec, ValidTasks, Execution.Matches, Sound, AloneOf, Count, After, Workers.Serial;
    var s := Execution.Exec(toc, c, begun, events).value;
    var tasks, t0, a := begun.tasks, begun.tree, ScheduleOf(events);
    var b := Workers.Serial(toc, tasks, t0, s.pool.next);
    ReachableAlone(toc, c, begun, events);
    forall i | 0 <= i < |tasks|
      ensures AloneOf(toc, tasks[i], t0, Count(a, i)) == AloneOf(toc, tasks[i], t0, Count(b, i))
    {
      SameEnd(toc, tasks, t0, System(s.disk.tree, s.disk.pcs), a, s.pool.next, i);
    }
    AfterIsSound(toc, tasks, t0, a);
    AfterIsSound(toc, tasks, t0, b);
    SoundSystemsAgree(toc, tasks, t0, After(toc, tasks, t0, a), a, After(toc, tasks, t0, b), b);
  }

  /** At the pool's return a task's staging file is on disk if and only if the task was
      dispatched, created the file, no commit renamed it, and its cleanup failed. When every
      cleanup works, a cycle leaves no staging file. */
  lemma StagingAfterCycle(toc: Toc, c: Pool.Config, begun: History.State, events: seq<Execution.Event>, i: nat)
    requires Execution.JustBegun(begun) && Execution.Matches(c, begun.tasks) && ValidTasks(begun.tasks)
    requires Execution.Exec(toc, c, begun, events).Some?
    requires Execution.Exec(toc, c, begun, events).value.pool.pc == Pool.Returned
    requires i < |begun.tasks| && TempPath(begun.tasks[i].job, begun.tasks[i].script) !in begun.tree
    ensures var s, j, script := Execution.Exec(toc, c, begun, events).value, begun.tasks[i].job, begun.tasks[i].script;
            TempPath(j, script) in s.disk.tree
            <==> && i < s.pool.next && Effects.Created(j, script, begun.tree)
                 && !Effects.Renamed(toc, j, script, begun.tree) && !script.cleanupOk
  {
    EndsOrNeverStarts(toc, c, begun, events);
    ReachableAlone(toc, c, begun, events);
    hide Execution.Exec, Execution.Matches, Count, OwnDoomed, Effects.Created, Effects.Renamed, IsFinal, IsTemp;
    var s, task, schedule := Execution.Exec(toc, c, begun, events).value, begun.tasks[i], ScheduleOf(events);
    var k := Count(schedule, i);
    assert AsIfAlone(toc, begun.tasks, begun.tree, System(s.disk.tree, s.disk.pcs), schedule, i);
    assert Touches(task, TempPath(task.job, task.script));
    if i < s.pool.next {
      hide Alone;
      Effects.StagingFileIff(toc, task.job, task.script, begun.tree, k);
    }
  }

  /** How many of the program's own events a cycle has still before it, at most. */
  ghost function Budget(toc: Toc, begun: History.State, events: seq<Execution.Event>): int {
    10 * |begun.tasks| + 5 + TotalLength(toc, begun.tasks, begun.tree, |begun.tasks|)
      - |Execution.PoolEvents(events)| - |ScheduleOf(events)|
  }

  lemma OneEventLess(toc: Toc, begun: History.State, events: seq<Execution.Event>, e: Execution.Event)
    requires !Execution.IsOutside(e) && (e.Touch? ==> e.disk.Work?)
    ensures Budget(toc, begun, events + [e]) == Budget(toc, begun, events) - 1
  {
    hide TotalLength;
    assert (events + [e])[..|events|] == events;
  }

  lemma {:induction false} CycleCanReturnFrom(
    toc: Toc, c: Pool.Config, begun: History.State, events: seq<Execution.Event>) returns (more: seq<Execution.Event>)
    requires Execution.JustBegun(begun) && Execution.Matches(c, begun.tasks) && ValidTasks(begun.tasks)
    requires c.permits >= 1 && Execution.Exec(toc, c, begun, events).Some?
    ensures Execution.Exec(toc, c, begun, events + more).Some?
    ensures Execution.Exec(toc, c, begun, events + more).value.pool.pc == Pool.Returned
    ensures forall n :: 0 <= n < |more| ==> !Execution.IsOutside(more[n])
    ensures Execution.NeverCanceled(begun.tasks) ==>
      forall n :: 0 <= n < |more| ==> more[n] != Execution.Coordinate(Pool.Cancel)
    decreases 10 * |begun.tasks| + 5 + TotalLength(toc, begun.tasks, begun.tree, |begun.tasks|)
              - |Execution.PoolEvents(events)| - |ScheduleOf(events)|
  {
    hide ValidTasks, Execution.Matches, Execution.Enabled, Execution.Apply, Execution.NeverCanceled, TotalLength;
    CyclesAreBounded(toc, c, begun, events);
    if Execution.Exec(toc, c, begun, events).value.pool.pc == Pool.Returned {
      more := [];
      assert events + [] == events;
    } else {
      Execution.CanProceed(toc, c, begun, events);
      var e :| Execution.Enabled(c, Execution.Exec(toc, c, begun, events).value, e) && !Execution.IsOutside(e)
               && (Execution.NeverCanceled(begun.tasks) ==> e != Execution.Coordinate(Pool.Cancel));
      assert (events + [e])[..|events|] == events;
      EnabledTouch(c, Execution.Exec(toc, c, begun, events).value, e);
      OneEventLess(toc, begun, events, e);
      CyclesAreBounded(toc, c, begun, events + [e]);
      var rest := CycleCanReturnFrom(toc, c, begun, events + [e]);
      more := [e] + rest;
      assert events + more == events + [e] + rest;
    }
  }

  lemma EnabledTouch(c: Pool.Config, s: Execution.State, e: Execution.Event)
    requires Execution.Enabled(c, s, e) && !Execution.IsOutside(e)
    ensures e.Touch? ==> e.disk.Work?
  {
  }

  /** Every cycle that has begun can run to the pool's return without any other program's help,
      and without a cancellation when no gate reports one. */
  lemma CycleCanReturn(toc: Toc, c: Pool.Config, begun: History.State) returns (events: seq<Execution.Event>)
    requires Execution.JustBegun(begun) && Execution.Matches(c, begun.tasks) && ValidTasks(begun.tasks)
    requires c.permits >= 1
    ensures Execution.Exec(toc, c, begun, events).Some?
    ensures Execution.Exec(toc, c, begun, events).value.pool.pc == Pool.Returned
    ensures Execution.NeverCanceled(begun.tasks) ==>
      forall n :: 0 <= n < |events| ==> events[n] != Execution.Coordinate(Pool.Cancel)
  {
    assert Execution.Exec(toc, c, begun, []).Some?;
    events := CycleCanReturnFrom(toc, c, begun, []);
    assert [] + events == events;
  }

  /** From every state of every history, once the cycle at hand has stopped, be it by its end or by
      a crash, a next one can begin over any valid tasks whose staging names are free. */
  lemma CycleCanBegin(
    toc: Toc, t0: Tree, past: seq<History.Event>, tasks: seq<Task>, swept: set<Path>)
    requires History.Exec(toc, t0, past).Some? && ValidTasks(tasks)
    requires var tree := History.Exec(toc, t0, past).value.tree;
             && (forall p :: p in swept ==> IsFile(tree, p) && IsTemp(p.name))
             && forall i :: 0 <= i < |tasks| ==> TempPath(tasks[i].job, tasks[i].script) !in tree
    ensures History.Exec(toc, t0, past + [History.Stop]).Some?
    ensures History.Exec(toc, t0, past + [History.Stop, History.Begin(tasks, swept)]).Some?
  {
    hide ValidTasks, IsTemp;
    var stopped := past + [History.Stop];
    assert stopped[..|past|] == past;
    var begun := past + [History.Stop, History.Begin(tasks, swept)];
    assert begun[..|begun| - 1] == stopped && begun[|begun| - 1] == History.Begin(tasks, swept);
  }

  /** Other programs may write files of their own at any time. */
  lemma OthersMayWrite(s: History.State, p: Path, bytes: Content)
    requires WellNamed(s.tree) && p.dir != "" && p.name != "" && '/' !in p.name && !History.OwnName(p.name)
    ensures History.Enabled(s, History.Outside(s.tree[p := File(bytes)]))
  {
    hide History.OwnName;
  }
}
