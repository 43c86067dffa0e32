/** The workers of one cycle side by side: whatever the interleaving of their steps, each
    sees the directory as if it ran alone, and the directory ends up as if they had run one
    after another in spec order (internal/dump/dump.go, internal/dump/verify.go). */
module Workers {
  import opened Results
  import opened DumpName
  import opened Disk
  import opened Worker

  datatype Task = Task(job: Job, script: Script)

  datatype System = System(tree: Tree, pcs: seq<Pc>)

  /** The tasks of one cycle: distinct databases, distinct fresh staging files. */
  ghost predicate ValidTasks(tasks: seq<Task>) {
    && (forall i :: 0 <= i < |tasks| ==> ValidJob(tasks[i].job) && IsTemp(tasks[i].script.temp))
    && (forall i, k | 0 <= i < |tasks| && 0 <= k < |tasks| && i != k ::
          && (tasks[i].job.server != tasks[k].job.server || tasks[i].job.dbname != tasks[k].job.dbname)
          && (tasks[i].job.server != tasks[k].job.server || tasks[i].script.temp != tasks[k].script.temp))
  }

  ghost predicate ValidSchedule(tasks: seq<Task>, schedule: seq<nat>) {
    forall n :: 0 <= n < |schedule| ==> schedule[n] < |tasks|
  }

  ghost function StepOf(toc: Toc, task: Task, w: World): World {
    Step(toc, task.job, task.script, w)
  }

  ghost function AloneOf(toc: Toc, task: Task, t0: Tree, k: nat): World {
    Alone(toc, task.job, task.script, t0, k)
  }

  /** Worker i moves. */
  ghost function Move(toc: Toc, tasks: seq<Task>, sys: System, i: nat): System
    requires i < |tasks| == |sys.pcs|
  {
    var w := StepOf(toc, tasks[i], World(sys.tree, sys.pcs[i]));
    System(w.tree, sys.pcs[i := w.pc])
  }

  /** The system after a schedule: the order in which the workers took their steps. */
  ghost function After(toc: Toc, tasks: seq<Task>, t0: Tree, schedule: seq<nat>): (sys: System)
    requires ValidSchedule(tasks, schedule)
    ensures |sys.pcs| == |tasks|
  {
    if schedule == [] then System(t0, seq(|tasks|, i => Probing)) else
    Move(toc, tasks, After(toc, tasks, t0, schedule[..|schedule| - 1]), schedule[|schedule| - 1])
  }

  function Count(schedule: seq<nat>, i: nat): nat {
    if schedule == [] then 0
    else Count(schedule[..|schedule| - 1], i) + (if schedule[|schedule| - 1] == i then 1 else 0)
  }

  // Who touches what.

  /** The paths a worker reads and writes, besides its server directory's root entry. */
  ghost predicate Touches(task: Task, p: Path) {
    p.dir == task.job.server && (p.name == task.script.temp || IsFinal(task.job.dbname, p.name))
  }

  /** Two trees a worker cannot tell apart. */
  ghost predicate Alike(task: Task, t: Tree, u: Tree) {
    && (forall p :: Touches(task, p) ==> SameAt(t, u, p))
    && (IsFile(t, RootEntry(task.job.server)) <==> IsFile(u, RootEntry(task.job.server)))
  }

  lemma AlikeDoomed(task: Task, t: Tree, u: Tree)
    requires Alike(task, t, u)
    ensures Doomed(t, task.job) == Doomed(u, task.job)
  {
    var dir, db := task.job.server, task.job.dbname;
    forall name
      ensures name in Copies(t, dir, db) <==> name in Copies(u, dir, db)
    {
      CopiesMembers(t, dir, db, name);
      CopiesMembers(u, dir, db, name);
      assert IsCopy(db, name) ==> Touches(task, Path(dir, name));
    }
    assert Copies(t, dir, db) == Copies(u, dir, db);
  }

  /** The names a removal step can name are the worker's own copies. */
  ghost predicate OwnDoomed(task: Task, pc: Pc) {
    match pc
    case Removing(_, doomed, _) => forall n :: 0 <= n < |doomed| ==> IsCopy(task.job.dbname, doomed[n])
    case _ => true
  }

  lemma DoomedAreCopies(t: Tree, j: Job)
    ensures forall n :: 0 <= n < |Doomed(t, j)| ==> IsCopy(j.dbname, Doomed(t, j)[n])
    ensures forall n :: 0 <= n < |Doomed(t, j)| ==> Doomed(t, j)[n] in Copies(t, j.server, j.dbname)
  {
    var names := InOrder(Copies(t, j.server, j.dbname));
    forall n | 0 <= n < |Doomed(t, j)|
      ensures Doomed(t, j)[n] in Copies(t, j.server, j.dbname) && IsCopy(j.dbname, Doomed(t, j)[n])
    {
      assert Doomed(t, j)[n] == names[n] && names[n] in names;
    }
  }

  /** Everything a worker's choice depends on. */
  ghost predicate SameView(task: Task, t: Tree, u: Tree) {
    var j, s := task.job, task.script;
    && (IsFile(t, RootEntry(j.server)) <==> IsFile(u, RootEntry(j.server)))
    && SameAt(t, u, TargetPath(j))
    && Staged(t, j, s) == Staged(u, j, s)
    && Doomed(t, j) == Doomed(u, j)
  }

  lemma AlikeLooksTheSame(task: Task, t: Tree, u: Tree)
    requires ValidJob(task.job) && Alike(task, t, u)
    ensures SameView(task, t, u)
  {
    assert SameAt(t, u, TempPath(task.job, task.script)) && SameAt(t, u, TargetPath(task.job));
    AlikeDoomed(task, t, u);
    hide Doomed;
  }

  lemma ChoiceIsLocal(toc: Toc, task: Task, t: Tree, u: Tree, pc: Pc)
    requires SameView(task, t, u)
    ensures StepOf(toc, task, World(t, pc)).pc == StepOf(toc, task, World(u, pc)).pc
  {
    hide Doomed, IsFile, Staged, AbortOr, Classify;
  }

  lemma StepKeepsOwnDoomed(toc: Toc, task: Task, t: Tree, pc: Pc)
    requires OwnDoomed(task, pc)
    ensures OwnDoomed(task, StepOf(toc, task, World(t, pc)).pc)
  {
    DoomedAreCopies(t, task.job);
    hide Doomed, IsCopy, Staged;
  }

  lemma EffectIsLocal(toc: Toc, task: Task, t: Tree, u: Tree, pc: Pc, p: Path)
    requires ValidJob(task.job) && Alike(task, t, u) && Touches(task, p)
    ensures SameAt(StepOf(toc, task, World(t, pc)).tree, StepOf(toc, task, World(u, pc)).tree, p)
  {
    StagingSame(task, t, u);
    assert SameAt(t, u, p) && SameAt(t, u, TargetPath(task.job));
    hide Doomed, Touches, Alike, Staged, AbortOr, Classify, ValidJob, IsFile;
  }

  lemma StagingSame(task: Task, t: Tree, u: Tree)
    requires ValidJob(task.job) && Alike(task, t, u)
    ensures SameAt(t, u, TempPath(task.job, task.script)) && SameAt(t, u, TargetPath(task.job))
    ensures Staged(t, task.job, task.script) == Staged(u, task.job, task.script)
    ensures IsFile(t, RootEntry(task.job.server)) <==> IsFile(u, RootEntry(task.job.server))
  {
    assert Touches(task, TempPath(task.job, task.script)) && Touches(task, TargetPath(task.job));
  }

  lemma RootIsLocal(toc: Toc, task: Task, t: Tree, u: Tree, pc: Pc)
    requires ValidJob(task.job) && Alike(task, t, u)
    ensures var r := RootEntry(task.job.server);
            IsFile(StepOf(toc, task, World(t, pc)).tree, r) <==> IsFile(StepOf(toc, task, World(u, pc)).tree, r)
  {
    hide Doomed, Touches;
  }

  /** A worker's next move depends only on what it touches. */
  lemma StepIsLocal(toc: Toc, task: Task, t: Tree, u: Tree, pc: Pc)
    requires ValidJob(task.job) && Alike(task, t, u) && OwnDoomed(task, pc)
    ensures StepOf(toc, task, World(t, pc)).pc == StepOf(toc, task, World(u, pc)).pc
    ensures OwnDoomed(task, StepOf(toc, task, World(t, pc)).pc)
    ensures Alike(task, StepOf(toc, task, World(t, pc)).tree, StepOf(toc, task, World(u, pc)).tree)
  {
    AlikeLooksTheSame(task, t, u);
    ChoiceIsLocal(toc, task, t, u, pc);
    StepKeepsOwnDoomed(toc, task, t, pc);
    RootIsLocal(toc, task, t, u, pc);
    hide StepOf;
    forall p | Touches(task, p)
      ensures SameAt(StepOf(toc, task, World(t, pc)).tree, StepOf(toc, task, World(u, pc)).tree, p)
    {
      EffectIsLocal(toc, task, t, u, pc, p);
    }
  }

  /** A worker's move leaves every other path alone, except that it may create its server
      directory where nothing was. */
  lemma StepIsFramed(toc: Toc, task: Task, t: Tree, pc: Pc, p: Path)
    requires ValidJob(task.job) && OwnDoomed(task, pc) && !Touches(task, p)
    ensures var u := StepOf(toc, task, World(t, pc)).tree;
            if p == RootEntry(task.job.server) && pc.MakingDir? && task.script.mkdirOk && !IsFile(t, p)
            then p in u && u[p] == Dir
            else SameAt(t, u, p)
  {
    hide Doomed;
  }

  /** No path is touched by two workers, and none touches a root entry. */
  lemma TouchedByOne(tasks: seq<Task>, i: nat, k: nat, p: Path)
    requires ValidTasks(tasks) && i < |tasks| && k < |tasks| && i != k && Touches(tasks[i], p)
    ensures !Touches(tasks[k], p) && p != RootEntry(tasks[k].job.server)
  {
    var a, b := tasks[i], tasks[k];
    TempIsNoDump(a.script.temp);
    TempIsNoDump(b.script.temp);
    if Touches(b, p) && IsFinal(a.job.dbname, p.name) && IsFinal(b.job.dbname, p.name) {
      FinalNamesDisjoint(a.job.dbname, b.job.dbname, p.name);
    }
  }

  // What every interleaving keeps.

  /** Worker i is exactly where it would be alone, and cannot tell the difference. */
  ghost predicate AsIfAlone(toc: Toc, tasks: seq<Task>, t0: Tree, sys: System, schedule: seq<nat>, i: nat)
    requires i < |tasks| == |sys.pcs|
  {
    var w := AloneOf(toc, tasks[i], t0, Count(schedule, i));
    && sys.pcs[i] == w.pc && OwnDoomed(tasks[i], w.pc)
    && Alike(tasks[i], sys.tree, w.tree)
  }

  /** Some worker, alone, would have created this directory by now. */
  ghost predicate MadeBySome(toc: Toc, tasks: seq<Task>, t0: Tree, schedule: seq<nat>, p: Path) {
    exists i :: 0 <= i < |tasks| && p == RootEntry(tasks[i].job.server)
                && p in AloneOf(toc, tasks[i], t0, Count(schedule, i)).tree
  }

  ghost predicate Untouched(tasks: seq<Task>, p: Path) {
    forall i :: 0 <= i < |tasks| ==> !Touches(tasks[i], p)
  }

  /** A path nobody touches keeps its first node; a missing one can only have become a
      server directory made by a worker. */
  ghost predicate RestKept(toc: Toc, tasks: seq<Task>, t0: Tree, sys: System, schedule: seq<nat>) {
    forall p :: Untouched(tasks, p) ==>
      if p in t0 then p in sys.tree && sys.tree[p] == t0[p]
      else (p in sys.tree <==> MadeBySome(toc, tasks, t0, schedule, p)) && (p in sys.tree ==> sys.tree[p] == Dir)
  }

  ghost predicate Sound(toc: Toc, tasks: seq<Task>, t0: Tree, sys: System, schedule: seq<nat>) {
    && |sys.pcs| == |tasks|
    && (forall i :: 0 <= i < |tasks| ==> AsIfAlone(toc, tasks, t0, sys, schedule, i))
    && RestKept(toc, tasks, t0, sys, schedule)
  }

  /** The mover itself. */
  lemma MoveKeepsMover(toc: Toc, tasks: seq<Task>, t0: Tree, sys: System, before: seq<nat>, m: nat)
    requires ValidTasks(tasks) && m < |tasks| == |sys.pcs| && AsIfAlone(toc, tasks, t0, sys, before, m)
    ensures AsIfAlone(toc, tasks, t0, Move(toc, tasks, sys, m), before + [m], m)
  {
    hide StepOf, AloneOf, Alike, ValidJob;
    CountMore(before, m, m);
    AloneMoves(toc, tasks[m], t0, Count(before, m));
    StepIsLocal(toc, tasks[m], sys.tree, AloneOf(toc, tasks[m], t0, Count(before, m)).tree, sys.pcs[m]);
  }

  lemma CountMore(before: seq<nat>, m: nat, i: nat)
    ensures Count(before + [m], i) == Count(before, i) + (if m == i then 1 else 0)
  {
    assert (before + [m])[..|before|] == before;
  }

  /** A move shows nothing to another worker. */
  lemma MoveIsAlike(toc: Toc, tasks: seq<Task>, sys: System, m: nat, i: nat)
    requires ValidTasks(tasks) && m < |tasks| && i < |tasks| == |sys.pcs| && i != m
    requires OwnDoomed(tasks[m], sys.pcs[m])
    ensures Alike(tasks[i], sys.tree, Move(toc, tasks, sys, m).tree)
  {
    hide StepOf, OwnDoomed, IsFinal, IsTemp;
    var next := Move(toc, tasks, sys, m);
    forall p | Touches(tasks[i], p)
      ensures SameAt(sys.tree, next.tree, p)
    {
      TouchedByOne(tasks, i, m, p);
      StepIsFramed(toc, tasks[m], sys.tree, sys.pcs[m], p);
    }
    RootIsUntouched(tasks[m], tasks[i]);
    StepIsFramed(toc, tasks[m], sys.tree, sys.pcs[m], RootEntry(tasks[i].job.server));
  }

  lemma RootIsUntouched(mover: Task, other: Task)
    requires ValidJob(mover.job)
    ensures !Touches(mover, RootEntry(other.job.server))
  {
  }

  lemma AlikeTwice(task: Task, t: Tree, u: Tree, v: Tree)
    requires Alike(task, t, u) && Alike(task, t, v)
    ensures Alike(task, v, u)
  {
    hide Touches;
  }

  lemma MoveKeepsAlone(toc: Toc, tasks: seq<Task>, t0: Tree, sys: System, before: seq<nat>, m: nat, i: nat)
    requires ValidTasks(tasks) && m < |tasks| && i < |tasks| == |sys.pcs|
    requires AsIfAlone(toc, tasks, t0, sys, before, i) && AsIfAlone(toc, tasks, t0, sys, before, m)
    ensures AsIfAlone(toc, tasks, t0, Move(toc, tasks, sys, m), before + [m], i)
  {
    hide ValidTasks, AloneOf, StepOf, OwnDoomed, Alike, Count;
    if i == m {
      MoveKeepsMover(toc, tasks, t0, sys, before, m);
    } else {
      CountMore(before, m, i);
      MoveIsAlike(toc, tasks, sys, m, i);
      AlikeTwice(tasks[i], sys.tree, AloneOf(toc, tasks[i], t0, Count(before, i)).tree, Move(toc, tasks, sys, m).tree);
    }
  }

  lemma AloneMoves(toc: Toc, task: Task, t0: Tree, k: nat)
    ensures AloneOf(toc, task, t0, k + 1) == StepOf(toc, task, AloneOf(toc, task, t0, k))
  {
    hide Step;
  }

  lemma MoveKeepsRestAt(toc: Toc, tasks: seq<Task>, t0: Tree, sys: System, before: seq<nat>, m: nat, p: Path)
    requires ValidTasks(tasks) && m < |tasks| && Sound(toc, tasks, t0, sys, before) && Untouched(tasks, p)
    ensures var next := Move(toc, tasks, sys, m);
            if p in t0 then p in next.tree && next.tree[p] == t0[p]
            else && (p in next.tree <==> MadeBySome(toc, tasks, t0, before + [m], p))
                 && (p in next.tree ==> next.tree[p] == Dir)
  {
    hide StepOf, MadeBySome, AloneOf, Count, Touches, OwnDoomed, ValidJob;
    assert AsIfAlone(toc, tasks, t0, sys, before, m) && ValidJob(tasks[m].job) && !Touches(tasks[m], p);
    var alone := AloneOf(toc, tasks[m], t0, Count(before, m));
    CountMore(before, m, m);
    AloneMoves(toc, tasks[m], t0, Count(before, m));
    StepIsFramed(toc, tasks[m], sys.tree, sys.pcs[m], p);
    StepIsFramed(toc, tasks[m], alone.tree, alone.pc, p);
    MadeBefore(toc, tasks, t0, before, m, p);
  }

  lemma MoveKeepsRest(toc: Toc, tasks: seq<Task>, t0: Tree, sys: System, before: seq<nat>, m: nat)
    requires ValidTasks(tasks) && m < |tasks| && Sound(toc, tasks, t0, sys, before)
    ensures RestKept(toc, tasks, t0, Move(toc, tasks, sys, m), before + [m])
  {
    assert |sys.pcs| == |tasks|;
    hide Sound, StepOf, MadeBySome, Touches, Move;
    forall p | Untouched(tasks, p)
      ensures var next := Move(toc, tasks, sys, m);
              if p in t0 then p in next.tree && next.tree[p] == t0[p]
              else && (p in next.tree <==> MadeBySome(toc, tasks, t0, before + [m], p))
                   && (p in next.tree ==> next.tree[p] == Dir)
    {
      MoveKeepsRestAt(toc, tasks, t0, sys, before, m, p);
    }
  }

  /** One more step of worker m changes what has been made only through m's own tree. */
  lemma MadeBefore(toc: Toc, tasks: seq<Task>, t0: Tree, before: seq<nat>, m: nat, p: Path)
    requires m < |tasks|
    ensures p == RootEntry(tasks[m].job.server) && p in AloneOf(toc, tasks[m], t0, Count(before + [m], m)).tree
            ==> MadeBySome(toc, tasks, t0, before + [m], p)
    ensures p == RootEntry(tasks[m].job.server) && p in AloneOf(toc, tasks[m], t0, Count(before, m)).tree
            ==> MadeBySome(toc, tasks, t0, before, p)
    ensures MadeBySome(toc, tasks, t0, before, p)
            ==> MadeBySome(toc, tasks, t0, before + [m], p)
                || (p == RootEntry(tasks[m].job.server) && p in AloneOf(toc, tasks[m], t0, Count(before, m)).tree
                    && p !in AloneOf(toc, tasks[m], t0, Count(before + [m], m)).tree)
    ensures MadeBySome(toc, tasks, t0, before + [m], p)
            ==> MadeBySome(toc, tasks, t0, before, p)
                || (p == RootEntry(tasks[m].job.server) && p in AloneOf(toc, tasks[m], t0, Count(before + [m], m)).tree)
  {
    assert (before + [m])[..|before|] == before;
    assert forall i :: 0 <= i < |tasks| && i != m ==> Count(before + [m], i) == Count(before, i);
    hide AloneOf;
  }

  lemma {:induction false} AfterIsSound(toc: Toc, tasks: seq<Task>, t0: Tree, schedule: seq<nat>)
    requires ValidTasks(tasks) && ValidSchedule(tasks, schedule)
    ensures Sound(toc, tasks, t0, After(toc, tasks, t0, schedule), schedule)
  {
    if schedule == [] {
      assert forall i :: 0 <= i < |tasks| ==> Count(schedule, i) == 0;
    } else {
      var before, m := schedule[..|schedule| - 1], schedule[|schedule| - 1];
      assert before + [m] == schedule;
      AfterIsSound(toc, tasks, t0, before);
      var sys := After(toc, tasks, t0, before);
      forall i | 0 <= i < |tasks|
        ensures AsIfAlone(toc, tasks, t0, After(toc, tasks, t0, schedule), schedule, i)
      {
        MoveKeepsAlone(toc, tasks, t0, sys, before, m, i);
      }
      MoveKeepsRest(toc, tasks, t0, sys, before, m);
    }
  }

  // Serial execution.

  function Repeat(i: nat, n: nat): (r: seq<nat>)
    ensures |r| == n && forall k :: 0 <= k < n ==> r[k] == i
  {
    if n == 0 then [] else Repeat(i, n - 1) + [i]
  }

  /** One worker after another, each to its end, in spec order. */
  ghost function Serial(toc: Toc, tasks: seq<Task>, t0: Tree, upTo: nat): (schedule: seq<nat>)
    requires upTo <= |tasks|
    ensures forall n :: 0 <= n < |schedule| ==> schedule[n] < upTo
    ensures forall m, n | 0 <= m < n < |schedule| :: schedule[m] <= schedule[n]
  {
    if upTo == 0 then [] else
    var last := tasks[upTo - 1];
    Serial(toc, tasks, t0, upTo - 1) + Repeat(upTo - 1, Length(toc, last.job, last.script, t0))
  }

  lemma {:induction false} CountAppend(a: seq<nat>, b: seq<nat>, i: nat)
    ensures Count(a + b, i) == Count(a, i) + Count(b, i)
  {
    if b == [] {
      assert a + b == a;
    } else {
      assert (a + b)[..|a + b| - 1] == a + b[..|b| - 1];
      CountAppend(a, b[..|b| - 1], i);
    }
  }

  lemma {:induction false} CountRepeat(i: nat, n: nat, k: nat)
    ensures Count(Repeat(i, n), k) == if k == i then n else 0
  {
    if n > 0 {
      CountRepeat(i, n - 1, k);
      assert Repeat(i, n)[..n - 1] == Repeat(i, n - 1);
    }
  }

  lemma {:induction false} SerialCounts(toc: Toc, tasks: seq<Task>, t0: Tree, upTo: nat, i: nat)
    requires upTo <= |tasks| && i < |tasks|
    ensures Count(Serial(toc, tasks, t0, upTo), i)
         == if i < upTo then Length(toc, tasks[i].job, tasks[i].script, t0) else 0
  {
    hide Length, Repeat;
    if upTo > 0 {
      var n := Length(toc, tasks[upTo - 1].job, tasks[upTo - 1].script, t0);
      SerialCounts(toc, tasks, t0, upTo - 1, i);
      CountAppend(Serial(toc, tasks, t0, upTo - 1), Repeat(upTo - 1, n), i);
      CountRepeat(upTo - 1, n, i);
    }
  }

  ghost predicate AllDone(sys: System) {
    forall i :: 0 <= i < |sys.pcs| ==> sys.pcs[i].Done?
  }

  /** Running the workers one after another completes them all. */
  lemma SerialCompletes(toc: Toc, tasks: seq<Task>, t0: Tree)
    requires ValidTasks(tasks)
    ensures ValidSchedule(tasks, Serial(toc, tasks, t0, |tasks|))
    ensures AllDone(After(toc, tasks, t0, Serial(toc, tasks, t0, |tasks|)))
  {
    var schedule := Serial(toc, tasks, t0, |tasks|);
    AfterIsSound(toc, tasks, t0, schedule);
    forall i | 0 <= i < |tasks|
      ensures After(toc, tasks, t0, schedule).pcs[i].Done?
    {
      SerialCounts(toc, tasks, t0, |tasks|, i);
      EndsDone(toc, tasks[i].job, tasks[i].script, t0);
      assert AsIfAlone(toc, tasks, t0, After(toc, tasks, t0, schedule), schedule, i);
    }
  }

  lemma DoneAtTheSameWorld(toc: Toc, task: Task, t0: Tree, k: nat, m: nat)
    requires AloneOf(toc, task, t0, k).pc.Done? && AloneOf(toc, task, t0, m).pc.Done?
    ensures AloneOf(toc, task, t0, k) == AloneOf(toc, task, t0, m)
  {
    if k <= m {
      StaysDone(toc, task.job, task.script, t0, k, m);
    } else {
      StaysDone(toc, task.job, task.script, t0, m, k);
    }
  }

  /** Each worker, alone, has got equally far under both schedules. */
  ghost predicate SameWorlds(toc: Toc, tasks: seq<Task>, t0: Tree, a: seq<nat>, b: seq<nat>) {
    forall i :: 0 <= i < |tasks| ==>
      AloneOf(toc, tasks[i], t0, Count(a, i)) == AloneOf(toc, tasks[i], t0, Count(b, i))
  }

  /** Two systems whose workers stand where the same worlds are agree about each worker. */
  lemma AgreeOnTouched(
    toc: Toc, tasks: seq<Task>, t0: Tree, x: System, a: seq<nat>, y: System, b: seq<nat>, i: nat)
    requires i < |tasks| == |x.pcs| == |y.pcs|
    requires AsIfAlone(toc, tasks, t0, x, a, i) && AsIfAlone(toc, tasks, t0, y, b, i)
    requires AloneOf(toc, tasks[i], t0, Count(a, i)) == AloneOf(toc, tasks[i], t0, Count(b, i))
    ensures x.pcs[i] == y.pcs[i]
    ensures forall p :: Touches(tasks[i], p) ==> SameAt(x.tree, y.tree, p)
  {
    hide AloneOf, Touches, Count, OwnDoomed;
  }

  lemma SoundSystemsAgree(toc: Toc, tasks: seq<Task>, t0: Tree, x: System, a: seq<nat>, y: System, b: seq<nat>)
    requires Sound(toc, tasks, t0, x, a) && Sound(toc, tasks, t0, y, b) && SameWorlds(toc, tasks, t0, a, b)
    ensures x == y
  {
    hide AloneOf, Touches, Count, Alike, AsIfAlone;
    forall i | 0 <= i < |tasks|
      ensures x.pcs[i] == y.pcs[i]
      ensures forall p :: Touches(tasks[i], p) ==> SameAt(x.tree, y.tree, p)
    {
      AgreeOnTouched(toc, tasks, t0, x, a, y, b, i);
    }
    forall p
      ensures SameAt(x.tree, y.tree, p)
    {
      assert MadeBySome(toc, tasks, t0, a, p) <==> MadeBySome(toc, tasks, t0, b, p);
    }
    assert x.tree == y.tree;
  }

  /** Any two complete schedules leave the same directory tree and the same results. */
  lemma CompleteSchedulesAgree(toc: Toc, tasks: seq<Task>, t0: Tree, a: seq<nat>, b: seq<nat>)
    requires ValidTasks(tasks) && ValidSchedule(tasks, a) && ValidSchedule(tasks, b)
    requires AllDone(After(toc, tasks, t0, a)) && AllDone(After(toc, tasks, t0, b))
    ensures After(toc, tasks, t0, a) == After(toc, tasks, t0, b)
  {
    AfterIsSound(toc, tasks, t0, a);
    AfterIsSound(toc, tasks, t0, b);
    hide After, Alike, AloneOf, Count, RestKept;
    forall i | 0 <= i < |tasks|
      ensures AloneOf(toc, tasks[i], t0, Count(a, i)) == AloneOf(toc, tasks[i], t0, Count(b, i))
    {
      assert AsIfAlone(toc, tasks, t0, After(toc, tasks, t0, a), a, i);
      assert AsIfAlone(toc, tasks, t0, After(toc, tasks, t0, b), b, i);
      DoneAtTheSameWorld(toc, tasks[i], t0, Count(a, i), Count(b, i));
    }
    SoundSystemsAgree(toc, tasks, t0, After(toc, tasks, t0, a), a, After(toc, tasks, t0, b), b);
  }

  /** Worker independence: every interleaving that runs all workers to their ends leaves the
      tree and the results of running them one after another in spec order. */
  lemma InterleavingIsSerial(toc: Toc, tasks: seq<Task>, t0: Tree, schedule: seq<nat>)
    requires ValidTasks(tasks) && ValidSchedule(tasks, schedule) && AllDone(After(toc, tasks, t0, schedule))
    ensures ValidSchedule(tasks, Serial(toc, tasks, t0, |tasks|))
    ensures After(toc, tasks, t0, schedule) == After(toc, tasks, t0, Serial(toc, tasks, t0, |tasks|))
  {
    SerialCompletes(toc, tasks, t0);
    CompleteSchedulesAgree(toc, tasks, t0, schedule, Serial(toc, tasks, t0, |tasks|));
  }
}
