/** Whole histories of the dump directory: cycles, crashes at any point, restarts with other
    settings, and other programs writing files of their own.

    A history starts idle. A cycle reclaims some staging files and starts its workers, which
    then move one step at a time in any order; it ends, or crashes, at any moment. */
module History {
  import opened Results
  import opened DumpName
  import opened Disk
  import opened Worker
  import opened Workers
  import opened Staging

  /** `launched` is every task any cycle has started so far. */
  datatype State = State(tree: Tree, tasks: seq<Task>, pcs: seq<Pc>, launched: seq<Task>)

  datatype Event =
    | Begin(tasks: seq<Task>, reclaimed: set<Path>)
    | Work(worker: nat)
    | Stop
    | Outside(tree: Tree)

  /** The names the program alone uses: its staging files and everything ending in ".dump". */
  predicate OwnName(name: string) {
    IsTemp(name) || HasSuffix(name, SUFFIX)
  }

  ghost predicate Enabled(s: State, e: Event) {
    match e
    case Begin(tasks, reclaimed) =>
      && s.tasks == [] && ValidTasks(tasks)
      && (forall p :: p in reclaimed ==> IsFile(s.tree, p) && IsTemp(p.name))
      && (forall i :: 0 <= i < |tasks| ==> TempPath(tasks[i].job, tasks[i].script) !in s.tree - reclaimed)
    case Work(i) => i < |s.tasks| && i < |s.pcs|
    case Stop => true
    case Outside(tree) =>
      && WellNamed(tree)
      && (forall p: Path :: OwnName(p.name) ==> SameAt(s.tree, tree, p))
      // a directory that holds the program's files, or is in use, stays
      && (forall p: Path :: OwnName(p.name) && p in s.tree ==> SameAt(s.tree, tree, RootEntry(p.dir)))
      && (forall i :: 0 <= i < |s.tasks| ==> SameAt(s.tree, tree, RootEntry(s.tasks[i].job.server)))
  }

  ghost function Apply(toc: Toc, s: State, e: Event): State
    requires Enabled(s, e)
  {
    match e
    case Begin(tasks, reclaimed) =>
      State(s.tree - reclaimed, tasks, seq(|tasks|, i => Probing), s.launched + tasks)
    case Work(i) =>
      var w := StepOf(toc, s.tasks[i], World(s.tree, s.pcs[i]));
      s.(tree := w.tree, pcs := s.pcs[i := w.pc])
    case Stop => s.(tasks := [], pcs := [])
    case Outside(tree) => s.(tree := tree)
  }

  ghost function Exec(toc: Toc, t0: Tree, events: seq<Event>): Option<State> {
    if events == [] then Some(State(t0, [], [], [])) else
    match Exec(toc, t0, events[..|events| - 1])
    case None => None
    case Some(s) =>
      var e := events[|events| - 1];
      if Enabled(s, e) then Some(Apply(toc, s, e)) else None
  }

  // What every history keeps about its workers.

  ghost predicate TaskSound(toc: Toc, t: Tree, task: Task, pc: Pc) {
    StagedAs(toc, t, task.job, task.script, pc) && OwnDoomed(task, pc)
  }

  ghost predicate WorkersSound(toc: Toc, s: State) {
    && ValidTasks(s.tasks) && |s.pcs| == |s.tasks|
    && (forall i :: 0 <= i < |s.tasks| ==> s.tasks[i] in s.launched && TaskSound(toc, s.tree, s.tasks[i], s.pcs[i]))
  }

  /** A change elsewhere leaves a worker's staged bytes alone. */
  lemma StagedElsewhere(toc: Toc, t: Tree, u: Tree, task: Task, pc: Pc)
    requires TaskSound(toc, t, task, pc)
    requires SameAt(t, u, TempPath(task.job, task.script))
    ensures TaskSound(toc, u, task, pc)
  {
    assert Staged(t, task.job, task.script) == Staged(u, task.job, task.script);
    hide Staged;
  }

  lemma WorkKeepsWorkers(toc: Toc, s: State, i: nat)
    requires WorkersSound(toc, s) && Enabled(s, Work(i))
    ensures WorkersSound(toc, Apply(toc, s, Work(i)))
  {
    hide ValidTasks, TaskSound;
    var next := Apply(toc, s, Work(i));
    forall k | 0 <= k < |s.tasks|
      ensures TaskSound(toc, next.tree, s.tasks[k], next.pcs[k])
    {
      if k == i {
        WorkKeepsTask(toc, s.tree, s.tasks[i], s.pcs[i]);
      } else {
        OtherTempKept(toc, s, i, k);
        StagedElsewhere(toc, s.tree, next.tree, s.tasks[k], s.pcs[k]);
      }
    }
  }

  lemma WorkKeepsTask(toc: Toc, t: Tree, task: Task, pc: Pc)
    requires TaskSound(toc, t, task, pc)
    ensures var w := StepOf(toc, task, World(t, pc)); TaskSound(toc, w.tree, task, w.pc)
  {
    hide Step;
    StepKeepsStaged(toc, t, task.job, task.script, pc);
    StepKeepsOwnDoomed(toc, task, t, pc);
  }

  lemma OtherTempKept(toc: Toc, s: State, i: nat, k: nat)
    requires WorkersSound(toc, s) && i < |s.tasks| && k < |s.tasks| && i != k
    ensures var temp := TempPath(s.tasks[k].job, s.tasks[k].script);
            SameAt(s.tree, StepOf(toc, s.tasks[i], World(s.tree, s.pcs[i])).tree, temp)
  {
    hide StepOf, IsFinal;
    var temp := TempPath(s.tasks[k].job, s.tasks[k].script);
    TouchedByOne(s.tasks, k, i, temp);
    assert TaskSound(toc, s.tree, s.tasks[i], s.pcs[i]);
    StepIsFramed(toc, s.tasks[i], s.tree, s.pcs[i], temp);
  }

  lemma StepKeepsWorkers(toc: Toc, s: State, e: Event)
    requires WorkersSound(toc, s) && Enabled(s, e)
    ensures WorkersSound(toc, Apply(toc, s, e))
  {
    match e
    case Work(i) => WorkKeepsWorkers(toc, s, i);
    case Outside(tree) =>
      forall k | 0 <= k < |s.tasks|
        ensures TaskSound(toc, tree, s.tasks[k], s.pcs[k])
      {
        assert TaskSound(toc, s.tree, s.tasks[k], s.pcs[k]);
        StagedElsewhere(toc, s.tree, tree, s.tasks[k], s.pcs[k]);
      }
    case Begin(tasks, reclaimed) => hide Staged;
    case Stop =>
  }

  // Names stay single components.

  lemma TempIsComponent(name: string)
    requires IsTemp(name)
    ensures name != "" && '/' !in name
  {
    var n := |name| - |TEMP_SUFFIX|;
    forall i | 0 <= i < |name|
      ensures name[i] != '/'
    {
      if i < |TEMP_PREFIX| {
        assert name[i] == TEMP_PREFIX[i];
      } else if i < n {
        assert name[i] == name[|TEMP_PREFIX|..n][i - |TEMP_PREFIX|];
      } else {
        assert name[i] == name[n..][i - n];
      }
    }
  }

  lemma WorkKeepsNames(toc: Toc, t: Tree, task: Task, pc: Pc)
    requires ValidJob(task.job) && IsTemp(task.script.temp) && WellNamed(t)
    ensures WellNamed(StepOf(toc, task, World(t, pc)).tree)
  {
    TempIsComponent(task.script.temp);
    TargetIsNamed(task.job);
    hide IsTemp, IsFinal, IsDatabase, Doomed, AbortOr, Classify, Staged;
  }

  lemma TargetIsNamed(j: Job)
    requires ValidJob(j)
    ensures j.target != ""
  {
    FinalStart(j.dbname, j.target);
  }

  /** In every history names stay single components, so a sweep can always tell its
      directories apart. */
  lemma {:induction false} ReachableWellNamed(toc: Toc, t0: Tree, events: seq<Event>)
    requires WellNamed(t0) && Exec(toc, t0, events).Some?
    ensures WellNamed(Exec(toc, t0, events).value.tree)
  {
    hide WellNamed, StepOf, WorkersSound, AllAccounted;
    if events != [] {
      var before := events[..|events| - 1];
      ReachableWellNamed(toc, t0, before);
      ReachableSound(toc, t0, before);
      StepKeepsNames(toc, Exec(toc, t0, before).value, events[|events| - 1]);
    }
  }

  lemma StepKeepsNames(toc: Toc, s: State, e: Event)
    requires WorkersSound(toc, s) && WellNamed(s.tree) && Enabled(s, e)
    ensures WellNamed(Apply(toc, s, e).tree)
  {
    hide StepOf, TaskSound, IsTemp, ValidJob;
    match e
    case Work(i) => WorkKeepsNames(toc, s.tree, s.tasks[i], s.pcs[i]);
    case Begin(tasks, reclaimed) =>
    case Outside(tree) =>
    case Stop =>
  }

  // Verify before replace, over histories.

  /** The bytes of a clean dump that verified, put there by a launched task under its own
      target. */
  ghost predicate PutBy(toc: Toc, p: Path, node: Node, task: Task) {
    && p == TargetPath(task.job)
    && CleanDump(task.script) && Verified(toc, Flatten(task.script.chunks))
    && node == File(Flatten(task.script.chunks))
  }

  ghost predicate Accounted(toc: Toc, t0: Tree, s: State, p: Path)
    requires p in s.tree
  {
    (p in t0 && t0[p] == s.tree[p]) || exists task :: task in s.launched && PutBy(toc, p, s.tree[p], task)
  }

  /** Every file with a dump's name was there at the start, or holds a verified dump. */
  ghost predicate AllAccounted(toc: Toc, t0: Tree, s: State) {
    forall p :: p in s.tree && HasSuffix(p.name, SUFFIX) && s.tree[p].File? ==> Accounted(toc, t0, s, p)
  }

  /** A worker's step changes a node under a dump's name only by removing it or by putting its
      verified dump there. */
  lemma WorkAccounts(toc: Toc, t: Tree, task: Task, pc: Pc, p: Path)
    requires TaskSound(toc, t, task, pc) && IsTemp(task.script.temp) && HasSuffix(p.name, SUFFIX)
    ensures var u := StepOf(toc, task, World(t, pc)).tree;
            p in u && u[p].File? ==> (p in t && u[p] == t[p]) || PutBy(toc, p, u[p], task)
  {
    TempIsNoDump(task.script.temp);
    hide HasSuffix, IsTemp, Doomed, AbortOr, Classify, Flatten, IsFinal;
  }

  lemma StepKeepsAccounts(toc: Toc, t0: Tree, s: State, e: Event)
    requires WorkersSound(toc, s) && AllAccounted(toc, t0, s) && Enabled(s, e)
    ensures AllAccounted(toc, t0, Apply(toc, s, e))
  {
    hide HasSuffix, IsTemp, PutBy, StepOf, StagedAs;
    var next := Apply(toc, s, e);
    forall p | p in next.tree && HasSuffix(p.name, SUFFIX) && next.tree[p].File?
      ensures Accounted(toc, t0, next, p)
    {
      if e.Work? {
        var task := s.tasks[e.worker];
        assert TaskSound(toc, s.tree, task, s.pcs[e.worker]);
        WorkAccounts(toc, s.tree, task, s.pcs[e.worker], p);
        if p in s.tree && next.tree[p] == s.tree[p] {
          assert Accounted(toc, t0, s, p);
        }
      } else {
        assert p in s.tree && next.tree[p] == s.tree[p];
        assert Accounted(toc, t0, s, p);
        if !(p in t0 && t0[p] == s.tree[p]) {
          var task :| task in s.launched && PutBy(toc, p, s.tree[p], task);
          assert task in next.launched;
        }
      }
    }
  }

  lemma {:induction false} ReachableSound(toc: Toc, t0: Tree, events: seq<Event>)
    requires Exec(toc, t0, events).Some?
    ensures WorkersSound(toc, Exec(toc, t0, events).value)
    ensures AllAccounted(toc, t0, Exec(toc, t0, events).value)
  {
    hide Enabled, Apply, WorkersSound, AllAccounted;
    if events == [] {
      StartIsSound(toc, t0);
    } else {
      ReachableSound(toc, t0, events[..|events| - 1]);
      var s, e := Exec(toc, t0, events[..|events| - 1]).value, events[|events| - 1];
      StepKeepsWorkers(toc, s, e);
      StepKeepsAccounts(toc, t0, s, e);
    }
  }

  lemma StartIsSound(toc: Toc, t0: Tree)
    ensures WorkersSound(toc, State(t0, [], [], [])) && AllAccounted(toc, t0, State(t0, [], [], []))
  {
  }

  /** Verify before replace: at every moment of every history, and so after a crash at any
      point, a file under a dump's name is untouched since the start or holds exactly the
      non-empty bytes of a pg_dump that exited cleanly and whose table of contents was read. */
  lemma VerifyBeforeReplace(toc: Toc, t0: Tree, events: seq<Event>, p: Path)
    requires Exec(toc, t0, events).Some?
    requires p in Exec(toc, t0, events).value.tree && Exec(toc, t0, events).value.tree[p].File?
    requires HasSuffix(p.name, SUFFIX)
    ensures Accounted(toc, t0, Exec(toc, t0, events).value, p)
  {
    ReachableSound(toc, t0, events);
  }
}
