/** The promise of the program over whole histories: once a database has a verified dump on
    disk, it always has one, and a successful result means it has one. */
module Availability {
  import opened Results
  import opened Text
  import opened DumpName
  import opened Disk
  import opened Worker
  import opened Workers
  import opened Staging
  import opened History
  import Retention

  /** Every file under one of the database's names holds a verified dump: all of them were
      written by this program. */
  ghost predicate AllVerified(toc: Toc, t: Tree, dir: string, db: string) {
    forall name: string :: IsFinal(db, name) && IsFile(t, Path(dir, name)) ==> Verified(toc, t[Path(dir, name)].content)
  }

  ghost predicate IsGoodDump(toc: Toc, t: Tree, dir: string, db: string, name: string) {
    IsFinal(db, name) && IsFile(t, Path(dir, name)) && Verified(toc, t[Path(dir, name)].content)
  }

  ghost predicate HasDump(toc: Toc, t: Tree, dir: string, db: string) {
    exists name: string :: IsGoodDump(toc, t, dir, db, name)
  }

  ghost predicate IsFor(task: Task, dir: string, db: string) {
    task.job.server == dir && task.job.dbname == db
  }

  /** Some copy on disk is not doomed. */
  ghost predicate SomeSpared(t: Tree, dir: string, db: string, doomed: seq<string>) {
    exists n: string :: IsCopy(db, n) && IsFile(t, Path(dir, n)) && n !in doomed
  }

  ghost predicate Pruning(pc: Pc) { pc.Listing? || pc.Removing? }

  ghost predicate SaysOK(pc: Pc) {
    (Pruning(pc) || pc.Done?) && pc.outcome.reason == OK
  }

  /** What holds of the one worker that may touch the database's dumps: a prune always spares
      a copy, and success means a dump is there. */
  ghost predicate TaskWatch(toc: Toc, t: Tree, task: Task, pc: Pc) {
    var dir, db := task.job.server, task.job.dbname;
    && (pc.Removing? ==> pc.doomed == [] || SomeSpared(t, dir, db, pc.doomed))
    && (Pruning(pc) ==> task.job.keep > 1)
    && (pc.CleaningUp? ==> pc.outcome.reason != OK)
    && (SaysOK(pc) ==> HasDump(toc, t, dir, db))
  }

  ghost predicate SameDumps(t: Tree, u: Tree, dir: string, db: string) {
    forall name: string :: IsFinal(db, name) ==> SameAt(t, u, Path(dir, name))
  }

  /** Nothing about a database changes when none of its dump files does. */
  lemma SameDumpsKeep(toc: Toc, t: Tree, u: Tree, dir: string, db: string)
    requires SameDumps(t, u, dir, db)
    ensures AllVerified(toc, t, dir, db) ==> AllVerified(toc, u, dir, db)
    ensures HasDump(toc, t, dir, db) ==> HasDump(toc, u, dir, db)
    ensures forall doomed: seq<string> :: SomeSpared(t, dir, db, doomed) ==> SomeSpared(u, dir, db, doomed)
  {
    hide IsCopy, Verified;
    if HasDump(toc, t, dir, db) {
      var name :| IsGoodDump(toc, t, dir, db, name);
      assert IsGoodDump(toc, u, dir, db, name);
    }
    forall doomed: seq<string> | SomeSpared(t, dir, db, doomed)
      ensures SomeSpared(u, dir, db, doomed)
    {
      var n :| IsCopy(db, n) && IsFile(t, Path(dir, n)) && n !in doomed;
      assert IsFinal(db, n);
    }
  }

  lemma SameDumpsKeepTask(toc: Toc, t: Tree, u: Tree, task: Task, pc: Pc)
    requires SameDumps(t, u, task.job.server, task.job.dbname) && TaskWatch(toc, t, task, pc)
    ensures TaskWatch(toc, u, task, pc)
  {
    SameDumpsKeep(toc, t, u, task.job.server, task.job.dbname);
    hide HasDump, SomeSpared;
  }

  // The worker of the database itself.

  lemma EarlyKeeps(toc: Toc, t: Tree, task: Task, pc: Pc)
    requires ValidJob(task.job) && IsTemp(task.script.temp) && Stage(pc) > 3
    ensures var w := StepOf(toc, task, World(t, pc));
            SameDumps(t, w.tree, task.job.server, task.job.dbname) && TaskWatch(toc, w.tree, task, w.pc)
  {
    hide Step, IsFinal;
    EarlyStepFailsOrGoesOn(toc, t, task.job, task.script, pc);
    forall name: string | IsFinal(task.job.dbname, name)
      ensures SameAt(t, StepOf(toc, task, World(t, pc)).tree, Path(task.job.server, name))
    {
      EarlyStepTouchesNoDump(toc, t, task.job, task.script, pc, Path(task.job.server, name));
    }
  }

  /** The commit changes at most the target, and puts a verified dump there. */
  lemma CommitEffect(toc: Toc, t: Tree, task: Task, pc: Pc)
    requires ValidJob(task.job) && IsTemp(task.script.temp) && pc.Committing? && TaskSound(toc, t, task, pc)
    ensures var w, j := StepOf(toc, task, World(t, pc)), task.job;
            && (forall name: string :: IsFinal(j.dbname, name) && name != j.target ==>
                  SameAt(t, w.tree, Path(j.server, name)))
            && (SameAt(t, w.tree, TargetPath(j)) || IsGoodDump(toc, w.tree, j.server, j.dbname, j.target))
            && (SaysOK(w.pc) ==> IsGoodDump(toc, w.tree, j.server, j.dbname, j.target))
            && (w.pc.CleaningUp? ==> w.pc.outcome.reason != OK)
            && !w.pc.Removing? && (w.pc.Listing? ==> j.keep > 1)
  {
    hide IsFinal, IsTemp, AbortOr, Flatten, CleanDump;
    StagingIsApart(task.job, task.script);
    FailuresAreNotOK(task.job, task.script, task.script.commitCtx, RenameFailed);
  }

  lemma CommitKeeps(toc: Toc, t: Tree, task: Task, pc: Pc)
    requires ValidJob(task.job) && IsTemp(task.script.temp) && pc.Committing? && TaskSound(toc, t, task, pc)
    requires AllVerified(toc, t, task.job.server, task.job.dbname)
    ensures var w := StepOf(toc, task, World(t, pc));
            && AllVerified(toc, w.tree, task.job.server, task.job.dbname)
            && TaskWatch(toc, w.tree, task, w.pc)
            && (HasDump(toc, t, task.job.server, task.job.dbname) ==>
                  HasDump(toc, w.tree, task.job.server, task.job.dbname))
  {
    hide StepOf, IsFinal, Verified, TaskSound;
    CommitEffect(toc, t, task, pc);
    var w, j := StepOf(toc, task, World(t, pc)), task.job;
    if HasDump(toc, t, j.server, j.dbname) {
      var name :| IsGoodDump(toc, t, j.server, j.dbname, name);
      assert IsGoodDump(toc, w.tree, j.server, j.dbname, name) || IsGoodDump(toc, w.tree, j.server, j.dbname, j.target);
    }
  }

  lemma CleanupKeeps(toc: Toc, t: Tree, task: Task, pc: Pc)
    requires ValidJob(task.job) && IsTemp(task.script.temp) && pc.CleaningUp? && TaskWatch(toc, t, task, pc)
    ensures var w := StepOf(toc, task, World(t, pc));
            SameDumps(t, w.tree, task.job.server, task.job.dbname) && TaskWatch(toc, w.tree, task, w.pc)
  {
    hide IsFinal, IsTemp, HasDump, SomeSpared;
    StagingIsApart(task.job, task.script);
    forall name: string | IsFinal(task.job.dbname, name)
      ensures Path(task.job.server, name) != TempPath(task.job, task.script)
    {
      assert IsDumpPath(task.job, Path(task.job.server, name));
    }
  }

  /** When something is doomed, the largest copy is not. */
  lemma ListingSpares(t: Tree, job: Job)
    requires job.keep > 1
    ensures Doomed(t, job) == [] || SomeSpared(t, job.server, job.dbname, Doomed(t, job))
  {
    hide IsCopy, InOrder;
    var copies := Copies(t, job.server, job.dbname);
    var names := InOrder(copies);
    if Doomed(t, job) != [] {
      var last := |names| - 1;
      Retention.CutAt(copies, job.keep, last);
      assert names[last] in names;
      CopiesMembers(t, job.server, job.dbname, names[last]);
    }
  }

  lemma ListingKeeps(toc: Toc, t: Tree, task: Task, pc: Pc)
    requires pc.Listing? && TaskWatch(toc, t, task, pc)
    ensures var w := StepOf(toc, task, World(t, pc)); w.tree == t && TaskWatch(toc, w.tree, task, w.pc)
  {
    hide HasDump, SomeSpared, Doomed;
    ListingSpares(t, task.job);
  }

  lemma RemovalKeeps(toc: Toc, t: Tree, task: Task, pc: Pc)
    requires pc.Removing? && TaskWatch(toc, t, task, pc)
    requires AllVerified(toc, t, task.job.server, task.job.dbname)
    ensures var w := StepOf(toc, task, World(t, pc));
            && AllVerified(toc, w.tree, task.job.server, task.job.dbname)
            && TaskWatch(toc, w.tree, task, w.pc)
            && (HasDump(toc, t, task.job.server, task.job.dbname) ==>
                  HasDump(toc, w.tree, task.job.server, task.job.dbname))
  {
    hide Step, IsCopy, Verified;
    Retention.RemovingMoves(toc, t, task.job, task.script, pc);
    var w, dir, db := StepOf(toc, task, World(t, pc)), task.job.server, task.job.dbname;
    if pc.at < |pc.doomed| && pc.doomed[pc.at] !in task.script.stuck {
      var n :| IsCopy(db, n) && IsFile(t, Path(dir, n)) && n !in pc.doomed;
      assert IsFile(w.tree, Path(dir, n)) && w.tree[Path(dir, n)] == t[Path(dir, n)];
      assert IsFinal(db, n);
      assert IsGoodDump(toc, w.tree, dir, db, n);
      assert SomeSpared(w.tree, dir, db, pc.doomed);
    }
  }

  lemma OwnStepKeeps(toc: Toc, t: Tree, task: Task, pc: Pc)
    requires ValidJob(task.job) && IsTemp(task.script.temp)
    requires TaskSound(toc, t, task, pc) && TaskWatch(toc, t, task, pc)
    requires AllVerified(toc, t, task.job.server, task.job.dbname)
    ensures var w := StepOf(toc, task, World(t, pc));
            && AllVerified(toc, w.tree, task.job.server, task.job.dbname)
            && TaskWatch(toc, w.tree, task, w.pc)
            && (HasDump(toc, t, task.job.server, task.job.dbname) ==>
                  HasDump(toc, w.tree, task.job.server, task.job.dbname))
  {
    var w, dir, db := StepOf(toc, task, World(t, pc)), task.job.server, task.job.dbname;
    if pc.Done? {
      DoneRests(toc, task.job, task.script, World(t, pc));
    }
    hide StepOf, TaskWatch, TaskSound, AllVerified, HasDump, SameDumps, ValidJob, IsTemp;
    if Stage(pc) > 3 {
      EarlyKeeps(toc, t, task, pc);
      SameDumpsKeep(toc, t, w.tree, dir, db);
    } else if pc.Committing? {
      CommitKeeps(toc, t, task, pc);
    } else if pc.CleaningUp? {
      CleanupKeeps(toc, t, task, pc);
      SameDumpsKeep(toc, t, w.tree, dir, db);
    } else if pc.Listing? {
      ListingKeeps(toc, t, task, pc);
    } else if pc.Removing? {
      RemovalKeeps(toc, t, task, pc);
    }
  }

  // Whole histories.

  ghost predicate Watched(toc: Toc, s: State, dir: string, db: string) {
    && AllVerified(toc, s.tree, dir, db)
    && |s.pcs| == |s.tasks|
    && forall i :: 0 <= i < |s.tasks| && IsFor(s.tasks[i], dir, db) ==> TaskWatch(toc, s.tree, s.tasks[i], s.pcs[i])
  }

  /** Another database's worker changes none of this one's dump files. */
  lemma OtherStepKeepsDumps(toc: Toc, t: Tree, task: Task, pc: Pc, dir: string, db: string)
    requires ValidJob(task.job) && IsTemp(task.script.temp) && TaskSound(toc, t, task, pc)
    requires IsDatabase(db) && dir != "" && !IsFor(task, dir, db)
    ensures SameDumps(t, StepOf(toc, task, World(t, pc)).tree, dir, db)
  {
    hide StepOf, IsFinal, IsTemp, IsDatabase;
    TempIsNoDump(task.script.temp);
    forall name: string | IsFinal(db, name)
      ensures SameAt(t, StepOf(toc, task, World(t, pc)).tree, Path(dir, name))
    {
      if IsFinal(task.job.dbname, name) && dir == task.job.server {
        FinalNamesDisjoint(db, task.job.dbname, name);
      }
      StepIsFramed(toc, task, t, pc, Path(dir, name));
    }
  }

  lemma WorkKeepsWatch(toc: Toc, s: State, i: nat, dir: string, db: string)
    requires IsDatabase(db) && dir != ""
    requires WorkersSound(toc, s) && Watched(toc, s, dir, db) && Enabled(s, Work(i))
    ensures Watched(toc, Apply(toc, s, Work(i)), dir, db)
    ensures HasDump(toc, s.tree, dir, db) ==> HasDump(toc, Apply(toc, s, Work(i)).tree, dir, db)
  {
    hide StepOf, TaskWatch, TaskSound, AllVerified, HasDump, SameDumps, ValidJob, IsTemp, IsDatabase;
    var task, next := s.tasks[i], Apply(toc, s, Work(i));
    assert TaskSound(toc, s.tree, task, s.pcs[i]);
    if IsFor(task, dir, db) {
      OwnStepKeeps(toc, s.tree, task, s.pcs[i]);
      forall k | 0 <= k < |s.tasks| && IsFor(s.tasks[k], dir, db)
        ensures k == i
      {
      }
    } else {
      OtherStepKeepsDumps(toc, s.tree, task, s.pcs[i], dir, db);
      SameDumpsKeep(toc, s.tree, next.tree, dir, db);
      forall k | 0 <= k < |s.tasks| && IsFor(s.tasks[k], dir, db)
        ensures TaskWatch(toc, next.tree, s.tasks[k], next.pcs[k])
      {
        SameDumpsKeepTask(toc, s.tree, next.tree, s.tasks[k], s.pcs[k]);
      }
    }
  }

  lemma FinalIsOwnName(db: string, name: string)
    requires IsFinal(db, name)
    ensures OwnName(name)
  {
  }

  lemma StepKeepsWatch(toc: Toc, s: State, e: Event, dir: string, db: string)
    requires IsDatabase(db) && dir != ""
    requires WorkersSound(toc, s) && Watched(toc, s, dir, db) && Enabled(s, e)
    ensures Watched(toc, Apply(toc, s, e), dir, db)
    ensures HasDump(toc, s.tree, dir, db) ==> HasDump(toc, Apply(toc, s, e).tree, dir, db)
  {
    hide StepOf, TaskSound, AllVerified, HasDump, ValidJob, IsTemp, IsDatabase, IsFinal, OwnName, SomeSpared;
    var next := Apply(toc, s, e);
    if e.Work? {
      WorkKeepsWatch(toc, s, e.worker, dir, db);
    } else {
      forall name: string | IsFinal(db, name)
        ensures SameAt(s.tree, next.tree, Path(dir, name))
      {
        FinalIsOwnName(db, name);
        if IsTemp(name) {
          TempIsNoDump(name);
        }
      }
      SameDumpsKeep(toc, s.tree, next.tree, dir, db);
      if e.Outside? {
        forall k | 0 <= k < |s.tasks| && IsFor(s.tasks[k], dir, db)
          ensures TaskWatch(toc, next.tree, s.tasks[k], s.pcs[k])
        {
          SameDumpsKeepTask(toc, s.tree, next.tree, s.tasks[k], s.pcs[k]);
        }
      }
    }
  }

  lemma {:induction false} ReachableWatch(toc: Toc, t0: Tree, events: seq<Event>, dir: string, db: string)
    requires IsDatabase(db) && dir != "" && AllVerified(toc, t0, dir, db)
    requires Exec(toc, t0, events).Some?
    ensures Watched(toc, Exec(toc, t0, events).value, dir, db)
  {
    hide Enabled, Apply, AllVerified;
    if events != [] {
      var before := events[..|events| - 1];
      ReachableWatch(toc, t0, before, dir, db);
      ReachableSound(toc, t0, before);
      StepKeepsWatch(toc, Exec(toc, t0, before).value, events[|events| - 1], dir, db);
    }
  }

  /** Backup availability: when all of a database's dump files were written by this program
      and one moment of a history has a verified dump on disk, every later moment has one,
      through any cycles, failures, cancels, crashes, clock values, remove errors and
      changes of `keep`. */
  lemma {:induction false} DumpAlwaysAvailable(
    toc: Toc, t0: Tree, events: seq<Event>, more: seq<Event>, dir: string, db: string)
    requires IsDatabase(db) && dir != "" && AllVerified(toc, t0, dir, db)
    requires Exec(toc, t0, events).Some? && HasDump(toc, Exec(toc, t0, events).value.tree, dir, db)
    requires Exec(toc, t0, events + more).Some?
    ensures HasDump(toc, Exec(toc, t0, events + more).value.tree, dir, db)
  {
    hide Enabled, Apply, AllVerified, HasDump;
    if more == [] {
      assert events + more == events;
    } else {
      var before := events + more[..|more| - 1];
      assert (events + more)[..|events + more| - 1] == before;
      DumpAlwaysAvailable(toc, t0, events, more[..|more| - 1], dir, db);
      ReachableWatch(toc, t0, before, dir, db);
      ReachableSound(toc, t0, before);
      StepKeepsWatch(toc, Exec(toc, t0, before).value, more[|more| - 1], dir, db);
    }
  }

  /** A worker that reports success, even while or after it prunes, leaves its database with
      a verified dump on disk. */
  lemma SuccessMeansDump(toc: Toc, t0: Tree, events: seq<Event>, i: nat)
    requires Exec(toc, t0, events).Some? && i < |Exec(toc, t0, events).value.tasks|
    requires var s := Exec(toc, t0, events).value;
             i < |s.pcs| && SaysOK(s.pcs[i]) && AllVerified(toc, t0, s.tasks[i].job.server, s.tasks[i].job.dbname)
    ensures var s := Exec(toc, t0, events).value;
            HasDump(toc, s.tree, s.tasks[i].job.server, s.tasks[i].job.dbname)
  {
    hide HasDump, AllVerified, Exec;
    ReachableSound(toc, t0, events);
    var s := Exec(toc, t0, events).value;
    ReachableWatch(toc, t0, events, s.tasks[i].job.server, s.tasks[i].job.dbname);
    assert TaskWatch(toc, s.tree, s.tasks[i], s.pcs[i]);
  }
}
