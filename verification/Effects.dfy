/** What a worker leaves on disk (internal/dump/dump.go, internal/dump/verify.go), path by path,
    from the answers it met: nothing it should have discarded, and nothing of anybody else's
    touched. */
module Effects {
  import opened Results
  import opened DumpName
  import opened Disk
  import opened Worker
  import opened Workers
  import opened Staging
  import opened Verdict
  import Retention

  /** The staging file was created. */
  predicate Created(j: Job, s: Script, t0: Tree) {
    && s.probeKind == FailNone && !s.probeFailed
    && s.mkdirOk && !IsFile(t0, RootEntry(j.server))
    && s.create.Created? && !(TargetPath(j) in t0 && t0[TargetPath(j)].Dir?)
  }

  /** The commit renamed the staging file over the target. */
  predicate Renamed(toc: Toc, j: Job, s: Script, t0: Tree) {
    ReachesCommit(toc, j, s, t0) && !s.commit.Refused?
  }

  /** The staging file at each point. */
  ghost predicate TempAt(toc: Toc, j: Job, s: Script, t0: Tree, t: Tree, pc: Pc) {
    var temp := TempPath(j, s);
    if Stage(pc) >= 7 then temp !in t
    else if Stage(pc) >= 3 then Created(j, s, t0) && temp in t && t[temp].File?
    else if pc.CleaningUp? then
      Created(j, s, t0) && (temp in t <==> !Renamed(toc, j, s, t0)) && (temp in t ==> t[temp].File?)
    else if pc.Done? && pc.outcome.reason != OK then
      temp in t <==> Created(j, s, t0) && !Renamed(toc, j, s, t0) && !s.cleanupOk
    else Renamed(toc, j, s, t0) && temp !in t
  }

  lemma EarlyKeepsTemp(toc: Toc, j: Job, s: Script, t0: Tree, t: Tree, pc: Pc)
    requires ValidJob(j) && IsTemp(s.temp) && WorkerInv(toc, t0, World(t, pc), j, s)
    requires PassedTo(toc, j, s, t0, t, pc) && TempAt(toc, j, s, t0, t, pc) && Stage(pc) >= 7
    ensures var w := Step(toc, j, s, World(t, pc)); TempAt(toc, j, s, t0, w.tree, w.pc)
  {
    StagingIsApart(j, s);
    FailuresAreNotOK(j, s, s.probeCtx, Other);
    FailuresAreNotOK(j, s, s.createCtx, Other);
    hide Doomed, AbortOr, Classify, Flatten, WorkerInv, ResultOf, IsTemp, IsFinal, IsDatabase, ReachesCommit;
    if pc.Creating? {
      TargetAsBefore(toc, j, s, t0, t);
    }
  }

  lemma GateKeepsTemp(toc: Toc, j: Job, s: Script, t0: Tree, t: Tree, pc: Pc)
    requires ValidJob(j) && IsTemp(s.temp) && WorkerInv(toc, t0, World(t, pc), j, s)
    requires PassedTo(toc, j, s, t0, t, pc) && TempAt(toc, j, s, t0, t, pc) && 3 < Stage(pc) <= 6
    ensures var w := Step(toc, j, s, World(t, pc)); TempAt(toc, j, s, t0, w.tree, w.pc)
  {
    var next := Step(toc, j, s, World(t, pc)).pc;
    if Failing(next) {
      EarlyFailureIsNoCommit(toc, j, s, t0, t, pc);
    }
    EarlyStepFailsOrGoesOn(toc, t, j, s, pc);
    hide Doomed, AbortOr, Classify, Flatten, WorkerInv, ResultOf, IsTemp, IsFinal, IsDatabase, ReachesCommit;
    hide PassedTo, Created, Staged;
  }

  lemma CommitKeepsTemp(toc: Toc, j: Job, s: Script, t0: Tree, t: Tree)
    requires ValidJob(j) && IsTemp(s.temp) && WorkerInv(toc, t0, World(t, Committing), j, s)
    requires PassedTo(toc, j, s, t0, t, Committing) && TempAt(toc, j, s, t0, t, Committing)
    ensures var w := Step(toc, j, s, World(t, Committing)); TempAt(toc, j, s, t0, w.tree, w.pc)
  {
    StagingIsApart(j, s);
    CommitFails(toc, j, s, t0, t);
    FailuresAreNotOK(j, s, s.commitCtx, RenameFailed);
    hide Doomed, AbortOr, Classify, Flatten, WorkerInv, ResultOf, IsTemp, IsFinal, IsDatabase, ReachesCommit;
    hide PassedTo, Created, Staged, FailedAt;
  }

  lemma LateKeepsTemp(toc: Toc, j: Job, s: Script, t0: Tree, t: Tree, pc: Pc)
    requires ValidJob(j) && IsTemp(s.temp) && OwnDoomed(Task(j, s), pc)
    requires DumpsAt(toc, t0, t, j, s, pc) && TempAt(toc, j, s, t0, t, pc) && Stage(pc) < 3
    ensures var w := Step(toc, j, s, World(t, pc)); TempAt(toc, j, s, t0, w.tree, w.pc)
  {
    hide Doomed, Flatten, IsTemp, IsFinal, IsDatabase, Renamed, Created, PriorOrVerified, CommittedOnly;
  }

  lemma StepKeepsTemp(toc: Toc, j: Job, s: Script, t0: Tree, t: Tree, pc: Pc)
    requires ValidJob(j) && IsTemp(s.temp) && WorkerInv(toc, t0, World(t, pc), j, s) && OwnDoomed(Task(j, s), pc)
    requires PassedTo(toc, j, s, t0, t, pc) && TempAt(toc, j, s, t0, t, pc)
    ensures var w := Step(toc, j, s, World(t, pc)); TempAt(toc, j, s, t0, w.tree, w.pc)
  {
    hide Step, TempAt, PassedTo;
    if Stage(pc) >= 7 {
      EarlyKeepsTemp(toc, j, s, t0, t, pc);
    } else if Stage(pc) > 3 {
      GateKeepsTemp(toc, j, s, t0, t, pc);
    } else if pc.Committing? {
      CommitKeepsTemp(toc, j, s, t0, t);
    } else {
      LateKeepsTemp(toc, j, s, t0, t, pc);
    }
  }

  lemma {:induction false} AloneOwnDoomed(toc: Toc, j: Job, s: Script, t0: Tree, k: nat)
    ensures OwnDoomed(Task(j, s), Alone(toc, j, s, t0, k).pc)
  {
    hide Step;
    if k > 0 {
      AloneOwnDoomed(toc, j, s, t0, k - 1);
      var w := Alone(toc, j, s, t0, k - 1);
      StepKeepsOwnDoomed(toc, Task(j, s), w.tree, w.pc);
      assert StepOf(toc, Task(j, s), World(w.tree, w.pc)) == Step(toc, j, s, w);
    }
  }

  lemma {:induction false} AloneTemp(toc: Toc, j: Job, s: Script, t0: Tree, k: nat)
    requires ValidJob(j) && IsTemp(s.temp) && TempPath(j, s) !in t0
    ensures var w := Alone(toc, j, s, t0, k); TempAt(toc, j, s, t0, w.tree, w.pc)
  {
    hide Step, WorkerInv, PassedTo, OwnDoomed;
    if k > 0 {
      AloneTemp(toc, j, s, t0, k - 1);
      AloneInv(toc, t0, j, s, k - 1);
      AlonePasses(toc, j, s, t0, k - 1);
      AloneOwnDoomed(toc, j, s, t0, k - 1);
      hide TempAt;
      var w := Alone(toc, j, s, t0, k - 1);
      StepKeepsTemp(toc, j, s, t0, w.tree, w.pc);
    }
  }

  /** A finished worker has left a staging file if and only if it created one, no commit renamed
      it, and the cleanup failed. */
  lemma StagingFileIff(toc: Toc, j: Job, s: Script, t0: Tree, k: nat)
    requires ValidJob(j) && IsTemp(s.temp) && TempPath(j, s) !in t0
    requires Alone(toc, j, s, t0, k).pc.Done?
    ensures TempPath(j, s) in Alone(toc, j, s, t0, k).tree
            <==> Created(j, s, t0) && !Renamed(toc, j, s, t0) && !s.cleanupOk
  {
    hide Alone;
    AloneTemp(toc, j, s, t0, k);
  }

  /** Nothing else on disk changes, but for the server directory. */
  lemma {:induction false} OthersUntouched(toc: Toc, j: Job, s: Script, t0: Tree, k: nat, p: Path)
    requires ValidJob(j) && !Touches(Task(j, s), p) && p != RootEntry(j.server)
    ensures SameAt(t0, Alone(toc, j, s, t0, k).tree, p)
  {
    hide Step, Touches, OwnDoomed, ValidJob;
    if k > 0 {
      OthersUntouched(toc, j, s, t0, k - 1, p);
      AloneOwnDoomed(toc, j, s, t0, k - 1);
      var w := Alone(toc, j, s, t0, k - 1);
      StepIsFramed(toc, Task(j, s), w.tree, w.pc, p);
      assert StepOf(toc, Task(j, s), World(w.tree, w.pc)) == Step(toc, j, s, w);
    }
  }

  /** The server directory at each point. */
  ghost predicate DirectoryAt(j: Job, s: Script, t0: Tree, t: Tree, pc: Pc) {
    var root := RootEntry(j.server);
    if Stage(pc) >= 8 || (pc.Done? && (ProbeFails(s) || MkdirFails(j, s, t0))) then SameAt(t0, t, root)
    else !ProbeFails(s) && !MkdirFails(j, s, t0) && root in t && t[root] == Dir
  }

  lemma StepKeepsDirectory(toc: Toc, j: Job, s: Script, t0: Tree, t: Tree, pc: Pc)
    requires ValidJob(j) && PassedTo(toc, j, s, t0, t, pc) && DirectoryAt(j, s, t0, t, pc)
    ensures var w := Step(toc, j, s, World(t, pc)); DirectoryAt(j, s, t0, w.tree, w.pc)
  {
    hide Doomed, AbortOr, Classify, Flatten, ResultOf, IsFinal, IsDatabase, Staged;
  }

  lemma {:induction false} AloneDirectory(toc: Toc, j: Job, s: Script, t0: Tree, k: nat)
    requires ValidJob(j) && IsTemp(s.temp)
    ensures var w := Alone(toc, j, s, t0, k); DirectoryAt(j, s, t0, w.tree, w.pc)
  {
    hide Step, PassedTo, ValidJob, IsTemp;
    if k > 0 {
      AloneDirectory(toc, j, s, t0, k - 1);
      AlonePasses(toc, j, s, t0, k - 1);
      hide DirectoryAt;
      var w := Alone(toc, j, s, t0, k - 1);
      StepKeepsDirectory(toc, j, s, t0, w.tree, w.pc);
    }
  }

  /** A finished worker has made its server directory if and only if its probe succeeded and the
      directory could be made; otherwise the entry is as it was. */
  lemma DirectoryIff(toc: Toc, j: Job, s: Script, t0: Tree, k: nat)
    requires ValidJob(j) && IsTemp(s.temp) && Alone(toc, j, s, t0, k).pc.Done?
    ensures var t, root := Alone(toc, j, s, t0, k).tree, RootEntry(j.server);
            if s.probeKind == FailNone && !s.probeFailed && s.mkdirOk && !IsFile(t0, root)
            then root in t && t[root] == Dir else SameAt(t0, t, root)
  {
    hide Alone;
    AloneDirectory(toc, j, s, t0, k);
  }

  // What a successful dump leaves of its database's dumps.

  /** The path is one the prune may remove: the new dump, or a copy that was there. */
  ghost predicate Prunable(j: Job, t0: Tree, p: Path) {
    p == TargetPath(j) || (IsFile(t0, p) && IsCopy(j.dbname, p.name))
  }

  /** From the commit on, every dump path holds the new dump, what it held, or nothing, and only
      prunable ones may hold nothing. */
  ghost predicate ContentAt(j: Job, s: Script, t0: Tree, t: Tree, pc: Pc) {
    Stage(pc) < 3 && !pc.CleaningUp? && pc.outcome.reason == OK ==>
      forall p :: IsDumpPath(j, p) ==>
        && (p in t ==> if p == TargetPath(j) then t[p] == File(Flatten(s.chunks)) else p in t0 && t[p] == t0[p])
        && (p in t0 && !Prunable(j, t0, p) ==> p in t)
  }

  /** What the prune is about to remove are prunable paths. */
  ghost predicate DoomedPrunable(j: Job, t0: Tree, pc: Pc) {
    pc.Removing? ==> forall n :: 0 <= n < |pc.doomed| ==> Prunable(j, t0, Path(j.server, pc.doomed[n]))
  }

  lemma PruneIsPrunable(j: Job, s: Script, t0: Tree, t: Tree, pc: Pc)
    requires Retention.PruneAt(t0, t, j, s, pc)
    ensures DoomedPrunable(j, t0, pc)
  {
    hide IsCopy, InOrder, Copies;
    if pc.Removing? {
      forall n | 0 <= n < |pc.doomed|
        ensures Prunable(j, t0, Path(j.server, pc.doomed[n]))
      {
        DoomedAreMembers(Retention.Committed(t0, j), j.keep);
        assert pc.doomed[n] in Retention.Committed(t0, j);
        CopiesMembers(t0, j.server, j.dbname, pc.doomed[n]);
      }
    }
  }

  lemma DoomedAreMembers(names: set<string>, keep: nat)
    ensures forall n :: 0 <= n < |DoomedOf(names, keep)| ==> DoomedOf(names, keep)[n] in names
  {
    hide Ascending;
    forall n | 0 <= n < |DoomedOf(names, keep)|
      ensures DoomedOf(names, keep)[n] in names
    {
      assert DoomedOf(names, keep)[n] == InOrder(names)[n] && InOrder(names)[n] in InOrder(names);
    }
  }

  lemma CommitKeepsContent(toc: Toc, j: Job, s: Script, t0: Tree, t: Tree)
    requires ValidJob(j) && IsTemp(s.temp) && WorkerInv(toc, t0, World(t, Committing), j, s)
    ensures var w := Step(toc, j, s, World(t, Committing)); ContentAt(j, s, t0, w.tree, w.pc)
  {
    StagingIsApart(j, s);
    StagedIs(toc, t0, j, s, t, Committing);
    FailuresAreNotOK(j, s, s.commitCtx, RenameFailed);
    hide Doomed, AbortOr, Classify, Flatten, IsTemp, IsFinal, IsDatabase, IsDumpPath, Prunable, Staged;
  }

  lemma LateKeepsContent(toc: Toc, j: Job, s: Script, t0: Tree, t: Tree, pc: Pc)
    requires ValidJob(j) && IsTemp(s.temp) && DumpsAt(toc, t0, t, j, s, pc)
    requires DoomedPrunable(j, t0, pc) && ContentAt(j, s, t0, t, pc) && Stage(pc) < 3
    ensures var w := Step(toc, j, s, World(t, pc)); ContentAt(j, s, t0, w.tree, w.pc)
  {
    hide Doomed, Flatten, IsTemp, IsFinal, IsDatabase, IsDumpPath, Prunable, PriorOrVerified, CommittedOnly;
  }

  lemma StepKeepsContent(toc: Toc, j: Job, s: Script, t0: Tree, t: Tree, pc: Pc)
    requires ValidJob(j) && IsTemp(s.temp) && WorkerInv(toc, t0, World(t, pc), j, s)
    requires DoomedPrunable(j, t0, pc) && ContentAt(j, s, t0, t, pc)
    ensures var w := Step(toc, j, s, World(t, pc)); ContentAt(j, s, t0, w.tree, w.pc)
  {
    if Stage(pc) > 3 {
      EarlyStepFailsOrGoesOn(toc, t, j, s, pc);
      hide Step;
    } else if pc.Committing? {
      CommitKeepsContent(toc, j, s, t0, t);
    } else {
      LateKeepsContent(toc, j, s, t0, t, pc);
    }
  }

  lemma {:induction false} AloneContent(toc: Toc, j: Job, s: Script, t0: Tree, k: nat)
    requires ValidJob(j) && IsTemp(s.temp)
    ensures var w := Alone(toc, j, s, t0, k); ContentAt(j, s, t0, w.tree, w.pc)
  {
    hide Step, WorkerInv, DoomedPrunable, Retention.PruneAt;
    if k > 0 {
      AloneContent(toc, j, s, t0, k - 1);
      AloneInv(toc, t0, j, s, k - 1);
      Retention.AlonePrune(toc, t0, j, s, k - 1);
      hide ContentAt;
      var w := Alone(toc, j, s, t0, k - 1);
      PruneIsPrunable(j, s, t0, w.tree, w.pc);
      StepKeepsContent(toc, j, s, t0, w.tree, w.pc);
    }
  }

  /** Pruned away: beyond the newest `keep`, listed and removable. */
  ghost predicate Pruned(j: Job, s: Script, t0: Tree, p: Path) {
    && j.keep > 1 && s.listOk && p.name !in s.stuck && Prunable(j, t0, p)
    && p.name !in Retention.Newest(Copies(t0, j.server, j.dbname) + {j.target}, j.keep)
  }

  /** A copy on disk after a successful dump, told by its path. */
  lemma CopyAtEnd(toc: Toc, j: Job, s: Script, t0: Tree, k: nat, p: Path)
    requires ValidJob(j) && IsTemp(s.temp) && j.keep > 1
    requires Alone(toc, j, s, t0, k).pc.Done? && Alone(toc, j, s, t0, k).pc.outcome.reason == OK
    requires p.dir == j.server && IsCopy(j.dbname, p.name) && Prunable(j, t0, p)
    ensures IsFile(Alone(toc, j, s, t0, k).tree, p) <==> !Pruned(j, s, t0, p)
  {
    hide Alone, Retention.Newest, InOrder, IsCopy, IsDatabase;
    var u := Alone(toc, j, s, t0, k).tree;
    assert Retention.EndsWell(toc, t0, j, s, k);
    Retention.RetainedCopies(toc, t0, u, j, s);
    CopiesMembers(u, j.server, j.dbname, p.name);
    CopiesMembers(t0, j.server, j.dbname, p.name);
    assert p == Path(j.server, p.name);
  }

  /** After a successful dump a dump path of its database holds the new dump at the target, what
      it held elsewhere, or nothing, and nothing exactly where nothing was or the prune took
      it. */
  lemma DumpsAtEnd(toc: Toc, j: Job, s: Script, t0: Tree, k: nat, p: Path)
    requires ValidJob(j) && IsTemp(s.temp) && IsDumpPath(j, p)
    requires Alone(toc, j, s, t0, k).pc.Done? && Alone(toc, j, s, t0, k).pc.outcome.reason == OK
    ensures var t := Alone(toc, j, s, t0, k).tree;
            && (p in t <==> (p == TargetPath(j) || p in t0) && !Pruned(j, s, t0, p))
            && (p in t ==> t[p] == if p == TargetPath(j) then File(Flatten(s.chunks)) else t0[p])
  {
    hide Alone, Flatten, Retention.Newest, InOrder, Copies, IsCopy, IsDatabase, IsTemp;
    AloneContent(toc, j, s, t0, k);
    AloneInv(toc, t0, j, s, k);
    StagingIsApart(j, s);
    var t := Alone(toc, j, s, t0, k).tree;
    if j.keep > 1 && IsCopy(j.dbname, p.name) && Prunable(j, t0, p) {
      CopyAtEnd(toc, j, s, t0, k, p);
    } else {
      NotPrunable(j, t0, p);
    }
  }

  lemma NotPrunable(j: Job, t0: Tree, p: Path)
    requires ValidJob(j) && IsDumpPath(j, p) && !(j.keep > 1 && IsCopy(j.dbname, p.name) && Prunable(j, t0, p))
    ensures j.keep > 1 ==> !Prunable(j, t0, p)
  {
  }
}
