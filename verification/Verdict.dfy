/** What a worker reports (internal/dump/dump.go, internal/dump/verify.go, internal/dump/result.go):
    the reason of its result as one rule over what the world answered, gate by gate. */
module Verdict {
  import opened Results
  import opened DumpName
  import opened Disk
  import opened Worker
  import opened Staging

  predicate ProbeFails(s: Script) {
    s.probeKind != FailNone || s.probeFailed
  }

  predicate MkdirFails(j: Job, s: Script, t0: Tree) {
    !s.mkdirOk || IsFile(t0, RootEntry(j.server))
  }

  predicate TargetUnusable(j: Job, s: Script, t0: Tree) {
    s.create.NotRegular? || (TargetPath(j) in t0 && t0[TargetPath(j)].Dir?)
  }

  predicate NotReadable(toc: Toc, s: Script) {
    s.verifyFault || !toc(Flatten(s.chunks))
  }

  /** The first gate that fails decides, and at the gates that watch the context an ended
      context wins over the failure it caused. */
  function ReasonOf(toc: Toc, j: Job, s: Script, t0: Tree): Reason {
    if ProbeFails(s) then Classify(0, s.probeCtx, s.probeKind)
    else if MkdirFails(j, s, t0) then MkdirFailed
    else if TargetUnusable(j, s, t0) then RenameFailed
    else if s.create.CreateFailed? then AbortOr(s.createCtx, Other)
    else if s.dumpCtx.Some? then AbortOr(s.dumpCtx, Other)
    else if s.exitCode != 0 then PGError
    else if s.dumpFailed || !s.statOk then Other
    else if Flatten(s.chunks) == [] then Empty
    else if NotReadable(toc, s) then AbortOr(s.verifyCtx, Truncated)
    else if !s.commit.Replaced? then AbortOr(s.commitCtx, RenameFailed)
    else OK
  }

  function ResultOf(toc: Toc, j: Job, s: Script, t0: Tree): Result {
    var reason := ReasonOf(toc, j, s, t0);
    Outcome(j, s, reason, if reason == OK then |Flatten(s.chunks)| else 0)
  }

  /** The gates behind a worker at each point have passed. */
  ghost predicate PassedTo(toc: Toc, j: Job, s: Script, t0: Tree, t: Tree, pc: Pc) {
    && (Stage(pc) >= 8 ==> t == t0)
    && (3 <= Stage(pc) <= 8 ==> !ProbeFails(s))
    && (3 <= Stage(pc) <= 7 ==> !MkdirFails(j, s, t0))
    && (3 <= Stage(pc) <= 6 ==> !TargetUnusable(j, s, t0) && !s.create.CreateFailed?)
    && (3 <= Stage(pc) <= 5 ==> CleanDump(s))
    && (3 <= Stage(pc) <= 4 ==> s.statOk && Flatten(s.chunks) != [])
    && (Stage(pc) == 3 ==> !NotReadable(toc, s))
    && (Stage(pc) < 3 ==> OutcomeIs(pc, ResultOf(toc, j, s, t0)))
  }

  predicate OutcomeIs(pc: Pc, r: Result) {
    (pc.CleaningUp? || pc.Listing? || pc.Removing? || pc.Done?) && pc.outcome == r
  }

  lemma StepPasses(toc: Toc, j: Job, s: Script, t0: Tree, t: Tree, pc: Pc)
    requires ValidJob(j) && IsTemp(s.temp) && WorkerInv(toc, t0, World(t, pc), j, s)
    requires PassedTo(toc, j, s, t0, t, pc)
    ensures var w := Step(toc, j, s, World(t, pc)); PassedTo(toc, j, s, t0, w.tree, w.pc)
  {
    hide Step, Doomed, AbortOr, Classify, Flatten, PassedTo, WorkerInv;
    if Stage(pc) > 6 {
      EarlyStepPasses(toc, j, s, t0, t, pc);
    } else if Stage(pc) > 2 {
      GateStepPasses(toc, j, s, t0, t, pc);
    } else {
      LateStepPasses(toc, j, s, t0, t, pc);
    }
  }

  lemma EarlyStepPasses(toc: Toc, j: Job, s: Script, t0: Tree, t: Tree, pc: Pc)
    requires ValidJob(j) && IsTemp(s.temp) && WorkerInv(toc, t0, World(t, pc), j, s)
    requires PassedTo(toc, j, s, t0, t, pc) && Stage(pc) > 6
    ensures var w := Step(toc, j, s, World(t, pc)); PassedTo(toc, j, s, t0, w.tree, w.pc)
  {
    hide Doomed, AbortOr, Classify, Flatten, WorkerInv, NotReadable, CleanDump, Staged;
    FailuresAreNotOK(j, s, s.probeCtx, Other);
    FailuresAreNotOK(j, s, s.createCtx, Other);
    if pc.Creating? {
      TargetAsBefore(toc, j, s, t0, t);
    }
  }

  lemma GateStepPasses(toc: Toc, j: Job, s: Script, t0: Tree, t: Tree, pc: Pc)
    requires WorkerInv(toc, t0, World(t, pc), j, s)
    requires PassedTo(toc, j, s, t0, t, pc) && 2 < Stage(pc) <= 6
    ensures var w := Step(toc, j, s, World(t, pc)); PassedTo(toc, j, s, t0, w.tree, w.pc)
  {
    hide Doomed, AbortOr, Classify, Flatten, DumpsAt, ProbeFails, MkdirFails, TargetUnusable;
    AllChunks(s);
    FailuresAreNotOK(j, s, s.dumpCtx, Other);
    FailuresAreNotOK(j, s, s.verifyCtx, Truncated);
    FailuresAreNotOK(j, s, s.commitCtx, RenameFailed);
  }

  lemma LateStepPasses(toc: Toc, j: Job, s: Script, t0: Tree, t: Tree, pc: Pc)
    requires PassedTo(toc, j, s, t0, t, pc) && Stage(pc) <= 2
    ensures var w := Step(toc, j, s, World(t, pc)); PassedTo(toc, j, s, t0, w.tree, w.pc)
  {
    hide Doomed, ResultOf;
  }

  lemma AllChunks(s: Script)
    ensures s.chunks[..|s.chunks|] == s.chunks
  {
  }

  lemma TargetAsBefore(toc: Toc, j: Job, s: Script, t0: Tree, t: Tree)
    requires ValidJob(j) && IsTemp(s.temp) && WorkerInv(toc, t0, World(t, Creating), j, s)
    ensures SameAt(t0, t, TargetPath(j))
  {
    StagingIsApart(j, s);
  }

  lemma {:induction false} AlonePasses(toc: Toc, j: Job, s: Script, t0: Tree, k: nat)
    requires ValidJob(j) && IsTemp(s.temp)
    ensures var w := Alone(toc, j, s, t0, k); PassedTo(toc, j, s, t0, w.tree, w.pc)
  {
    hide Step, WorkerInv;
    if k > 0 {
      AlonePasses(toc, j, s, t0, k - 1);
      AloneInv(toc, t0, j, s, k - 1);
      var w := Alone(toc, j, s, t0, k - 1);
      StepPasses(toc, j, s, t0, w.tree, w.pc);
    }
  }

  /** Every worker ends with the result the rule gives, and with no other. */
  lemma ResultIsDecided(toc: Toc, j: Job, s: Script, t0: Tree, k: nat)
    requires ValidJob(j) && IsTemp(s.temp)
    ensures Alone(toc, j, s, t0, Length(toc, j, s, t0)).pc == Done(ResultOf(toc, j, s, t0))
    ensures Alone(toc, j, s, t0, k).pc.Done? ==> Alone(toc, j, s, t0, k).pc.outcome == ResultOf(toc, j, s, t0)
  {
    hide Alone, ResultOf;
    EndsDone(toc, j, s, t0);
    AlonePasses(toc, j, s, t0, Length(toc, j, s, t0));
    AlonePasses(toc, j, s, t0, k);
  }

  /** A dump reports success exactly when every gate passed: the probe, the directory, a
      clean non-empty dump that verified, and a commit that went through. */
  lemma SuccessIff(toc: Toc, j: Job, s: Script, t0: Tree)
    requires ValidJob(j) && IsTemp(s.temp)
    ensures Alone(toc, j, s, t0, Length(toc, j, s, t0)).pc == Done(Outcome(j, s, OK, |Flatten(s.chunks)|))
            <==> && !ProbeFails(s) && !MkdirFails(j, s, t0) && !TargetUnusable(j, s, t0) && s.create.Created?
                 && CleanDump(s) && s.statOk && !s.verifyFault && Verified(toc, Flatten(s.chunks))
                 && s.commit.Replaced?
  {
    ResultIsDecided(toc, j, s, t0, 0);
    hide Alone, Length;
  }

  // What a failed dump leaves behind, exactly.

  /** Everything before the commit passed. */
  predicate ReachesCommit(toc: Toc, j: Job, s: Script, t0: Tree) {
    && !ProbeFails(s) && !MkdirFails(j, s, t0) && !TargetUnusable(j, s, t0) && s.create.Created?
    && CleanDump(s) && s.statOk && Flatten(s.chunks) != [] && !NotReadable(toc, s)
  }

  /** The commit renamed the new dump into place and then reported a failure. */
  predicate FailsAfterRename(toc: Toc, j: Job, s: Script, t0: Tree) {
    s.commit.ReplacedThenFailed? && ReachesCommit(toc, j, s, t0)
  }

  ghost predicate DumpsSame(t0: Tree, t: Tree, j: Job) {
    forall p :: IsDumpPath(j, p) ==> SameAt(t0, t, p)
  }

  ghost predicate OthersSame(t0: Tree, t: Tree, j: Job) {
    forall p :: IsDumpPath(j, p) && p != TargetPath(j) ==> SameAt(t0, t, p)
  }

  /** Where a failing worker stands, the target holds the new dump exactly when the commit
      failed after its rename; otherwise no dump has changed. */
  ghost predicate FailedAt(toc: Toc, j: Job, s: Script, t0: Tree, t: Tree, pc: Pc) {
    Failing(pc) ==>
      if FailsAfterRename(toc, j, s, t0) then TargetVerified(toc, t, j, s) && OthersSame(t0, t, j)
      else DumpsSame(t0, t, j)
  }

  lemma EarlyFailureIsNoCommit(toc: Toc, j: Job, s: Script, t0: Tree, t: Tree, pc: Pc)
    requires ValidJob(j) && IsTemp(s.temp) && WorkerInv(toc, t0, World(t, pc), j, s)
    requires PassedTo(toc, j, s, t0, t, pc) && Stage(pc) > 3 && Failing(Step(toc, j, s, World(t, pc)).pc)
    ensures !ReachesCommit(toc, j, s, t0)
  {
    hide Doomed, AbortOr, Classify, Flatten, WorkerInv, ResultOf;
    StagedIs(toc, t0, j, s, t, pc);
    hide Staged;
    if pc.Creating? {
      TargetAsBefore(toc, j, s, t0, t);
    }
  }

  lemma StagedIs(toc: Toc, t0: Tree, j: Job, s: Script, t: Tree, pc: Pc)
    requires WorkerInv(toc, t0, World(t, pc), j, s)
    ensures pc.Statting? || pc.Verifying? || pc.Committing? ==> Staged(t, j, s) == Flatten(s.chunks)
  {
    hide DumpsAt, Flatten, Staged;
  }

  lemma CommitFails(toc: Toc, j: Job, s: Script, t0: Tree, t: Tree)
    requires ValidJob(j) && IsTemp(s.temp) && WorkerInv(toc, t0, World(t, Committing), j, s)
    requires PassedTo(toc, j, s, t0, t, Committing)
    ensures ReachesCommit(toc, j, s, t0)
    ensures var w := Step(toc, j, s, World(t, Committing)); FailedAt(toc, j, s, t0, w.tree, w.pc)
  {
    StagingIsApart(j, s);
    StagedIs(toc, t0, j, s, t, Committing);
    hide IsDumpPath, AbortOr, Flatten, ResultOf, Staged, IsTemp, IsFinal;
  }

  lemma StepKeepsFailed(toc: Toc, j: Job, s: Script, t0: Tree, t: Tree, pc: Pc)
    requires ValidJob(j) && IsTemp(s.temp) && WorkerInv(toc, t0, World(t, pc), j, s)
    requires PassedTo(toc, j, s, t0, t, pc) && FailedAt(toc, j, s, t0, t, pc)
    ensures var w := Step(toc, j, s, World(t, pc)); FailedAt(toc, j, s, t0, w.tree, w.pc)
  {
    if Stage(pc) > 3 {
      EarlyStepKeepsFailed(toc, j, s, t0, t, pc);
    } else if pc.Committing? {
      CommitFails(toc, j, s, t0, t);
    } else {
      LateStepKeepsFailed(toc, j, s, t0, t, pc);
    }
  }

  lemma EarlyStepKeepsFailed(toc: Toc, j: Job, s: Script, t0: Tree, t: Tree, pc: Pc)
    requires ValidJob(j) && IsTemp(s.temp) && WorkerInv(toc, t0, World(t, pc), j, s)
    requires PassedTo(toc, j, s, t0, t, pc) && Stage(pc) > 3
    ensures var w := Step(toc, j, s, World(t, pc)); FailedAt(toc, j, s, t0, w.tree, w.pc)
  {
    hide Step, IsDumpPath, PassedTo, StagedAs;
    var w := Step(toc, j, s, World(t, pc));
    if Failing(w.pc) {
      EarlyFailureIsNoCommit(toc, j, s, t0, t, pc);
      forall p | IsDumpPath(j, p)
        ensures SameAt(t0, w.tree, p)
      {
        EarlyStepTouchesNoDump(toc, t, j, s, pc, p);
      }
    }
  }

  lemma LateStepKeepsFailed(toc: Toc, j: Job, s: Script, t0: Tree, t: Tree, pc: Pc)
    requires ValidJob(j) && IsTemp(s.temp) && WorkerInv(toc, t0, World(t, pc), j, s)
    requires Stage(pc) < 3 && FailedAt(toc, j, s, t0, t, pc)
    ensures var w := Step(toc, j, s, World(t, pc)); FailedAt(toc, j, s, t0, w.tree, w.pc)
  {
    StagingIsApart(j, s);
    hide IsDumpPath, Doomed, FailsAfterRename, Flatten, StagedAs, IsTemp, IsFinal, PriorOrVerified, CommittedOnly;
  }

  lemma {:induction false} AloneFailed(toc: Toc, j: Job, s: Script, t0: Tree, k: nat)
    requires ValidJob(j) && IsTemp(s.temp)
    ensures var w := Alone(toc, j, s, t0, k); FailedAt(toc, j, s, t0, w.tree, w.pc)
  {
    hide Step, WorkerInv, PassedTo, FailsAfterRename;
    if k > 0 {
      AloneFailed(toc, j, s, t0, k - 1);
      AloneInv(toc, t0, j, s, k - 1);
      AlonePasses(toc, j, s, t0, k - 1);
      var w := Alone(toc, j, s, t0, k - 1);
      StepKeepsFailed(toc, j, s, t0, w.tree, w.pc);
    }
  }

  /** A failed dump leaves every dump of its database as it was if and only if its commit did
      not fail after the rename, or the target already held the very same bytes. When it did
      fail there, the target holds the new, verified dump and nothing else changed. */
  lemma FailureKeepsDumpsIff(toc: Toc, j: Job, s: Script, t0: Tree, k: nat)
    requires ValidJob(j) && IsTemp(s.temp)
    requires Alone(toc, j, s, t0, k).pc.Done? && Alone(toc, j, s, t0, k).pc.outcome.reason != OK
    ensures DumpsSame(t0, Alone(toc, j, s, t0, k).tree, j) <==>
              !FailsAfterRename(toc, j, s, t0)
              || (TargetPath(j) in t0 && t0[TargetPath(j)] == File(Flatten(s.chunks)))
    ensures FailsAfterRename(toc, j, s, t0) ==>
              TargetVerified(toc, Alone(toc, j, s, t0, k).tree, j, s) && OthersSame(t0, Alone(toc, j, s, t0, k).tree, j)
  {
    hide Alone, FailsAfterRename, Flatten, IsFinal, CleanDump, Verified;
    AloneFailed(toc, j, s, t0, k);
    StagingIsApart(j, s);
  }

  /** A run in which everything goes well up to the commit. */
  function CleanScript(bytes: Content, commit: CommitAnswer): Script {
    Script(FailNone, false, None, 18, true, ".atomicfile-1.tmp", Created, None,
           [bytes], 0, false, None, true, false, None, commit, None, true, true, {})
  }

  function SampleJob(target: string, keep: nat): Job {
    Job("h", "a", "h_5432", target, keep)
  }

  lemma CleanScriptIs(bytes: Content, commit: CommitAnswer)
    requires bytes != []
    ensures IsTemp(CleanScript(bytes, commit).temp) && Flatten(CleanScript(bytes, commit).chunks) == bytes
    ensures IsDatabase("a")
  {
    var temp := ".atomicfile-1.tmp";
    assert temp[|temp| - |TEMP_SUFFIX|..] == TEMP_SUFFIX;
    assert temp[|TEMP_PREFIX|..|temp| - |TEMP_SUFFIX|] == "1";
    assert [bytes][..0] == [] && Flatten([]) == [];
    assert [] + bytes == bytes;
  }

  lemma SampleJobIsValid()
    ensures ValidJob(SampleJob("a.dump", 1))
  {
    assert "a" + SUFFIX == "a.dump";
  }

  /** The input on which a failed dump does change its target: a first dump of `a` whose commit
      renames and then fails. The result is rename_failed and the new dump is in place. */
  lemma FailedDumpCanReplace()
    ensures var j, s := SampleJob("a.dump", 1), CleanScript([7], ReplacedThenFailed);
            var w := Alone(_ => true, j, s, map[], Length(_ => true, j, s, map[]));
            && ValidJob(j) && IsTemp(s.temp)
            && w.pc == Done(Outcome(j, s, RenameFailed, 0))
            && TargetPath(j) in w.tree && w.tree[TargetPath(j)] == File([7])
  {
    hide Alone, Length, Flatten, IsTemp, IsDatabase, ValidJob, CleanDump, DumpsSame, OthersSame;
    var j, s, toc := SampleJob("a.dump", 1), CleanScript([7], ReplacedThenFailed), (c: Content) => true;
    CleanScriptIs([7], ReplacedThenFailed);
    SampleJobIsValid();
    CleanDumpIs(s);
    ResultIsDecided(toc, j, s, map[], 0);
    FailureKeepsDumpsIff(toc, j, s, map[], Length(toc, j, s, map[]));
  }
}
