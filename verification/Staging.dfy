/** Verify before replace (internal/dump/verify.go), for one worker: what is in the staging
    file at each point, and what a failed dump leaves behind. */
module Staging {
  import opened Results
  import opened DumpName
  import opened Disk
  import opened Worker

  function Flatten(chunks: seq<Content>): Content {
    if chunks == [] then [] else Flatten(chunks[..|chunks| - 1]) + chunks[|chunks| - 1]
  }

  /** pg_dump exited cleanly within its context. */
  predicate CleanDump(s: Script) {
    s.exitCode == 0 && !s.dumpFailed && s.dumpCtx.None?
  }

  /** Worth keeping: not empty, and its table of contents is readable. */
  predicate Verified(toc: Toc, c: Content) {
    c != [] && toc(c)
  }

  lemma VerifiedIs(toc: Toc)
    ensures forall c :: Verified(toc, c) <==> c != [] && toc(c)
  {
  }

  lemma CleanDumpIs(s: Script)
    ensures CleanDump(s) <==> s.exitCode == 0 && !s.dumpFailed && s.dumpCtx.None?
  {
  }

  /** What is known of the staged bytes at each point up to the commit. */
  ghost predicate StagedAs(toc: Toc, t: Tree, j: Job, s: Script, pc: Pc) {
    var bytes := Staged(t, j, s);
    match pc
    case Dumping(k) => k <= |s.chunks| && bytes == Flatten(s.chunks[..k])
    case Statting => CleanDump(s) && bytes == Flatten(s.chunks)
    case Verifying => CleanDump(s) && bytes == Flatten(s.chunks) && bytes != []
    case Committing => CleanDump(s) && bytes == Flatten(s.chunks) && Verified(toc, bytes)
    case _ => true
  }

  lemma StepKeepsStaged(toc: Toc, t: Tree, j: Job, s: Script, pc: Pc)
    requires StagedAs(toc, t, j, s, pc)
    ensures var w := Step(toc, j, s, World(t, pc)); StagedAs(toc, w.tree, j, s, w.pc)
  {
    if pc.Dumping? && pc.written < |s.chunks| {
      ChunkKeepsStaged(toc, t, j, s, pc.written);
    } else {
      GateKeepsStaged(toc, t, j, s, pc);
    }
  }

  lemma ChunkKeepsStaged(toc: Toc, t: Tree, j: Job, s: Script, k: nat)
    requires StagedAs(toc, t, j, s, Dumping(k)) && k < |s.chunks|
    ensures var w := Step(toc, j, s, World(t, Dumping(k))); StagedAs(toc, w.tree, j, s, w.pc)
  {
    hide Doomed, AbortOr, Classify;
    assert s.chunks[..k + 1][..k] == s.chunks[..k];
  }

  lemma GateKeepsStaged(toc: Toc, t: Tree, j: Job, s: Script, pc: Pc)
    requires StagedAs(toc, t, j, s, pc) && (pc.Dumping? ==> pc.written == |s.chunks|)
    ensures var w := Step(toc, j, s, World(t, pc)); StagedAs(toc, w.tree, j, s, w.pc)
  {
    hide Doomed, AbortOr, Classify, Verified, CleanDump;
    assert s.chunks[..|s.chunks|] == s.chunks;
    if pc.Creating? {
      FreshStaging(t, j, s);
    } else {
      hide Flatten;
    }
    VerifiedIs(toc);
    CleanDumpIs(s);
  }

  lemma FreshStaging(t: Tree, j: Job, s: Script)
    ensures Staged(t[TempPath(j, s) := File([])], j, s) == Flatten(s.chunks[..0])
  {
  }

  /** The paths under which dumps of the job's database can be found. */
  ghost predicate IsDumpPath(j: Job, p: Path) {
    p.dir == j.server && IsFinal(j.dbname, p.name)
  }

  /** The job's target holds the bytes of a clean dump that verified. */
  ghost predicate TargetVerified(toc: Toc, t: Tree, j: Job, s: Script) {
    && CleanDump(s) && Verified(toc, Flatten(s.chunks))
    && TargetPath(j) in t && t[TargetPath(j)] == File(Flatten(s.chunks))
  }

  /** No dump of the database has changed, or a commit that failed after its rename has put
      a verified dump under the target. */
  ghost predicate PriorOrVerified(toc: Toc, t0: Tree, t: Tree, j: Job, s: Script) {
    || (forall p :: IsDumpPath(j, p) ==> SameAt(t0, t, p))
    || (&& s.commit.ReplacedThenFailed? && TargetVerified(toc, t, j, s)
        && forall p :: IsDumpPath(j, p) && p != TargetPath(j) ==> SameAt(t0, t, p))
  }

  /** What a worker's steps have done to its database's dumps. Until the commit nothing; a
      failing worker leaves the prior dumps; a successful one has its verified dump in place
      and, before it prunes, nothing else changed. */
  ghost predicate DumpsAt(toc: Toc, t0: Tree, t: Tree, j: Job, s: Script, pc: Pc) {
    match pc
    case CleaningUp(r) => r.reason != OK && PriorOrVerified(toc, t0, t, j, s)
    case Listing(r) => r.reason == OK && CommittedOnly(toc, t0, t, j, s, r)
    case Removing(r, _, _) => r.reason == OK && j.keep > 1
    case Done(r) =>
      && (r.reason != OK ==> PriorOrVerified(toc, t0, t, j, s))
      && (r.reason == OK && j.keep <= 1 ==> CommittedOnly(toc, t0, t, j, s, r))
    case _ => forall p :: IsDumpPath(j, p) ==> SameAt(t0, t, p)
  }

  ghost predicate CommittedOnly(toc: Toc, t0: Tree, t: Tree, j: Job, s: Script, r: Result) {
    && TargetVerified(toc, t, j, s) && r.bytes == |Flatten(s.chunks)|
    && forall p :: IsDumpPath(j, p) && p != TargetPath(j) ==> SameAt(t0, t, p)
  }

  lemma FailuresAreNotOK(j: Job, s: Script, ctx: Option<CtxErr>, fallback: Reason)
    requires fallback != OK
    ensures AbortOr(ctx, fallback) != OK
    ensures Classify(0, ctx, s.probeKind) != OK
  {
  }

  /** The staging file and the server directory are no dumps. */
  lemma StagingIsApart(j: Job, s: Script)
    requires ValidJob(j) && IsTemp(s.temp)
    ensures !IsDumpPath(j, TempPath(j, s)) && IsDumpPath(j, TargetPath(j)) && !IsDumpPath(j, RootEntry(j.server))
    ensures TempPath(j, s) != TargetPath(j)
  {
    TempIsNoDump(s.temp);
  }

  lemma EarlyStepTouchesNoDump(toc: Toc, t: Tree, j: Job, s: Script, pc: Pc, p: Path)
    requires ValidJob(j) && IsTemp(s.temp) && Stage(pc) > 3 && IsDumpPath(j, p)
    ensures SameAt(t, Step(toc, j, s, World(t, pc)).tree, p)
  {
    StagingIsApart(j, s);
    hide IsDumpPath, Doomed, AbortOr, Classify, Staged;
  }

  predicate Failing(pc: Pc) {
    (pc.CleaningUp? || pc.Done?) && pc.outcome.reason != OK
  }

  lemma EarlyStepFailsOrGoesOn(toc: Toc, t: Tree, j: Job, s: Script, pc: Pc)
    requires Stage(pc) > 3
    ensures var next := Step(toc, j, s, World(t, pc)).pc; Stage(next) >= 3 || Failing(next)
  {
    FailuresAreNotOK(j, s, s.probeCtx, Other);
    FailuresAreNotOK(j, s, s.createCtx, Other);
    FailuresAreNotOK(j, s, s.dumpCtx, Other);
    FailuresAreNotOK(j, s, s.verifyCtx, Truncated);
    hide Doomed, AbortOr, Classify, Staged;
  }

  lemma EarlyStepKeepsDumps(toc: Toc, t0: Tree, t: Tree, j: Job, s: Script, pc: Pc)
    requires ValidJob(j) && IsTemp(s.temp) && DumpsAt(toc, t0, t, j, s, pc)
    requires Stage(pc) > 3
    ensures var w := Step(toc, j, s, World(t, pc)); DumpsAt(toc, t0, w.tree, j, s, w.pc)
  {
    EarlyStepFailsOrGoesOn(toc, t, j, s, pc);
    hide Step, IsDumpPath;
    var w := Step(toc, j, s, World(t, pc));
    forall p | IsDumpPath(j, p)
      ensures SameAt(t0, w.tree, p)
    {
      EarlyStepTouchesNoDump(toc, t, j, s, pc, p);
    }
  }

  lemma CommitKeepsDumps(toc: Toc, t0: Tree, t: Tree, j: Job, s: Script, pc: Pc)
    requires ValidJob(j) && IsTemp(s.temp) && DumpsAt(toc, t0, t, j, s, pc) && StagedAs(toc, t, j, s, pc)
    requires pc.Committing?
    ensures var w := Step(toc, j, s, World(t, pc)); DumpsAt(toc, t0, w.tree, j, s, w.pc)
  {
    StagingIsApart(j, s);
    FailuresAreNotOK(j, s, s.commitCtx, RenameFailed);
    hide IsDumpPath, Doomed, AbortOr, Classify;
  }

  lemma LateStepKeepsDumps(toc: Toc, t0: Tree, t: Tree, j: Job, s: Script, pc: Pc)
    requires ValidJob(j) && IsTemp(s.temp) && DumpsAt(toc, t0, t, j, s, pc)
    requires Stage(pc) < 3 && (pc.Listing? ==> j.keep > 1)
    ensures var w := Step(toc, j, s, World(t, pc)); DumpsAt(toc, t0, w.tree, j, s, w.pc)
  {
    StagingIsApart(j, s);
    hide IsDumpPath, Doomed;
  }

  /** What every step of one worker keeps. */
  ghost predicate WorkerInv(toc: Toc, t0: Tree, w: World, j: Job, s: Script) {
    && StagedAs(toc, w.tree, j, s, w.pc)
    && DumpsAt(toc, t0, w.tree, j, s, w.pc)
    && (w.pc.Listing? || w.pc.Removing? ==> j.keep > 1)
  }

  lemma StepKeepsWorkerInv(toc: Toc, t0: Tree, w: World, j: Job, s: Script)
    requires ValidJob(j) && IsTemp(s.temp) && WorkerInv(toc, t0, w, j, s)
    ensures WorkerInv(toc, t0, Step(toc, j, s, w), j, s)
  {
    StepKeepsStaged(toc, w.tree, j, s, w.pc);
    PrunersRetain(toc, w, j, s);
    hide Step, DumpsAt, StagedAs;
    if Stage(w.pc) > 3 {
      EarlyStepKeepsDumps(toc, t0, w.tree, j, s, w.pc);
    } else if w.pc.Committing? {
      CommitKeepsDumps(toc, t0, w.tree, j, s, w.pc);
    } else {
      LateStepKeepsDumps(toc, t0, w.tree, j, s, w.pc);
    }
  }

  lemma PrunersRetain(toc: Toc, w: World, j: Job, s: Script)
    requires w.pc.Listing? || w.pc.Removing? ==> j.keep > 1
    ensures var next := Step(toc, j, s, w).pc; next.Listing? || next.Removing? ==> j.keep > 1
  {
    hide Doomed, AbortOr, Classify, Staged;
  }

  lemma WorkerInvAtStart(toc: Toc, t0: Tree, j: Job, s: Script)
    ensures WorkerInv(toc, t0, World(t0, Probing), j, s)
  {
  }

  lemma {:induction false} AloneInv(toc: Toc, t0: Tree, j: Job, s: Script, k: nat)
    requires ValidJob(j) && IsTemp(s.temp)
    ensures WorkerInv(toc, t0, Alone(toc, j, s, t0, k), j, s)
  {
    hide Step, WorkerInv;
    if k == 0 {
      WorkerInvAtStart(toc, t0, j, s);
    } else {
      AloneInv(toc, t0, j, s, k - 1);
      StepKeepsWorkerInv(toc, t0, Alone(toc, j, s, t0, k - 1), j, s);
    }
  }
}
