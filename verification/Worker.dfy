/** One worker of a dump cycle, step by step: `dumpOne` (internal/dump/dump.go) with
    `stageAndReplace` and the retention prune (internal/dump/verify.go).

    A worker makes one observable move per step: one oracle answer taken or one change of
    the dump directory. A crash stops it between two steps. What the outside world answers
    along the way (the probe, pg_dump, pg_restore, the file system, the context at each
    gate) is fixed by a script, over which everything here is quantified. */
module Worker {
  import opened Results
  import opened DumpName
  import opened Disk
  import Spec

  /** One database of a cycle: where its artifact goes and how many copies are retained. */
  datatype Job = Job(host: string, dbname: string, server: string, target: string, keep: nat)

  function JobOf(s: Spec.DBSpec, keep: nat, start: UTC): Job {
    Job(s.host, s.dbname, Spec.ServerDir(s.host, s.port), DumpFileName(s.dbname, keep, start), keep)
  }

  ghost predicate ValidJob(j: Job) {
    && IsDatabase(j.dbname) && j.server != "" && '/' !in j.server && '/' !in j.target
    && IsFinal(j.dbname, j.target)
    && (j.keep > 1 <==> IsCopy(j.dbname, j.target))
  }

  datatype CreateAnswer = Created | NotRegular | CreateFailed

  /** The rename is atomic; the commit may also fail after it, while flushing the directory. */
  datatype CommitAnswer = Replaced | Refused | ReplacedThenFailed

  /** What the world answers. The `Ctx` fields are the context's error at each gate; `stuck`
      are the names whose removal fails; `temp` is the staging name handed out. */
  datatype Script = Script(
    probeKind: FailKind, probeFailed: bool, probeCtx: Option<CtxErr>, serverMajor: int,
    mkdirOk: bool,
    temp: string, create: CreateAnswer, createCtx: Option<CtxErr>,
    chunks: seq<Content>, exitCode: int, dumpFailed: bool, dumpCtx: Option<CtxErr>,
    statOk: bool,
    verifyFault: bool, verifyCtx: Option<CtxErr>,
    commit: CommitAnswer, commitCtx: Option<CtxErr>,
    cleanupOk: bool,
    listOk: bool, stuck: set<string>)

  datatype Pc =
    | Probing
    | MakingDir
    | Creating
    | Dumping(written: nat)
    | Statting
    | Verifying
    | Committing
    | CleaningUp(outcome: Result)
    | Listing(outcome: Result)
    | Removing(outcome: Result, doomed: seq<string>, at: nat)
    | Done(outcome: Result)

  datatype World = World(tree: Tree, pc: Pc)

  function Outcome(j: Job, s: Script, reason: Reason, bytes: nat): Result {
    Result(j.host, j.dbname, reason, bytes, s.serverMajor)
  }

  function TempPath(j: Job, s: Script): Path { Path(j.server, s.temp) }

  function TargetPath(j: Job): Path { Path(j.server, j.target) }

  function Staged(t: Tree, j: Job, s: Script): Content {
    if IsFile(t, TempPath(j, s)) then t[TempPath(j, s)].content else []
  }

  /** The copies a prune sets out to remove: all but the last `keep` in byte order. */
  ghost function DoomedOf(copies: set<string>, keep: nat): seq<string> {
    var names := InOrder(copies);
    if |names| <= keep then [] else names[..|names| - keep]
  }

  ghost function Doomed(t: Tree, j: Job): seq<string> {
    DoomedOf(Copies(t, j.server, j.dbname), j.keep)
  }

  ghost function Step(toc: Toc, j: Job, s: Script, w: World): World {
    var t := w.tree;
    match w.pc
    case Probing =>
      if s.probeKind != FailNone || s.probeFailed
      then World(t, Done(Outcome(j, s, Classify(0, s.probeCtx, s.probeKind), 0)))
      else World(t, MakingDir)
    case MakingDir =>
      if s.mkdirOk && !IsFile(t, RootEntry(j.server)) then World(t[RootEntry(j.server) := Dir], Creating)
      else World(t, Done(Outcome(j, s, MkdirFailed, 0)))
    case Creating =>
      if s.create.NotRegular? || (TargetPath(j) in t && t[TargetPath(j)].Dir?)
      then World(t, Done(Outcome(j, s, RenameFailed, 0)))
      else if s.create.CreateFailed? then World(t, Done(Outcome(j, s, AbortOr(s.createCtx, Other), 0)))
      else World(t[TempPath(j, s) := File([])], Dumping(0))
    case Dumping(k) =>
      if k < |s.chunks| then World(t[TempPath(j, s) := File(Staged(t, j, s) + s.chunks[k])], Dumping(k + 1))
      else if s.dumpCtx.Some? then World(t, CleaningUp(Outcome(j, s, AbortOr(s.dumpCtx, Other), 0)))
      else if s.dumpFailed && s.exitCode == 0 then World(t, CleaningUp(Outcome(j, s, Other, 0)))
      else if s.exitCode != 0 then World(t, CleaningUp(Outcome(j, s, PGError, 0)))
      else World(t, Statting)
    case Statting =>
      if !s.statOk then World(t, CleaningUp(Outcome(j, s, Other, 0)))
      else if Staged(t, j, s) == [] then World(t, CleaningUp(Outcome(j, s, Empty, 0)))
      else World(t, Verifying)
    case Verifying =>
      if s.verifyFault || !toc(Staged(t, j, s))
      then World(t, CleaningUp(Outcome(j, s, AbortOr(s.verifyCtx, Truncated), 0)))
      else World(t, Committing)
    case Committing =>
      var failed := CleaningUp(Outcome(j, s, AbortOr(s.commitCtx, RenameFailed), 0));
      if s.commit.Refused? then World(t, failed) else
      var bytes := Staged(t, j, s);
      var replaced := (t - {TempPath(j, s)})[TargetPath(j) := File(bytes)];
      if s.commit.ReplacedThenFailed? then World(replaced, failed) else
      var r := Outcome(j, s, OK, |bytes|);
      World(replaced, if j.keep > 1 then Listing(r) else Done(r))
    case CleaningUp(r) => World(if s.cleanupOk then t - {TempPath(j, s)} else t, Done(r))
    case Listing(r) => World(t, if s.listOk then Removing(r, Doomed(t, j), 0) else Done(r))
    case Removing(r, doomed, at) =>
      if at >= |doomed| then World(t, Done(r))
      else if doomed[at] in s.stuck then World(t, Removing(r, doomed, at + 1))
      else World(t - {Path(j.server, doomed[at])}, Removing(r, doomed, at + 1))
    case Done(_) => w
  }

  /** The world after k steps of one worker alone. */
  ghost function Alone(toc: Toc, j: Job, s: Script, t0: Tree, k: nat): World {
    if k == 0 then World(t0, Probing) else Step(toc, j, s, Alone(toc, j, s, t0, k - 1))
  }

  // Every worker ends.

  function Stage(pc: Pc): nat {
    match pc
    case Probing => 9
    case MakingDir => 8
    case Creating => 7
    case Dumping(_) => 6
    case Statting => 5
    case Verifying => 4
    case Committing => 3
    case CleaningUp(_) => 2
    case Listing(_) => 2
    case Removing(_, _, _) => 1
    case Done(_) => 0
  }

  function Inside(s: Script, pc: Pc): int {
    match pc
    case Dumping(k) => |s.chunks| - k
    case Removing(_, doomed, at) => |doomed| - at
    case _ => 0
  }

  ghost function StepsToDone(toc: Toc, j: Job, s: Script, w: World): nat
    decreases Stage(w.pc), if Inside(s, w.pc) > 0 then Inside(s, w.pc) else 0
  {
    if w.pc.Done? then 0 else 1 + StepsToDone(toc, j, s, Step(toc, j, s, w))
  }

  /** The number of steps a worker takes from the start of a cycle to its result. */
  ghost function Length(toc: Toc, j: Job, s: Script, t0: Tree): nat {
    StepsToDone(toc, j, s, World(t0, Probing))
  }

  lemma {:induction false} StepsCountDown(toc: Toc, j: Job, s: Script, t0: Tree, k: nat)
    requires k <= Length(toc, j, s, t0)
    ensures StepsToDone(toc, j, s, Alone(toc, j, s, t0, k)) == Length(toc, j, s, t0) - k
  {
    hide Step;
    if k > 0 {
      StepsCountDown(toc, j, s, t0, k - 1);
    }
  }

  lemma EndsDone(toc: Toc, j: Job, s: Script, t0: Tree)
    ensures Alone(toc, j, s, t0, Length(toc, j, s, t0)).pc.Done?
  {
    StepsCountDown(toc, j, s, t0, Length(toc, j, s, t0));
  }

  lemma DoneRests(toc: Toc, j: Job, s: Script, w: World)
    requires w.pc.Done?
    ensures Step(toc, j, s, w) == w
  {
  }

  lemma {:induction false} StaysDone(toc: Toc, j: Job, s: Script, t0: Tree, k: nat, m: nat)
    requires k <= m && Alone(toc, j, s, t0, k).pc.Done?
    ensures Alone(toc, j, s, t0, m) == Alone(toc, j, s, t0, k)
  {
    hide Step;
    DoneRests(toc, j, s, Alone(toc, j, s, t0, k));
    if k < m {
      StaysDone(toc, j, s, t0, k, m - 1);
    }
  }
}
