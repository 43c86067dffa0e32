/** Retention over cycles (internal/dump/verify.go, internal/dump/dump.go): what a series of whole
    cycles, each with its pool, its other databases and its interruptions by other programs,
    leaves of one database's copies. */
module Series {
  import opened Results
  import opened DumpName
  import opened Disk
  import opened Worker
  import opened Workers
  import opened Retention
  import Execution
  import History
  import Pool
  import Serial

  /** One cycle: the idle state it found, what its sweep took, its tasks, the run of its pool and
      workers, and the position of the database looked at. */
  datatype Round = Round(
    before: History.State, tasks: seq<Task>, swept: set<Path>,
    config: Pool.Config, events: seq<Execution.Event>, index: nat)

  function Begin(r: Round): History.Event {
    History.Begin(r.tasks, r.swept)
  }

  ghost function Begun(toc: Toc, r: Round): History.State
    requires History.Enabled(r.before, Begin(r))
  {
    History.Apply(toc, r.before, Begin(r))
  }

  /** The cycle began, and its pool ran to the return. */
  ghost predicate Ran(toc: Toc, r: Round) {
    && History.Enabled(r.before, Begin(r)) && Execution.Matches(r.config, r.tasks)
    && Execution.Exec(toc, r.config, Begun(toc, r), r.events).Some?
    && Execution.Exec(toc, r.config, Begun(toc, r), r.events).value.pool.pc == Pool.Returned
  }

  ghost function End(toc: Toc, r: Round): History.State
    requires Ran(toc, r)
  {
    Execution.Exec(toc, r.config, Begun(toc, r), r.events).value.disk
  }

  /** The cycle's worker for this job reported ok, and its prune met no fault. */
  ghost predicate Dumps(toc: Toc, r: Round, job: Job)
    requires Ran(toc, r)
  {
    && r.index < |r.tasks| && r.tasks[r.index].job == job
    && r.tasks[r.index].script.listOk && r.tasks[r.index].script.stuck == {}
    && r.index < |End(toc, r).pcs| && SaysDoneOK(End(toc, r).pcs[r.index])
  }

  predicate SaysDoneOK(pc: Pc) {
    pc.Done? && pc.outcome.reason == OK
  }

  /** The state a later cycle finds: this one's end, after other programs' writes. */
  ghost predicate Follows(toc: Toc, r: Round, next: History.State)
    requires Ran(toc, r)
  {
    var stopped := History.Apply(toc, End(toc, r), History.Stop);
    next == stopped || (History.Enabled(stopped, History.Outside(next.tree)) && next == stopped.(tree := next.tree))
  }

  lemma SweepKeepsCopies(toc: Toc, r: Round, dir: string, db: string)
    requires History.Enabled(r.before, Begin(r)) && IsDatabase(db)
    ensures Copies(Begun(toc, r).tree, dir, db) == Copies(r.before.tree, dir, db)
  {
    hide IsDatabase, IsTemp, IsCopy, Copies;
    forall n
      ensures n in Copies(Begun(toc, r).tree, dir, db) <==> n in Copies(r.before.tree, dir, db)
    {
      CopiesMembers(Begun(toc, r).tree, dir, db, n);
      CopiesMembers(r.before.tree, dir, db, n);
      if IsCopy(db, n) {
        CopyIsNotTemp(db, n);
      }
    }
  }

  lemma CopyIsNotTemp(db: string, name: string)
    requires IsDatabase(db) && IsCopy(db, name)
    ensures !IsTemp(name) && History.OwnName(name)
  {
    if IsTemp(name) {
      TempIsNoDump(name);
    }
    Serial.FinalHasSuffix(db, name);
  }

  /** Trees that agree on the program's own names hold the same copies. */
  lemma SameOwnSameCopies(t: Tree, u: Tree, dir: string, db: string)
    requires IsDatabase(db)
    requires forall n :: IsCopy(db, n) ==> SameAt(t, u, Path(dir, n))
    ensures Copies(t, dir, db) == Copies(u, dir, db)
  {
    hide IsDatabase, IsCopy, Copies;
    forall n
      ensures n in Copies(t, dir, db) <==> n in Copies(u, dir, db)
    {
      CopiesMembers(t, dir, db, n);
      CopiesMembers(u, dir, db, n);
      assert IsCopy(db, n) ==> SameAt(t, u, Path(dir, n));
    }
  }

  lemma FollowsKeepsCopies(toc: Toc, r: Round, next: History.State, dir: string, db: string)
    requires Ran(toc, r) && Follows(toc, r, next) && IsDatabase(db)
    ensures Copies(next.tree, dir, db) == Copies(End(toc, r).tree, dir, db)
  {
    hide Ran, End, IsDatabase, IsCopy, Copies, History.OwnName;
    forall n | IsCopy(db, n)
      ensures SameAt(next.tree, End(toc, r).tree, Path(dir, n))
    {
      CopyIsNotTemp(db, n);
      assert History.OwnName(Path(dir, n).name);
    }
    SameOwnSameCopies(next.tree, End(toc, r).tree, dir, db);
  }

  lemma BeginsFresh(toc: Toc, r: Round)
    requires History.Enabled(r.before, Begin(r))
    ensures Begun(toc, r).tasks == r.tasks && Execution.JustBegun(Begun(toc, r)) && ValidTasks(r.tasks)
  {
    hide ValidTasks;
  }

  /** In a cycle, whatever else went on in it, a worker that reported ok has dumped its database
      from the tree the cycle began with, and the cycle's end holds the copies it left. */
  lemma WorkerDumped(toc: Toc, r: Round, job: Job) returns (u: Tree)
    requires Ran(toc, r) && Dumps(toc, r, job)
    ensures Dumped(toc, Begun(toc, r).tree, u, job, r.tasks[r.index].script)
    ensures ValidJob(job) && IsTemp(r.tasks[r.index].script.temp)
    ensures Copies(End(toc, r).tree, job.server, job.dbname) == Copies(u, job.server, job.dbname)
  {
    BeginsFresh(toc, r);
    var begun, task := Begun(toc, r), r.tasks[r.index];
    Serial.ReachableAlone(toc, r.config, begun, r.events);
    Execution.ReachableLinked(toc, r.config, begun, r.events);
    hide Execution.Exec, Execution.Linked, Execution.Matches, Alone, Count, IsTemp, ValidJob, IsDatabase, Copies;
    hide History.Enabled, IsCopy, OwnDoomed;
    var schedule := Serial.ScheduleOf(r.events);
    var k := Count(schedule, r.index);
    assert AsIfAlone(toc, r.tasks, begun.tree, System(End(toc, r).tree, End(toc, r).pcs), schedule, r.index);
    u := Alone(toc, task.job, task.script, begun.tree, k).tree;
    assert EndsWell(toc, begun.tree, task.job, task.script, k);
    AlikeSameCopies(task, End(toc, r).tree, u);
  }

  lemma AlikeSameCopies(task: Task, t: Tree, u: Tree)
    requires ValidJob(task.job) && Alike(task, t, u)
    ensures Copies(t, task.job.server, task.job.dbname) == Copies(u, task.job.server, task.job.dbname)
  {
    hide IsCopy, Copies, IsDatabase;
    forall n | IsCopy(task.job.dbname, n)
      ensures SameAt(t, u, Path(task.job.server, n))
    {
      assert Touches(task, Path(task.job.server, n));
    }
    SameOwnSameCopies(t, u, task.job.server, task.job.dbname);
  }

  /** One cycle: the copies it found and the new one, cut back to the newest. */
  lemma RoundRetains(toc: Toc, r: Round, job: Job)
    requires Ran(toc, r) && Dumps(toc, r, job) && job.keep > 1
    ensures Copies(End(toc, r).tree, job.server, job.dbname)
         == Newest(Copies(r.before.tree, job.server, job.dbname) + {job.target}, job.keep)
  {
    var u := WorkerDumped(toc, r, job);
    hide End, Dumped, Copies, Newest, IsTemp, IsDatabase, IsFinal, IsCopy, History.Enabled, Execution.Exec;
    var script := r.tasks[r.index].script;
    RetainedCopies(toc, Begun(toc, r).tree, u, job, script);
    SweepKeepsCopies(toc, r, job.server, job.dbname);
    NewestIsSubset(Committed(Begun(toc, r).tree, job), job.keep);
  }

  /** A series of cycles in which one database is dumped with a fixed `keep` at increasing times:
      each cycle ran, dumped it, and left what the next one found. */
  ghost predicate IsSeries(
    toc: Toc, host: string, server: string, db: string, keep: nat, starts: seq<UTC>, rounds: seq<Round>)
  {
    && IsDatabase(db) && keep > 1 && Increasing(starts) && |rounds| == |starts|
    && (forall m :: 0 <= m < |rounds| ==>
          Ran(toc, rounds[m]) && Dumps(toc, rounds[m], Job(host, db, server, DumpFileName(db, keep, starts[m]), keep)))
    && (forall m :: 0 <= m < |rounds| - 1 ==> Follows(toc, rounds[m], rounds[m + 1].before))
    && (|rounds| > 0 ==> Copies(rounds[0].before.tree, server, db) == {})
  }

  lemma SeriesRound(
    toc: Toc, host: string, server: string, db: string, keep: nat, starts: seq<UTC>, rounds: seq<Round>, n: nat)
    requires IsSeries(toc, host, server, db, keep, starts, rounds) && n < |rounds|
    ensures keep > 1 && Increasing(starts)
    ensures |starts| == |rounds| && Ran(toc, rounds[n]) && (n > 0 ==> Ran(toc, rounds[n - 1]))
    ensures var found := if n == 0 then {} else Copies(End(toc, rounds[n - 1]).tree, server, db);
            Copies(End(toc, rounds[n]).tree, server, db)
            == Newest(found + {DumpFileName(db, keep, starts[n])}, keep)
  {
    hide Ran, End, Dumps, Follows, Copies, Newest, Increasing, IsDatabase, DumpFileName;
    RoundRetains(toc, rounds[n], Job(host, db, server, DumpFileName(db, keep, starts[n]), keep));
    if n > 0 {
      assert Follows(toc, rounds[n - 1], rounds[n - 1 + 1].before);
      FollowsKeepsCopies(toc, rounds[n - 1], rounds[n].before, server, db);
    }
  }

  /** Exact retention over cycles: starting from no copies, after n cycles the copies on disk are
      exactly those of the newest min(n, keep) starts, whatever other databases, sweeps and
      other programs did in and between the cycles. */
  lemma {:induction false} ExactRetentionOverCycles(
    toc: Toc, host: string, server: string, db: string, keep: nat, starts: seq<UTC>, rounds: seq<Round>, n: nat)
    requires IsSeries(toc, host, server, db, keep, starts, rounds) && n < |rounds|
    ensures |starts| == |rounds| && Ran(toc, rounds[n])
    ensures NewestOnly(Copies(End(toc, rounds[n]).tree, server, db), db, keep, starts, n + 1)
  {
    hide IsSeries, Ran, End, Copies, Newest, Increasing, DumpFileName, NewestOnly;
    SeriesRound(toc, host, server, db, keep, starts, rounds, n);
    if n == 0 {
      NothingYet(db, keep, starts);
      WindowMoves(db, keep, starts, 0, {});
    } else {
      ExactRetentionOverCycles(toc, host, server, db, keep, starts, rounds, n - 1);
      WindowMoves(db, keep, starts, n, Copies(End(toc, rounds[n - 1]).tree, server, db));
    }
  }
}
