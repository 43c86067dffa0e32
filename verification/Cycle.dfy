/** One dump cycle as a whole: `Orchestrator.Run` (internal/dump/dump.go), what its verdict
    says about every database, and that it is only recorded for whole cycles. */
module Cycle {
  import opened Results
  import opened Spec
  import opened SpecLaws
  import opened DumpName
  import opened Disk
  import opened Worker
  import Availability
  import Execution
  import History
  import Lifecycle
  import Pool
  import Reclaim
  import Runtime
  import Volume
  import Workers

  /** The result of a spec that failed validation, labelled with its raw text when it has no
      database name. */
  function InvalidResult(s: DBSpec): Result {
    Result(s.host, if s.dbname == "" then s.raw else s.dbname, if s.duplicate then Duplicate else Invalid, 0, 0)
  }

  /** What an invalid spec reports, in the source's words: its host, its database or, when none
      was parsed, its raw text, and whether it repeats an earlier spec or is wrong in itself. */
  lemma InvalidResultIs(s: DBSpec)
    ensures var r := InvalidResult(s);
            && r.host == s.host && r.bytes == 0 && r.serverVersion == 0
            && (s.dbname == "" ==> r.dbname == s.raw) && (s.dbname != "" ==> r.dbname == s.dbname)
            && (s.duplicate ==> r.reason == Duplicate) && (!s.duplicate ==> r.reason == Invalid)
  {
  }

  /** The position of spec i among the valid ones. */
  function Rank(specs: seq<DBSpec>, i: nat): nat
    requires i <= |specs|
  {
    |Accepted(specs[..i])|
  }

  lemma AcceptedGrows(specs: seq<DBSpec>, i: nat)
    requires i < |specs|
    ensures Accepted(specs[..i + 1]) == Accepted(specs[..i]) + if specs[i].invalid.None? then [specs[i]] else []
  {
    assert specs[..i + 1][..i] == specs[..i];
  }

  lemma {:induction false} RankInRange(specs: seq<DBSpec>, i: nat, n: nat)
    requires i < n <= |specs| && specs[i].invalid.None?
    ensures Rank(specs, i) < Rank(specs, n) && Accepted(specs[..n])[Rank(specs, i)] == specs[i]
  {
    AcceptedGrows(specs, n - 1);
    if i < n - 1 {
      RankInRange(specs, i, n - 1);
    }
  }

  /** What a cycle reports, given what the pool handed back for the valid specs. */
  function Report(specs: seq<DBSpec>, sub: seq<Result>): (results: seq<Result>)
    requires |sub| == |Accepted(specs)|
    ensures |results| == |specs|
  {
    seq(|specs|, i requires 0 <= i < |specs| => ReportAt(specs, sub, i))
  }

  function ReportAt(specs: seq<DBSpec>, sub: seq<Result>, i: nat): Result
    requires i < |specs| && |sub| == |Accepted(specs)|
  {
    if specs[i].invalid.Some? then InvalidResult(specs[i]) else
    RankInRange(specs, i, |specs|);
    assert specs[..|specs|] == specs;
    sub[Rank(specs, i)]
  }

  /** The valid specs before position i. */
  ghost function ValidBefore(specs: seq<DBSpec>, i: nat): set<nat>
    requires i <= |specs|
  {
    set k: nat | k < i && specs[k].invalid.None?
  }

  lemma {:induction false} RankCounts(specs: seq<DBSpec>, i: nat)
    requires i <= |specs|
    ensures Rank(specs, i) == |ValidBefore(specs, i)|
  {
    if i == 0 {
      assert ValidBefore(specs, 0) == {};
    } else {
      AcceptedGrows(specs, i - 1);
      RankCounts(specs, i - 1);
      if specs[i - 1].invalid.None? {
        assert ValidBefore(specs, i) == ValidBefore(specs, i - 1) + {i - 1};
      } else {
        assert ValidBefore(specs, i) == ValidBefore(specs, i - 1);
      }
    }
  }

  /** Every position of the report: an invalid spec's own result, or the pool's result at the
      number of valid specs before it. */
  lemma ReportPlaces(specs: seq<DBSpec>, sub: seq<Result>, i: nat)
    requires i < |specs| && |sub| == |Accepted(specs)|
    ensures specs[i].invalid.Some? ==> Report(specs, sub)[i] == InvalidResult(specs[i])
    ensures specs[i].invalid.None? ==>
      |ValidBefore(specs, i)| < |sub| && Report(specs, sub)[i] == sub[|ValidBefore(specs, i)|]
  {
    RankCounts(specs, i);
    hide Accepted, ValidBefore;
    if specs[i].invalid.None? {
      RankInRange(specs, i, |specs|);
      assert specs[..|specs|] == specs;
    }
  }

  function Targets(valid: seq<DBSpec>): seq<Pool.Target> {
    seq(|valid|, i requires 0 <= i < |valid| => Pool.Target(valid[i].host, valid[i].dbname))
  }

  function PoolConfig(valid: seq<DBSpec>, concurrency: int): (c: Pool.Config)
    requires valid != []
    ensures c.permits >= 1
  {
    Pool.Config(Runtime.Clamp(concurrency, 1, |valid|), Targets(valid))
  }

  /** What the outside world brings to a cycle: the retention setting and, for each valid
      spec, the start time and the answers its worker meets. */
  datatype Setting = Setting(keep: nat, starts: seq<UTC>, scripts: seq<Script>)

  predicate Fits(env: Setting, valid: seq<DBSpec>) {
    |env.starts| == |valid| == |env.scripts|
  }

  /** The tasks of a cycle over some specs. */
  function TasksOf(valid: seq<DBSpec>, env: Setting): seq<Workers.Task>
    requires Fits(env, valid)
  {
    seq(|valid|, i requires 0 <= i < |valid| =>
          Workers.Task(JobOf(valid[i], env.keep, env.starts[i]), env.scripts[i]))
  }

  /** A spec's task dumps its own database into its server's directory, under the stable name or
      one stamped with its own start. */
  lemma TaskIs(valid: seq<DBSpec>, env: Setting, i: nat)
    requires Fits(env, valid) && i < |valid|
    ensures var task := TasksOf(valid, env)[i];
            && task.script == env.scripts[i] && task.job.keep == env.keep
            && task.job.host == valid[i].host && task.job.dbname == valid[i].dbname
            && task.job.server == ServerDir(valid[i].host, valid[i].port)
            && task.job.target == valid[i].dbname + (if env.keep > 1 then "." + Stamp(env.starts[i]) else "") + ".dump"
  {
    hide Stamp, ServerDir;
    DumpFileNameIs(valid[i].dbname, env.keep, env.starts[i]);
    var db, stamp := valid[i].dbname, Stamp(env.starts[i]);
    assert db + ("." + stamp) + ".dump" == db + "." + stamp + ".dump" && db + "" + ".dump" == db + ".dump";
  }

  /** One cycle: what it was asked to do, the directory it found, what its sweep took away, and
      the events of its pool and workers. */
  datatype Attempt = Attempt(
    specs: seq<DBSpec>, concurrency: int, env: Setting,
    before: History.State, swept: set<Path>, events: seq<Execution.Event>)

  function Valid(a: Attempt): seq<DBSpec> { Accepted(a.specs) }

  function Begin(a: Attempt): History.Event
    requires Fits(a.env, Valid(a))
  {
    History.Begin(TasksOf(Valid(a), a.env), a.swept)
  }

  ghost predicate Possible(a: Attempt) {
    Fits(a.env, Valid(a)) && History.Enabled(a.before, Begin(a))
  }

  /** The directory and the workers once the sweep is done and the cycle has begun. */
  ghost function Begun(toc: Toc, a: Attempt): History.State
    requires Possible(a)
  {
    History.Apply(toc, a.before, Begin(a))
  }

  /** Where the pool and its workers got to; with nothing valid to dump no pool runs. */
  ghost function EndOf(toc: Toc, a: Attempt): Option<Execution.State>
    requires Possible(a) && Valid(a) != []
  {
    Execution.Exec(toc, PoolConfig(Valid(a), a.concurrency), Begun(toc, a), a.events)
  }

  /** The cycle's pool ran to its return, handed back `sub` and left the tree `after`.
      `cancelled` is what the run context says when the cycle asks at the end, and a
      cancellation is sticky. */
  ghost predicate PoolRan(toc: Toc, a: Attempt, sub: seq<Result>, after: Tree, cancelled: bool) {
    && Possible(a)
    && if Valid(a) == [] then sub == [] && after == Begun(toc, a).tree else
       && EndOf(toc, a).Some?
       && var s := EndOf(toc, a).value;
          && s.pool.pc == Pool.Returned && s.pool.results == sub && s.disk.tree == after
          && (s.pool.cancelled ==> cancelled)
  }

  function CountOK(results: seq<Result>): nat {
    if results == [] then 0
    else CountOK(results[..|results| - 1]) + (if results[|results| - 1].reason == OK then 1 else 0)
  }

  /** The positions whose result is ok. */
  ghost function OKPositions(results: seq<Result>): set<nat> {
    set i: nat | i < |results| && results[i].reason == OK
  }

  lemma {:induction false} CountIsPositions(results: seq<Result>)
    ensures CountOK(results) == |OKPositions(results)|
  {
    if results != [] {
      var before := results[..|results| - 1];
      CountIsPositions(before);
      if results[|results| - 1].reason == OK {
        assert OKPositions(results) == OKPositions(before) + {|before|};
      } else {
        assert OKPositions(results) == OKPositions(before);
      }
    } else {
      assert OKPositions(results) == {};
    }
  }

  /** The first n specs' invalid results are in place, and `validPos` lists the positions of
      the valid ones. */
  ghost predicate Placed(specs: seq<DBSpec>, n: nat, filled: seq<Result>, validPos: seq<nat>)
    requires n <= |specs|
  {
    && |filled| == |specs|
    && (forall i :: 0 <= i < n && specs[i].invalid.Some? ==> filled[i] == InvalidResult(specs[i]))
    && (forall k :: 0 <= k < |validPos| ==>
          validPos[k] < n && specs[validPos[k]].invalid.None? && Rank(specs, validPos[k]) == k)
    && (forall i :: 0 <= i < n && specs[i].invalid.None? ==>
          Rank(specs, i) < |validPos| && validPos[Rank(specs, i)] == i)
  }

  lemma PlacedNothing(specs: seq<DBSpec>, filled: seq<Result>)
    requires |filled| == |specs|
    ensures Placed(specs, 0, filled, []) && Accepted(specs[..0]) == []
  {
  }

  lemma PlacedInvalid(specs: seq<DBSpec>, i: nat, filled: seq<Result>, validPos: seq<nat>)
    requires i < |specs| && Placed(specs, i, filled, validPos) && specs[i].invalid.Some?
    ensures Placed(specs, i + 1, filled[i := InvalidResult(specs[i])], validPos)
  {
    hide Rank, InvalidResult;
  }

  lemma PlacedValid(specs: seq<DBSpec>, i: nat, filled: seq<Result>, validPos: seq<nat>)
    requires i < |specs| && Placed(specs, i, filled, validPos) && specs[i].invalid.None?
    requires |validPos| == Rank(specs, i)
    ensures Placed(specs, i + 1, filled, validPos + [i])
  {
    hide Rank, InvalidResult;
  }

  class Orchestrator {
    const specs: seq<DBSpec>
    const concurrency: int
    /** Holds the last-run record and the health the verdict goes to. */
    const server: Lifecycle.Server

    constructor (specs: seq<DBSpec>, concurrency: int, server: Lifecycle.Server)
      ensures this.specs == specs && this.concurrency == concurrency && this.server == server
    {
      this.specs, this.concurrency, this.server := specs, concurrency, server;
    }

    /** Sweeps, splits the specs, runs the pool over the valid ones, puts every result back in
        its place, tallies them and, unless the run was cancelled, records the verdict. Every
        result is its own spec's, and a recorded cycle is whole. */
    method Run(
      vol: Volume.Volume, readable: bool, faults: Reclaim.Faults,
      ghost toc: Toc, ghost a: Attempt, sub: seq<Result>, after: Tree, cancelled: bool, time: int, landed: bool)
      returns (results: seq<Result>, ok: nat, failed: nat)
      requires server.Valid()
      requires a.specs == specs && a.concurrency == concurrency
      requires a.before.tree == vol.tree && WellNamed(vol.tree) && a.swept == Reclaim.Sweep(vol.tree, readable, faults)
      requires PoolRan(toc, a, sub, after, cancelled)
      modifies vol`tree, server
      ensures vol.tree == after
      ensures |sub| == |Accepted(specs)| && results == Report(specs, sub)
      ensures forall i :: 0 <= i < |specs| ==> NamesItsSpec(results[i], specs[i])
      ensures !cancelled ==> forall i :: 0 <= i < |specs| ==> !CutShort(results[i])
      ensures ok == |OKPositions(results)| && ok + failed == |specs|
      ensures server.Valid()
      ensures server.log == old(server.log)
        + [if cancelled then Lifecycle.Cancelled else Lifecycle.Completed(time, CycleSucceeded(results), landed)]
      ensures cancelled ==> server.record == old(server.record) && server.marker == old(server.marker)
      ensures !cancelled && landed ==> server.record == Some(Lifecycle.RunRecord(time, CycleSucceeded(results)))
      ensures !cancelled && !old(server.latched) ==> server.marker == CycleSucceeded(results)
    {
      hide *;
      ResultsNameTheirSpecs(toc, a, sub, after, cancelled);
      NoPool(toc, a, sub, after, cancelled);
      if !cancelled {
        RecordedCyclesAreWhole(toc, a, sub, after);
      }
      Reclaim.SweepIs(vol.tree, readable, faults);
      var total, unreclaimed := Reclaim.ReclaimOrphans(vol, readable, faults);
      var filled, valid, validPos := Split();
      if |valid| > 0 {
        vol.tree := after;
        filled := Scatter(filled, sub, validPos);
      } else {
        NothingToScatter(specs, filled, sub, validPos);
      }
      results := filled;
      ok, failed := Tally(results);
      if cancelled {
        server.EndCycle(true, time, false, landed);
        return;
      }
      var verdict := CycleOK(results);
      server.EndCycle(false, time, verdict, landed);
    }

    /** Puts the invalid specs' results in place and gathers the valid specs with their
        positions. */
    method Split() returns (filled: seq<Result>, valid: seq<DBSpec>, validPos: seq<nat>)
      ensures valid == Accepted(specs) && |validPos| == |valid| && Placed(specs, |specs|, filled, validPos)
    {
      hide Placed, Accepted, InvalidResult;
      filled := seq(|specs|, i => Result("", "", Other, 0, 0));
      valid, validPos := [], [];
      PlacedNothing(specs, filled);
      for i := 0 to |specs|
        invariant |filled| == |specs|
        invariant valid == Accepted(specs[..i]) && |validPos| == |valid| && Placed(specs, i, filled, validPos)
      {
        AcceptedGrows(specs, i);
        var s := specs[i];
        if s.invalid.Some? {
          PlacedInvalid(specs, i, filled, validPos);
          filled := filled[i := InvalidResult(s)];
          continue;
        }
        PlacedValid(specs, i, filled, validPos);
        valid := valid + [s];
        validPos := validPos + [i];
      }
      assert specs[..|specs|] == specs;
    }

    method Scatter(filled: seq<Result>, sub: seq<Result>, validPos: seq<nat>) returns (results: seq<Result>)
      requires |sub| == |validPos| == |Accepted(specs)| && Placed(specs, |specs|, filled, validPos)
      ensures results == Report(specs, sub)
    {
      results := filled;
      for j := 0 to |sub|
        invariant |results| == |specs|
        invariant forall i :: 0 <= i < |specs| && specs[i].invalid.Some? ==> results[i] == InvalidResult(specs[i])
        invariant forall i :: 0 <= i < |specs| && specs[i].invalid.None? && Rank(specs, i) < j ==>
                    results[i] == sub[Rank(specs, i)]
      {
        results := results[validPos[j] := sub[j]];
      }
      forall i | 0 <= i < |specs|
        ensures results[i] == ReportAt(specs, sub, i)
      {
      }
    }

    method Tally(results: seq<Result>) returns (ok: nat, failed: nat)
      ensures ok == CountOK(results) == |OKPositions(results)| && ok + failed == |results|
    {
      CountIsPositions(results);
      ok, failed := 0, 0;
      for i := 0 to |results|
        invariant ok == CountOK(results[..i]) && ok + failed == i
      {
        assert results[..i + 1][..i] == results[..i];
        if results[i].reason == OK {
          ok := ok + 1;
        } else {
          failed := failed + 1;
        }
      }
      assert results[..|results|] == results;
    }
  }

  lemma NothingToScatter(specs: seq<DBSpec>, filled: seq<Result>, sub: seq<Result>, validPos: seq<nat>)
    requires |sub| == |validPos| == |Accepted(specs)| == 0 && Placed(specs, |specs|, filled, validPos)
    ensures filled == Report(specs, sub)
  {
    hide Accepted, InvalidResult;
  }

  lemma NoPool(toc: Toc, a: Attempt, sub: seq<Result>, after: Tree, cancelled: bool)
    requires PoolRan(toc, a, sub, after, cancelled)
    ensures Accepted(a.specs) == [] ==> after == a.before.tree - a.swept && sub == []
  {
  }

  // What the results say.

  /** A result carries its spec's host, and its database when that was parsed. */
  predicate NamesItsSpec(r: Result, s: DBSpec) {
    r.host == s.host && (s.dbname != "" ==> r.dbname == s.dbname)
  }

  predicate CutShort(r: Result) {
    r.reason == Killed || r.reason == Skipped
  }

  /** The pool of a cycle runs over tasks that have just begun. */
  lemma CycleBegins(toc: Toc, a: Attempt)
    requires Possible(a) && Valid(a) != []
    ensures Begun(toc, a).tasks == TasksOf(Valid(a), a.env) && Execution.JustBegun(Begun(toc, a))
    ensures Execution.Matches(PoolConfig(Valid(a), a.concurrency), Begun(toc, a).tasks)
  {
    hide History.Enabled;
  }

  /** What the pool hands back about the n-th valid spec. */
  lemma PoolResult(toc: Toc, a: Attempt, sub: seq<Result>, after: Tree, cancelled: bool, n: nat)
    requires PoolRan(toc, a, sub, after, cancelled) && n < |Valid(a)|
    ensures |sub| == |Valid(a)| && sub[n].host == Valid(a)[n].host && sub[n].dbname == Valid(a)[n].dbname
    ensures !cancelled ==> !CutShort(sub[n]) && n in EndOf(toc, a).value.pool.written
    ensures var disk := EndOf(toc, a).value.disk;
            && disk.tasks == TasksOf(Valid(a), a.env) && |disk.pcs| == |Valid(a)|
            && (sub[n].reason == OK ==> disk.pcs[n] == Done(sub[n]))
  {
    hide Valid, Execution.Exec, Possible, Begun;
    CycleBegins(toc, a);
    Execution.ReturnedResult(toc, PoolConfig(Valid(a), a.concurrency), Begun(toc, a), a.events, n);
  }

  lemma SubFits(toc: Toc, a: Attempt, sub: seq<Result>, after: Tree, cancelled: bool)
    requires PoolRan(toc, a, sub, after, cancelled)
    ensures |sub| == |Accepted(a.specs)|
  {
    hide PoolRan, Accepted;
    if Valid(a) != [] {
      PoolResult(toc, a, sub, after, cancelled, 0);
    } else {
      NoPool(toc, a, sub, after, cancelled);
    }
  }

  /** In every run of the pool, with or without a cancellation, every position of a cycle's
      results names its own spec. */
  lemma ResultsNameTheirSpecs(toc: Toc, a: Attempt, sub: seq<Result>, after: Tree, cancelled: bool)
    requires PoolRan(toc, a, sub, after, cancelled)
    ensures |sub| == |Accepted(a.specs)|
    ensures forall i :: 0 <= i < |a.specs| ==> NamesItsSpec(Report(a.specs, sub)[i], a.specs[i])
  {
    hide PoolRan, Accepted;
    SubFits(toc, a, sub, after, cancelled);
    forall i | 0 <= i < |a.specs|
      ensures NamesItsSpec(Report(a.specs, sub)[i], a.specs[i])
    {
      if a.specs[i].invalid.None? {
        RankOfValid(a.specs, i);
        PoolResult(toc, a, sub, after, cancelled, Rank(a.specs, i));
      }
    }
  }

  lemma RankOfValid(specs: seq<DBSpec>, i: nat)
    requires i < |specs| && specs[i].invalid.None?
    ensures Rank(specs, i) < |Accepted(specs)| && Accepted(specs)[Rank(specs, i)] == specs[i]
  {
    RankInRange(specs, i, |specs|);
    assert specs[..|specs|] == specs;
  }

  lemma InvalidIsFinal(s: DBSpec)
    ensures !CutShort(InvalidResult(s)) && InvalidResult(s).reason != OK
  {
  }

  /** Recorded cycles are whole: whenever the cycle is not cancelled when it asks at the end,
      so that its verdict is recorded, every valid spec was dispatched and no result is killed
      or skipped. */
  lemma RecordedCyclesAreWhole(toc: Toc, a: Attempt, sub: seq<Result>, after: Tree)
    requires PoolRan(toc, a, sub, after, false)
    ensures |sub| == |Accepted(a.specs)|
    ensures forall n :: 0 <= n < |Valid(a)| ==> n in EndOf(toc, a).value.pool.written
    ensures forall i :: 0 <= i < |a.specs| ==> !CutShort(Report(a.specs, sub)[i])
  {
    SubFits(toc, a, sub, after, false);
    hide Accepted, InvalidResult, Execution.Exec;
    forall n | 0 <= n < |Valid(a)|
      ensures n in EndOf(toc, a).value.pool.written && !CutShort(sub[n])
    {
      PoolResult(toc, a, sub, after, false, n);
    }
    forall i | 0 <= i < |a.specs|
      ensures !CutShort(Report(a.specs, sub)[i])
    {
      InvalidIsFinal(a.specs[i]);
      if a.specs[i].invalid.None? {
        RankOfValid(a.specs, i);
      }
    }
  }

  // The concurrency setting.

  /** How many dumps the setting allows at once: at least one. */
  function Allowed(concurrency: int): nat {
    if concurrency < 1 then 1 else concurrency
  }

  /** The setting is honoured: at no moment of any cycle are more dumps executing than it
      allows. */
  lemma ConcurrencyHonoured(toc: Toc, a: Attempt)
    requires Possible(a) && Valid(a) != [] && EndOf(toc, a).Some?
    ensures |Pool.Executing(EndOf(toc, a).value.pool)| <= Allowed(a.concurrency)
  {
    hide Valid, Execution.Exec, Pool.Exec, Possible;
    var c := PoolConfig(Valid(a), a.concurrency);
    Execution.RunsThePool(toc, c, Begun(toc, a), a.events);
    Pool.BoundedConcurrency(c, Execution.PoolEvents(a.events));
  }

  /** And it is used: a dispatcher at its select can take a permit if and only if fewer are held
      than the setting allows and there are valid databases. */
  lemma ConcurrencyUsed(toc: Toc, a: Attempt)
    requires Possible(a) && Valid(a) != [] && EndOf(toc, a).Some?
    requires EndOf(toc, a).value.pool.pc == Pool.Selecting
    ensures Execution.Enabled(PoolConfig(Valid(a), a.concurrency), EndOf(toc, a).value,
                              Execution.Coordinate(Pool.SelectPermit))
            <==> && |EndOf(toc, a).value.pool.held| < Allowed(a.concurrency)
                 && |EndOf(toc, a).value.pool.held| < |Valid(a)|
  {
    hide Valid, Execution.Exec, Possible;
  }

  // From specs to disk.

  /** The specs a parse accepts give independent tasks: no two share a directory and a
      database, so their dump files are disjoint. */
  lemma SpecsGiveValidTasks(canon: Canon, valid: seq<DBSpec>, env: Setting)
    requires Distinct(valid) && forall i :: 0 <= i < |valid| ==> WellFormed(canon, valid[i])
    requires Fits(env, valid)
    requires forall i :: 0 <= i < |env.scripts| ==> IsTemp(env.scripts[i].temp)
    requires forall i, k | 0 <= i < |env.scripts| && 0 <= k < |env.scripts| && i != k ::
               env.scripts[i].temp != env.scripts[k].temp
    ensures Workers.ValidTasks(TasksOf(valid, env))
  {
    hide DumpFileName, IsTemp, ServerDir, IsCopy, Distinct, WellFormed, IsDatabase;
    var tasks := TasksOf(valid, env);
    forall i | 0 <= i < |tasks|
      ensures ValidJob(tasks[i].job) && IsTemp(tasks[i].script.temp)
    {
      WellFormedJob(canon, valid[i], env.keep, env.starts[i]);
    }
    forall i, k | 0 <= i < |tasks| && 0 <= k < |tasks| && i != k
      ensures tasks[i].job.server != tasks[k].job.server || tasks[i].job.dbname != tasks[k].job.dbname
    {
      TargetsApart(canon, valid, i, k);
    }
  }

  lemma WellFormedJob(canon: Canon, s: DBSpec, keep: nat, start: UTC)
    requires WellFormed(canon, s)
    ensures ValidJob(JobOf(s, keep, start))
  {
    hide DumpFileName, ServerDir, IsCopy;
    ServerDirIsComponent(canon, s);
    DumpFileNameIsFinal(s.dbname, keep, start);
    DumpFileNameIsComponent(s.dbname, keep, start);
  }

  lemma TargetsApart(canon: Canon, valid: seq<DBSpec>, i: nat, k: nat)
    requires Distinct(valid) && i < |valid| && k < |valid| && i != k
    requires WellFormed(canon, valid[i]) && WellFormed(canon, valid[k])
    ensures ServerDir(valid[i].host, valid[i].port) != ServerDir(valid[k].host, valid[k].port)
            || valid[i].dbname != valid[k].dbname
  {
    hide ServerDir;
    if ServerDir(valid[i].host, valid[i].port) == ServerDir(valid[k].host, valid[k].port) {
      ServerDirInjective(canon, valid[i].host, valid[i].port, valid[k].host, valid[k].port);
    }
    assert !SameTarget(valid[if i < k then i else k], valid[if i < k then k else i]);
  }

  /** The verdict means what the operator takes it to mean. Take any history in which the
      files under the configured databases' dump names were all written by this program, and
      any cycle run at its end, however its pool and its workers interleave: when the cycle
      reports success, every configured database has a verified dump on disk. */
  lemma SuccessfulCycleMeansDumps(
    toc: Toc, t0: Tree, past: seq<History.Event>, a: Attempt, sub: seq<Result>, after: Tree, cancelled: bool, i: nat)
    requires History.Exec(toc, t0, past) == Some(a.before)
    requires PoolRan(toc, a, sub, after, cancelled) && i < |a.specs|
    requires Availability.AllVerified(toc, t0, ServerDir(a.specs[i].host, a.specs[i].port), a.specs[i].dbname)
    ensures |sub| == |Accepted(a.specs)|
    ensures CycleSucceeded(Report(a.specs, sub)) ==>
      Availability.HasDump(toc, after, ServerDir(a.specs[i].host, a.specs[i].port), a.specs[i].dbname)
  {
    hide History.Exec, ServerDir, Availability.AllVerified, Availability.HasDump, PoolRan;
    hide Accepted, Report, InvalidResult;
    SubFits(toc, a, sub, after, cancelled);
    if CycleSucceeded(Report(a.specs, sub)) {
      ReportedOK(a.specs, sub, i);
      PoolResult(toc, a, sub, after, cancelled, Rank(a.specs, i));
      CycleEndsHistory(toc, t0, past, a, sub, after, cancelled);
      Availability.SuccessMeansDump(toc, t0, past + [Begin(a)] + Execution.DiskEvents(a.events), Rank(a.specs, i));
    }
  }

  /** A success puts every spec among the valid ones, with an ok result. */
  lemma ReportedOK(specs: seq<DBSpec>, sub: seq<Result>, i: nat)
    requires i < |specs| && |sub| == |Accepted(specs)| && CycleSucceeded(Report(specs, sub))
    ensures Rank(specs, i) < |Accepted(specs)| && Accepted(specs)[Rank(specs, i)] == specs[i]
    ensures sub[Rank(specs, i)].reason == OK
  {
    hide Accepted, InvalidResult;
    assert Report(specs, sub)[i].reason == OK;
    InvalidIsFinal(specs[i]);
    assert specs[i].invalid.None?;
    RankOfValid(specs, i);
  }

  /** The cycle is the end of a history, and its tree is that history's. */
  lemma CycleEndsHistory(
    toc: Toc, t0: Tree, past: seq<History.Event>, a: Attempt, sub: seq<Result>, after: Tree, cancelled: bool)
    requires History.Exec(toc, t0, past) == Some(a.before)
    requires PoolRan(toc, a, sub, after, cancelled) && Valid(a) != []
    ensures Fits(a.env, Valid(a)) && EndOf(toc, a).value.disk.tree == after
    ensures History.Exec(toc, t0, past + [Begin(a)] + Execution.DiskEvents(a.events)) == Some(EndOf(toc, a).value.disk)
  {
    hide Valid, Execution.Exec, History.Enabled, History.Apply, Begin, PoolConfig, Fits;
    var e := Begin(a);
    assert (past + [e])[..|past|] == past && (past + [e])[|past + [e]| - 1] == e;
    Execution.ExtendsTheHistory(toc, t0, past + [e], PoolConfig(Valid(a), a.concurrency), Begun(toc, a), a.events);
  }
}
