/** Which answer of the outside world makes a worker report which reason
    (internal/dump/result.go, internal/dump/verify.go, internal/dump/dump.go), reason by reason. */
module Reasons {
  import opened Results
  import opened DumpName
  import opened Disk
  import opened Worker
  import opened Staging
  import opened Verdict

  /** Where a dump stops: the first gate that fails, or none. */
  datatype Gate =
    | AtProbe | AtDirectory | AtTarget | AtCreate | AtContext | AtExit | AtDump | AtStat | AtSize | AtContents
    | AtCommit | Nowhere

  function FirstFailure(toc: Toc, j: Job, s: Script, t0: Tree): Gate {
    if s.probeKind != FailNone || s.probeFailed then AtProbe
    else if !s.mkdirOk || (RootEntry(j.server) in t0 && t0[RootEntry(j.server)].File?) then AtDirectory
    else if s.create.NotRegular? || (TargetPath(j) in t0 && t0[TargetPath(j)].Dir?) then AtTarget
    else if s.create.CreateFailed? then AtCreate
    else if s.dumpCtx.Some? then AtContext
    else if s.exitCode != 0 then AtExit
    else if s.dumpFailed then AtDump
    else if !s.statOk then AtStat
    else if Flatten(s.chunks) == [] then AtSize
    else if s.verifyFault || !toc(Flatten(s.chunks)) then AtContents
    else if !s.commit.Replaced? then AtCommit
    else Nowhere
  }

  /** What the context says where the dump stopped, at the gates that ask it. */
  function CtxThere(s: Script, g: Gate): Option<CtxErr> {
    match g
    case AtProbe => s.probeCtx
    case AtCreate => s.createCtx
    case AtContext => s.dumpCtx
    case AtContents => s.verifyCtx
    case AtCommit => s.commitCtx
    case _ => None
  }

  /** The result of a worker's whole run. */
  ghost predicate Reports(toc: Toc, j: Job, s: Script, t0: Tree, r: Result) {
    Alone(toc, j, s, t0, Length(toc, j, s, t0)).pc == Done(r)
  }

  /** Each reason, exactly. A context that ended where the dump stopped gives timeout or killed;
      otherwise the gate alone decides, and a failed probe its kind. */
  lemma ReasonsIff(toc: Toc, j: Job, s: Script, t0: Tree, r: Result)
    requires ValidJob(j) && IsTemp(s.temp) && Reports(toc, j, s, t0, r)
    ensures var at := FirstFailure(toc, j, s, t0);
            var ctx := CtxThere(s, at);
            && (r.reason == Timeout <==> ctx == Some(DeadlineExceeded))
            && (r.reason == Killed <==> ctx == Some(Canceled))
            && (r.reason == ConnectError <==> at == AtProbe && ctx == None && s.probeKind == FailConnect)
            && (r.reason == AuthError <==> at == AtProbe && ctx == None && s.probeKind == FailAuth)
            && (r.reason == VersionMismatch <==> at == AtProbe && ctx == None && s.probeKind == FailVersion)
            && (r.reason == MkdirFailed <==> at == AtDirectory)
            && (r.reason == RenameFailed <==> at == AtTarget || (at == AtCommit && ctx == None))
            && (r.reason == PGError <==> at == AtExit)
            && (r.reason == Empty <==> at == AtSize)
            && (r.reason == Truncated <==> at == AtContents && ctx == None)
            && (r.reason == Other <==>
                  || (at == AtProbe && ctx == None && s.probeKind == FailNone)
                  || (at == AtCreate && ctx == None) || at == AtDump || at == AtStat)
            && (r.reason == OK <==> at == Nowhere)
  {
    hide Alone, Length, Flatten, IsTemp, ValidJob;
    ResultIsDecided(toc, j, s, t0, 0);
  }

  /** The rest of a result: the database's own name, the server version of the probe, and the
      size of the dump exactly when it succeeded. */
  lemma ResultFields(toc: Toc, j: Job, s: Script, t0: Tree, r: Result)
    requires ValidJob(j) && IsTemp(s.temp) && Reports(toc, j, s, t0, r)
    ensures r.host == j.host && r.dbname == j.dbname && r.serverVersion == s.serverMajor
    ensures r.bytes == if r.reason == OK then |Flatten(s.chunks)| else 0
    ensures r.reason != Duplicate && r.reason != Invalid && r.reason != Skipped
  {
    ResultIsDecided(toc, j, s, t0, 0);
    ReasonsIff(toc, j, s, t0, r);
    hide Alone, Length, Flatten, ReasonOf, FirstFailure, IsTemp, ValidJob;
  }

  /** Every worker reports one result. */
  lemma SomeReport(toc: Toc, j: Job, s: Script, t0: Tree)
    ensures exists r :: Reports(toc, j, s, t0, r)
  {
    EndsDone(toc, j, s, t0);
    assert Reports(toc, j, s, t0, Alone(toc, j, s, t0, Length(toc, j, s, t0)).pc.outcome);
  }

  /** The precedence of the classification for every input: an ended context over the probe's
      kind over the exit code. */
  lemma ClassifyPrecedence(exitCode: int, kind: FailKind)
    ensures Classify(exitCode, Some(DeadlineExceeded), kind) == Timeout
    ensures Classify(exitCode, Some(Canceled), kind) == Killed
    ensures Classify(exitCode, None, FailConnect) == ConnectError
    ensures Classify(exitCode, None, FailAuth) == AuthError
    ensures Classify(exitCode, None, FailVersion) == VersionMismatch
    ensures Classify(exitCode, None, FailNone) == if exitCode == 0 then Other else PGError
  {
  }
}
