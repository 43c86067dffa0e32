/** The closed result taxonomy of a dump run and the verdict of a cycle
    (internal/dump/result.go). */
module Results {

  datatype Option<+T> = None | Some(value: T)

  /** The error of a finished context: cancelled, or past its deadline. */
  datatype CtxErr = Canceled | DeadlineExceeded

  /** The classification the pg boundary returns from a probe. */
  datatype FailKind = FailNone | FailConnect | FailAuth | FailVersion

  datatype Reason =
    | OK | Empty | Truncated | Timeout | Killed | PGError | ConnectError | AuthError
    | VersionMismatch | Other | Duplicate | Invalid | MkdirFailed | RenameFailed | Skipped

  /** One database's outcome. The human detail line and the duration are not modelled. */
  datatype Result = Result(host: string, dbname: string, reason: Reason, bytes: nat, serverVersion: int)

  /** A finished context wins over a boundary failure, which wins over an exit code. */
  function Classify(exitCode: int, ctxErr: Option<CtxErr>, kind: FailKind): Reason {
    match ctxErr
    case Some(DeadlineExceeded) => Timeout
    case Some(Canceled) => Killed
    case None =>
      match kind
      case FailConnect => ConnectError
      case FailAuth => AuthError
      case FailVersion => VersionMismatch
      case FailNone => if exitCode != 0 then PGError else Other
  }

  /** The reason of a gate that failed with `fallback`: a finished context wins. */
  function AbortOr(ctxErr: Option<CtxErr>, fallback: Reason): Reason {
    if ctxErr.Some? then Classify(0, ctxErr, FailNone) else fallback
  }

  /** A scan for the first database that did not succeed; a cycle over nothing is no success. */
  method CycleOK(results: seq<Result>) returns (ok: bool)
    ensures ok <==> |results| > 0 && forall k :: 0 <= k < |results| ==> results[k].reason == OK
    ensures ok <==> CycleSucceeded(results)
  {
    if |results| == 0 {
      return false;
    }
    for i := 0 to |results|
      invariant forall k :: 0 <= k < i ==> results[k].reason == OK
    {
      if results[i].reason != OK {
        return false;
      }
    }
    return true;
  }

  predicate CycleSucceeded(results: seq<Result>) {
    results != [] && forall k :: 0 <= k < |results| ==> results[k].reason == OK
  }
}
