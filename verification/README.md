# pg-autodump: the dump cycle, proved

pg-autodump dumps a list of PostgreSQL databases on a timer or on demand. It stages every
dump in a temporary file, verifies it, renames it over the previous one, prunes old copies,
and reports one verdict for the whole cycle. This project models that cycle, from the text of
`DB_SPECS` to the recorded verdict, with the single-flight guard and the shutdown drain around
it, and proves what operators rely on.

Everything that runs next to something else is a transition system whose runs are lists of
events, and the theorems quantify over all of them: the worker pool (`Pool.dfy`, with a clock
in `Makespan.dfy`), the guard with any number of callers and one teardown (`Guard.dfy`, one
event per atomic operation), one worker step by step (`Worker.dfy`), the workers of a cycle
interleaved (`Workers.dfy`), whole histories of the dump directory with cycles, crashes at
any point and other programs' files (`History.dfy`), and a cycle in motion, dispatcher and
workers together over such a history (`Execution.dfy`), with what it amounts to
(`Serial.dfy`) and what a series of cycles retains (`Series.dfy`). What one worker reports and
leaves on disk is stated apart from its steps, from the answers it met (`Reasons.dfy`,
`Effects.dfy`), and what the parser accepts apart from its checks, in literal characters
(`Grammar.dfy`). Code that updates state in place is
imperative: the volume (`Volume.dfy`), the reclaim sweep (`Reclaim.dfy`), the orchestrator's
`Run` (`Cycle.dfy`), the spec parser (`Spec.dfy`) and the server's record and health
(`Lifecycle.dfy`). The methods of `Volume.dfy` keep a ghost trail of every change they make and
are proved to pass through exactly the worlds of the step-by-step worker, so what is proved of
interleavings and crashes is about them too.

What the outside world answers is a parameter, quantified over: the probe, pg_dump's output
and exit code, pg_restore's answer, file system faults, the context at each gate, the clock,
the text of an IP address. The library calls have these contracts: commit is one atomic rename
that may still fail afterwards, staging names are fresh, a gate is evaluated before each
execution of a job, `AwaitDone` rechecks completion after its context fires, `Remaining` is
zero unless a success is younger than the interval, and `Join` escapes ':' and '\'.

Properties that do not hold as the code's comments or a reader would have them, each with the
condition under which they hold and an input on which they fail:

- `dumpTime` is the exact saturated bound if and only if the rounding term
  `specs + concurrency - 1` fits 64 bits; otherwise the sum wraps and the bound is zero
  (`Runtime.DumpTimeExact`, `Runtime.OverflowExample`). A second database can therefore shorten
  the bounds (`Runtime.BoundsMonotone`, `Runtime.SecondDatabaseShortens`).
- `DUMP_TIMEOUT` is honoured if and only if its nanoseconds fit 64 bits; the product is formed
  before it is compared with the minimum (`Runtime.TimeoutHonoured`,
  `Runtime.SmallestLostTimeout`).
- `WaitIdle` can answer true while a caller holds the guard, in exactly the windows of
  `Guard.IdleMissesIff` and `Guard.EndedWaitMissesIff` (`Guard.IdleCanMissAHolder`). Only
  together with the gate does the answer mean that nothing runs (`Guard.DrainSafety`).
- The dump just made can be pruned at once when the clock was set back
  (`Retention.FreshDumpSurvives`, `Retention.FreshDumpCanVanish`). Some verified dump survives
  regardless (`Availability.DumpAlwaysAvailable`).
- A failed dump does not always leave every file as it was: a commit that fails after its
  rename leaves the new, verified dump under the target (`Verdict.FailureKeepsDumpsIff`,
  `Verdict.FailedDumpCanReplace`). Whether a commit can fail there, while flushing the directory,
  is up to the `filesafe` library, which is not part of this model; if it cannot, the property
  holds without exception.
- "A restart does not clear" a failed run's health holds for a recorded failure except with
  external triggers and a record that cannot be rewritten. A failure whose record write was lost
  is cleared by ordinary boots too: with external triggers when nothing or a success is on
  record, with a timer when that success is young. The exact rule, for every boot and every run
  of failures, is in `Lifecycle.BootAfterFailure` and `Lifecycle.UnhealthyUntilSuccess`; inputs
  are in `Lifecycle.RestartCanForget` and `Lifecycle.LostVerdict`.
- A failed record write does not always cost a startup dump, as the comment at
  internal/dump/dump.go:173-177 and its log line say: never with external triggers, and not
  when the boot trusts an older success that is still young or, where the library holds it to
  count, lies in the future of the clock
  (`Lifecycle.DueAfterLostVerdict`, `Lifecycle.LostVerdict`).
- A restart after a recorded success keeps the cadence if and only if the record can be
  rewritten. After a success whose record write was lost it depends on the older record
  (`Lifecycle.RestartsKeepCadence`, `Lifecycle.RestartCanMoveCadence`).

## Model

| member | source | states |
|---|---|---|
| Pool.BoundedConcurrency | internal/dump/pool.go:28-48 | at no point of any run are more dumps executing than the semaphore has permits |
| Pool.ReturnedIsComplete | internal/dump/pool.go:22-52 | on return no worker is left, a prefix of the indices was dispatched once each and in order, each of its positions holds what its own dump returned, the rest are skipped under their own names, an incomplete prefix means cancellation, and at most one launch came after it |
| Pool.EveryPosition | internal/dump/pool.go:22-26 | every position of a returned run holds its own dump's result, or, after a cancellation, skipped under its own host and database |
| Pool.NoDeadlock | internal/dump/pool.go:31-50 | with at least one permit, a run that has not returned can always take an event other than a cancellation |
| Pool.RunsAreBounded | internal/dump/pool.go:31-50 | a run has at most ten events per database plus five, so every run that keeps moving returns |
| Makespan.MakespanBound | cmd/pg-autodump/main.go:560-572 | list scheduling: job j starts by floor(j/n) times the bound and the clock never passes ceil(count/n) times the bound, for all durations up to it and with cancellation anywhere |
| Makespan.TimeMovesOn | internal/dump/pool.go:31-50 | the timed pool is never stuck: until it returns, an event or the passing of time is possible |
| Makespan.MakespanIsTight | cmd/pg-autodump/main.go:560-563 | when every dump takes the bound and nobody cancels, the pool returns exactly at ceil(count/n) times the bound |
| Runtime.PoolFitsDumpTime | cmd/pg-autodump/main.go:564-572 | the pool over the valid specs with clamped permits never outlasts the exact bound for all specs and the configured concurrency, nor, where the rounding term fits 64 bits, the computed dump time |
| Runtime.ClampedWaves | internal/dump/dump.go:137-139 | dropping invalid specs and clamping the permits never adds a wave |
| Cycle.ConcurrencyHonoured | internal/dump/dump.go:136-142 | at no moment of any cycle are more dumps executing than the configured concurrency, taken as at least one |
| Cycle.ConcurrencyUsed | internal/dump/dump.go:136-142 | a dispatcher at its select can start another dump if and only if fewer are held than the setting allows and there are valid databases |
| Runtime.DumpTimeExact | cmd/pg-autodump/main.go:564-600 | for every loadable configuration the computed dump time is min(max duration, the exact bound) if and only if the rounding term fits 64 bits |
| Runtime.OverflowGivesZero | cmd/pg-autodump/main.go:566-571 | whenever the rounding term does not fit, the computed dump time is zero |
| Runtime.OverflowExample | cmd/pg-autodump/main.go:566-571 | two databases under the largest concurrency are given no dump time although 310 seconds are needed |
| Runtime.ComposedBoundsExact | cmd/pg-autodump/main.go:576-608 | cycle runtime and trigger timeout, through both saturating helpers, equal the exact bound cut at the maximum under the same condition, and are positive for every loadable configuration |
| Runtime.OneDatabase | cmd/pg-autodump/main.go:556-586 | one database under the defaults is billed 310 seconds of dumping, 340 for the cycle and 650 for a trigger |
| Runtime.BoundsMonotone | cmd/pg-autodump/main.go:564-586 | more specs, a longer timeout or less concurrency never shorten a bound if and only if they do not push the rounding term over 64 bits when it fitted before; the same for all three bounds |
| Runtime.SecondDatabaseShortens | cmd/pg-autodump/main.go:564-572 | the input: under the largest concurrency a second database takes the dump time from 310 seconds to zero |
| Runtime.LoadingGivesLoaded | internal/config/config.go:127-163 | whatever the settings hold, the loaded timeout is at least the minimum and fits 64 bits, and the concurrency is positive |
| Runtime.LoadingIs | internal/config/config.go:127-163 | what every setting loads to: 300 seconds for a missing, malformed or non-positive timeout, ten for a shorter one, a positive concurrency as it is and two otherwise |
| Runtime.TimeoutHonoured | internal/config/config.go:127-144 | a timeout in seconds is taken as given if and only if its nanoseconds fit 64 bits |
| Runtime.SmallestLostTimeout | internal/config/config.go:127-144 | the input: 9223372037 seconds load as the ten-second minimum, and every smaller accepted number is honoured |
| Guard.SingleFlight | internal/dump/guard.go:27-40 | in every interleaving at most one caller holds the guard, the flag is set exactly while one does, and any pointer set is the holder's own |
| Guard.RefusedIff | internal/httpapi/httpapi.go:49-53 | a caller is refused exactly when somebody holds the guard, gets no run, and its context is cancelled |
| Guard.GateIff | cmd/pg-autodump/main.go:189-195 | after the gate's evaluation a run can begin if and only if no shutdown was signalled |
| Guard.RunIsPossible | internal/httpapi/httpapi.go:48-72 | from every reachable state with a free guard and no shutdown a fresh caller can take the guard, run and be given its run's result |
| Guard.GuardIsReturned | internal/dump/guard.go:34-39 | a caller whose coordinator returns can always give the guard back, with flag and pointers clear, its channel closed and its context cancelled |
| Guard.OnlyTheDrainCancels | internal/dump/guard.go:58-65 | a run in flight is cancelled only by the drain, after its first wait timed out |
| Guard.ReleaseClearsItsOwn | internal/dump/guard.go:34-39 | however late a release step comes, it clears the caller's own pointers and flag, never a newer run's |
| Guard.DrainSafety | cmd/pg-autodump/main.go:421-440 | once shutdown is signalled and either wait of the drain answered true, in every continuation no run is executing or about to and none begins |
| Guard.IdleMissesIff | internal/dump/guard.go:50-56 | in every reachable state a wait that finds no done pointer misses a held guard if and only if some caller stands between its compare-and-swap and its done store, or between clearing that pointer and clearing the flag |
| Guard.EndedWaitMissesIff | internal/dump/guard.go:50-56 | a wait that ends on its channel leaves the guard held if and only if the awaited run has yet to clear the flag or a later caller holds it |
| Guard.IdleCanMissAHolder | internal/dump/guard.go:50-56 | the input: a run in which a wait answers true while a caller holds the guard |
| Guard.CancelNeverMisses | internal/dump/guard.go:58-65 | when the first wait times out on a run, the cancel that follows is that run's own or the run has closed its channel |
| Guard.DrainProceeds | cmd/pg-autodump/main.go:421-440 | whatever the callers do the drain is never stuck, every event of its own brings it nearer its end, and nobody else's moves it |
| Guard.WaitAnswers | internal/dump/guard.go:50-56 | a wait is idle at once without a done pointer, waits for exactly the published run otherwise, and on a timeout the first wait goes on to cancel and the second gives up |
| Guard.CallerGetsItsOwnRun | internal/httpapi/httpapi.go:48-72 | a caller gets the result of the first run its closure made, never that of a rerun made for others |
| Results.CycleOK | internal/dump/result.go:94-104 | the verdict is success exactly when there is a result and every one is ok |
| Text.AtoiItoa | internal/spec/spec.go:109-116 | reading a printed number gives it back |
| Text.ItoaIsCanonical | internal/spec/spec.go:192-197 | a printed number starts with a zero only when it is zero |
| Text.SplitOfJoin | internal/spec/spec.go:167-174 | splitting at a separator inverts joining of parts without it |
| Text.JoinOfSplit | internal/spec/spec.go:167-174 | joining inverts splitting, on every text |
| Text.FieldsOfJoin | internal/spec/spec.go:54-56 | splitting on white space gives back words joined by blanks |
| Text.FieldsAreWords | internal/spec/spec.go:54-56 | gaps of any white space separate the words and count for nothing |
| Text.SpaceCodes | internal/spec/spec.go:54-56 | the code points that are white space |
| Text.AtoiReads | internal/spec/spec.go:109-116 | an optional sign and digits read as their value, or as an error past 64 bits |
| Text.JoinKeyInjective | internal/spec/spec.go:48-53 | escaped keys are equal only for equal components, whatever characters they hold |
| Spec.ParseOne | internal/spec/spec.go:82-138 | the step-by-step parse of a token gives exactly the spec the grammar assigns, with the fields accepted before the first fault |
| Spec.Parse | internal/spec/spec.go:54-73 | one spec per token in order; a token that passes the grammar is a duplicate exactly when an earlier such token names the same host, port and database |
| Spec.KeyInjective | internal/spec/spec.go:48-62 | dedupe keys are equal exactly for equal host, port and database |
| SpecLaws.Grammar | internal/spec/spec.go:75-175 | a token is accepted if and only if it spells an admitted host, port, database and user, and then means exactly those, in every spelling |
| Grammar.AcceptsExactly | internal/spec/spec.go:75-249 | a token is accepted as a spec if and only if some spelling of it denotes that spec, character by character: identifiers, plain hosts, ports with signs and leading zeros, 5432 when omitted, and a directory of at most 255 characters |
| Grammar.ShapedToken | internal/spec/spec.go:82-138 | a token with the shape of fields is accepted or rejected for its first wrong part, keeping the parts before it |
| Grammar.ShapelessToken | internal/spec/spec.go:146-175 | any other token is rejected whole, for an unclosed bracket, a bracket without a colon behind it, or its number of fields |
| Grammar.SpellIs | internal/spec/spec.go:75-81 | what a spelling looks like, with and without brackets and port |
| Grammar.DirectoryIs | internal/spec/spec.go:192-197 | the directory is host, underscore and port, with an at sign in front and dashes for colons when the host is an address |
| Grammar.DuplicateIff | internal/spec/spec.go:54-73 | a token that passes the grammar is a duplicate if and only if an earlier such token has the same host, port and database, whatever the user and the spelling, and any other token is as parsed alone |
| SpecLaws.AcceptedSpelling | internal/spec/spec.go:140-175 | every accepted token is spelled from admitted parts |
| SpecLaws.AcceptedIsWellFormed | internal/spec/spec.go:91-137 | an accepted spec is well formed: host, names, port and directory length are within the grammar |
| SpecLaws.ParsePrint | internal/spec/spec.go:54-138 | printing distinct well-formed specs and parsing the line gives back exactly those, in order, all valid and none a duplicate |
| SpecLaws.ParsePrintParse | internal/spec/spec.go:54-138 | for every input text, printing what the parse accepted and parsing again gives the same specs |
| SpecLaws.AcceptedDistinct | internal/spec/spec.go:57-68 | no two accepted specs of an input share host, port and database |
| SpecLaws.ServerDirInjective | internal/spec/spec.go:177-197 | directory names are equal only for equal hosts and ports, across plain and '@' forms |
| SpecLaws.ServerDirIsComponent | internal/spec/spec.go:130-134 | the directory of an accepted spec is one path component of at most 255 bytes |
| DumpName.NameOrderIsTimeOrder | internal/dump/verify.go:16-30 | for one database, comparing two retained names as strings is comparing their times to the second, in both directions |
| DumpName.FinalNamesDisjoint | internal/dump/verify.go:51-74 | no file name can be a dump of two databases |
| DumpName.DumpFileNameIsFinal | internal/dump/verify.go:25-30 | the name given to a dump is one of its database's, and a retained copy exactly when more than one is kept |
| DumpName.DumpFileNameIs | internal/dump/verify.go:25-30 | the stable name, or the database, a dot, the stamp and .dump |
| DumpName.StampLayout | internal/dump/verify.go:16-18 | a stamp is year, month and day, a T, hour, minute and second, and a Z, in fixed widths that read back as the time's fields |
| DumpName.CopyShape | internal/dump/verify.go:51-74 | a name is a retained copy if and only if it is the database, a dot, something non-empty, and .dump |
| DumpName.TempShape | internal/dump/reclaim.go:18-23 | a name is a staging file's if and only if it is .atomicfile-, digits, and .tmp |
| DumpName.TempIsNoDump | internal/dump/reclaim.go:20-23 | a staging file's name is never a dump's nor the record's |
| Volume.TimestampedDumpNames | internal/dump/verify.go:55-74 | the entries that are no directories and have a non-empty middle part, in listing order |
| Volume.SortedListing | internal/dump/verify.go:43-48 | sorting the names found in a listing gives the copies on disk in ascending order, each once |
| Volume.Volume.RemoveDumps | internal/dump/verify.go:79-92 | exactly the removable names go, their number is reported with the first failure, and none stops the loop |
| Volume.Volume.PruneOldDumps | internal/dump/verify.go:38-49 | exactly the doomed copies are removed, up to remove errors, through the worker's own worlds; a directory that cannot be listed is left alone and reported |
| Volume.Volume.VerifyAndCommit | internal/dump/verify.go:128-159 | the gates after pg_dump pass through the worker's worlds, and committed means the result is ok |
| Volume.Volume.StageAndReplace | internal/dump/verify.go:101-159 | staging, verifying, replacing and cleaning up pass through the worker's worlds |
| Volume.Volume.DumpOne | internal/dump/dump.go:188-238 | one database's dump passes through exactly the worlds of the step-by-step worker and returns the result the verdict rule gives |
| Worker.EndsDone | internal/dump/dump.go:188-238 | every worker reaches its result after a known number of steps |
| Verdict.ResultIsDecided | internal/dump/verify.go:101-187 | the reason, byte count and server version a worker reports are given by one rule: the first failing gate decides, and where the context is asked an ended context wins |
| Verdict.SuccessIff | internal/dump/verify.go:94-100 | a dump reports ok with its size exactly when the probe, the directory, a clean non-empty dump, its verification and the commit all went through |
| Reasons.ReasonsIff | internal/dump/result.go:123-148 | each reason exactly, from the first gate that failed and what the context said there: timeout, killed, the probe's three kinds, mkdir_failed, rename_failed, pg_error, empty, truncated, other and ok |
| Reasons.ResultFields | internal/dump/dump.go:188-238 | a result carries its own host and database, the probed server version, and the dump's size exactly when it is ok |
| Reasons.ClassifyPrecedence | internal/dump/result.go:123-148 | for every input an ended context wins over the probe's kind, and that over the exit code |
| Effects.StagingFileIff | internal/dump/verify.go:121-126 | a finished worker has left a staging file if and only if it created one, no commit renamed it, and the cleanup failed |
| Effects.DirectoryIff | internal/dump/dump.go:212-222 | a finished worker has made its server directory if and only if the probe succeeded and the directory could be made |
| Effects.DumpsAtEnd | internal/dump/verify.go:38-49 | after a successful dump each dump path of its database holds the new dump at the target, what it held elsewhere, or nothing, and nothing exactly where nothing was or the prune took it |
| Effects.OthersUntouched | internal/dump/dump.go:212-236 | a worker changes no path but its staging file, its database's dumps and its server directory |
| Verdict.FailureKeepsDumpsIff | internal/dump/verify.go:94-100 | a dump that does not report ok leaves every dump of its database unchanged if and only if its commit did not fail after the rename or the target already held the same bytes; when it did, the target holds the new verified dump and nothing else changed |
| Verdict.FailedDumpCanReplace | internal/dump/verify.go:153-156 | the input: a first dump whose commit renames and then fails reports rename_failed and is in place |
| History.VerifyBeforeReplace | internal/dump/verify.go:101-158 | at every moment of every history, so after any crash, a file under a dump's name is untouched or holds exactly the non-empty verified bytes of a clean dump of its own target |
| Availability.DumpAlwaysAvailable | internal/dump/verify.go:38-49 | once a database has a verified dump on disk it has one in every later state, through any cycles, failures, cancels, crashes, clocks, remove errors and changes of keep |
| Availability.SuccessMeansDump | internal/dump/dump.go:224-236 | a worker that reports ok, even during and after its prune, leaves its database with a verified dump |
| Retention.SparedAreNewest | internal/dump/verify.go:44-48 | sort-and-cut dooms exactly the names with at least keep names above them, all below every spared one |
| Retention.RetainedCopies | internal/dump/verify.go:38-92 | after a successful dump the copies on disk are exactly the earlier ones and the new one that are among the newest keep or could not be listed or removed |
| Retention.PruneIsConservative | internal/dump/verify.go:38-92 | with any clock and any remove errors a prune deletes only from the low end and leaves at least min(copies, keep) |
| Retention.FreshDumpSurvives | internal/dump/dump.go:224-236 | the new dump survives its own prune if and only if fewer than keep copies carry a larger name, or the prune cannot list the directory or remove it |
| Retention.FreshDumpCanVanish | internal/dump/dump.go:224-236 | the input: two copies from any later times and keep at two, and a clean successful dump that is gone at its end |
| Retention.ExactRetention | internal/dump/verify.go:38-92 | after n successful dumps at increasing times the copies are exactly those of the newest min(n, keep) starts |
| Series.RoundRetains | internal/dump/dump.go:224-236 | in a whole cycle, whatever its other workers, its sweep and other programs did, a database's copies at the end are those found and the new one, cut back to the newest keep |
| Series.ExactRetentionOverCycles | internal/dump/verify.go:38-92 | exact retention over whole cycles: after n cycles the copies of a database are exactly those of the newest min(n, keep) starts |
| Workers.StepIsLocal | internal/dump/dump.go:215-236 | a worker's move depends only on its own staging file, its own database's dumps and its directory |
| Workers.StepIsFramed | internal/dump/dump.go:215-236 | a worker's move leaves every other path alone, but for creating its directory where nothing was |
| Workers.AfterIsSound | internal/dump/dump.go:185-188 | in every interleaving each worker stands where it would stand alone |
| Workers.CompleteSchedulesAgree | internal/dump/dump.go:185-188 | any two complete interleavings leave the same tree and the same results |
| Workers.InterleavingIsSerial | internal/dump/dump.go:136-142 | every complete interleaving leaves the tree and results of running the workers one after another in spec order |
| Serial.CycleIsSerial | internal/dump/dump.go:136-142 | whatever the dispatcher, the workers, a cancellation and other programs did, at the pool's return every worker's result and every file of the program's own are those of dumping the dispatched prefix one after another, and without a cancellation the prefix is all of it |
| Serial.UndisturbedCycleIsSerial | internal/dump/dump.go:136-142 | when no other program wrote meanwhile, the whole tree at the pool's return is the one that serial run leaves |
| Serial.StagingAfterCycle | internal/dump/verify.go:121-126 | at the pool's return a task's staging file is on disk if and only if the task was dispatched, created it, no commit renamed it and its cleanup failed |
| Reclaim.ReclaimDir | internal/dump/reclaim.go:66-72 | the sweep of a directory removes exactly its removable staging files and counts them and those it could not unlink |
| Reclaim.ReclaimOrphans | internal/dump/reclaim.go:35-60 | the sweep removes the removable staging files of the root and the first-level directories, and its totals are their exact counts |
| Reclaim.SweepIff | internal/dump/reclaim.go:18-51 | a file goes if and only if it is a staging file in the root or a first-level directory that the walk reaches and that can be unlinked, and the reached ones that stay are the ones counted as unreclaimed |
| Reclaim.ReclaimTouchesOnlyTemps | internal/dump/reclaim.go:18-23 | a sweep never removes a dump, the cycle record or anything deeper than a first-level directory |
| Reclaim.SweepIsReclaim | internal/dump/reclaim.go:35-60 | whatever a sweep meets, what it takes away is what a cycle of a history may start by reclaiming |
| Reclaim.CycleStartsClean | internal/dump/dump.go:120-121 | wherever earlier cycles of a history crashed, a cycle whose sweep meets no fault starts its workers on a tree without a single staging file |
| History.ReachableWellNamed | internal/dump/reclaim.go:39-51 | in every history names stay single components, which is what lets a sweep tell its directories apart |
| Execution.RunsThePool | internal/dump/pool.go:28-51 | the dispatcher's part of a cycle in motion is a run of the pool |
| Execution.ExtendsTheHistory | internal/dump/dump.go:185-238 | the workers' part of a cycle in motion extends the history of the directory |
| Execution.ReturnedResult | internal/dump/pool.go:44-51 | in every interleaving of dispatcher, workers and cancellation each result names its own database, an ok is its worker's own end, and without a cancellation every worker was dispatched and no result is killed or skipped |
| Execution.CanProceed | internal/dump/pool.go:31-50 | a cycle that has not returned can always take a step of its own, other than a cancellation unless some gate is yet to report one |
| Serial.CyclesAreBounded | internal/dump/pool.go:31-50 | a cycle takes at most ten dispatcher events per database and five more, and as many worker steps as the workers take alone |
| Serial.CycleCanReturn | internal/dump/pool.go:28-51 | every cycle that has begun can run to the pool's return without any other program's help, and without a cancellation when no gate reports one |
| Serial.CycleCanBegin | internal/dump/dump.go:120-142 | from every state of every history, once the cycle at hand has stopped, a next one can begin over any valid tasks whose staging names are free |
| Serial.OthersMayWrite | internal/dump/dump.go:120-142 | another program may at any time write a file under a name that is not one of the program's own |
| Cycle.Orchestrator.Run | internal/dump/dump.go:120-171 | after the sweep, every spec's result stands at its position under its own name, ok plus failed is the spec count, the verdict reaches record and health exactly when the run was not cancelled, and then no result is killed or skipped |
| Cycle.Orchestrator.Split | internal/dump/dump.go:124-134 | the valid specs in order with their positions, and every invalid spec's result in place |
| Cycle.Orchestrator.Scatter | internal/dump/dump.go:136-142 | every pool result goes to its own spec's position and nothing else is overwritten |
| Cycle.Orchestrator.Tally | internal/dump/dump.go:144-151 | the number of positions whose result is ok, and of the others |
| Cycle.InvalidResultIs | internal/dump/dump.go:298-310 | an invalid spec reports its host, its database or else its raw text, and duplicate or invalid |
| Cycle.ReportPlaces | internal/dump/dump.go:124-142 | every position reports an invalid spec's own result, or the pool's result at the number of valid specs before it |
| Cycle.TaskIs | internal/dump/dump.go:212-224 | a spec's task dumps its own database into its server's directory, under the stable name or one stamped with its own start |
| Cycle.ResultsNameTheirSpecs | internal/dump/dump.go:120-142 | in every run of the pool, cancelled or not, every result carries its own spec's host, and its database when that was parsed |
| Cycle.RecordedCyclesAreWhole | internal/dump/dump.go:154-168 | whenever a verdict is recorded, every valid spec was dispatched and no result is killed or skipped, in every run of the pool |
| Cycle.SpecsGiveValidTasks | internal/dump/dump.go:212-224 | the specs a parse accepts give tasks that share no dump file and no staging file |
| Cycle.SuccessfulCycleMeansDumps | internal/dump/result.go:90-104 | after any history and any run of the pool and its workers, a cycle that reports success leaves every configured database with a verified dump on disk |
| Lifecycle.Server.ReadStartupRecord | cmd/pg-autodump/main.go:104-122 | the record is known exactly when it exists and can be rewritten, and the delay is zero without a timer |
| Lifecycle.Server.BootUp | cmd/pg-autodump/main.go:124-164 | the boot verdict goes to the marker, and the startup dump and the first tick, after the remaining delay or one interval after the startup dump, follow from the same reading |
| Lifecycle.Server.EndCycle | internal/dump/dump.go:155-168 | a cancelled cycle changes neither record nor marker, any other sets the record, and the marker unless the process is draining |
| Lifecycle.Server.BeginDrain | cmd/pg-autodump/main.go:184-195 | beginning the drain takes the marker down and latches it |
| Lifecycle.RecordIsLastVerdict | internal/dump/dump.go:155-180 | over any run of boots, cycles, drains and stops the record is the verdict of the last uncancelled cycle whose write landed |
| Lifecycle.MarkerIff | internal/dump/dump.go:155-168 | the marker is up if and only if a fully successful cycle of a process that is not draining, or a boot that trusts what is on record, put it up and only cancelled cycles have followed |
| Lifecycle.BootAfterFailure | cmd/pg-autodump/main.go:124-139 | while no cycle succeeds, however many fail, recorded or not, a boot is healthy if and only if its preflight passes and: with a timer, it trusts a young success that no recorded failure has replaced; without one, the record cannot be rewritten or still shows no failure |
| Lifecycle.UnhealthyUntilSuccess | cmd/pg-autodump/main.go:124-139 | after a failed cycle, recorded or not, and until a cycle succeeds, the marker is up if and only if the last event but for cancelled cycles is a boot healthy under that rule |
| Lifecycle.RestartCanForget | cmd/pg-autodump/main.go:107-139 | the inputs: restarts with external triggers that clear a failure, over a record that cannot be rewritten, over no record because the failure's write was lost, and over an older success for the same reason |
| Lifecycle.HealthyMeansLastSucceeded | cmd/pg-autodump/main.go:124-139 | with a timer and landing writes a healthy marker means the last recorded cycle fully succeeded and no drain has begun |
| Lifecycle.LostVerdict | internal/dump/dump.go:173-182 | the inputs: a lost verdict brings no startup dump behind a young success, behind a success from a future clock, and with external triggers |
| Lifecycle.DueAfterLostVerdict | internal/dump/dump.go:173-182 | after a lost verdict, at whatever boot before another lands, the startup dump is due if and only if there is a timer and the boot trusts no older success that is still young, records from a future clock included |
| Lifecycle.UnhealthyBootDumps | cmd/pg-autodump/main.go:473-494 | in timer mode a boot with a passing preflight is unhealthy exactly when its startup dump is due |
| Lifecycle.RestartsKeepCadence | cmd/pg-autodump/main.go:496-513 | less than one interval after a success, recorded or not, and before another verdict lands, a boot dumps at once if and only if it trusts no young success, with the exact condition for its first tick to fall one interval after that success; for a recorded success both come down to a record that can be rewritten |
| Lifecycle.RestartCanMoveCadence | cmd/pg-autodump/main.go:107-122 | the inputs: boots over an unwritable young success, and over a young success whose write was lost, dump at once and tick late |
| Lifecycle.DrainLatches | cmd/pg-autodump/main.go:184-195 | once a drain has begun the marker stays down until the next boot, whatever completes |

## Left out

- Pool, Guard and Trigger as classes: their meaning is in the interleaving of atomic steps, which a sequential method cannot show, so they are transition systems over values; the Go memory model beyond sequentially consistent atomics is not captured.
- Volume.Volume.DumpOne: the tree is one map field rather than files and handles, and the script fixes what the world answers ahead of each gate; operations that fail part way (a torn directory listing, a partial write reported as success by the kernel) are not distinguished from those answers.
- Cycle.Orchestrator.Run: takes the results and the tree its pool left as input, tied to a run of `Execution`, instead of starting goroutines; an orchestrator without a health sink is not modelled.
- Execution.ReturnedResult: assumes a worker sees its context cancelled only once the run's context is, which is how derived contexts behave.
- Availability.DumpAlwaysAvailable: assumes every file under the database's dump names was verified at the start of the history, since a prune counts any file with a non-empty middle part as a copy.
- Series.ExactRetentionOverCycles: starts from a directory without copies and requires whole-second increasing start times and prunes without faults; a repeated second overwrites.
- Makespan.MakespanBound: time passes only while no dispatcher or unwinding worker can move, and connection set-up and prune time are the 30 seconds of slack, which are not modelled.
- Lifecycle.Server.BootUp: the library's answer for a record from the future is an arbitrary delay, and a zero first delay of its loop means one interval; an exec'd `run` that writes the marker past the latch is not modelled.
- Detail lines, durations, log lines and levels, `BodyDetail`, `stderrDetail`: text for people.
- HTTP routing, authorization, rate limits, exit codes and the trigger client beyond its timeout.
- psql, pg_dump and pg_restore themselves, process spawning and dialing: only their answers appear.
- Directory custody, modes, ownership, ACLs, disk-space and preflight probing; the server directory is created or fails.
- The cross-process lock and queue of `scheduler.Exclusive`: cycles of one volume follow one another, and the gate is the only thing used of it.
- `net.ParseIP` and `IP.String`: an abstract canonicalizer that is idempotent and yields address characters only.
- Conversion between instants and calendar time: a UTC time is a tuple of its fields.
- Reading the environment beyond the bounds on timeout and concurrency; interval and address settings.
- Invalid UTF-8 in a token, which the validators see as a replacement character and refuse.
