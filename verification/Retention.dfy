/** Retention (internal/dump/verify.go): which copies a prune keeps, stated without sorting,
    and what a whole series of dumps leaves on disk. */
module Retention {
  import opened Results
  import opened Text
  import opened DumpName
  import opened Disk
  import opened Worker
  import opened Staging
  import Arith
  import Verdict

  ghost function Larger(names: set<string>, name: string): set<string> {
    set n | n in names && Less(name, n)
  }

  /** The newest `keep` names: those with fewer than `keep` names above them. */
  ghost function Newest(names: set<string>, keep: nat): set<string> {
    set n | n in names && |Larger(names, n)| < keep
  }

  lemma SuffixAscends(names: seq<string>, i: nat)
    requires Ascending(names) && i <= |names|
    ensures Ascending(names[i..])
  {
    hide Less;
    forall a, b | 0 <= a < b < |names[i..]|
      ensures Less(names[i..][a], names[i..][b])
    {
      assert names[i..][a] == names[i + a] && names[i..][b] == names[i + b];
    }
  }

  /** What lies above a position is what comes after it. */
  lemma AboveIsAfter(names: seq<string>, i: nat, n: string)
    requires Ascending(names) && i < |names|
    ensures n in names[i + 1..] <==> n in names && Less(names[i], n)
  {
    hide Less;
    LessTotal(names[i], n);
    if n in names {
      var k :| 0 <= k < |names| && names[k] == n;
      assert k > i ==> names[i + 1..][k - i - 1] == n;
    }
    if n in names[i + 1..] {
      var m :| 0 <= m < |names| - i - 1 && names[i + 1..][m] == n;
      assert names[i + 1 + m] == n;
    }
  }

  lemma RankFromTop(s: set<string>, i: nat)
    requires i < |s|
    ensures |Larger(s, InOrder(s)[i])| == |s| - 1 - i
  {
    hide InOrder, Less, Ascending;
    var names := InOrder(s);
    var above := Larger(s, names[i]);
    SuffixAscends(names, i + 1);
    forall n
      ensures n in names[i + 1..] <==> n in above
    {
      AboveIsAfter(names, i, n);
    }
    InOrderUnique(names[i + 1..], above);
  }

  /** Position by position, the prune dooms the low end and spares the newest `keep`. */
  lemma CutAt(s: set<string>, keep: nat, i: nat)
    requires i < |s|
    ensures |DoomedOf(s, keep)| == if |s| <= keep then 0 else |s| - keep
    ensures InOrder(s)[i] in Newest(s, keep) <==> i >= |DoomedOf(s, keep)|
    ensures InOrder(s)[i] in DoomedOf(s, keep) <==> i < |DoomedOf(s, keep)|
  {
    hide InOrder, Larger, Less;
    RankFromTop(s, i);
    AscendingIsInjective(InOrder(s), i);
    assert InOrder(s)[i] in InOrder(s);
    var doomed := DoomedOf(s, keep);
    assert i < |doomed| ==> doomed[i] == InOrder(s)[i];
    assert forall k :: 0 <= k < |doomed| ==> doomed[k] == InOrder(s)[k];
  }

  lemma WithinNames(s: set<string>, keep: nat)
    ensures DoomedOf(s, keep) <= InOrder(s) && Newest(s, keep) <= s
    ensures s == {} ==> DoomedOf(s, keep) == []
  {
  }

  /** What the sort-and-cut of the prune dooms is exactly what is not among the newest
      `keep`, and every doomed name lies below every spared one. */
  lemma SparedAreNewest(s: set<string>, keep: nat)
    ensures |DoomedOf(s, keep)| == if |s| <= keep then 0 else |s| - keep
    ensures forall n :: n in s ==> (n in DoomedOf(s, keep) <==> n !in Newest(s, keep))
    ensures forall d, n | d in DoomedOf(s, keep) && n in Newest(s, keep) :: Less(d, n)
  {
    hide InOrder, Larger, Less, DoomedOf, Newest;
    var names := InOrder(s);
    WithinNames(s, keep);
    forall i | 0 <= i < |names|
      ensures names[i] in Newest(s, keep) <==> i >= |DoomedOf(s, keep)|
      ensures names[i] in DoomedOf(s, keep) <==> i < |DoomedOf(s, keep)|
      ensures |DoomedOf(s, keep)| == if |s| <= keep then 0 else |s| - keep
    {
      CutAt(s, keep, i);
    }
    assert |s| == 0 ==> |DoomedOf(s, keep)| == 0;
    forall d, n | d in DoomedOf(s, keep) && n in Newest(s, keep)
      ensures Less(d, n)
    {
      var i :| 0 <= i < |names| && names[i] == d;
      var k :| 0 <= k < |names| && names[k] == n;
    }
  }

  /** In order, the newest are the end of the whole. */
  lemma NewestInOrder(s: set<string>, keep: nat)
    ensures InOrder(Newest(s, keep)) == InOrder(s)[|DoomedOf(s, keep)|..]
  {
    SparedAreNewest(s, keep);
    NewestIsSubset(s, keep);
    hide DoomedOf, Newest, InOrder, Less;
    var names, cut := InOrder(s), |DoomedOf(s, keep)|;
    forall n
      ensures n in names[cut..] <==> n in Newest(s, keep)
    {
      if n in names {
        var i :| 0 <= i < |names| && names[i] == n;
        CutAt(s, keep, i);
        AscendingIsInjective(names, i);
        assert i >= cut ==> names[cut..][i - cut] == n;
      }
    }
    InOrderUnique(names[cut..], Newest(s, keep));
  }

  lemma AscendingIsInjective(names: seq<string>, i: nat)
    requires Ascending(names) && i < |names|
    ensures forall k :: 0 <= k < |names| && names[k] == names[i] ==> k == i
  {
    LessTotal(names[i], names[i]);
  }

  // One worker.

  /** The copies on disk once the dump is committed, before the prune. */
  ghost function Committed(t0: Tree, j: Job): set<string> {
    Copies(t0, j.server, j.dbname) + {j.target}
  }

  /** The first n doomed names, less those that cannot be removed. */
  ghost function Removed(doomed: seq<string>, n: nat, stuck: set<string>): set<string>
    requires n <= |doomed|
  {
    set m | 0 <= m < n && doomed[m] !in stuck :: doomed[m]
  }

  /** The prune has dealt with the first `at` doomed names. */
  ghost predicate PrunedTo(t0: Tree, t: Tree, j: Job, s: Script, d: seq<string>, at: nat) {
    && d == DoomedOf(Committed(t0, j), j.keep) && at <= |d|
    && Copies(t, j.server, j.dbname) == Committed(t0, j) - Removed(d, at, s.stuck)
  }

  /** The copies on disk at each point of the prune. */
  ghost predicate PruneAt(t0: Tree, t: Tree, j: Job, s: Script, pc: Pc) {
    var have, before := Copies(t, j.server, j.dbname), Committed(t0, j);
    match pc
    case Listing(r) => have == before
    case Removing(r, d, at) => s.listOk && PrunedTo(t0, t, j, s, d, at)
    case Done(r) =>
      r.reason == OK && j.keep > 1 ==>
        if s.listOk then PrunedTo(t0, t, j, s, DoomedOf(before, j.keep), |DoomedOf(before, j.keep)|) else have == before
    case _ => true
  }

  lemma CopiesAfterCommit(toc: Toc, t0: Tree, t: Tree, j: Job, s: Script, r: Result)
    requires ValidJob(j) && j.keep > 1 && CommittedOnly(toc, t0, t, j, s, r)
    ensures Copies(t, j.server, j.dbname) == Committed(t0, j)
  {
    forall name
      ensures name in Copies(t, j.server, j.dbname) <==> name in Committed(t0, j)
    {
      CopiesMembers(t, j.server, j.dbname, name);
      CopiesMembers(t0, j.server, j.dbname, name);
      assert IsCopy(j.dbname, name) && name != j.target ==> SameAt(t0, t, Path(j.server, name));
    }
  }

  lemma CopiesAfterRemoval(t: Tree, j: Job, name: string)
    ensures Copies(t - {Path(j.server, name)}, j.server, j.dbname) == Copies(t, j.server, j.dbname) - {name}
  {
    forall n
      ensures n in Copies(t - {Path(j.server, name)}, j.server, j.dbname)
              <==> n in Copies(t, j.server, j.dbname) - {name}
    {
      CopiesMembers(t, j.server, j.dbname, n);
      CopiesMembers(t - {Path(j.server, name)}, j.server, j.dbname, n);
    }
  }

  lemma RemovingMoves(toc: Toc, t: Tree, j: Job, s: Script, pc: Pc)
    requires pc.Removing?
    ensures Step(toc, j, s, World(t, pc))
         == if pc.at >= |pc.doomed| then World(t, Done(pc.outcome))
            else World(if pc.doomed[pc.at] in s.stuck then t else t - {Path(j.server, pc.doomed[pc.at])},
                       Removing(pc.outcome, pc.doomed, pc.at + 1))
  {
  }

  lemma RemovedNext(d: seq<string>, at: nat, stuck: set<string>)
    requires at < |d|
    ensures Removed(d, at + 1, stuck) == Removed(d, at, stuck) + if d[at] in stuck then {} else {d[at]}
    ensures Removed(d, 0, stuck) == {}
  {
  }

  lemma PruneOne(t0: Tree, t: Tree, j: Job, s: Script, d: seq<string>, at: nat)
    requires PrunedTo(t0, t, j, s, d, at) && at < |d|
    ensures PrunedTo(t0, if d[at] in s.stuck then t else t - {Path(j.server, d[at])}, j, s, d, at + 1)
  {
    hide DoomedOf, Copies, Committed, Removed;
    RemovedNext(d, at, s.stuck);
    var before, gone := Committed(t0, j), Removed(d, at, s.stuck);
    if d[at] in s.stuck {
      assert gone + {} == gone;
    } else {
      CopiesAfterRemoval(t, j, d[at]);
      assert (before - gone) - {d[at]} == before - (gone + {d[at]});
    }
  }

  lemma RemovalStep(toc: Toc, t0: Tree, t: Tree, j: Job, s: Script, pc: Pc)
    requires PruneAt(t0, t, j, s, pc) && pc.Removing?
    ensures var w := Step(toc, j, s, World(t, pc)); PruneAt(t0, w.tree, j, s, w.pc)
  {
    hide Step, Copies, Committed, Removed, DoomedOf;
    RemovingMoves(toc, t, j, s, pc);
    if pc.at < |pc.doomed| {
      PruneOne(t0, t, j, s, pc.doomed, pc.at);
      hide PrunedTo;
    }
  }

  /** Only the commit, the listing and the last removal lead into these points. */
  lemma OtherStepsSkipThePrune(toc: Toc, t: Tree, j: Job, s: Script, pc: Pc)
    requires Stage(pc) > 3 || pc.CleaningUp?
    requires pc.CleaningUp? ==> pc.outcome.reason != OK
    ensures var next := Step(toc, j, s, World(t, pc)).pc; Stage(next) >= 3 || Failing(next)
  {
    if Stage(pc) > 3 {
      EarlyStepFailsOrGoesOn(toc, t, j, s, pc);
    }
  }

  lemma ListingMoves(toc: Toc, t: Tree, j: Job, s: Script, pc: Pc)
    requires pc.Listing?
    ensures Step(toc, j, s, World(t, pc))
         == World(t, if s.listOk then Removing(pc.outcome, Doomed(t, j), 0) else Done(pc.outcome))
  {
  }

  lemma ListingStep(toc: Toc, t0: Tree, t: Tree, j: Job, s: Script, pc: Pc)
    requires PruneAt(t0, t, j, s, pc) && pc.Listing?
    ensures var w := Step(toc, j, s, World(t, pc)); PruneAt(t0, w.tree, j, s, w.pc)
  {
    ListingMoves(toc, t, j, s, pc);
    hide Step, DoomedOf, Copies, Committed;
    assert Removed(Doomed(t, j), 0, s.stuck) == {};
  }

  lemma StepKeepsPrune(toc: Toc, t0: Tree, w: World, j: Job, s: Script)
    requires ValidJob(j) && IsTemp(s.temp) && WorkerInv(toc, t0, w, j, s) && PruneAt(t0, w.tree, j, s, w.pc)
    ensures var next := Step(toc, j, s, w); PruneAt(t0, next.tree, j, s, next.pc)
  {
    StepKeepsWorkerInv(toc, t0, w, j, s);
    hide Step, Copies, DoomedOf, Committed, StagedAs, PrunedTo;
    var next := Step(toc, j, s, w);
    if w.pc.Removing? {
      RemovalStep(toc, t0, w.tree, j, s, w.pc);
    } else if Stage(w.pc) > 3 || w.pc.CleaningUp? {
      OtherStepsSkipThePrune(toc, w.tree, j, s, w.pc);
    } else if w.pc.Committing? {
      CommitEnds(toc, w.tree, j, s, w.pc);
      if next.pc.Listing? {
        CopiesAfterCommit(toc, t0, next.tree, j, s, next.pc.outcome);
      }
    } else if w.pc.Listing? {
      ListingStep(toc, t0, w.tree, j, s, w.pc);
    } else {
      DoneRests(toc, j, s, w);
    }
  }

  lemma CommitEnds(toc: Toc, t: Tree, j: Job, s: Script, pc: Pc)
    requires pc.Committing?
    ensures var next := Step(toc, j, s, World(t, pc)).pc;
            next.Listing? || next.CleaningUp? || (next.Done? && j.keep <= 1)
  {
  }

  lemma {:induction false} AlonePrune(toc: Toc, t0: Tree, j: Job, s: Script, k: nat)
    requires ValidJob(j) && IsTemp(s.temp)
    ensures var w := Alone(toc, j, s, t0, k); PruneAt(t0, w.tree, j, s, w.pc)
  {
    hide Step, WorkerInv;
    if k > 0 {
      AlonePrune(toc, t0, j, s, k - 1);
      AloneInv(toc, t0, j, s, k - 1);
      StepKeepsPrune(toc, t0, Alone(toc, j, s, t0, k - 1), j, s);
    }
  }

  /** A worker of this job ran from tree t to its successful end in tree u. */
  ghost predicate Dumped(toc: Toc, t: Tree, u: Tree, j: Job, s: Script) {
    exists k: nat :: EndsWell(toc, t, j, s, k) && Alone(toc, j, s, t, k).tree == u
  }

  ghost predicate EndsWell(toc: Toc, t: Tree, j: Job, s: Script, k: nat) {
    var pc := Alone(toc, j, s, t, k).pc;
    pc.Done? && pc.outcome.reason == OK
  }

  /** Retention, exactly: after a successful dump that retains copies, a copy is on disk if
      and only if it was there or is the new one, and it is among the newest `keep`, or
      could not be removed, or the prune could not list the directory. */
  lemma RetainedCopies(toc: Toc, t: Tree, u: Tree, j: Job, s: Script)
    requires ValidJob(j) && IsTemp(s.temp) && j.keep > 1 && Dumped(toc, t, u, j, s)
    ensures forall n :: n in Copies(u, j.server, j.dbname) <==>
              n in Committed(t, j) && (!s.listOk || n in s.stuck || n in Newest(Committed(t, j), j.keep))
  {
    hide Alone, Copies, Committed, DoomedOf, Newest;
    var k: nat :| EndsWell(toc, t, j, s, k) && Alone(toc, j, s, t, k).tree == u;
    AlonePrune(toc, t, j, s, k);
    var before := Committed(t, j);
    SparedAreNewest(before, j.keep);
    var doomed := DoomedOf(before, j.keep);
    assert forall n :: n in Removed(doomed, |doomed|, s.stuck) <==> n in doomed && n !in s.stuck;
  }

  lemma NewestCount(s: set<string>, keep: nat)
    ensures |Newest(s, keep)| == if |s| <= keep then |s| else keep
  {
    NewestInOrder(s, keep);
  }

  /** Whatever the clock and whatever cannot be removed, a prune deletes only from the low
      end of the byte order and leaves at least min(copies, keep). */
  lemma PruneIsConservative(toc: Toc, t: Tree, u: Tree, j: Job, s: Script)
    requires ValidJob(j) && IsTemp(s.temp) && j.keep > 1 && Dumped(toc, t, u, j, s)
    ensures var before, after := Committed(t, j), Copies(u, j.server, j.dbname);
            && after <= before
            && |after| >= (if |before| <= j.keep then |before| else j.keep)
            && (forall gone, n | gone in before - after && n in Newest(before, j.keep) :: Less(gone, n))
  {
    hide Dumped, Copies, Committed, DoomedOf, Newest;
    RetainedCopies(toc, t, u, j, s);
    var before, after := Committed(t, j), Copies(u, j.server, j.dbname);
    NewestCount(before, j.keep);
    SparedAreNewest(before, j.keep);
    assert Newest(before, j.keep) <= after by {
      NewestIsSubset(before, j.keep);
    }
    Arith.SubsetCardinality(Newest(before, j.keep), after);
  }

  lemma NewestIsSubset(s: set<string>, keep: nat)
    ensures Newest(s, keep) <= s
  {
  }

  /** The fresh dump survives its own prune if and only if fewer than `keep` copies carry a
      larger name, as can happen after the clock was set back, or the prune cannot list the
      directory or remove it. */
  lemma FreshDumpSurvives(toc: Toc, t: Tree, u: Tree, j: Job, s: Script)
    requires ValidJob(j) && IsTemp(s.temp) && j.keep > 1 && Dumped(toc, t, u, j, s)
    ensures j.target in Copies(u, j.server, j.dbname)
            <==> !s.listOk || j.target in s.stuck || |Larger(Copies(t, j.server, j.dbname), j.target)| < j.keep
  {
    hide Dumped, Copies;
    RetainedCopies(toc, t, u, j, s);
    LessTotal(j.target, j.target);
    assert Larger(Committed(t, j), j.target) == Larger(Copies(t, j.server, j.dbname), j.target);
  }

  /** Every name in a listing of copies is at its own path. */
  lemma TwoCopies(t: Tree, dir: string, db: string, x: string, y: string)
    requires x != y && IsCopy(db, x) && IsCopy(db, y)
    requires t == map[Path(dir, x) := File([1]), Path(dir, y) := File([1])]
    ensures Copies(t, dir, db) == {x, y} && |{x, y}| == 2
  {
    hide IsCopy, Copies;
    forall n
      ensures n in Copies(t, dir, db) <==> n in {x, y}
    {
      CopiesMembers(t, dir, db, n);
    }
  }

  /** The input: with keep at two and two copies from later times, a clean dump that reports
      success is gone at its end. */
  lemma FreshDumpCanVanish(early: UTC, x: UTC, y: UTC)
    requires ValidUTC(early) && ValidUTC(x) && ValidUTC(y) && x != y && Earlier(early, x) && Earlier(early, y)
    ensures var j := Verdict.SampleJob(DumpFileName("a", 2, early), 2);
            var s := Verdict.CleanScript([7], Replaced);
            var t := map[Path(j.server, DumpFileName("a", 2, x)) := File([1]),
                         Path(j.server, DumpFileName("a", 2, y)) := File([1])];
            exists u :: Dumped(_ => true, t, u, j, s) && j.target !in Copies(u, j.server, j.dbname)
  {
    hide Alone, Length, Copies, DumpFileName, IsTemp, IsDatabase, IsCopy, Less, Flatten, Earlier, ValidUTC;
    var toc := (c: Content) => true;
    var j, s := Verdict.SampleJob(DumpFileName("a", 2, early), 2), Verdict.CleanScript([7], Replaced);
    var n, m := DumpFileName("a", 2, x), DumpFileName("a", 2, y);
    var t := map[Path(j.server, n) := File([1]), Path(j.server, m) := File([1])];
    Verdict.CleanScriptIs([7], Replaced);
    DumpFileNameIsFinal("a", 2, early);
    DumpFileNameIsComponent("a", 2, early);
    assert '/' !in "h_5432";
    DumpFileNameIsFinal("a", 2, x);
    DumpFileNameIsFinal("a", 2, y);
    SameTimeOrNot(early, x);
    SameTimeOrNot(early, y);
    NameOrderIsTimeOrder("a", 2, early, x);
    NameOrderIsTimeOrder("a", 2, early, y);
    NameOrderIsTimeOrder("a", 2, x, y);
    TwoCopies(t, j.server, "a", n, m);
    assert Larger({n, m}, j.target) == {n, m};
    SampleTargetAbsent(t, j, n, m);
    Verdict.SuccessIff(toc, j, s, t);
    var k := Length(toc, j, s, t);
    assert EndsWell(toc, t, j, s, k);
    FreshDumpSurvives(toc, t, Alone(toc, j, s, t, k).tree, j, s);
  }

  lemma SampleTargetAbsent(t: Tree, j: Job, x: string, y: string)
    requires t == map[Path(j.server, x) := File([1]), Path(j.server, y) := File([1])]
    requires x != j.target && y != j.target && j.server != ""
    ensures TargetPath(j) !in t && RootEntry(j.server) !in t
  {
  }

  // A series of dumps.

  /** The names of the dumps started at positions [lo, hi). */
  function NamesOf(db: string, keep: nat, starts: seq<UTC>, lo: nat, hi: nat): (names: seq<string>)
    requires lo <= hi <= |starts|
    ensures |names| == hi - lo
    ensures forall i :: 0 <= i < hi - lo ==> names[i] == DumpFileName(db, keep, starts[lo + i])
  {
    seq(hi - lo, i requires 0 <= i < hi - lo => DumpFileName(db, keep, starts[lo + i]))
  }

  ghost predicate Increasing(starts: seq<UTC>) {
    && (forall i :: 0 <= i < |starts| ==> ValidUTC(starts[i]))
    && forall i, k | 0 <= i < k < |starts| :: Earlier(starts[i], starts[k])
  }

  lemma NamesAscend(db: string, keep: nat, starts: seq<UTC>, lo: nat, hi: nat)
    requires lo <= hi <= |starts| && Increasing(starts) && keep > 1
    ensures Ascending(NamesOf(db, keep, starts, lo, hi))
  {
    forall i, k | 0 <= i < k < hi - lo
      ensures Less(NamesOf(db, keep, starts, lo, hi)[i], NamesOf(db, keep, starts, lo, hi)[k])
    {
      NameOrderIsTimeOrder(db, keep, starts[lo + i], starts[lo + k]);
    }
  }

  function First(n: nat, keep: nat): nat {
    if n <= keep then 0 else n - keep
  }

  /** A series of successful dumps of one database: each starts from the tree the previous
      one left, nothing else touches the database's copies, and every remove succeeds. */
  ghost predicate Series(toc: Toc, server: string, db: string, keep: nat, starts: seq<UTC>, scripts: seq<Script>,
                         host: string, trees: seq<Tree>)
  {
    && IsDatabase(db) && server != "" && '/' !in server && keep > 1
    && Increasing(starts) && |scripts| == |starts| && |trees| == |starts| + 1
    && Copies(trees[0], server, db) == {}
    && forall i :: 0 <= i < |starts| ==>
         var j := Job(host, db, server, DumpFileName(db, keep, starts[i]), keep);
         && IsTemp(scripts[i].temp) && scripts[i].listOk && scripts[i].stuck == {}
         && Dumped(toc, trees[i], trees[i + 1], j, scripts[i])
  }

  /** The names in `have` are those of the newest min(n, keep) of the first n starts. */
  ghost predicate NewestOnly(have: set<string>, db: string, keep: nat, starts: seq<UTC>, n: nat)
    requires n <= |starts|
  {
    forall x :: x in have <==> x in NamesOf(db, keep, starts, First(n, keep), n)
  }

  lemma NothingYet(db: string, keep: nat, starts: seq<UTC>)
    ensures NewestOnly({}, db, keep, starts, 0)
  {
  }

  /** The window of names grows at its end and slides at its start. */
  lemma WindowGrows(db: string, keep: nat, starts: seq<UTC>, n: nat, have: set<string>)
    requires keep > 1 && n < |starts| && NewestOnly(have, db, keep, starts, n)
    ensures forall x :: x in NamesOf(db, keep, starts, First(n, keep), n + 1)
              <==> x in have + {DumpFileName(db, keep, starts[n])}
  {
    hide DumpFileName;
    var lo := First(n, keep);
    assert NamesOf(db, keep, starts, lo, n + 1)
        == NamesOf(db, keep, starts, lo, n) + [DumpFileName(db, keep, starts[n])];
  }

  lemma WindowSlides(db: string, keep: nat, starts: seq<UTC>, n: nat, cut: nat)
    requires keep > 1 && n < |starts|
    requires var size := n + 1 - First(n, keep); cut == if size <= keep then 0 else size - keep
    ensures NamesOf(db, keep, starts, First(n + 1, keep), n + 1)
         == NamesOf(db, keep, starts, First(n, keep), n + 1)[cut..]
  {
    hide DumpFileName;
  }

  /** Adding the next name to a window of the newest and cutting back to `keep`. */
  lemma WindowMoves(db: string, keep: nat, starts: seq<UTC>, n: nat, have: set<string>)
    requires keep > 1 && Increasing(starts) && n < |starts|
    requires NewestOnly(have, db, keep, starts, n)
    ensures NewestOnly(Newest(have + {DumpFileName(db, keep, starts[n])}, keep), db, keep, starts, n + 1)
  {
    hide DumpFileName, Newest, Increasing, InOrder, DoomedOf, Less, First, NamesOf;
    var all := have + {DumpFileName(db, keep, starts[n])};
    var names := NamesOf(db, keep, starts, First(n, keep), n + 1);
    WindowGrows(db, keep, starts, n, have);
    NamesAscend(db, keep, starts, First(n, keep), n + 1);
    InOrderUnique(names, all);
    DoomedCount(all, keep);
    NewestInOrder(all, keep);
    WindowSlides(db, keep, starts, n, |DoomedOf(all, keep)|);
    assert forall x :: x in InOrder(Newest(all, keep)) <==> x in Newest(all, keep);
  }

  lemma DoomedCount(s: set<string>, keep: nat)
    ensures |DoomedOf(s, keep)| == if |InOrder(s)| <= keep then 0 else |InOrder(s)| - keep
  {
    SparedAreNewest(s, keep);
  }

  lemma SeriesStart(toc: Toc, server: string, db: string, keep: nat, starts: seq<UTC>, scripts: seq<Script>,
                    host: string, trees: seq<Tree>)
    requires Series(toc, server, db, keep, starts, scripts, host, trees)
    ensures |trees| == |starts| + 1 && |scripts| == |starts| && keep > 1 && Increasing(starts)
    ensures Copies(trees[0], server, db) == {}
  {
    hide Copies, Increasing;
  }

  /** One dump of a series: what was on disk and the new one, cut back to the newest. */
  lemma SeriesStep(toc: Toc, server: string, db: string, keep: nat, starts: seq<UTC>, scripts: seq<Script>,
                   host: string, trees: seq<Tree>, i: nat)
    requires Series(toc, server, db, keep, starts, scripts, host, trees)
    requires i < |starts| && |trees| == |starts| + 1
    ensures Copies(trees[i + 1], server, db)
         == Newest(Copies(trees[i], server, db) + {DumpFileName(db, keep, starts[i])}, keep)
  {
    hide Dumped, Copies, Newest, Increasing, DumpFileName, IsTemp, IsFinal, IsCopy, IsDatabase;
    var j := Job(host, db, server, DumpFileName(db, keep, starts[i]), keep);
    DumpFileNameIsFinal(db, keep, starts[i]);
    DumpFileNameIsComponent(db, keep, starts[i]);
    assert Dumped(toc, trees[i], trees[i + 1], j, scripts[i]);
    RetainedCopies(toc, trees[i], trees[i + 1], j, scripts[i]);
    NewestIsSubset(Committed(trees[i], j), keep);
  }

  /** Exact retention: after n dumps the copies on disk are those of the newest
      min(n, keep) starts and no others. */
  lemma {:induction false} ExactRetention(toc: Toc, server: string, db: string, keep: nat, starts: seq<UTC>,
                                          scripts: seq<Script>, host: string, trees: seq<Tree>, n: nat)
    requires Series(toc, server, db, keep, starts, scripts, host, trees) && n <= |starts|
    ensures NewestOnly(Copies(trees[n], server, db), db, keep, starts, n)
  {
    hide Series, Copies, Newest, Increasing, DumpFileName, NewestOnly, First;
    SeriesStart(toc, server, db, keep, starts, scripts, host, trees);
    if n == 0 {
      NothingYet(db, keep, starts);
    } else {
      ExactRetention(toc, server, db, keep, starts, scripts, host, trees, n - 1);
      SeriesStep(toc, server, db, keep, starts, scripts, host, trees, n - 1);
      WindowMoves(db, keep, starts, n - 1, Copies(trees[n - 1], server, db));
    }
  }
}
