/** The dump directory as an object, and `dumpOne`, `stageAndReplace`, `pruneOldDumps` and
    `removeDumps` (internal/dump/dump.go, internal/dump/verify.go) as methods that change it.

    `trail` records the directory after every single change. The methods are proved to pass
    through exactly the worlds of the step-by-step worker, so a crash between any two
    changes leaves one of those. */
module Volume {
  import opened Results
  import opened Text
  import opened DumpName
  import opened Disk
  import opened Worker
  import Verdict

  datatype Entry = Entry(name: string, isDir: bool)

  /** The names of db's retained copies in a listing. */
  function CopyNames(entries: seq<Entry>, db: string): seq<string> {
    if entries == [] then [] else
    var e := entries[|entries| - 1];
    CopyNames(entries[..|entries| - 1], db) + (if !e.isDir && IsCopy(db, e.name) then [e.name] else [])
  }

  method TimestampedDumpNames(entries: seq<Entry>, db: string) returns (names: seq<string>)
    ensures names == CopyNames(entries, db)
  {
    var prefix := db + ".";
    var bare := db + SUFFIX;
    names := [];
    for i := 0 to |entries|
      invariant names == CopyNames(entries[..i], db)
    {
      assert entries[..i + 1][..i] == entries[..i];
      var e := entries[i];
      if e.isDir {
        continue;
      }
      var n := e.name;
      if n == bare {
        continue;
      }
      if prefix <= n && HasSuffix(n, SUFFIX) && |n| > |prefix| + |SUFFIX| {
        names := names + [n];
      }
    }
    assert entries[..|entries|] == entries;
  }

  // Sorting a listing.

  function Insert(x: string, sorted: seq<string>): seq<string> {
    if sorted == [] || Less(x, sorted[0]) then [x] + sorted else [sorted[0]] + Insert(x, sorted[1..])
  }

  /** The library's sort. */
  function Sorted(names: seq<string>): seq<string> {
    if names == [] then [] else Insert(names[|names| - 1], Sorted(names[..|names| - 1]))
  }

  lemma {:induction false} InsertKeeps(x: string, sorted: seq<string>)
    requires Ascending(sorted) && x !in sorted
    ensures Ascending(Insert(x, sorted))
    ensures forall n :: n in Insert(x, sorted) <==> n == x || n in sorted
  {
    if sorted == [] {
    } else if Less(x, sorted[0]) {
      forall k | 0 <= k < |sorted|
        ensures Less(x, sorted[k])
      {
        if k > 0 {
          LessTransitive(x, sorted[0], sorted[k]);
        }
      }
    } else {
      LessTotal(x, sorted[0]);
      var rest := sorted[1..];
      assert sorted == [sorted[0]] + rest;
      InsertKeeps(x, rest);
      forall k | 0 <= k < |Insert(x, rest)|
        ensures Less(sorted[0], Insert(x, rest)[k])
      {
        assert Insert(x, rest)[k] in Insert(x, rest);
      }
    }
  }

  ghost predicate NoRepeats(names: seq<string>) {
    forall i, k | 0 <= i < k < |names| :: names[i] != names[k]
  }

  lemma {:induction false} SortedIsInOrder(names: seq<string>, s: set<string>)
    requires NoRepeats(names) && forall n :: n in names <==> n in s
    ensures Sorted(names) == InOrder(s)
  {
    hide InOrder, Less;
    SortedFacts(names);
    InOrderUnique(Sorted(names), s);
  }

  lemma {:induction false} SortedFacts(names: seq<string>)
    requires NoRepeats(names)
    ensures Ascending(Sorted(names)) && forall n :: n in Sorted(names) <==> n in names
  {
    hide Less, Insert;
    if names != [] {
      var before, x := names[..|names| - 1], names[|names| - 1];
      SortedFacts(before);
      assert names == before + [x];
      InsertKeeps(x, Sorted(before));
    }
  }

  /** What a listing of `dir` is: every entry once. */
  ghost predicate IsListing(t: Tree, dir: string, entries: seq<Entry>) {
    && (forall i, k | 0 <= i < k < |entries| :: entries[i].name != entries[k].name)
    && (forall name, isDir :: Entry(name, isDir) in entries <==>
          Path(dir, name) in t && t[Path(dir, name)].Dir? == isDir)
  }

  lemma {:induction false} CopyNamesMembers(entries: seq<Entry>, db: string)
    requires forall i, k | 0 <= i < k < |entries| :: entries[i].name != entries[k].name
    ensures NoRepeats(CopyNames(entries, db))
    ensures forall n :: n in CopyNames(entries, db) <==> Entry(n, false) in entries && IsCopy(db, n)
  {
    hide IsCopy;
    if entries != [] {
      var before, e := entries[..|entries| - 1], entries[|entries| - 1];
      CopyNamesMembers(before, db);
      assert entries == before + [e];
      forall n | n in CopyNames(before, db)
        ensures n != e.name
      {
        var i :| 0 <= i < |before| && before[i] == Entry(n, false);
        assert entries[i].name != entries[|entries| - 1].name;
      }
    }
  }

  /** Sorting the names found in a listing gives the copies on disk in order. */
  lemma SortedListing(t: Tree, dir: string, db: string, entries: seq<Entry>)
    requires IsListing(t, dir, entries)
    ensures Sorted(CopyNames(entries, db)) == InOrder(Copies(t, dir, db))
  {
    hide IsCopy, InOrder, Sorted;
    CopyNamesMembers(entries, db);
    forall n
      ensures n in CopyNames(entries, db) <==> n in Copies(t, dir, db)
    {
      CopiesMembers(t, dir, db, n);
    }
    SortedIsInOrder(CopyNames(entries, db), Copies(t, dir, db));
  }

  /** Why a prune is incomplete: the first removal that failed, or no listing at all. */
  datatype PruneFault = CannotList | CannotRemove(name: string)

  /** Consecutive worlds of one worker. */
  ghost predicate Chain(toc: Toc, j: Job, s: Script, trail: seq<World>) {
    trail != [] && forall n :: 0 <= n < |trail| - 1 ==> trail[n + 1] == Step(toc, j, s, trail[n])
  }

  class Volume {
    var tree: Tree
    ghost var trail: seq<World>

    constructor (t: Tree)
      ensures tree == t
    {
      tree := t;
      trail := [];
    }

    /** The worker stands at `pc` with the directory as it is now. */
    ghost predicate At(toc: Toc, j: Job, s: Script, pc: Pc)
      reads this
    {
      Chain(toc, j, s, trail) && trail[|trail| - 1] == World(tree, pc)
    }

    /** Records that the last change was the worker's next step. */
    ghost method Log(toc: Toc, j: Job, s: Script, pc: Pc)
      requires Chain(toc, j, s, trail) && Step(toc, j, s, trail[|trail| - 1]) == World(tree, pc)
      modifies `trail
      ensures At(toc, j, s, pc) && trail == old(trail) + [World(tree, pc)]
    {
      trail := trail + [World(tree, pc)];
    }

    method ReadDir(dir: string) returns (entries: seq<Entry>)
      ensures IsListing(tree, dir, entries)
    {
      entries := [];
      var all := set p | p in tree.Keys && p.dir == dir;
      var rest := all;
      while rest != {}
        invariant rest <= all
        invariant forall name, isDir :: Entry(name, isDir) in entries <==>
                    Path(dir, name) in all - rest && tree[Path(dir, name)].Dir? == isDir
        invariant forall i, k | 0 <= i < k < |entries| :: entries[i].name != entries[k].name
        decreases |rest|
      {
        var p :| p in rest;
        assert p == Path(dir, p.name);
        assert forall i :: 0 <= i < |entries| ==> entries[i] == Entry(entries[i].name, entries[i].isDir);
        entries := entries + [Entry(p.name, tree[p].Dir?)];
        rest := rest - {p};
      }
    }

    /** Deletes each named file, counting the successes and keeping the first failure; a
        failure neither stops the loop nor undoes a removal. */
    method RemoveDumps(toc: Toc, j: Job, s: Script, r: Result, names: seq<string>)
      returns (removed: nat, firstErr: Option<string>)
      requires At(toc, j, s, Removing(r, names, 0))
      modifies this
      ensures At(toc, j, s, Removing(r, names, |names|)) && old(trail) <= trail
      ensures firstErr.None? <==> forall k :: 0 <= k < |names| ==> names[k] !in s.stuck
      ensures firstErr.Some? ==>
        exists k :: 0 <= k < |names| && firstErr.value == names[k] && names[k] in s.stuck
                    && forall i :: 0 <= i < k ==> names[i] !in s.stuck
      ensures removed == Removable(names, s.stuck)
      ensures NoRepeats(names) ==> removed == |RemovableNames(names, s.stuck)|
      ensures tree == old(tree) - PathsOf(j.server, RemovableNames(names, s.stuck))
    {
      removed := 0;
      firstErr := None;
      RemovingNone(tree, j.server, names, s.stuck);
      for i := 0 to |names|
        invariant At(toc, j, s, Removing(r, names, i)) && old(trail) <= trail
        invariant removed == Removable(names[..i], s.stuck)
        invariant tree == old(tree) - PathsOf(j.server, RemovableNames(names[..i], s.stuck))
        invariant firstErr.None? <==> forall k :: 0 <= k < i ==> names[k] !in s.stuck
        invariant firstErr.Some? ==>
          exists k :: 0 <= k < i && firstErr.value == names[k] && names[k] in s.stuck
                      && forall m :: 0 <= m < k ==> names[m] !in s.stuck
      {
        hide Chain, PathsOf, RemovableNames, Step;
        assert names[..i + 1][..i] == names[..i];
        RemovingOne(old(tree), j.server, names, s.stuck, i);
        StepsPast(toc, j, s, tree, r, names, i);
        if names[i] in s.stuck {
          if firstErr.None? {
            firstErr := Some(names[i]);
          }
          Log(toc, j, s, Removing(r, names, i + 1));
          continue;
        }
        tree := tree - {Path(j.server, names[i])};
        removed := removed + 1;
        Log(toc, j, s, Removing(r, names, i + 1));
      }
      assert names[..|names|] == names;
      if NoRepeats(names) {
        RemovableCounts(names, s.stuck);
      }
    }

    /** Keeps the newest `keep` copies and removes the rest; a directory that cannot be listed
        is left alone. */
    method PruneOldDumps(toc: Toc, j: Job, s: Script, r: Result) returns (removed: nat, fault: Option<PruneFault>)
      requires At(toc, j, s, Listing(r))
      modifies this
      ensures At(toc, j, s, Done(r)) && old(trail) <= trail
      ensures !s.listOk ==> tree == old(tree) && removed == 0 && fault == Some(CannotList)
      ensures s.listOk ==>
        && removed == |RemovableNames(old(Doomed(tree, j)), s.stuck)|
        && fault != Some(CannotList)
        && (fault.None? <==> forall n :: n in old(Doomed(tree, j)) ==> n !in s.stuck)
    {
      hide Chain, IsCopy, InOrder, Sorted, IsListing;
      if !s.listOk {
        Log(toc, j, s, Done(r));
        return 0, Some(CannotList);
      }
      var entries := ReadDir(j.server);
      var names := TimestampedDumpNames(entries, j.dbname);
      SortedListing(tree, j.server, j.dbname, entries);
      SortKeepsLength(names);
      var doomed := [];
      if |names| > j.keep {
        var sorted := Sorted(names);
        doomed := sorted[..|sorted| - j.keep];
      }
      assert doomed == Doomed(tree, j);
      DoomedOnce(tree, j);
      RemovableCounts(doomed, s.stuck);
      Log(toc, j, s, Removing(r, doomed, 0));
      var firstErr;
      removed, firstErr := RemoveDumps(toc, j, s, r, doomed);
      fault := if firstErr.None? then None else Some(CannotRemove(firstErr.value));
      Log(toc, j, s, Done(r));
    }

    /** pg_dump writing its output into the staging file. */
    method Dump(toc: Toc, j: Job, s: Script) returns (exitCode: int, failed: bool)
      requires At(toc, j, s, Dumping(0))
      modifies this
      ensures At(toc, j, s, Dumping(|s.chunks|)) && old(trail) <= trail
      ensures exitCode == s.exitCode && failed == s.dumpFailed
    {
      for k := 0 to |s.chunks|
        invariant At(toc, j, s, Dumping(k)) && old(trail) <= trail
      {
        hide Chain;
        tree := tree[TempPath(j, s) := File(Staged(tree, j, s) + s.chunks[k])];
        Log(toc, j, s, Dumping(k + 1));
      }
      exitCode, failed := s.exitCode, s.dumpFailed;
    }

    /** The gates between the finished pg_dump and the replaced target. */
    method VerifyAndCommit(toc: Toc, j: Job, s: Script, exitCode: int, failed: bool)
      returns (r: Result, committed: bool)
      requires At(toc, j, s, Dumping(|s.chunks|)) && exitCode == s.exitCode && failed == s.dumpFailed
      modifies this
      ensures At(toc, j, s, if !committed then CleaningUp(r) else if j.keep > 1 then Listing(r) else Done(r))
      ensures old(trail) <= trail && (committed <==> r.reason == OK)
    {
      hide Chain, AbortOr, Classify, Doomed;
      committed := false;
      if s.dumpCtx.Some? {
        r := Outcome(j, s, AbortOr(s.dumpCtx, Other), 0);
        NeverOK(s.dumpCtx, Other);
        Log(toc, j, s, CleaningUp(r));
        return;
      }
      if failed && exitCode == 0 {
        r := Outcome(j, s, Other, 0);
        Log(toc, j, s, CleaningUp(r));
        return;
      }
      if exitCode != 0 {
        r := Outcome(j, s, PGError, 0);
        Log(toc, j, s, CleaningUp(r));
        return;
      }
      Log(toc, j, s, Statting);
      if !s.statOk {
        r := Outcome(j, s, Other, 0);
        Log(toc, j, s, CleaningUp(r));
        return;
      }
      var size := |Staged(tree, j, s)|;
      if size == 0 {
        r := Outcome(j, s, Empty, 0);
        Log(toc, j, s, CleaningUp(r));
        return;
      }
      Log(toc, j, s, Verifying);
      r, committed := VerifyThenReplace(toc, j, s, size);
    }

    method VerifyThenReplace(toc: Toc, j: Job, s: Script, size: nat) returns (r: Result, committed: bool)
      requires At(toc, j, s, Verifying) && size == |Staged(tree, j, s)|
      modifies this
      ensures At(toc, j, s, if !committed then CleaningUp(r) else if j.keep > 1 then Listing(r) else Done(r))
      ensures old(trail) <= trail && (committed <==> r.reason == OK)
    {
      hide Chain, AbortOr, Classify, Doomed;
      committed := false;
      var bytes := Staged(tree, j, s);
      if s.verifyFault || !toc(bytes) {
        r := Outcome(j, s, AbortOr(s.verifyCtx, Truncated), 0);
        NeverOK(s.verifyCtx, Truncated);
        Log(toc, j, s, CleaningUp(r));
        return;
      }
      Log(toc, j, s, Committing);
      if !s.commit.Refused? {
        tree := (tree - {TempPath(j, s)})[TargetPath(j) := File(bytes)];
      }
      if !s.commit.Replaced? {
        r := Outcome(j, s, AbortOr(s.commitCtx, RenameFailed), 0);
        NeverOK(s.commitCtx, RenameFailed);
        Log(toc, j, s, CleaningUp(r));
        return;
      }
      committed := true;
      r := Outcome(j, s, OK, size);
      Log(toc, j, s, if j.keep > 1 then Listing(r) else Done(r));
    }

    /** Streams a dump into a staging file, verifies it and only then replaces the target; on
        any failure the staging file is discarded. */
    method StageAndReplace(toc: Toc, j: Job, s: Script) returns (r: Result)
      requires At(toc, j, s, Creating)
      modifies this
      ensures At(toc, j, s, if r.reason == OK && j.keep > 1 then Listing(r) else Done(r)) && old(trail) <= trail
    {
      hide Chain, AbortOr, Classify, Doomed;
      if s.create.NotRegular? || (TargetPath(j) in tree && tree[TargetPath(j)].Dir?) {
        r := Outcome(j, s, RenameFailed, 0);
        Log(toc, j, s, Done(r));
        return;
      }
      if s.create.CreateFailed? {
        r := Outcome(j, s, AbortOr(s.createCtx, Other), 0);
        NeverOK(s.createCtx, Other);
        Log(toc, j, s, Done(r));
        return;
      }
      tree := tree[TempPath(j, s) := File([])];
      Log(toc, j, s, Dumping(0));
      var exitCode, failed := Dump(toc, j, s);
      var committed;
      r, committed := VerifyAndCommit(toc, j, s, exitCode, failed);
      if !committed {
        if s.cleanupOk {
          tree := tree - {TempPath(j, s)};
        }
        Log(toc, j, s, Done(r));
      }
    }

    /** Probes one database and, on success, stages, verifies, replaces and prunes. The
        directory passes through exactly the worlds of the step-by-step worker, and the
        result is the one the verdict rule gives. */
    method DumpOne(toc: Toc, j: Job, s: Script) returns (r: Result)
      modifies this
      ensures trail != [] && trail[|trail| - 1] == World(tree, Done(r))
      ensures forall n :: 0 <= n < |trail| ==> trail[n] == Alone(toc, j, s, old(tree), n)
      ensures ValidJob(j) && IsTemp(s.temp) ==> r == Verdict.ResultOf(toc, j, s, old(tree))
    {
      hide AbortOr, Classify, Doomed, Alone, Verdict.ResultOf;
      trail := [World(tree, Probing)];
      ghost var t0 := tree;
      r := DumpFromStart(toc, j, s);
      ChainIsAlone(toc, j, s, t0, trail);
      if ValidJob(j) && IsTemp(s.temp) {
        Verdict.ResultIsDecided(toc, j, s, t0, |trail| - 1);
      }
    }

    method DumpFromStart(toc: Toc, j: Job, s: Script) returns (r: Result)
      requires At(toc, j, s, Probing)
      modifies this
      ensures At(toc, j, s, Done(r)) && old(trail) <= trail
    {
      hide Chain, AbortOr, Doomed, InOrder;
      if s.probeKind != FailNone || s.probeFailed {
        r := Outcome(j, s, Classify(0, s.probeCtx, s.probeKind), 0);
        Log(toc, j, s, Done(r));
        return;
      }
      Log(toc, j, s, MakingDir);
      if !s.mkdirOk || IsFile(tree, RootEntry(j.server)) {
        r := Outcome(j, s, MkdirFailed, 0);
        Log(toc, j, s, Done(r));
        return;
      }
      tree := tree[RootEntry(j.server) := Dir];
      Log(toc, j, s, Creating);
      r := StageAndReplace(toc, j, s);
      if r.reason == OK && j.keep > 1 {
        var removed, fault := PruneOldDumps(toc, j, s, r);
      }
    }
  }

  /** How many of the names can be removed. */
  function Removable(names: seq<string>, stuck: set<string>): nat {
    if names == [] then 0
    else Removable(names[..|names| - 1], stuck) + (if names[|names| - 1] in stuck then 0 else 1)
  }

  /** The removable names, each once. */
  ghost function RemovableNames(names: seq<string>, stuck: set<string>): set<string> {
    set n | n in names && n !in stuck
  }

  ghost function PathsOf(dir: string, names: set<string>): set<Path> {
    set n | n in names :: Path(dir, n)
  }

  lemma RemovingNone(t: Tree, dir: string, names: seq<string>, stuck: set<string>)
    ensures t == t - PathsOf(dir, RemovableNames(names[..0], stuck))
  {
  }

  lemma RemovingOne(t: Tree, dir: string, names: seq<string>, stuck: set<string>, i: nat)
    requires i < |names|
    ensures var before, after := RemovableNames(names[..i], stuck), RemovableNames(names[..i + 1], stuck);
            t - PathsOf(dir, after)
            == if names[i] in stuck then t - PathsOf(dir, before) else t - PathsOf(dir, before) - {Path(dir, names[i])}
  {
    assert names[..i + 1] == names[..i] + [names[i]];
    var before, after := RemovableNames(names[..i], stuck), RemovableNames(names[..i + 1], stuck);
    if names[i] in stuck {
      assert after == before;
    } else {
      assert after == before + {names[i]};
      assert PathsOf(dir, after) == PathsOf(dir, before) + {Path(dir, names[i])};
    }
  }

  lemma StepsPast(toc: Toc, j: Job, s: Script, t: Tree, r: Result, names: seq<string>, i: nat)
    requires i < |names|
    ensures Step(toc, j, s, World(t, Removing(r, names, i)))
         == World(if names[i] in s.stuck then t else t - {Path(j.server, names[i])}, Removing(r, names, i + 1))
  {
  }

  /** The count is the number of different names that are gone. */
  lemma {:induction false} RemovableCounts(names: seq<string>, stuck: set<string>)
    requires NoRepeats(names)
    ensures Removable(names, stuck) == |RemovableNames(names, stuck)|
  {
    if names != [] {
      var before, last := names[..|names| - 1], names[|names| - 1];
      RemovableCounts(before, stuck);
      assert names == before + [last] && last !in before;
      if last in stuck {
        assert RemovableNames(names, stuck) == RemovableNames(before, stuck);
      } else {
        assert RemovableNames(names, stuck) == RemovableNames(before, stuck) + {last};
      }
    }
  }

  /** A prune's doomed names do not repeat. */
  lemma DoomedOnce(t: Tree, j: Job)
    ensures NoRepeats(Doomed(t, j))
  {
    hide Less;
    var names := InOrder(Copies(t, j.server, j.dbname));
    forall i, k | 0 <= i < k < |Doomed(t, j)|
      ensures Doomed(t, j)[i] != Doomed(t, j)[k]
    {
      LessTotal(names[i], names[k]);
    }
  }

  lemma {:induction false} InsertLength(x: string, sorted: seq<string>)
    ensures |Insert(x, sorted)| == |sorted| + 1
  {
    if sorted != [] && !Less(x, sorted[0]) {
      InsertLength(x, sorted[1..]);
    }
  }

  lemma {:induction false} SortKeepsLength(names: seq<string>)
    ensures |Sorted(names)| == |names|
  {
    if names != [] {
      SortKeepsLength(names[..|names| - 1]);
      InsertLength(names[|names| - 1], Sorted(names[..|names| - 1]));
    }
  }

  lemma NeverOK(ctx: Option<CtxErr>, fallback: Reason)
    requires fallback != OK
    ensures AbortOr(ctx, fallback) != OK
  {
  }

  /** A chain from the start of a cycle is the worker alone. */
  lemma {:induction false} ChainIsAlone(toc: Toc, j: Job, s: Script, t0: Tree, trail: seq<World>)
    requires Chain(toc, j, s, trail) && trail[0] == World(t0, Probing)
    ensures forall n :: 0 <= n < |trail| ==> trail[n] == Alone(toc, j, s, t0, n)
  {
    hide Step;
    if |trail| > 1 {
      var before := trail[..|trail| - 1];
      assert forall n :: 0 <= n < |before| - 1 ==> trail[n + 1] == Step(toc, j, s, trail[n]);
      ChainIsAlone(toc, j, s, t0, before);
      assert trail[|trail| - 2 + 1] == Step(toc, j, s, trail[|trail| - 2]);
    }
  }
}
