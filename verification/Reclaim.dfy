/** Reclaiming crash-orphaned staging files (internal/dump/reclaim.go): what a sweep
    removes, what it reports, and that no cycle starts with a leftover. */
module Reclaim {
  import opened Results
  import opened DumpName
  import opened Disk
  import opened Worker
  import opened Workers
  import opened History
  import Volume

  /** What the file system does to a sweep: `stuck` cannot be unlinked, `unseen` is not
      reached because the walk of its directory failed first. */
  datatype Faults = Faults(stuck: set<Path>, unseen: set<Path>)

  /** The staging files in a directory that its sweep gets to see. */
  function Seen(t: Tree, dir: string, f: Faults): set<Path> {
    set p | p in t.Keys && p.dir == dir && t[p].File? && IsTemp(p.name) && p !in f.unseen
  }

  function Reaped(t: Tree, dir: string, f: Faults): set<Path> { Seen(t, dir, f) - f.stuck }

  function Left(t: Tree, dir: string, f: Faults): set<Path> { Seen(t, dir, f) * f.stuck }

  /** The library's sweep of one directory: the counts removed and seen but not unlinked. */
  method ReclaimDir(vol: Volume.Volume, dir: string, f: Faults) returns (removed: nat, unreclaimed: nat)
    modifies vol`tree
    ensures vol.tree == old(vol.tree) - old(Reaped(vol.tree, dir, f))
    ensures removed == |old(Reaped(vol.tree, dir, f))| && unreclaimed == |old(Left(vol.tree, dir, f))|
  {
    hide Seen;
    var all := Seen(vol.tree, dir, f);
    var rest := all;
    ghost var t := vol.tree;
    removed, unreclaimed := 0, 0;
    assert t - {} == t;
    while rest != {}
      invariant rest <= all
      invariant vol.tree == t - ((all - rest) - f.stuck)
      invariant removed == |(all - rest) - f.stuck| && unreclaimed == |(all - rest) * f.stuck|
      decreases |rest|
    {
      var p :| p in rest;
      SweepOne(t, all, rest, p, f.stuck);
      if p in f.stuck {
        unreclaimed := unreclaimed + 1;
      } else {
        vol.tree := vol.tree - {p};
        removed := removed + 1;
      }
      rest := rest - {p};
    }
    assert all - {} == all;
  }

  lemma SweepOne(t: Tree, all: set<Path>, rest: set<Path>, p: Path, stuck: set<Path>)
    requires p in rest && rest <= all
    ensures var a, b := all - rest, all - (rest - {p});
            if p in stuck then b - stuck == a - stuck && |b * stuck| == |a * stuck| + 1
            else && |b - stuck| == |a - stuck| + 1 && b * stuck == a * stuck
                 && t - (b - stuck) == t - (a - stuck) - {p}
  {
    var a, b := all - rest, all - (rest - {p});
    assert b == a + {p};
    if p in stuck {
      assert b - stuck == a - stuck && b * stuck == (a * stuck) + {p};
    } else {
      assert b - stuck == (a - stuck) + {p} && b * stuck == a * stuck;
      assert t - (b - stuck) == t - (a - stuck) - {p};
    }
  }

  /** The directories a sweep visits: the root and its first-level directories. */
  ghost predicate Swept(t: Tree, dir: string) {
    dir == "" || (RootEntry(dir) in t && t[RootEntry(dir)].Dir?)
  }

  /** Every staging file of a set of directories that can be unlinked. */
  ghost function ReapedIn(t: Tree, dirs: set<string>, f: Faults): set<Path> {
    set p | p in t.Keys && p.dir in dirs && p in Reaped(t, p.dir, f)
  }

  ghost function LeftIn(t: Tree, dirs: set<string>, f: Faults): set<Path> {
    set p | p in t.Keys && p.dir in dirs && p in Left(t, p.dir, f)
  }

  ghost function SweptDirs(t: Tree): set<string> {
    {""} + set p | p in t.Keys && p.dir == "" && t[p].Dir? :: p.name
  }

  lemma OneMoreDir(t: Tree, dirs: set<string>, dir: string, f: Faults)
    requires dir !in dirs
    ensures ReapedIn(t, dirs + {dir}, f) == ReapedIn(t, dirs, f) + Reaped(t, dir, f)
    ensures LeftIn(t, dirs + {dir}, f) == LeftIn(t, dirs, f) + Left(t, dir, f)
    ensures |ReapedIn(t, dirs + {dir}, f)| == |ReapedIn(t, dirs, f)| + |Reaped(t, dir, f)|
    ensures |LeftIn(t, dirs + {dir}, f)| == |LeftIn(t, dirs, f)| + |Left(t, dir, f)|
    ensures t - ReapedIn(t, dirs + {dir}, f) == t - ReapedIn(t, dirs, f) - Reaped(t, dir, f)
    ensures Reaped(t - ReapedIn(t, dirs, f), dir, f) == Reaped(t, dir, f)
    ensures Left(t - ReapedIn(t, dirs, f), dir, f) == Left(t, dir, f)
  {
    hide IsTemp;
    OneMoreSweep(t, dirs, dir, f);
    assert ReapedIn(t, dirs, f) !! Reaped(t, dir, f);
    assert LeftIn(t, dirs, f) !! Left(t, dir, f);
    OtherDirsUnseen(t, dirs, dir, f);
    hide ReapedIn, LeftIn, Reaped, Left;
    assert t - (ReapedIn(t, dirs, f) + Reaped(t, dir, f)) == t - ReapedIn(t, dirs, f) - Reaped(t, dir, f);
  }

  lemma OneMoreSweep(t: Tree, dirs: set<string>, dir: string, f: Faults)
    ensures ReapedIn(t, dirs + {dir}, f) == ReapedIn(t, dirs, f) + Reaped(t, dir, f)
    ensures LeftIn(t, dirs + {dir}, f) == LeftIn(t, dirs, f) + Left(t, dir, f)
  {
    hide IsTemp;
  }

  /** What other directories lose does not show in this one. */
  lemma OtherDirsUnseen(t: Tree, dirs: set<string>, dir: string, f: Faults)
    requires dir !in dirs
    ensures Seen(t - ReapedIn(t, dirs, f), dir, f) == Seen(t, dir, f)
  {
    hide IsTemp;
  }

  /** What a sweep takes away; nothing when the root cannot be read. */
  ghost function Sweep(t: Tree, readable: bool, f: Faults): set<Path> {
    if readable then ReapedIn(t, SweptDirs(t), f) else {}
  }

  lemma SweepIs(t: Tree, readable: bool, f: Faults)
    ensures t - Sweep(t, readable, f) == if readable then t - ReapedIn(t, SweptDirs(t), f) else t
  {
    assert t - {} == t;
  }

  /** Sweeps the root and every first-level directory, and reports the totals. */
  method ReclaimOrphans(vol: Volume.Volume, readable: bool, f: Faults) returns (total: nat, unreclaimed: nat)
    requires WellNamed(vol.tree)
    modifies vol`tree
    ensures !readable ==> vol.tree == old(vol.tree) && total == 0 && unreclaimed == 0
    ensures readable ==>
      && vol.tree == old(vol.tree) - old(ReapedIn(vol.tree, SweptDirs(vol.tree), f))
      && total == |old(ReapedIn(vol.tree, SweptDirs(vol.tree), f))|
      && unreclaimed == |old(LeftIn(vol.tree, SweptDirs(vol.tree), f))|
  {
    if !readable {
      return 0, 0;
    }
    var entries := vol.ReadDir("");
    SweepStart(vol.tree, f);
    ListedDirs(vol.tree, entries);
    hide *;
    total, unreclaimed := ReclaimDir(vol, "", f);
    var removed, failed := ReclaimListed(vol, old(vol.tree), entries, f);
    total := total + removed;
    unreclaimed := unreclaimed + failed;
  }

  /** The sweep of the root's directories, when the root itself has been swept. */
  method ReclaimListed(vol: Volume.Volume, ghost t: Tree, entries: seq<Volume.Entry>, f: Faults)
    returns (total: nat, unreclaimed: nat)
    requires WellNamed(t) && Volume.IsListing(t, "", entries)
    requires vol.tree == t - ReapedIn(t, {""}, f)
    modifies vol`tree
    ensures var dirs := {""} + DirNames(entries);
            && vol.tree == t - ReapedIn(t, dirs, f)
            && |ReapedIn(t, {""}, f)| + total == |ReapedIn(t, dirs, f)|
            && |LeftIn(t, {""}, f)| + unreclaimed == |LeftIn(t, dirs, f)|
  {
    hide *;
    total, unreclaimed := 0, 0;
    ghost var dirs: set<string> := {""};
    NoDirNames();
    assert entries[..0] == [];
    for i := 0 to |entries|
      invariant dirs == {""} + DirNames(entries[..i])
      invariant vol.tree == t - ReapedIn(t, dirs, f)
      invariant |ReapedIn(t, {""}, f)| + total == |ReapedIn(t, dirs, f)|
      invariant |LeftIn(t, {""}, f)| + unreclaimed == |LeftIn(t, dirs, f)|
    {
      MoreDirNames(entries, i);
      var e := entries[i];
      if !e.isDir {
        continue;
      }
      NewDir(t, entries, i);
      OneMoreDir(t, dirs, e.name, f);
      var removed, failed := ReclaimDir(vol, e.name, f);
      total := total + removed;
      unreclaimed := unreclaimed + failed;
      dirs := dirs + {e.name};
    }
    assert entries[..|entries|] == entries;
  }

  lemma SweepStart(t: Tree, f: Faults)
    ensures ReapedIn(t, {""}, f) == Reaped(t, "", f) && LeftIn(t, {""}, f) == Left(t, "", f)
  {
    hide IsTemp;
  }

  lemma NoDirNames()
    ensures DirNames([]) == {}
  {
  }

  lemma MoreDirNames(entries: seq<Volume.Entry>, i: nat)
    requires i < |entries|
    ensures DirNames(entries[..i + 1]) == DirNames(entries[..i]) + (if entries[i].isDir then {entries[i].name} else {})
  {
    assert entries[..i + 1][..i] == entries[..i];
  }

  ghost function DirNames(entries: seq<Volume.Entry>): set<string> {
    if entries == [] then {} else
    var e := entries[|entries| - 1];
    DirNames(entries[..|entries| - 1]) + (if e.isDir then {e.name} else {})
  }

  lemma {:induction false} DirNamesMembers(entries: seq<Volume.Entry>)
    ensures forall n :: n in DirNames(entries) <==> Volume.Entry(n, true) in entries
  {
    if entries != [] {
      DirNamesMembers(entries[..|entries| - 1]);
      assert entries == entries[..|entries| - 1] + [entries[|entries| - 1]];
    }
  }

  lemma NewDir(t: Tree, entries: seq<Volume.Entry>, i: nat)
    requires WellNamed(t) && Volume.IsListing(t, "", entries) && i < |entries|
    ensures entries[i].name !in {""} + DirNames(entries[..i])
  {
    DirNamesMembers(entries[..i]);
    assert entries[i] == Volume.Entry(entries[i].name, entries[i].isDir) && entries[i] in entries;
    assert Path("", entries[i].name) in t;
  }

  lemma ListedDirs(t: Tree, entries: seq<Volume.Entry>)
    requires Volume.IsListing(t, "", entries)
    ensures {""} + DirNames(entries) == SweptDirs(t)
  {
    DirNamesMembers(entries);
    forall n
      ensures n in DirNames(entries) <==> RootEntry(n) in t && t[RootEntry(n)].Dir?
    {
    }
    assert forall n :: RootEntry(n).name == n;
  }

  /** What a readable sweep makes of a staging file, told by its path: in the root or a
      first-level directory it goes if the walk reaches it and it can be unlinked; the ones left
      that the walk did reach are the ones counted as unreclaimed; and nothing else goes. */
  lemma SweepIff(t: Tree, f: Faults, p: Path)
    requires p in t
    ensures var after := t - ReapedIn(t, SweptDirs(t), f);
            var here := t[p].File? && IsTemp(p.name) && Swept(t, p.dir) && p !in f.unseen;
            && (p !in after <==> here && p !in f.stuck)
            && (p in LeftIn(t, SweptDirs(t), f) <==> here && p in after)
            && (p in after ==> after[p] == t[p])
  {
    hide IsTemp;
    if p.dir in SweptDirs(t) && p.dir != "" {
      var q :| q in t.Keys && q.dir == "" && t[q].Dir? && q.name == p.dir;
      assert q == RootEntry(p.dir);
    }
    if Swept(t, p.dir) && p.dir != "" {
      assert RootEntry(p.dir).name in SweptDirs(t);
    }
  }

  // Hygiene.

  /** A sweep removes only staging files directly in the root or in a first-level directory:
      never a dump, never the cycle record, never anything deeper. */
  lemma ReclaimTouchesOnlyTemps(t: Tree, f: Faults, p: Path)
    requires WellNamed(t) && p in ReapedIn(t, SweptDirs(t), f)
    ensures IsTemp(p.name) && t[p].File? && Swept(t, p.dir) && '/' !in p.dir
    ensures p.name != RECORD_NAME && forall db :: IsDatabase(db) ==> !IsFinal(db, p.name)
  {
    hide IsTemp, IsFinal, IsDatabase;
    TempIsNoDump(p.name);
    if p.dir != "" {
      var q :| q in t.Keys && q.dir == "" && t[q].Dir? && q.name == p.dir;
      assert q == RootEntry(p.dir);
    }
  }

  /** Every staging file lies where a sweep goes. */
  ghost predicate TempsInside(t: Tree) {
    forall p :: IsFile(t, p) && IsTemp(p.name) ==> Swept(t, p.dir)
  }

  /** Between making its directory and its result a worker's directory exists. */
  ghost predicate DirsExist(s: State) {
    |s.pcs| == |s.tasks| &&
    forall i :: 0 <= i < |s.tasks| && Stage(s.pcs[i]) in {1, 2, 3, 4, 5, 6, 7} ==> Swept(s.tree, s.tasks[i].job.server)
  }

  /** A worker's step keeps every directory and stages only inside its own. */
  lemma StepKeepsInside(toc: Toc, t: Tree, task: Task, pc: Pc)
    requires ValidJob(task.job) && TempsInside(t)
    requires Stage(pc) in {1, 2, 3, 4, 5, 6, 7} ==> Swept(t, task.job.server)
    ensures var w := StepOf(toc, task, World(t, pc));
            && (forall dir :: Swept(t, dir) ==> Swept(w.tree, dir))
            && TempsInside(w.tree)
            && (Stage(w.pc) in {1, 2, 3, 4, 5, 6, 7} ==> Swept(w.tree, task.job.server))
  {
    hide IsFinal, Doomed, AbortOr, Classify, Staged;
    var w := StepOf(toc, task, World(t, pc));
    KeepsDirs(toc, t, task, pc);
    MakesItsDir(toc, t, task, pc);
    forall p | IsFile(w.tree, p) && IsTemp(p.name)
      ensures Swept(w.tree, p.dir)
    {
      NewFilesAreItsOwn(toc, t, task, pc, p);
    }
  }

  lemma KeepsDirs(toc: Toc, t: Tree, task: Task, pc: Pc)
    requires ValidJob(task.job)
    ensures forall dir :: Swept(t, dir) ==> Swept(StepOf(toc, task, World(t, pc)).tree, dir)
  {
    hide IsFinal, Doomed, AbortOr, Classify, Staged, IsDatabase;
  }

  lemma MakesItsDir(toc: Toc, t: Tree, task: Task, pc: Pc)
    requires ValidJob(task.job) && (Stage(pc) in {1, 2, 3, 4, 5, 6, 7} ==> Swept(t, task.job.server))
    requires forall dir :: Swept(t, dir) ==> Swept(StepOf(toc, task, World(t, pc)).tree, dir)
    ensures var w := StepOf(toc, task, World(t, pc));
            Stage(w.pc) in {1, 2, 3, 4, 5, 6, 7} ==> Swept(w.tree, task.job.server)
  {
    hide IsFinal, Doomed, AbortOr, Classify, Staged, IsDatabase;
  }

  lemma NewFilesAreItsOwn(toc: Toc, t: Tree, task: Task, pc: Pc, p: Path)
    requires IsFile(StepOf(toc, task, World(t, pc)).tree, p)
    ensures IsFile(t, p) || (p.dir == task.job.server && Stage(pc) in {1, 2, 3, 4, 5, 6, 7})
  {
    hide IsFinal, Doomed, AbortOr, Classify, Staged;
  }

  ghost predicate Inside(s: State) {
    TempsInside(s.tree) && DirsExist(s)
  }

  lemma EventKeepsInside(toc: Toc, s: State, e: Event)
    requires WorkersSound(toc, s) && Inside(s) && Enabled(s, e)
    ensures Inside(Apply(toc, s, e))
  {
    hide StepOf, IsTemp, IsFinal, TaskSound, Stage;
    match e
    case Work(i) =>
      StepKeepsInside(toc, s.tree, s.tasks[i], s.pcs[i]);
    case Outside(tree) =>
      forall p | IsFile(tree, p) && IsTemp(p.name)
        ensures Swept(tree, p.dir)
      {
        assert OwnName(p.name);
        assert SameAt(s.tree, tree, p);
        assert SameAt(s.tree, tree, RootEntry(p.dir));
      }
    case Begin(tasks, reclaimed) => BeginKeepsInside(s, tasks, reclaimed, toc);
    case Stop =>
  }

  lemma BeginKeepsInside(s: State, tasks: seq<Task>, reclaimed: set<Path>, toc: Toc)
    requires Inside(s) && Enabled(s, Begin(tasks, reclaimed))
    ensures Inside(Apply(toc, s, Begin(tasks, reclaimed)))
  {
    hide IsFinal, AllDone;
    var t := s.tree - reclaimed;
    assert forall dir :: Swept(s.tree, dir) ==> Swept(t, dir);
    assert forall p :: IsFile(t, p) ==> IsFile(s.tree, p);
  }

  lemma {:induction false} ReachableInside(toc: Toc, t0: Tree, events: seq<Event>)
    requires TempsInside(t0) && Exec(toc, t0, events).Some?
    ensures Inside(Exec(toc, t0, events).value)
  {
    hide Enabled, Apply, WorkersSound, TempsInside;
    if events != [] {
      ReachableInside(toc, t0, events[..|events| - 1]);
      ReachableSound(toc, t0, events[..|events| - 1]);
      EventKeepsInside(toc, Exec(toc, t0, events[..|events| - 1]).value, events[|events| - 1]);
    }
  }

  /** What any sweep reclaims, whatever its faults, is what a cycle's start may reclaim. */
  lemma SweepIsReclaim(t: Tree, f: Faults)
    requires WellNamed(t)
    ensures forall p :: p in ReapedIn(t, SweptDirs(t), f) ==> IsFile(t, p) && IsTemp(p.name)
  {
    hide IsTemp;
  }

  /** Every cycle starts clean: wherever earlier cycles of a history crashed, a cycle whose
      sweep meets no fault starts its workers on a tree without a single staging file. */
  lemma CycleStartsClean(toc: Toc, t0: Tree, events: seq<Event>, tasks: seq<Task>)
    requires TempsInside(t0) && Exec(toc, t0, events).Some?
    requires var s := Exec(toc, t0, events).value;
             Enabled(s, Begin(tasks, ReapedIn(s.tree, SweptDirs(s.tree), Faults({}, {}))))
    ensures var s := Exec(toc, t0, events).value;
            var next := Apply(toc, s, Begin(tasks, ReapedIn(s.tree, SweptDirs(s.tree), Faults({}, {}))));
            forall p :: IsFile(next.tree, p) ==> !IsTemp(p.name)
  {
    hide IsTemp;
    ReachableInside(toc, t0, events);
    var t := Exec(toc, t0, events).value.tree;
    hide Exec, Enabled;
    forall p | IsFile(t, p) && IsTemp(p.name)
      ensures p in ReapedIn(t, SweptDirs(t), Faults({}, {}))
    {
      assert p.dir != "" ==> RootEntry(p.dir).name in SweptDirs(t);
    }
  }
}
