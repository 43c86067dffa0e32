/** The dump directory as a map from paths to nodes. */
module Disk {
  import opened Text
  import opened DumpName

  newtype byte = x: int | 0 <= x < 256

  type Content = seq<byte>

  datatype Node = File(content: Content) | Dir

  /** An entry by its directory, relative to the root of the dump directory, and its name. */
  datatype Path = Path(dir: string, name: string)

  type Tree = map<Path, Node>

  /** Whether the table of contents of an archive is readable. */
  type Toc = Content -> bool

  predicate IsFile(t: Tree, p: Path) {
    p in t && t[p].File?
  }

  /** Two trees agree about a path. */
  ghost predicate SameAt(t: Tree, u: Tree, p: Path) {
    (p in t <==> p in u) && (p in t ==> t[p] == u[p])
  }

  /** Names are single components. */
  ghost predicate WellNamed(t: Tree) {
    forall p :: p in t ==> p.name != "" && '/' !in p.name
  }

  /** The entry of a first-level directory in the root. */
  function RootEntry(dir: string): Path {
    Path("", dir)
  }

  /** The retained copies of db in a directory: regular files only. */
  ghost function Copies(t: Tree, dir: string, db: string): set<string> {
    set p | p in t && p.dir == dir && t[p].File? && IsCopy(db, p.name) :: p.name
  }

  lemma CopiesMembers(t: Tree, dir: string, db: string, name: string)
    ensures name in Copies(t, dir, db) <==> IsFile(t, Path(dir, name)) && IsCopy(db, name)
  {
    if IsFile(t, Path(dir, name)) && IsCopy(db, name) {
      assert Path(dir, name).name in Copies(t, dir, db);
    }
  }

  // Sorted names.

  ghost predicate Ascending(names: seq<string>) {
    forall i, j | 0 <= i < j < |names| :: Less(names[i], names[j])
  }

  ghost predicate IsLeast(m: string, s: set<string>) {
    m in s && forall n :: n in s && n != m ==> Less(m, n)
  }

  lemma {:induction false} LeastExists(s: set<string>)
    requires s != {}
    ensures exists m :: IsLeast(m, s)
  {
    var x :| x in s;
    if s == {x} {
      assert IsLeast(x, s);
    } else {
      LeastExists(s - {x});
      var m :| IsLeast(m, s - {x});
      LessTotal(x, m);
      if Less(x, m) {
        forall n | n in s && n != x
          ensures Less(x, n)
        {
          if n != m {
            LessTransitive(x, m, n);
          }
        }
        assert IsLeast(x, s);
      } else {
        assert IsLeast(m, s);
      }
    }
  }

  /** The names of a set in ascending order. */
  ghost function InOrder(s: set<string>): (names: seq<string>)
    ensures Ascending(names) && |names| == |s|
    ensures forall n :: n in names <==> n in s
  {
    if s == {} then [] else
    LeastExists(s);
    var m :| IsLeast(m, s);
    [m] + InOrder(s - {m})
  }

  /** The order is unique. */
  lemma {:induction false} InOrderUnique(names: seq<string>, s: set<string>)
    requires Ascending(names) && forall n :: n in names <==> n in s
    ensures names == InOrder(s)
    decreases |s|
  {
    hide InOrder, Less, Ascending;
    EmptyOrder(names, s);
    if s != {} {
      var other := InOrder(s);
      assert other[0] in other && names[0] in names;
      FirstIsLeast(names, s);
      FirstIsLeast(other, s);
      LessTotal(names[0], other[0]);
      var m := names[0];
      TailOf(names, s);
      TailOf(other, s);
      InOrderUnique(names[1..], s - {m});
      InOrderUnique(other[1..], s - {m});
      assert names == [m] + names[1..] && other == [m] + other[1..];
    }
  }

  lemma EmptyOrder(names: seq<string>, s: set<string>)
    requires forall n :: n in names <==> n in s
    ensures names == [] <==> s == {}
    ensures InOrder({}) == []
  {
    assert names != [] ==> names[0] in s;
  }

  lemma FirstIsLeast(names: seq<string>, s: set<string>)
    requires Ascending(names) && names != [] && forall n :: n in names <==> n in s
    ensures IsLeast(names[0], s)
  {
  }

  lemma TailOf(names: seq<string>, s: set<string>)
    requires Ascending(names) && names != [] && forall n :: n in names <==> n in s
    ensures Ascending(names[1..]) && forall n :: n in names[1..] <==> n in s - {names[0]}
  {
    LessTotal(names[0], names[0]);
    forall n | n in s - {names[0]}
      ensures n in names[1..]
    {
      var k :| 0 <= k < |names| && names[k] == n;
      assert names[1..][k - 1] == n;
    }
  }
}
