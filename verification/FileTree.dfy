/** A small directory tree: what the retention code does to the artifact volume. Paths are component
    lists below the storage root, which is the empty path and always there. */
module FileTree {
  import opened Bytes

  type Path = seq<string>

  datatype Tree = Tree(dirs: set<Path>, files: map<Path, Octets>)

  function Parent(p: Path): Path
    requires p != []
  {
    p[..|p| - 1]
  }

  function Name(p: Path): string
    requires p != []
  {
    p[|p| - 1]
  }

  /** p is d or lies below it. */
  predicate Under(d: Path, p: Path) {
    |d| <= |p| && p[..|d|] == d
  }

  predicate Exists(t: Tree, p: Path) { p in t.dirs || p in t.files }

  /** Nothing is at d or below it. */
  ghost predicate Absent(t: Tree, d: Path) {
    forall p | p in t.dirs || p in t.files :: !Under(d, p)
  }

  /** Everything has its parent directory, and nothing is both a file and a directory. */
  predicate WellFormed(t: Tree) {
    && [] in t.dirs
    && (forall p | p in t.dirs && p != [] :: Parent(p) in t.dirs)
    && (forall p | p in t.files :: p != [] && Parent(p) in t.dirs && p !in t.dirs)
  }

  function MakeDir(t: Tree, p: Path): Tree { t.(dirs := t.dirs + {p}) }

  function WriteFile(t: Tree, p: Path, bytes: Octets): Tree { t.(files := t.files[p := bytes]) }

  /** rmtree; it also reads as the tree outside d. */
  function RemoveTree(t: Tree, d: Path): Tree {
    Tree(set p | p in t.dirs && !Under(d, p), map p | p in t.files && !Under(d, p) :: t.files[p])
  }

  function MovedFiles(t: Tree, from: Path, to: Path): (r: set<Path>)
    ensures forall q | q in r :: Under(to, q) && from + q[|to|..] in t.files
    ensures forall p | p in t.files && Under(from, p) :: to + p[|from|..] in r
  {
    var r := set p | p in t.files && Under(from, p) :: to + p[|from|..];
    assert forall q | q in r :: Under(to, q) && from + q[|to|..] in t.files by {
      forall q | q in r ensures Under(to, q) && from + q[|to|..] in t.files {
        var p :| p in t.files && Under(from, p) && q == to + p[|from|..];
        assert q[|to|..] == p[|from|..] && from + p[|from|..] == p;
      }
    }
    r
  }

  /** rename of a directory onto a path where nothing is. */
  function Rename(t: Tree, from: Path, to: Path): Tree {
    var rest := RemoveTree(t, from);
    var moved := MovedFiles(t, from, to);
    Tree(rest.dirs + (set p | p in t.dirs && Under(from, p) :: to + p[|from|..]),
         rest.files + map q | q in moved :: t.files[from + q[|to|..]])
  }

  /** d holds exactly one file per name, with that name's content, and nothing else. */
  ghost predicate Holds(t: Tree, d: Path, names: seq<string>, contents: seq<Octets>) {
    && |names| == |contents| && d in t.dirs
    && (forall p | p in t.dirs && Under(d, p) :: p == d)
    && (forall p | p in t.files && Under(d, p) :: exists i | 0 <= i < |names| :: p == d + [names[i]])
    && (forall i | 0 <= i < |names| :: d + [names[i]] in t.files && t.files[d + [names[i]]] == contents[i])
  }

  ghost predicate Distinct(names: seq<string>) {
    forall i, j | 0 <= i < j < |names| :: names[i] != names[j]
  }

  /** The two trees agree on everything at or below d. */
  ghost predicate SameUnder(t: Tree, u: Tree, d: Path) {
    && (forall p | Under(d, p) :: p in t.dirs <==> p in u.dirs)
    && (forall p | Under(d, p) :: p in t.files <==> p in u.files)
    && (forall p | Under(d, p) && p in t.files && p in u.files :: t.files[p] == u.files[p])
  }

  lemma RemoveAbsent(t: Tree, d: Path)
    requires Absent(t, d)
    ensures RemoveTree(t, d) == t
  {
    assert RemoveTree(t, d).dirs == t.dirs;
    assert RemoveTree(t, d).files == t.files;
  }

  /** Nothing can live under a path that is not a directory. */
  lemma {:induction false} NothingUnder(t: Tree, d: Path, p: Path)
    requires WellFormed(t) && Under(d, p) && d != p && (p in t.dirs || p in t.files)
    ensures d in t.dirs
    decreases |p|
  {
    if Parent(p) != d { NothingUnder(t, d, Parent(p)); }
  }

  lemma MovedBack(from: Path, to: Path, p: Path)
    requires Under(from, p)
    ensures Under(to, to + p[|from|..]) && (to + p[|from|..])[|to|..] == p[|from|..]
    ensures from + p[|from|..] == p
  { }

  lemma RenameLeavesRest(t: Tree, from: Path, to: Path)
    requires |from| == |to| && from != to
    requires Absent(t, to)
    ensures RemoveTree(Rename(t, from, to), to) == RemoveTree(t, from)
  {
    var u := Rename(t, from, to);
    var a, b := RemoveTree(u, to), RemoveTree(t, from);
    forall p ensures p in a.dirs <==> p in b.dirs { }
    assert a.dirs == b.dirs;
    forall p ensures p in a.files.Keys <==> p in b.files.Keys { }
    assert a.files.Keys == b.files.Keys;
    assert a.files == b.files;
  }

  lemma RenameMovesFile(t: Tree, from: Path, to: Path, name: string)
    requires |from| == |to| && from + [name] in t.files
    ensures var u := Rename(t, from, to);
            to + [name] in u.files && u.files[to + [name]] == t.files[from + [name]]
  {
    var q := from + [name];
    MovedBack(from, to, q);
    assert q[|from|..] == [name];
    assert to + [name] in MovedFiles(t, from, to);
  }

  /** Moving a directory that holds these files onto a free sibling makes that sibling hold them, and
      leaves everything else in place. */
  lemma RenameHolds(t: Tree, from: Path, to: Path, names: seq<string>, contents: seq<Octets>)
    requires |from| == |to| && from != to && Holds(t, from, names, contents)
    requires Absent(t, to)
    ensures Holds(Rename(t, from, to), to, names, contents)
    ensures RemoveTree(Rename(t, from, to), to) == RemoveTree(t, from)
  {
    var u := Rename(t, from, to);
    RenameLeavesRest(t, from, to);
    assert to in u.dirs by {
      assert from[|from|..] == [] && to + [] == to;
    }
    forall p | p in u.dirs && Under(to, p) ensures p == to {
      var q :| q in t.dirs && Under(from, q) && p == to + q[|from|..];
      assert q == from;
    }
    forall p | p in u.files && Under(to, p) ensures exists i | 0 <= i < |names| :: p == to + [names[i]] {
      assert p in MovedFiles(t, from, to);
      var q := from + p[|to|..];
      var i :| 0 <= i < |names| && q == from + [names[i]];
      assert p[|to|..] == q[|from|..] == [names[i]];
      assert p == to + [names[i]];
    }
    forall i | 0 <= i < |names| ensures to + [names[i]] in u.files && u.files[to + [names[i]]] == contents[i] {
      RenameMovesFile(t, from, to, names[i]);
    }
  }
}
