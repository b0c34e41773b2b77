/**
 * An abstract filesystem: the state the organiser and the flattener work on.
 * A path is the list of its components from the filesystem root; a tree
 * maps each regular file's path to the attributes the classifier reads and
 * lists the directories.  The operating-system calls of `organize_files`
 * and `move_files_to_parent` (os.path.exists, os.walk, os.makedirs, shutil.move, os.rmdir) are the
 * methods of FileSystem, each specified by a function on trees.
 */
module FileTree {
  import opened Wrappers
  import opened Classifier

  type Path = seq<string>

  datatype Tree = Tree(files: map<Path, FileInfo>, dirs: set<Path>)

  function Parent(p: Path): Path
    requires p != []
  {
    p[..|p| - 1]
  }

  /** os.path.basename */
  function Last(p: Path): string
    requires p != []
  {
    p[|p| - 1]
  }

  /** `p` lies somewhere strictly below directory `d`. */
  predicate Under(d: Path, p: Path) {
    |d| < |p| && p[..|d|] == d
  }

  /** os.path.exists */
  predicate Exists(t: Tree, p: Path) {
    p in t.files || p in t.dirs
  }

  /**
   * A well-formed tree: the filesystem root is a directory, every file and
   * directory sits in a directory, and no path is both a file and a directory.
   */
  predicate WellFormed(t: Tree) {
    && [] in t.dirs
    && (forall p :: p in t.files ==> p != [] && Parent(p) in t.dirs && p !in t.dirs)
    && (forall d :: d in t.dirs && d != [] ==> Parent(d) in t.dirs)
  }

  lemma ChildIsUnder(p: Path)
    requires p != []
    ensures Under(Parent(p), p)
  {
  }

  /** Every directory above an existing path exists as a directory. */
  lemma {:induction false} AncestorIsDir(t: Tree, a: Path, p: Path)
    requires WellFormed(t) && Exists(t, p) && Under(a, p)
    ensures a in t.dirs
    decreases |p|
  {
    var q := Parent(p);
    assert q in t.dirs;
    if q != a {
      assert q[..|a|] == p[..|a|];
      AncestorIsDir(t, a, q);
    }
  }

  /** Regular files directly inside `d` (os.listdir filtered by os.path.isfile). */
  function FilesIn(t: Tree, d: Path): set<Path> {
    set p | p in t.files && p != [] && Parent(p) == d
  }

  /** Regular files anywhere below `d` (the files os.walk reports). */
  function FilesUnder(t: Tree, d: Path): set<Path> {
    set p | p in t.files && Under(d, p)
  }

  /** Directories directly inside `d`. */
  function ChildDirs(t: Tree, d: Path): set<Path> {
    set e | e in t.dirs && e != [] && Parent(e) == d
  }

  /** `root` and every directory below it: the directories os.walk visits. */
  function DirsWithin(t: Tree, root: Path): set<Path> {
    set d | d in t.dirs && (d == root || Under(root, d))
  }

  predicate IsEmptyDir(t: Tree, d: Path) {
    && (forall p :: p in t.files ==> p == [] || Parent(p) != d)
    && (forall e :: e in t.dirs ==> e == [] || Parent(e) != d)
  }

  // ---------------------------------------------------------------------
  // Primitive operations on trees
  // ---------------------------------------------------------------------

  /** When os.rename(src, dst) succeeds: a permitted regular file, a target that is no directory, in an existing directory. */
  predicate CanRename(t: Tree, locked: set<Path>, src: Path, dst: Path) {
    src in t.files && src !in locked && dst != [] && dst !in t.dirs && Parent(dst) in t.dirs
  }

  /** The file at `src` now lives at `dst`, replacing any file there. */
  function Renamed(t: Tree, src: Path, dst: Path): (r: Tree)
    requires src in t.files
    ensures dst in r.files && r.files[dst] == t.files[src] && r.dirs == t.dirs
    ensures forall p :: p != src && p != dst ==> (p in r.files <==> p in t.files)
    ensures forall p :: p in r.files && p != dst ==> p in t.files && r.files[p] == t.files[p]
    ensures src != dst ==> src !in r.files
  {
    Tree((t.files - {src})[dst := t.files[src]], t.dirs)
  }

  /** os.rename: the renamed tree, or the tree unchanged when the OS refuses. */
  function TryRename(t: Tree, locked: set<Path>, src: Path, dst: Path): Tree {
    if CanRename(t, locked, src, dst) then Renamed(t, src, dst) else t
  }

  /** shutil.move(src, dir) into an existing directory: refused when dir/basename(src) exists. */
  function MoveIntoDir(t: Tree, locked: set<Path>, src: Path, dir: Path): Tree
    requires src != []
  {
    var dst := dir + [Last(src)];
    if Exists(t, dst) then t else TryRename(t, locked, src, dst)
  }

  /** When os.rmdir(d) succeeds: an existing, permitted, empty directory other than the filesystem root. */
  predicate CanRemoveDir(t: Tree, locked: set<Path>, d: Path) {
    d in t.dirs && d != [] && d !in locked && IsEmptyDir(t, d)
  }

  /** os.rmdir: the tree without `d`, or unchanged when the OS refuses. */
  function TryRemoveDir(t: Tree, locked: set<Path>, d: Path): Tree {
    if CanRemoveDir(t, locked, d) then t.(dirs := t.dirs - {d}) else t
  }

  lemma RenamedWellFormed(t: Tree, locked: set<Path>, src: Path, dst: Path)
    requires WellFormed(t) && CanRename(t, locked, src, dst)
    ensures WellFormed(Renamed(t, src, dst))
  {
  }

  lemma RemoveDirWellFormed(t: Tree, locked: set<Path>, d: Path)
    requires WellFormed(t)
    ensures WellFormed(TryRemoveDir(t, locked, d))
  {
  }

  /** A successful rename keeps the number of files when it overwrites nothing and loses one when it does. */
  lemma RenamedCount(t: Tree, src: Path, dst: Path)
    requires src in t.files
    ensures |Renamed(t, src, dst).files| == if dst in t.files && dst != src then |t.files| - 1 else |t.files|
  {
    var m := t.files;
    var m1 := m - {src};
    assert m1.Keys == m.Keys - {src};
    assert |m.Keys| == |m| && |m1.Keys| == |m1|;
    var m2 := m1[dst := m[src]];
    assert m2.Keys == m1.Keys + {dst};
    assert |m2.Keys| == |m2|;
  }

  // ---------------------------------------------------------------------
  // Listings
  // ---------------------------------------------------------------------

  /** `s` lists the set `S`, each element once. */
  ghost predicate Enumerates(s: seq<Path>, S: set<Path>) {
    && (forall i, j :: 0 <= i < j < |s| ==> s[i] != s[j])
    && (forall x :: x in s <==> x in S)
  }

  /**
   * A listing of a set of paths in the order the operating system reports
   * them (any order): the `items.append` loops of `organize_files`.
   */
  method Enumerate(S: set<Path>) returns (s: seq<Path>)
    ensures Enumerates(s, S)
  {
    s := [];
    var rest := S;
    while rest != {}
      invariant forall x :: x in S <==> x in rest || x in s
      invariant forall x :: x in rest ==> x !in s
      invariant forall i, j :: 0 <= i < j < |s| ==> s[i] != s[j]
      decreases |rest|
    {
      var x :| x in rest;
      s := s + [x];
      rest := rest - {x};
    }
  }

  /** One step of os.walk: a directory with its subdirectories and files, as paths. */
  datatype Visit = Visit(dir: Path, subdirs: seq<Path>, files: seq<Path>)

  function VisitedDirs(walk: seq<Visit>): (ds: seq<Path>)
    ensures |ds| == |walk|
    ensures forall i :: 0 <= i < |walk| ==> ds[i] == walk[i].dir
  {
    if walk == [] then [] else VisitedDirs(walk[..|walk| - 1]) + [walk[|walk| - 1].dir]
  }

  /**
   * os.walk(root, topdown=False) over tree `t`: every directory within root
   * visited once, with the listing of its files and subdirectories, and every
   * directory visited after all the directories below it.
   */
  ghost predicate IsBottomUpWalk(walk: seq<Visit>, t: Tree, root: Path) {
    && Enumerates(VisitedDirs(walk), DirsWithin(t, root))
    && (forall i :: 0 <= i < |walk| ==>
          Enumerates(walk[i].files, FilesIn(t, walk[i].dir))
          && Enumerates(walk[i].subdirs, ChildDirs(t, walk[i].dir)))
    && (forall i, j :: 0 <= i < |walk| && 0 <= j < |walk| && Under(walk[j].dir, walk[i].dir) ==> i < j)
  }

  /** Some longest path: a directory no other directory of the set lies below. */
  lemma {:induction false} LongestExists(s: set<Path>)
    requires s != {}
    ensures exists p :: p in s && forall q :: q in s ==> |q| <= |p|
    decreases |s|
  {
    var x :| x in s;
    var rest := s - {x};
    if rest == {} {
      assert s == {x};
    } else {
      LongestExists(rest);
      var y :| y in rest && forall q :: q in rest ==> |q| <= |y|;
      if |x| <= |y| {
        assert forall q :: q in s ==> |q| <= |y|;
      } else {
        assert forall q :: q in s ==> |q| <= |x|;
      }
    }
  }

  /** Lists a set of paths longest first: the order in which a bottom-up walk may visit directories. */
  method DeepestFirst(S: set<Path>) returns (order: seq<Path>)
    ensures Enumerates(order, S)
    ensures forall i, j :: 0 <= i < j < |order| ==> |order[j]| <= |order[i]|
  {
    order := [];
    var rest := S;
    while rest != {}
      invariant forall x :: x in S <==> x in rest || x in order
      invariant forall x :: x in rest ==> x !in order
      invariant forall i, j :: 0 <= i < j < |order| ==> order[i] != order[j]
      invariant forall i, j :: 0 <= i < j < |order| ==> |order[j]| <= |order[i]|
      invariant forall i, x :: 0 <= i < |order| && x in rest ==> |x| <= |order[i]|
      decreases |rest|
    {
      LongestExists(rest);
      var d :| d in rest && forall q :: q in rest ==> |q| <= |d|;
      order := order + [d];
      rest := rest - {d};
    }
  }

  /** Visiting longer paths first visits every directory after the directories below it. */
  lemma LongestFirstIsBottomUp(walk: seq<Visit>)
    requires forall i, j :: 0 <= i < j < |walk| ==> |walk[j].dir| <= |walk[i].dir|
    ensures forall i, j :: 0 <= i < |walk| && 0 <= j < |walk| && Under(walk[j].dir, walk[i].dir) ==> i < j
  {
  }

  /**
   * The operating system's view of the filesystem. `locked` holds the paths
   * whose move or removal it refuses (permissions, a file in use); the
   * methods are the calls the organiser makes.
   */
  class FileSystem {
    var files: map<Path, FileInfo>
    var dirs: set<Path>
    const locked: set<Path>

    function View(): Tree
      reads this
    {
      Tree(files, dirs)
    }

    predicate Valid()
      reads this
    {
      WellFormed(View())
    }

    constructor (t: Tree, locked: set<Path>)
      requires WellFormed(t)
      ensures Valid() && View() == t && this.locked == locked
    {
      files := t.files;
      dirs := t.dirs;
      this.locked := locked;
    }

    /** os.makedirs for a missing directory whose parent exists. */
    method MakeDirs(p: Path)
      requires Valid() && p != [] && Parent(p) in dirs && !Exists(View(), p)
      modifies this
      ensures Valid()
      ensures files == old(files) && dirs == old(dirs) + {p}
    {
      dirs := dirs + {p};
    }

    /** shutil.move(src, dst) to an explicit file path: os.rename, overwriting a file at dst. */
    method Move(src: Path, dst: Path) returns (ok: bool)
      requires Valid()
      modifies this
      ensures Valid()
      ensures ok == CanRename(old(View()), locked, src, dst)
      ensures View() == TryRename(old(View()), locked, src, dst)
    {
      ok := src in files && src !in locked && dst != [] && dst !in dirs && Parent(dst) in dirs;
      if ok {
        RenamedWellFormed(View(), locked, src, dst);
        files := (files - {src})[dst := files[src]];
      }
    }

    /** shutil.move(src, dir) into an existing directory, refused when the name is taken there. */
    method MoveInto(src: Path, dir: Path) returns (ok: bool)
      requires Valid() && src != []
      modifies this
      ensures Valid()
      ensures ok <==> !Exists(old(View()), dir + [Last(src)]) && CanRename(old(View()), locked, src, dir + [Last(src)])
      ensures View() == MoveIntoDir(old(View()), locked, src, dir)
    {
      var dst := dir + [Last(src)];
      if dst in files || dst in dirs {
        ok := false;
      } else {
        ok := Move(src, dst);
      }
    }

    /** os.rmdir, refused unless the directory is empty. */
    method RemoveDir(d: Path) returns (ok: bool)
      requires Valid()
      modifies this
      ensures Valid()
      ensures ok == CanRemoveDir(old(View()), locked, d)
      ensures View() == TryRemoveDir(old(View()), locked, d)
    {
      ok := CanRemoveDir(View(), locked, d);
      if ok {
        RemoveDirWellFormed(View(), locked, d);
        dirs := dirs - {d};
      }
    }

    /**
     * os.walk(root, topdown=False): lists the directories within root,
     * every directory after those below it, each with its files and
     * subdirectories.
     */
    method WalkBottomUp(root: Path) returns (walk: seq<Visit>)
      ensures IsBottomUpWalk(walk, View(), root)
    {
      var order := DeepestFirst(DirsWithin(View(), root));
      walk := [];
      var i := 0;
      while i < |order|
        invariant 0 <= i <= |order|
        invariant VisitedDirs(walk) == order[..i]
        invariant forall k :: 0 <= k < |walk| ==>
          Enumerates(walk[k].files, FilesIn(View(), walk[k].dir))
          && Enumerates(walk[k].subdirs, ChildDirs(View(), walk[k].dir))
      {
        var fs := Enumerate(FilesIn(View(), order[i]));
        var ds := Enumerate(ChildDirs(View(), order[i]));
        walk := walk + [Visit(order[i], ds, fs)];
        assert VisitedDirs(walk) == VisitedDirs(walk[..|walk| - 1]) + [order[i]];
        i := i + 1;
      }
      assert order[..i] == order;
      LongestFirstIsBottomUp(walk);
    }
  }
}
