/**
 * move_files_to_parent: walk the tree below a folder bottom-up, move every
 * file found in a subdirectory up into the folder itself, keeping its
 * basename, and remove each subdirectory the walk passes that is empty.
 * Without recursion it only tries to move the folder's own files onto
 * themselves, which shutil.move refuses, so nothing changes.
 */
module Flattener {
  import opened Wrappers
  import opened Classifier
  import opened FileTree

  /** The error os.listdir raises when the folder is missing or is a regular file. */
  datatype FlattenError = NotFound | NotADirectory

  /** The file loop of one visited directory: files outside root itself are moved into root. */
  function MoveFilesUp(t: Tree, locked: set<Path>, root: Path, dir: Path, files: seq<Path>): Tree
    requires forall k :: 0 <= k < |files| ==> files[k] != []
    decreases |files|
  {
    if files == [] then t
    else
      var t1 := MoveFilesUp(t, locked, root, dir, files[..|files| - 1]);
      if dir != root then MoveIntoDir(t1, locked, files[|files| - 1], root) else t1
  }

  /** The os.rmdir loop over the subdirectories of one visited directory; a refusal is ignored. */
  function RemoveSubdirs(t: Tree, locked: set<Path>, subdirs: seq<Path>): Tree
    decreases |subdirs|
  {
    if subdirs == [] then t
    else TryRemoveDir(RemoveSubdirs(t, locked, subdirs[..|subdirs| - 1]), locked, subdirs[|subdirs| - 1])
  }

  predicate FilesNonEmpty(walk: seq<Visit>) {
    forall i, k :: 0 <= i < |walk| && 0 <= k < |walk[i].files| ==> walk[i].files[k] != []
  }

  /** What the flattener does with one directory of the walk. */
  function VisitStep(t: Tree, locked: set<Path>, root: Path, v: Visit): Tree
    requires forall k :: 0 <= k < |v.files| ==> v.files[k] != []
  {
    RemoveSubdirs(MoveFilesUp(t, locked, root, v.dir, v.files), locked, v.subdirs)
  }

  /** The whole bottom-up pass. */
  function FlattenRun(t: Tree, locked: set<Path>, root: Path, walk: seq<Visit>): Tree
    requires FilesNonEmpty(walk)
    decreases |walk|
  {
    if walk == [] then t
    else VisitStep(FlattenRun(t, locked, root, walk[..|walk| - 1]), locked, root, walk[|walk| - 1])
  }

  /** A walk lists only real file paths. */
  lemma WalkFilesNonEmpty(walk: seq<Visit>, t: Tree, root: Path)
    requires IsBottomUpWalk(walk, t, root)
    ensures FilesNonEmpty(walk)
  {
    forall i, k | 0 <= i < |walk| && 0 <= k < |walk[i].files|
      ensures walk[i].files[k] != []
    {
      assert walk[i].files[k] in walk[i].files;
      assert walk[i].files[k] in FilesIn(t, walk[i].dir);
    }
  }

  /**
   * move_files_to_parent.  With recursion, a bottom-up walk of the tree
   * followed by the moves and removals it calls for; without, the folder
   * must be a directory and nothing changes.
   */
  method MoveFilesToParent(fs: FileSystem, root: Path, recursive: bool)
      returns (err: Option<FlattenError>, walk: seq<Visit>)
    requires fs.Valid()
    modifies fs
    ensures fs.Valid()
    ensures recursive ==> err == None && IsBottomUpWalk(walk, old(fs.View()), root)
    ensures recursive ==> FilesNonEmpty(walk) && fs.View() == FlattenRun(old(fs.View()), fs.locked, root, walk)
    ensures !recursive ==> fs.View() == old(fs.View())
    ensures !recursive ==> (err == None <==> root in old(fs.dirs))
    ensures !recursive && root !in old(fs.dirs) ==> err == Some(if root in old(fs.files) then NotADirectory else NotFound)
  {
    var t0 := fs.View();
    walk := [];
    err := None;
    if recursive {
      walk := fs.WalkBottomUp(root);
      WalkFilesNonEmpty(walk, t0, root);
      var i := 0;
      while i < |walk|
        invariant 0 <= i <= |walk|
        invariant fs.Valid()
        invariant fs.View() == FlattenRun(t0, fs.locked, root, walk[..i])
      {
        assert walk[..i + 1][..i] == walk[..i];
        VisitDirectory(fs, root, walk[i]);
        i := i + 1;
      }
      assert walk[..i] == walk;
    } else {
      if root !in fs.dirs {
        err := Some(if root in fs.files then NotADirectory else NotFound);
        return;
      }
      var items := Enumerate(FilesIn(fs.View(), root));
      var i := 0;
      while i < |items|
        invariant 0 <= i <= |items|
        invariant fs.Valid() && fs.View() == t0
      {
        assert items[i] in items;
        assert items[i] in FilesIn(t0, root);
        assert root + [Last(items[i])] == items[i];
        var _ := fs.MoveInto(items[i], root);
        i := i + 1;
      }
    }
  }

  /** The body of the walk loop for one directory: its file loop, then its rmdir loop. */
  method VisitDirectory(fs: FileSystem, root: Path, v: Visit)
    requires fs.Valid()
    requires forall k :: 0 <= k < |v.files| ==> v.files[k] != []
    modifies fs
    ensures fs.Valid()
    ensures fs.View() == VisitStep(old(fs.View()), fs.locked, root, v)
  {
    var t0 := fs.View();
    var j := 0;
    while j < |v.files|
      invariant 0 <= j <= |v.files|
      invariant fs.Valid()
      invariant fs.View() == MoveFilesUp(t0, fs.locked, root, v.dir, v.files[..j])
    {
      assert v.files[..j + 1][..j] == v.files[..j];
      if v.dir != root {
        var _ := fs.MoveInto(v.files[j], root);
      }
      j := j + 1;
    }
    assert v.files[..j] == v.files;
    var t1 := fs.View();
    j := 0;
    while j < |v.subdirs|
      invariant 0 <= j <= |v.subdirs|
      invariant fs.Valid()
      invariant fs.View() == RemoveSubdirs(t1, fs.locked, v.subdirs[..j])
    {
      assert v.subdirs[..j + 1][..j] == v.subdirs[..j];
      var _ := fs.RemoveDir(v.subdirs[j]);
      j := j + 1;
    }
    assert v.subdirs[..j] == v.subdirs;
  }

  // ---------------------------------------------------------------------
  // No file is lost: every pass only renames files to free names
  // ---------------------------------------------------------------------

  /**
   * Where the file at `p` in `t` is found in `t2`: its own path when that
   * still holds it, otherwise root/<basename>.
   */
  ghost function Dest(t: Tree, t2: Tree, root: Path, p: Path): Path
    requires p in t.files
  {
    if p == [] || (p in t2.files && t2.files[p] == t.files[p]) then p else root + [Last(p)]
  }

  /**
   * `t2` keeps every file of `t`: each file is found at its destination with
   * the same attributes, distinct files have distinct destinations, the
   * number of files is the same (so every file of `t2` is the destination of
   * exactly one file of `t`), files directly in root are untouched, a file
   * of `t2` at a path not directly in root was there already, and no
   * directory is created.
   */
  ghost predicate Kept(t: Tree, t2: Tree, root: Path) {
    && |t2.files| == |t.files|
    && t2.dirs <= t.dirs
    && (forall p :: p in t.files && p != [] && Parent(p) == root ==> p in t2.files && t2.files[p] == t.files[p])
    && (forall p :: p in t.files ==> Dest(t, t2, root, p) in t2.files && t2.files[Dest(t, t2, root, p)] == t.files[p])
    && (forall p, q :: p in t.files && q in t.files && p != q ==> Dest(t, t2, root, p) != Dest(t, t2, root, q))
    && (forall q :: q in t2.files ==> (q in t.files && t2.files[q] == t.files[q]) || (q != [] && Parent(q) == root))
  }

  /** Following a file through two passes gives where the composed pass puts it. */
  lemma DestCompose(a: Tree, b: Tree, c: Tree, root: Path, p: Path)
    requires Kept(a, b, root) && Kept(b, c, root) && p in a.files
    ensures Dest(b, c, root, Dest(a, b, root, p)) == Dest(a, c, root, p)
  {
    if !(p == [] || (p in b.files && b.files[p] == a.files[p])) {
      var r := root + [Last(p)];
      assert Parent(r) == root;
      assert p !in c.files;
    }
  }

  lemma KeptTransitive(a: Tree, b: Tree, c: Tree, root: Path)
    requires Kept(a, b, root) && Kept(b, c, root)
    ensures Kept(a, c, root)
  {
    forall p | p in a.files
      ensures Dest(a, c, root, p) in c.files && c.files[Dest(a, c, root, p)] == a.files[p]
    {
      DestCompose(a, b, c, root, p);
    }
    forall p, q | p in a.files && q in a.files && p != q
      ensures Dest(a, c, root, p) != Dest(a, c, root, q)
    {
      DestCompose(a, b, c, root, p);
      DestCompose(a, b, c, root, q);
    }
  }

  /** The destinations of a set of files are as many as the files, since no two share one. */
  lemma {:induction false} DestImageSize(t: Tree, t2: Tree, root: Path, S: set<Path>)
    requires S <= t.files.Keys
    requires forall p, q :: p in t.files && q in t.files && p != q ==> Dest(t, t2, root, p) != Dest(t, t2, root, q)
    ensures |set p | p in S :: Dest(t, t2, root, p)| == |S|
    decreases |S|
  {
    if S != {} {
      var x :| x in S;
      var S' := S - {x};
      DestImageSize(t, t2, root, S');
      var img := set p | p in S :: Dest(t, t2, root, p);
      var img' := set p | p in S' :: Dest(t, t2, root, p);
      assert img == img' + {Dest(t, t2, root, x)};
      assert Dest(t, t2, root, x) !in img';
    }
  }

  /** Nothing is invented: every file of `t2` is where exactly one file of `t` went. */
  lemma KeptIsBijection(t: Tree, t2: Tree, root: Path)
    requires Kept(t, t2, root)
    ensures forall q :: q in t2.files ==> exists p :: p in t.files && Dest(t, t2, root, p) == q && t2.files[q] == t.files[p]
  {
    var img := set p | p in t.files :: Dest(t, t2, root, p);
    DestImageSize(t, t2, root, t.files.Keys);
    assert img <= t2.files.Keys;
    assert |t.files.Keys| == |t.files| && |t2.files.Keys| == |t2.files|;
    var rest := t2.files.Keys - img;
    assert t2.files.Keys == img + rest;
    assert |t2.files.Keys| == |img| + |rest|;
    assert rest == {};
    forall q | q in t2.files
      ensures exists p :: p in t.files && Dest(t, t2, root, p) == q && t2.files[q] == t.files[p]
    {
      assert q in img;
      var p :| p in t.files && Dest(t, t2, root, p) == q;
    }
  }

  lemma PathSplits(p: Path)
    requires p != []
    ensures p == Parent(p) + [Last(p)]
  {
  }

  /** shutil.move(src, root) never overwrites, so it keeps every file. */
  lemma MoveIntoDirKept(s: Tree, locked: set<Path>, src: Path, root: Path)
    requires src != []
    ensures Kept(s, MoveIntoDir(s, locked, src, root), root)
  {
    var dst := root + [Last(src)];
    var s2 := MoveIntoDir(s, locked, src, root);
    if !Exists(s, dst) && CanRename(s, locked, src, dst) {
      assert s2 == Renamed(s, src, dst);
      RenamedCount(s, src, dst);
      assert Parent(dst) == root && Last(dst) == Last(src);
      assert src != dst;
      assert Dest(s, s2, root, src) == dst;
      forall p | p in s.files && p != src
        ensures Dest(s, s2, root, p) == p
      {
        assert p != dst;
      }
      assert Parent(src) == root ==> src == dst by { PathSplits(src); }
    } else {
      assert s2 == s;
      forall p | p in s.files
        ensures Dest(s, s2, root, p) == p
      {
      }
    }
  }

  lemma RemoveDirKept(s: Tree, locked: set<Path>, d: Path, root: Path)
    ensures Kept(s, TryRemoveDir(s, locked, d), root)
  {
  }

  lemma {:induction false} MoveFilesUpKept(s: Tree, locked: set<Path>, root: Path, dir: Path, files: seq<Path>)
    requires forall k :: 0 <= k < |files| ==> files[k] != []
    ensures Kept(s, MoveFilesUp(s, locked, root, dir, files), root)
    decreases |files|
  {
    if files != [] {
      var prefix := files[..|files| - 1];
      MoveFilesUpKept(s, locked, root, dir, prefix);
      var s1 := MoveFilesUp(s, locked, root, dir, prefix);
      if dir != root {
        MoveIntoDirKept(s1, locked, files[|files| - 1], root);
        KeptTransitive(s, s1, MoveFilesUp(s, locked, root, dir, files), root);
      }
    }
  }

  lemma {:induction false} RemoveSubdirsKept(s: Tree, locked: set<Path>, subdirs: seq<Path>, root: Path)
    ensures Kept(s, RemoveSubdirs(s, locked, subdirs), root)
    decreases |subdirs|
  {
    if subdirs != [] {
      var prefix := subdirs[..|subdirs| - 1];
      RemoveSubdirsKept(s, locked, prefix, root);
      var s1 := RemoveSubdirs(s, locked, prefix);
      RemoveDirKept(s1, locked, subdirs[|subdirs| - 1], root);
      KeptTransitive(s, s1, RemoveSubdirs(s, locked, subdirs), root);
    }
  }

  /**
   * Flattening loses no file and overwrites none: every file is either
   * where it was or in root under its own basename, no two files end at the
   * same path, the file count is unchanged and files already in root stay
   * as they are.
   */
  lemma {:induction false} FlattenKeepsEveryFile(t: Tree, locked: set<Path>, root: Path, walk: seq<Visit>)
    requires FilesNonEmpty(walk)
    ensures Kept(t, FlattenRun(t, locked, root, walk), root)
    decreases |walk|
  {
    if walk != [] {
      var prefix := walk[..|walk| - 1];
      var v := walk[|walk| - 1];
      FlattenKeepsEveryFile(t, locked, root, prefix);
      var s := FlattenRun(t, locked, root, prefix);
      MoveFilesUpKept(s, locked, root, v.dir, v.files);
      var s1 := MoveFilesUp(s, locked, root, v.dir, v.files);
      RemoveSubdirsKept(s1, locked, v.subdirs, root);
      KeptTransitive(s, s1, VisitStep(s, locked, root, v), root);
      KeptTransitive(t, s, FlattenRun(t, locked, root, walk), root);
    }
  }

  lemma MoveIntoDirWellFormed(s: Tree, locked: set<Path>, src: Path, dir: Path)
    requires WellFormed(s) && src != []
    ensures WellFormed(MoveIntoDir(s, locked, src, dir))
  {
    var dst := dir + [Last(src)];
    if !Exists(s, dst) && CanRename(s, locked, src, dst) {
      RenamedWellFormed(s, locked, src, dst);
    }
  }

  lemma {:induction false} MoveFilesUpWellFormed(s: Tree, locked: set<Path>, root: Path, dir: Path, files: seq<Path>)
    requires WellFormed(s)
    requires forall k :: 0 <= k < |files| ==> files[k] != []
    ensures WellFormed(MoveFilesUp(s, locked, root, dir, files))
    decreases |files|
  {
    if files != [] {
      MoveFilesUpWellFormed(s, locked, root, dir, files[..|files| - 1]);
      if dir != root {
        MoveIntoDirWellFormed(MoveFilesUp(s, locked, root, dir, files[..|files| - 1]), locked, files[|files| - 1], root);
      }
    }
  }

  lemma {:induction false} RemoveSubdirsWellFormed(s: Tree, locked: set<Path>, subdirs: seq<Path>)
    requires WellFormed(s)
    ensures WellFormed(RemoveSubdirs(s, locked, subdirs))
    decreases |subdirs|
  {
    if subdirs != [] {
      RemoveSubdirsWellFormed(s, locked, subdirs[..|subdirs| - 1]);
      RemoveDirWellFormed(RemoveSubdirs(s, locked, subdirs[..|subdirs| - 1]), locked, subdirs[|subdirs| - 1]);
    }
  }

  /** A directory is removed only when it is empty, so the tree stays well formed. */
  lemma {:induction false} FlattenWellFormed(t: Tree, locked: set<Path>, root: Path, walk: seq<Visit>)
    requires WellFormed(t) && FilesNonEmpty(walk)
    ensures WellFormed(FlattenRun(t, locked, root, walk))
    decreases |walk|
  {
    if walk != [] {
      var prefix := walk[..|walk| - 1];
      var v := walk[|walk| - 1];
      FlattenWellFormed(t, locked, root, prefix);
      var s := FlattenRun(t, locked, root, prefix);
      MoveFilesUpWellFormed(s, locked, root, v.dir, v.files);
      RemoveSubdirsWellFormed(MoveFilesUp(s, locked, root, v.dir, v.files), locked, v.subdirs);
    }
  }

  // ---------------------------------------------------------------------
  // Nothing outside root changes
  // ---------------------------------------------------------------------

  /** `t` and `t2` agree on every path that is not below root. */
  ghost predicate SameOutside(t: Tree, t2: Tree, root: Path) {
    && (forall p :: !Under(root, p) ==> (p in t2.files <==> p in t.files) && (p in t2.dirs <==> p in t.dirs))
    && (forall p :: !Under(root, p) && p in t.files ==> t2.files[p] == t.files[p])
  }

  /** Every file and subdirectory a walk lists lies below root. */
  predicate ListsBelow(walk: seq<Visit>, root: Path) {
    && (forall i, k :: 0 <= i < |walk| && 0 <= k < |walk[i].files| ==> Under(root, walk[i].files[k]))
    && (forall i, k :: 0 <= i < |walk| && 0 <= k < |walk[i].subdirs| ==> Under(root, walk[i].subdirs[k]))
  }

  lemma WalkListsBelow(walk: seq<Visit>, t: Tree, root: Path)
    requires IsBottomUpWalk(walk, t, root)
    ensures ListsBelow(walk, root)
  {
    forall i | 0 <= i < |walk|
      ensures forall k :: 0 <= k < |walk[i].files| ==> Under(root, walk[i].files[k])
      ensures forall k :: 0 <= k < |walk[i].subdirs| ==> Under(root, walk[i].subdirs[k])
    {
      var v := walk[i];
      assert VisitedDirs(walk)[i] in VisitedDirs(walk);
      assert v.dir in DirsWithin(t, root);
      forall k | 0 <= k < |v.files|
        ensures Under(root, v.files[k])
      {
        assert v.files[k] in v.files;
        assert v.files[k] in FilesIn(t, v.dir);
        UnderChild(root, v.files[k]);
      }
      forall k | 0 <= k < |v.subdirs|
        ensures Under(root, v.subdirs[k])
      {
        assert v.subdirs[k] in v.subdirs;
        assert v.subdirs[k] in ChildDirs(t, v.dir);
        UnderChild(root, v.subdirs[k]);
      }
    }
  }

  lemma {:induction false} MoveFilesUpSameOutside(s: Tree, locked: set<Path>, root: Path, dir: Path, files: seq<Path>)
    requires forall k :: 0 <= k < |files| ==> files[k] != [] && Under(root, files[k])
    ensures SameOutside(s, MoveFilesUp(s, locked, root, dir, files), root)
    decreases |files|
  {
    if files != [] {
      MoveFilesUpSameOutside(s, locked, root, dir, files[..|files| - 1]);
      var f := files[|files| - 1];
      assert Under(root, root + [Last(f)]);
    }
  }

  lemma {:induction false} RemoveSubdirsSameOutside(s: Tree, locked: set<Path>, root: Path, subdirs: seq<Path>)
    requires forall k :: 0 <= k < |subdirs| ==> Under(root, subdirs[k])
    ensures SameOutside(s, RemoveSubdirs(s, locked, subdirs), root)
    decreases |subdirs|
  {
    if subdirs != [] {
      RemoveSubdirsSameOutside(s, locked, root, subdirs[..|subdirs| - 1]);
    }
  }

  /**
   * Flattening touches nothing outside root: every file and directory that
   * is not below root is there afterwards, with the same attributes, and
   * nothing new appears outside root.
   */
  lemma {:induction false} FlattenStaysInsideRoot(t: Tree, locked: set<Path>, root: Path, walk: seq<Visit>)
    requires FilesNonEmpty(walk) && ListsBelow(walk, root)
    ensures SameOutside(t, FlattenRun(t, locked, root, walk), root)
    decreases |walk|
  {
    if walk != [] {
      var prefix := walk[..|walk| - 1];
      var v := walk[|walk| - 1];
      FlattenStaysInsideRoot(t, locked, root, prefix);
      var s := FlattenRun(t, locked, root, prefix);
      MoveFilesUpSameOutside(s, locked, root, v.dir, v.files);
      RemoveSubdirsSameOutside(MoveFilesUp(s, locked, root, v.dir, v.files), locked, root, v.subdirs);
    }
  }

  // ---------------------------------------------------------------------
  // The flattened result
  // ---------------------------------------------------------------------

  /** No regular file sits directly in `d`. */
  ghost predicate NoFilesIn(s: Tree, d: Path) {
    forall p :: p in s.files ==> p == [] || Parent(p) != d
  }

  /** No directory sits directly in `d`. */
  ghost predicate NoDirsIn(s: Tree, d: Path) {
    forall e :: e in s.dirs ==> e == [] || Parent(e) != d
  }

  /** Everything `t0` had directly in `d` is still in `s`. */
  ghost predicate KeepsListing(t0: Tree, s: Tree, d: Path) {
    && (forall p :: p in t0.files && p != [] && Parent(p) == d ==> p in s.files)
    && (forall e :: e in t0.dirs && e != [] && Parent(e) == d ==> e in s.dirs)
  }

  /**
   * The situations in which the flattener does its whole job: a well-formed
   * tree, a bottom-up walk of it, nothing below root that the operating
   * system refuses to touch, no two files below root with the same
   * basename, and no directory directly in root named like a file below it.
   */
  ghost predicate Flattenable(t0: Tree, locked: set<Path>, root: Path, walk: seq<Visit>) {
    && WellFormed(t0)
    && root in t0.dirs
    && IsBottomUpWalk(walk, t0, root)
    && FilesNonEmpty(walk)
    && (forall p :: p in locked ==> !Under(root, p))
    && (forall p, q :: p in t0.files && Under(root, p) && q in t0.files && Under(root, q) && Last(p) == Last(q) ==> p == q)
    && (forall p :: p in t0.files && Under(root, p) ==> root + [Last(p)] !in t0.dirs)
  }

  /** The state after the first `n` directories of the walk have been handled. */
  ghost predicate WalkInvariant(t0: Tree, root: Path, walk: seq<Visit>, n: nat, s: Tree)
    requires n <= |walk|
  {
    && WellFormed(s)
    && root in s.dirs
    && s.dirs <= t0.dirs
    // the only files that were not there before sit directly in root
    && (forall p :: p in s.files ==> p in t0.files || (p != [] && Parent(p) == root))
    // handled directories other than root hold no files and no directories
    && (forall i :: 0 <= i < n && walk[i].dir != root ==> NoFilesIn(s, walk[i].dir))
    && (forall i :: 0 <= i < n ==> NoDirsIn(s, walk[i].dir))
    // directories still to come hold what they held
    && (forall i :: n <= i < |walk| ==> KeepsListing(t0, s, walk[i].dir))
    // the name each remaining file will take in root is still free
    && (forall q :: q in s.files && q in t0.files && Under(root, q) && Parent(q) != root ==> root + [Last(q)] !in s.files)
  }

  /** What the file loop of one directory achieved: `s1` from `s`. */
  ghost predicate MovedUp(s: Tree, s1: Tree, root: Path, dir: Path, files: seq<Path>) {
    && s1.dirs == s.dirs
    && (forall p :: p in s.files && p !in files ==> p in s1.files)
    && (forall p :: p in s1.files && p !in s.files ==>
          p != [] && Parent(p) == root && exists k :: 0 <= k < |files| && files[k] != [] && p == root + [Last(files[k])])
    && (dir != root ==> forall p :: p in files ==> p !in s1.files)
  }

  lemma {:induction false} MoveFilesUpAtRoot(s: Tree, locked: set<Path>, root: Path, files: seq<Path>)
    requires forall k :: 0 <= k < |files| ==> files[k] != []
    ensures MoveFilesUp(s, locked, root, root, files) == s
    decreases |files|
  {
    if files != [] {
      MoveFilesUpAtRoot(s, locked, root, files[..|files| - 1]);
    }
  }

  /** A name in root that no moved file takes stays free. */
  lemma NameStaysFree(s: Tree, s1: Tree, root: Path, dir: Path, prefix: seq<Path>, dst: Path)
    requires MovedUp(s, s1, root, dir, prefix)
    requires dst !in s.files
    requires forall k :: 0 <= k < |prefix| && prefix[k] != [] ==> root + [Last(prefix[k])] != dst
    ensures dst !in s1.files
  {
  }

  /** One more file moved up extends what the file loop achieved. */
  lemma MovedUpExtend(s: Tree, s1: Tree, root: Path, dir: Path, prefix: seq<Path>, f: Path)
    requires MovedUp(s, s1, root, dir, prefix)
    requires f != [] && f in s1.files && f !in prefix && f != root + [Last(f)] && root + [Last(f)] !in prefix
    ensures MovedUp(s, Renamed(s1, f, root + [Last(f)]), root, dir, prefix + [f])
  {
    var files := prefix + [f];
    var s2 := Renamed(s1, f, root + [Last(f)]);
    assert Parent(root + [Last(f)]) == root;
    forall p | p in s2.files && p !in s.files
      ensures exists k :: 0 <= k < |files| && files[k] != [] && p == root + [Last(files[k])]
    {
      if p == root + [Last(f)] {
        assert files[|files| - 1] == f;
      } else {
        var k :| 0 <= k < |prefix| && prefix[k] != [] && p == root + [Last(prefix[k])];
        assert files[k] == prefix[k];
      }
    }
  }

  /** Files of one directory, with free names in root and nothing refusing them, all move. */
  lemma {:induction false} MoveFilesUpMovesAll(s: Tree, locked: set<Path>, root: Path, dir: Path, files: seq<Path>)
    requires root in s.dirs && dir != root
    requires forall k :: 0 <= k < |files| ==> files[k] != [] && Parent(files[k]) == dir && files[k] in s.files && files[k] !in locked
    requires forall i, j :: 0 <= i < j < |files| ==> files[i] != files[j]
    requires forall k :: 0 <= k < |files| ==> root + [Last(files[k])] !in s.files && root + [Last(files[k])] !in s.dirs
    ensures MovedUp(s, MoveFilesUp(s, locked, root, dir, files), root, dir, files)
    decreases |files|
  {
    if files != [] {
      var prefix := files[..|files| - 1];
      var f := files[|files| - 1];
      assert forall k :: 0 <= k < |prefix| ==> prefix[k] == files[k];
      MoveFilesUpMovesAll(s, locked, root, dir, prefix);
      var s1 := MoveFilesUp(s, locked, root, dir, prefix);
      MoveFilesUpStep(s, s1, locked, root, dir, files);
      assert MoveFilesUp(s, locked, root, dir, files) == Renamed(s1, f, root + [Last(f)]);
    }
  }

  /** The last file of the loop moves too, given that the ones before it did. */
  lemma MoveFilesUpStep(s: Tree, s1: Tree, locked: set<Path>, root: Path, dir: Path, files: seq<Path>)
    requires root in s.dirs && dir != root && files != []
    requires forall k :: 0 <= k < |files| ==> files[k] != [] && Parent(files[k]) == dir && files[k] in s.files && files[k] !in locked
    requires forall i, j :: 0 <= i < j < |files| ==> files[i] != files[j]
    requires forall k :: 0 <= k < |files| ==> root + [Last(files[k])] !in s.files && root + [Last(files[k])] !in s.dirs
    requires MovedUp(s, s1, root, dir, files[..|files| - 1])
    ensures !Exists(s1, root + [Last(files[|files| - 1])])
    ensures CanRename(s1, locked, files[|files| - 1], root + [Last(files[|files| - 1])])
    ensures MovedUp(s, Renamed(s1, files[|files| - 1], root + [Last(files[|files| - 1])]), root, dir, files)
  {
    var prefix := files[..|files| - 1];
    var f := files[|files| - 1];
    var dst := root + [Last(f)];
    assert Last(dst) == Last(f) && Parent(dst) == root;
    forall k | 0 <= k < |prefix|
      ensures prefix[k] != dst && root + [Last(prefix[k])] != dst
    {
      PathSplits(prefix[k]);
      PathSplits(f);
      assert prefix[k] == files[k];
      assert Last(root + [Last(prefix[k])]) == Last(prefix[k]);
    }
    assert f !in prefix;
    NameStaysFree(s, s1, root, dir, prefix, dst);
    assert files == prefix + [f];
    MovedUpExtend(s, s1, root, dir, prefix, f);
  }

  /** Empty, permitted subdirectories all go. */
  lemma {:induction false} RemoveSubdirsRemovesAll(s: Tree, locked: set<Path>, subdirs: seq<Path>)
    requires forall k :: 0 <= k < |subdirs| ==>
      subdirs[k] in s.dirs && subdirs[k] != [] && subdirs[k] !in locked && NoFilesIn(s, subdirs[k]) && NoDirsIn(s, subdirs[k])
    ensures RemoveSubdirs(s, locked, subdirs).files == s.files
    ensures forall e :: e in RemoveSubdirs(s, locked, subdirs).dirs <==> e in s.dirs && e !in subdirs
    decreases |subdirs|
  {
    if subdirs != [] {
      var prefix := subdirs[..|subdirs| - 1];
      RemoveSubdirsRemovesAll(s, locked, prefix);
      var e := subdirs[|subdirs| - 1];
      var s1 := RemoveSubdirs(s, locked, prefix);
      assert e in s1.dirs ==> CanRemoveDir(s1, locked, e);
      forall x ensures x in subdirs <==> x in prefix || x == e {
        assert subdirs == prefix + [e];
      }
    }
  }

  lemma UnderChild(root: Path, p: Path)
    requires p != [] && (Parent(p) == root || Under(root, Parent(p)))
    ensures Under(root, p)
  {
    assert p[..|Parent(p)|] == Parent(p);
  }

  lemma ParentWithin(root: Path, p: Path)
    requires p != []
    ensures Under(root, p) ==> Parent(p) == root || Under(root, Parent(p))
  {
    if Under(root, p) && |root| < |Parent(p)| {
      assert Parent(p)[..|root|] == p[..|root|];
    }
  }

  /** Where directory walk[n] stands: it is root or below it, and its listings come from `t0`. */
  lemma VisitFacts(t0: Tree, locked: set<Path>, root: Path, walk: seq<Visit>, n: nat)
    requires Flattenable(t0, locked, root, walk) && n < |walk|
    ensures walk[n].dir == root || Under(root, walk[n].dir)
    ensures forall k :: 0 <= k < |walk[n].files| ==>
      walk[n].files[k] in t0.files && walk[n].files[k] != [] && Parent(walk[n].files[k]) == walk[n].dir && Under(root, walk[n].files[k])
    ensures forall k :: 0 <= k < |walk[n].subdirs| ==>
      walk[n].subdirs[k] in t0.dirs && walk[n].subdirs[k] != [] && Parent(walk[n].subdirs[k]) == walk[n].dir && Under(root, walk[n].subdirs[k])
  {
    var v := walk[n];
    assert VisitedDirs(walk)[n] in VisitedDirs(walk);
    forall k | 0 <= k < |v.files|
      ensures v.files[k] in t0.files && v.files[k] != [] && Parent(v.files[k]) == v.dir && Under(root, v.files[k])
    {
      assert v.files[k] in v.files;
      assert v.files[k] in FilesIn(t0, v.dir);
      UnderChild(root, v.files[k]);
    }
    forall k | 0 <= k < |v.subdirs|
      ensures v.subdirs[k] in t0.dirs && v.subdirs[k] != [] && Parent(v.subdirs[k]) == v.dir && Under(root, v.subdirs[k])
    {
      assert v.subdirs[k] in v.subdirs;
      assert v.subdirs[k] in ChildDirs(t0, v.dir);
      UnderChild(root, v.subdirs[k]);
    }
  }

  /** The file loop for walk[n] moves every file of a directory below root into root. */
  lemma VisitMoves(t0: Tree, locked: set<Path>, root: Path, walk: seq<Visit>, n: nat, s: Tree)
    requires Flattenable(t0, locked, root, walk) && n < |walk|
    requires WalkInvariant(t0, root, walk, n, s)
    ensures MovedUp(s, MoveFilesUp(s, locked, root, walk[n].dir, walk[n].files), root, walk[n].dir, walk[n].files)
  {
    var v := walk[n];
    VisitFacts(t0, locked, root, walk, n);
    if v.dir == root {
      MoveFilesUpAtRoot(s, locked, root, v.files);
    } else {
      assert KeepsListing(t0, s, v.dir);
      forall k | 0 <= k < |v.files|
        ensures v.files[k] in s.files && v.files[k] !in locked
        ensures root + [Last(v.files[k])] !in s.files && root + [Last(v.files[k])] !in s.dirs
      {
      }
      MoveFilesUpMovesAll(s, locked, root, v.dir, v.files);
    }
  }

  /** The rmdir loop for walk[n] removes every subdirectory: each was handled, and so is empty, before. */
  lemma VisitRemoves(t0: Tree, locked: set<Path>, root: Path, walk: seq<Visit>, n: nat, s: Tree, s1: Tree)
    requires Flattenable(t0, locked, root, walk) && n < |walk|
    requires WalkInvariant(t0, root, walk, n, s)
    requires MovedUp(s, s1, root, walk[n].dir, walk[n].files)
    ensures RemoveSubdirs(s1, locked, walk[n].subdirs).files == s1.files
    ensures forall e :: e in RemoveSubdirs(s1, locked, walk[n].subdirs).dirs <==> e in s1.dirs && e !in walk[n].subdirs
  {
    var v := walk[n];
    VisitFacts(t0, locked, root, walk, n);
    assert KeepsListing(t0, s, v.dir);
    forall k | 0 <= k < |v.subdirs|
      ensures v.subdirs[k] in s1.dirs && v.subdirs[k] !in locked && NoFilesIn(s1, v.subdirs[k]) && NoDirsIn(s1, v.subdirs[k])
    {
      var e := v.subdirs[k];
      assert e in DirsWithin(t0, root);
      assert e in VisitedDirs(walk);
      var i :| 0 <= i < |walk| && VisitedDirs(walk)[i] == e;
      ChildIsUnder(e);
      assert Under(walk[n].dir, walk[i].dir);
      assert i < n;
      assert NoFilesIn(s, e) && NoDirsIn(s, e);
    }
    RemoveSubdirsRemovesAll(s1, locked, v.subdirs);
  }

  /** What the rmdir loop of one directory achieved: `s2` from `s1`. */
  ghost predicate RemovedAll(s1: Tree, s2: Tree, subdirs: seq<Path>) {
    && s2.files == s1.files
    && (forall e :: e in s2.dirs <==> e in s1.dirs && e !in subdirs)
  }

  /** After its two loops, directory walk[n] holds no directory, and no file unless it is root. */
  lemma VisitEmptiesDir(t0: Tree, locked: set<Path>, root: Path, walk: seq<Visit>, n: nat, s: Tree, s1: Tree, s2: Tree)
    requires Flattenable(t0, locked, root, walk) && n < |walk|
    requires WalkInvariant(t0, root, walk, n, s)
    requires MovedUp(s, s1, root, walk[n].dir, walk[n].files) && RemovedAll(s1, s2, walk[n].subdirs)
    ensures walk[n].dir != root ==> NoFilesIn(s2, walk[n].dir)
    ensures NoDirsIn(s2, walk[n].dir)
  {
    var v := walk[n];
    var X := v.dir;
    forall p | p in t0.files && p != [] && Parent(p) == X
      ensures p in v.files
    {
      assert p in FilesIn(t0, X);
    }
    forall e | e in t0.dirs && e != [] && Parent(e) == X
      ensures e in v.subdirs
    {
      assert e in ChildDirs(t0, X);
    }
  }

  /** Directories handled earlier stay empty. */
  lemma VisitKeepsEarlier(t0: Tree, locked: set<Path>, root: Path, walk: seq<Visit>, n: nat, s: Tree, s1: Tree, s2: Tree)
    requires Flattenable(t0, locked, root, walk) && n < |walk|
    requires WalkInvariant(t0, root, walk, n, s)
    requires MovedUp(s, s1, root, walk[n].dir, walk[n].files) && RemovedAll(s1, s2, walk[n].subdirs)
    ensures forall i :: 0 <= i < n && walk[i].dir != root ==> NoFilesIn(s2, walk[i].dir)
    ensures forall i :: 0 <= i < n ==> NoDirsIn(s2, walk[i].dir)
  {
    forall i | 0 <= i < n && walk[i].dir != root
      ensures NoFilesIn(s2, walk[i].dir)
    {
      assert NoFilesIn(s, walk[i].dir);
    }
    forall i | 0 <= i < n
      ensures NoDirsIn(s2, walk[i].dir)
    {
      assert NoDirsIn(s, walk[i].dir);
    }
  }

  /** Directories still to come keep their listings: only walk[n]'s own entries moved. */
  lemma VisitKeepsLater(t0: Tree, locked: set<Path>, root: Path, walk: seq<Visit>, n: nat, s: Tree, s1: Tree, s2: Tree)
    requires Flattenable(t0, locked, root, walk) && n < |walk|
    requires WalkInvariant(t0, root, walk, n, s)
    requires MovedUp(s, s1, root, walk[n].dir, walk[n].files) && RemovedAll(s1, s2, walk[n].subdirs)
    ensures forall i :: n < i < |walk| ==> KeepsListing(t0, s2, walk[i].dir)
  {
    VisitFacts(t0, locked, root, walk, n);
    forall i | n < i < |walk|
      ensures KeepsListing(t0, s2, walk[i].dir)
    {
      assert VisitedDirs(walk)[i] != VisitedDirs(walk)[n];
      assert KeepsListing(t0, s, walk[i].dir);
    }
  }

  /** A file still waiting below root still finds its name in root free. */
  lemma VisitKeepsNamesFree(t0: Tree, locked: set<Path>, root: Path, walk: seq<Visit>, n: nat, s: Tree, s1: Tree, s2: Tree)
    requires Flattenable(t0, locked, root, walk) && n < |walk|
    requires WalkInvariant(t0, root, walk, n, s)
    requires MovedUp(s, s1, root, walk[n].dir, walk[n].files) && RemovedAll(s1, s2, walk[n].subdirs)
    ensures forall q :: q in s2.files && q in t0.files && Under(root, q) && Parent(q) != root ==> root + [Last(q)] !in s2.files
  {
    var v := walk[n];
    VisitFacts(t0, locked, root, walk, n);
    forall q | q in s2.files && q in t0.files && Under(root, q) && Parent(q) != root
      ensures root + [Last(q)] !in s2.files
    {
      var r := root + [Last(q)];
      assert Last(r) == Last(q);
      forall k | 0 <= k < |v.files|
        ensures root + [Last(v.files[k])] != r || v.files[k] == q
      {
        assert Last(root + [Last(v.files[k])]) == Last(v.files[k]);
      }
      assert q !in v.files;
    }
  }

  /** Handling walk[n] keeps the invariant, now for the first n + 1 directories. */
  lemma VisitKeepsInvariant(t0: Tree, locked: set<Path>, root: Path, walk: seq<Visit>, n: nat, s: Tree)
    requires Flattenable(t0, locked, root, walk) && n < |walk|
    requires WalkInvariant(t0, root, walk, n, s)
    ensures WalkInvariant(t0, root, walk, n + 1, VisitStep(s, locked, root, walk[n]))
  {
    var v := walk[n];
    VisitFacts(t0, locked, root, walk, n);
    var s1 := MoveFilesUp(s, locked, root, v.dir, v.files);
    var s2 := VisitStep(s, locked, root, v);
    VisitMoves(t0, locked, root, walk, n, s);
    VisitRemoves(t0, locked, root, walk, n, s, s1);
    assert RemovedAll(s1, s2, v.subdirs);
    MoveFilesUpWellFormed(s, locked, root, v.dir, v.files);
    RemoveSubdirsWellFormed(s1, locked, v.subdirs);
    assert root !in v.subdirs;
    VisitEmptiesDir(t0, locked, root, walk, n, s, s1, s2);
    VisitKeepsEarlier(t0, locked, root, walk, n, s, s1, s2);
    VisitKeepsLater(t0, locked, root, walk, n, s, s1, s2);
    VisitKeepsNamesFree(t0, locked, root, walk, n, s, s1, s2);
  }

  lemma {:induction false} FlattenInvariant(t0: Tree, locked: set<Path>, root: Path, walk: seq<Visit>, n: nat)
    requires Flattenable(t0, locked, root, walk) && n <= |walk|
    ensures FilesNonEmpty(walk[..n])
    ensures WalkInvariant(t0, root, walk, n, FlattenRun(t0, locked, root, walk[..n]))
    decreases n
  {
    if n == 0 {
      forall q | q in t0.files && Under(root, q) && Parent(q) != root
        ensures root + [Last(q)] !in t0.files
      {
        var r := root + [Last(q)];
        assert Parent(r) == root && Under(root, r) && Last(r) == Last(q);
      }
    } else {
      FlattenInvariant(t0, locked, root, walk, n - 1);
      assert walk[..n][..n - 1] == walk[..n - 1];
      VisitKeepsInvariant(t0, locked, root, walk, n - 1, FlattenRun(t0, locked, root, walk[..n - 1]));
    }
  }

  /** Once the whole walk is handled, nothing is left below root but files directly in it. */
  lemma WalkDone(t0: Tree, locked: set<Path>, root: Path, walk: seq<Visit>, t1: Tree)
    requires Flattenable(t0, locked, root, walk)
    requires WalkInvariant(t0, root, walk, |walk|, t1)
    ensures forall p :: p in t1.files && Under(root, p) ==> Parent(p) == root
    ensures forall d :: d in t1.dirs ==> !Under(root, d)
  {
    forall x | x in DirsWithin(t0, root)
      ensures NoDirsIn(t1, x) && (x != root ==> NoFilesIn(t1, x))
    {
      assert x in VisitedDirs(walk);
      var i :| 0 <= i < |walk| && VisitedDirs(walk)[i] == x;
    }
    forall p | p in t1.files && Under(root, p)
      ensures Parent(p) == root
    {
      ParentWithin(root, p);
      assert Parent(p) in DirsWithin(t0, root);
      assert NoFilesIn(t1, Parent(p)) ==> Parent(p) == root;
    }
    forall d | d in t1.dirs
      ensures !Under(root, d)
    {
      if d != [] {
        ParentWithin(root, d);
        assert Under(root, d) ==> Parent(d) in DirsWithin(t0, root);
        assert !NoDirsIn(t1, Parent(d));
      }
    }
  }

  /**
   * move_files_to_parent with recursion does what it is for, whatever order
   * the walk takes: afterwards every file below root sits directly in root,
   * no directory is left below root, root itself remains, and every file is
   * kept (in root under its basename, or where it was if it was in root).
   */
  lemma Flattened(t0: Tree, locked: set<Path>, root: Path, walk: seq<Visit>)
    requires Flattenable(t0, locked, root, walk)
    ensures var t1 := FlattenRun(t0, locked, root, walk);
      && root in t1.dirs
      && (forall p :: p in t1.files && Under(root, p) ==> Parent(p) == root)
      && (forall d :: d in t1.dirs ==> !Under(root, d))
      && Kept(t0, t1, root)
  {
    FlattenInvariant(t0, locked, root, walk, |walk|);
    assert walk[..|walk|] == walk;
    WalkDone(t0, locked, root, walk, FlattenRun(t0, locked, root, walk));
    FlattenKeepsEveryFile(t0, locked, root, walk);
  }
}
