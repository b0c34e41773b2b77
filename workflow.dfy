/**
 * Organising a folder and then flattening it again: the two operations are
 * not inverse in general.  Two small trees show the two ways the round trip
 * breaks: an organising move that overwrites a file of the same basename,
 * and a flattening move refused because a bucket folder has the basename of
 * the file to move.  Each is stated for every rule that buckets the names
 * that way, and then for the extension criterion.
 */
module Workflow {
  import opened Wrappers
  import opened Classifier
  import opened FileTree
  import opened Organizer
  import opened Flattener

  /** Organising by extension, with no allow-list and no time period. */
  function ByExtension(): Rule {
    Rule(FileExtension, NoOptions, None)
  }

  /** A run over two snapshotted paths is two steps. */
  lemma RunOfTwo(t: Tree, root: Path, x: Path, y: Path, rule: Rule)
    requires OptionsFit(rule)
    ensures var (t1, o1) := Step(t, {}, root, x, rule);
            var (t2, o2) := Step(t1, {}, root, y, rule);
            Run(t, {}, root, [x, y], rule) == (t2, [o1, o2])
  {
    var (t1, o1) := Step(t, {}, root, x, rule);
    var (t2, o2) := Step(t1, {}, root, y, rule);
    assert [x][..0] == [] && Run(t, {}, root, [], rule) == (t, []);
    assert [] + [o1] == [o1];
    assert Run(t, {}, root, [x], rule) == (t1, [o1]);
    assert [x, y][..1] == [x] && [o1] + [o2] == [o1, o2];
  }

  /** A pass over three visited directories is three visit steps. */
  lemma FlattenOfThree(t: Tree, root: Path, u: Visit, v: Visit, w: Visit)
    requires forall k :: 0 <= k < |u.files| ==> u.files[k] != []
    requires forall k :: 0 <= k < |v.files| ==> v.files[k] != []
    requires forall k :: 0 <= k < |w.files| ==> w.files[k] != []
    ensures FlattenRun(t, {}, root, [u, v, w])
         == VisitStep(VisitStep(VisitStep(t, {}, root, u), {}, root, v), {}, root, w)
  {
    var walk := [u, v, w];
    assert FilesNonEmpty(walk) by {
      forall i, k | 0 <= i < 3 && 0 <= k < |walk[i].files| ensures walk[i].files[k] != [] {
        assert walk[i] == u || walk[i] == v || walk[i] == w;
      }
    }
    assert walk[..2] == [u, v] && [u, v][..1] == [u] && [u][..0] == [];
    assert FlattenRun(t, {}, root, [u]) == VisitStep(t, {}, root, u);
  }

  /** The file loop over a single file outside root is one move into root. */
  lemma MoveOneUp(t: Tree, root: Path, dir: Path, f: Path)
    requires f != [] && dir != root
    ensures MoveFilesUp(t, {}, root, dir, [f]) == MoveIntoDir(t, {}, f, root)
  {
    assert [f][..0] == [];
  }

  // ---------------------------------------------------------------------
  // Organising can overwrite: r/a/<name> and r/b/<name> share a bucket
  // ---------------------------------------------------------------------

  function TwinsBefore(name: string, i: FileInfo, j: FileInfo): Tree {
    Tree(map[["r", "a", name] := i, ["r", "b", name] := j], {[], ["r"], ["r", "a"], ["r", "b"]})
  }

  function TwinsMiddle(name: string, f: string, i: FileInfo, j: FileInfo): Tree {
    Tree(map[["r", "b", name] := j, ["r", f, name] := i], {[], ["r"], ["r", "a"], ["r", "b"], ["r", f]})
  }

  function TwinsAfter(name: string, f: string, j: FileInfo): Tree {
    Tree(map[["r", f, name] := j], {[], ["r"], ["r", "a"], ["r", "b"], ["r", f]})
  }

  lemma TwinsListing(name: string, i: FileInfo, j: FileInfo)
    ensures WellFormed(TwinsBefore(name, i, j)) && |TwinsBefore(name, i, j).files| == 2
    ensures Enumerates([["r", "a", name], ["r", "b", name]], FilesUnder(TwinsBefore(name, i, j), ["r"]))
  {
    var a, b := ["r", "a", name], ["r", "b", name];
    assert a != b by { assert a[1] != b[1]; }
    var t := TwinsBefore(name, i, j);
    assert t.files.Keys == {a, b};
    assert Parent(a) == ["r", "a"] && Parent(b) == ["r", "b"];
    assert Parent(["r", "a"]) == ["r"] && Parent(["r", "b"]) == ["r"] && Parent(["r"]) == [];
    forall p | p in FilesUnder(t, ["r"]) ensures p in [a, b] {
      assert p == a || p == b;
    }
  }

  lemma TwinsFirstStep(rule: Rule, name: string, f: string, i: FileInfo, j: FileInfo)
    requires OptionsFit(rule) && DestinationFolder(name, i, true, rule) == Some(f) && f != "a" && f != "b"
    ensures Step(TwinsBefore(name, i, j), {}, ["r"], ["r", "a", name], rule)
         == (TwinsMiddle(name, f, i, j), Moved(["r", f, name]))
  {
    var a, b := ["r", "a", name], ["r", "b", name];
    assert a != b by { assert a[1] != b[1]; }
    var t := TwinsBefore(name, i, j);
    assert Last(a) == name;
    var dir, dst := ["r", f], ["r", f, name];
    assert dir == ["r"] + [f] && dst == dir + [name] && Parent(dst) == dir;
    assert dir != ["r", "a"] && dir != ["r", "b"];
    assert dir !in t.dirs && dir !in t.files;
    var u := t.(dirs := t.dirs + {dir});
    assert dst !in u.dirs;
    assert Renamed(u, a, dst) == TwinsMiddle(name, f, i, j);
  }

  lemma TwinsSecondStep(rule: Rule, name: string, f: string, i: FileInfo, j: FileInfo)
    requires OptionsFit(rule) && DestinationFolder(name, j, true, rule) == Some(f) && f != "a" && f != "b"
    ensures Step(TwinsMiddle(name, f, i, j), {}, ["r"], ["r", "b", name], rule)
         == (TwinsAfter(name, f, j), Moved(["r", f, name]))
  {
    var b := ["r", "b", name];
    var t := TwinsMiddle(name, f, i, j);
    assert Last(b) == name;
    var dir, dst := ["r", f], ["r", f, name];
    assert dir == ["r"] + [f] && dst == dir + [name] && Parent(dst) == dir;
    assert Exists(t, dir) && dst !in t.dirs;
    assert b != dst by { assert b[1] != dst[1]; }
    assert Renamed(t, b, dst) == TwinsAfter(name, f, j);
  }

  /**
   * Whenever the rule sends two files of the same basename, in different
   * subfolders, to one bucket, a recursive run moves both to the same path:
   * the second rename replaces the first, and two files become one.
   */
  lemma OrganizeOverwritesSameName(rule: Rule, name: string, f: string, i: FileInfo, j: FileInfo)
    requires OptionsFit(rule) && f != "a" && f != "b"
    requires DestinationFolder(name, i, true, rule) == Some(f) && DestinationFolder(name, j, true, rule) == Some(f)
    ensures WellFormed(TwinsBefore(name, i, j)) && |TwinsBefore(name, i, j).files| == 2
    ensures Enumerates([["r", "a", name], ["r", "b", name]], FilesUnder(TwinsBefore(name, i, j), ["r"]))
    ensures Run(TwinsBefore(name, i, j), {}, ["r"], [["r", "a", name], ["r", "b", name]], rule)
         == (TwinsAfter(name, f, j), [Moved(["r", f, name]), Moved(["r", f, name])])
    ensures |TwinsAfter(name, f, j).files| == 1
  {
    TwinsListing(name, i, j);
    TwinsFirstStep(rule, name, f, i, j);
    TwinsSecondStep(rule, name, f, i, j);
    RunOfTwo(TwinsBefore(name, i, j), ["r"], ["r", "a", name], ["r", "b", name], rule);
  }

  /** Organising r/a/x.txt and r/b/x.txt by extension leaves a single file, r/txt/x.txt. */
  lemma OrganizeOverwritesTxt(i: FileInfo, j: FileInfo)
    ensures |TwinsBefore("x.txt", i, j).files| == 2
    ensures Run(TwinsBefore("x.txt", i, j), {}, ["r"], [["r", "a", "x.txt"], ["r", "b", "x.txt"]], ByExtension()).0
         == TwinsAfter("x.txt", "txt", j)
    ensures |TwinsAfter("x.txt", "txt", j).files| == 1
  {
    assert "x"[0] != '.' && "x" + "." + "txt" == "x.txt" && Lower("txt") == "txt";
    ExtensionFolderIsLoweredTail("x", "txt", i, ByExtension());
    ExtensionFolderIsLoweredTail("x", "txt", j, ByExtension());
    assert "txt" != "a" && "txt" != "b";
    OrganizeOverwritesSameName(ByExtension(), "x.txt", "txt", i, j);
  }

  // ---------------------------------------------------------------------
  // Flattening can be refused: a bucket folder named like a file
  // ---------------------------------------------------------------------

  /** The names the clash needs: two distinct files, and a first bucket named like neither. */
  predicate ClashNames(n1: string, n2: string, g1: string) {
    n1 != n2 && g1 != n1 && g1 != n2
  }

  /** Before organising: a file r/<n1> and a file r/<n2>. */
  function ClashBefore(n1: string, n2: string, i: FileInfo, j: FileInfo): Tree {
    Tree(map[["r", n1] := i, ["r", n2] := j], {[], ["r"]})
  }

  function ClashMiddle(n1: string, n2: string, g1: string, i: FileInfo, j: FileInfo): Tree {
    Tree(map[["r", n2] := j, ["r", g1, n1] := i], {[], ["r"], ["r", g1]})
  }

  /** After organising: r/<n1> in bucket r/<g1>, r/<n2> in a bucket folder r/<n1>. */
  function ClashOrganised(n1: string, n2: string, g1: string, i: FileInfo, j: FileInfo): Tree {
    Tree(map[["r", g1, n1] := i, ["r", n1, n2] := j], {[], ["r"], ["r", g1], ["r", n1]})
  }

  /** After flattening: r/<n2> is back, r/<g1>/<n1> is not. */
  function ClashFlattened(n1: string, n2: string, g1: string, i: FileInfo, j: FileInfo): Tree {
    Tree(map[["r", g1, n1] := i, ["r", n2] := j], {[], ["r"], ["r", g1]})
  }

  lemma ClashFirstStep(rule: Rule, n1: string, n2: string, g1: string, i: FileInfo, j: FileInfo)
    requires OptionsFit(rule) && ClashNames(n1, n2, g1) && DestinationFolder(n1, i, true, rule) == Some(g1)
    ensures Step(ClashBefore(n1, n2, i, j), {}, ["r"], ["r", n1], rule)
         == (ClashMiddle(n1, n2, g1, i, j), Moved(["r", g1, n1]))
  {
    var a, b := ["r", n1], ["r", n2];
    var t := ClashBefore(n1, n2, i, j);
    assert Last(a) == n1 && a != b;
    var dir, dst := ["r", g1], ["r", g1, n1];
    assert dir == ["r"] + [g1] && dst == dir + [n1] && Parent(dst) == dir;
    assert dir != a && dir != b;
    var u := t.(dirs := t.dirs + {dir});
    assert dst !in u.dirs;
    assert Renamed(u, a, dst) == ClashMiddle(n1, n2, g1, i, j);
  }

  lemma ClashSecondStep(rule: Rule, n1: string, n2: string, g1: string, i: FileInfo, j: FileInfo)
    requires OptionsFit(rule) && ClashNames(n1, n2, g1) && DestinationFolder(n2, j, true, rule) == Some(n1)
    ensures Step(ClashMiddle(n1, n2, g1, i, j), {}, ["r"], ["r", n2], rule)
         == (ClashOrganised(n1, n2, g1, i, j), Moved(["r", n1, n2]))
  {
    var b := ["r", n2];
    var t := ClashMiddle(n1, n2, g1, i, j);
    assert Last(b) == n2;
    var dir, dst := ["r", n1], ["r", n1, n2];
    assert dir == ["r"] + [n1] && dst == dir + [n2] && Parent(dst) == dir;
    assert dir != b && dir != ["r", g1];
    assert dir !in t.files && dir !in t.dirs;
    var u := t.(dirs := t.dirs + {dir});
    assert dst !in u.dirs;
    assert Renamed(u, b, dst) == ClashOrganised(n1, n2, g1, i, j);
  }

  /**
   * Whenever the rule sends r/<n1> to bucket <g1> and r/<n2> to a bucket
   * named <n1>, organising creates a folder r/<n1> beside r/<g1>/<n1>.
   */
  lemma OrganizeNamesFolderAfterFile(rule: Rule, n1: string, n2: string, g1: string, i: FileInfo, j: FileInfo)
    requires OptionsFit(rule) && ClashNames(n1, n2, g1)
    requires DestinationFolder(n1, i, true, rule) == Some(g1) && DestinationFolder(n2, j, true, rule) == Some(n1)
    ensures Run(ClashBefore(n1, n2, i, j), {}, ["r"], [["r", n1], ["r", n2]], rule)
         == (ClashOrganised(n1, n2, g1, i, j), [Moved(["r", g1, n1]), Moved(["r", n1, n2])])
  {
    ClashFirstStep(rule, n1, n2, g1, i, j);
    ClashSecondStep(rule, n1, n2, g1, i, j);
    RunOfTwo(ClashBefore(n1, n2, i, j), ["r"], ["r", n1], ["r", n2], rule);
  }

  /** The bottom-up walk of the organised tree that visits r/<g1> first. */
  function ClashWalk(n1: string, n2: string, g1: string): seq<Visit> {
    [ Visit(["r", g1], [], [["r", g1, n1]]),
      Visit(["r", n1], [], [["r", n1, n2]]),
      Visit(["r"], [["r", g1], ["r", n1]], []) ]
  }

  lemma ClashWalkDirs(n1: string, n2: string, g1: string, i: FileInfo, j: FileInfo)
    requires ClashNames(n1, n2, g1)
    ensures Enumerates(VisitedDirs(ClashWalk(n1, n2, g1)), DirsWithin(ClashOrganised(n1, n2, g1, i, j), ["r"]))
  {
    var t, w := ClashOrganised(n1, n2, g1, i, j), ClashWalk(n1, n2, g1);
    var d1, d2 := ["r", g1], ["r", n1];
    assert d1 != d2;
    assert VisitedDirs(w) == [d1, d2, ["r"]];
    forall d | d in DirsWithin(t, ["r"]) ensures d in VisitedDirs(w) {
      assert d == ["r"] || d == d1 || d == d2;
    }
  }

  lemma ClashWalkListings(n1: string, n2: string, g1: string, i: FileInfo, j: FileInfo)
    requires ClashNames(n1, n2, g1)
    ensures forall k :: 0 <= k < 3 ==>
      Enumerates(ClashWalk(n1, n2, g1)[k].files, FilesIn(ClashOrganised(n1, n2, g1, i, j), ClashWalk(n1, n2, g1)[k].dir))
      && Enumerates(ClashWalk(n1, n2, g1)[k].subdirs, ChildDirs(ClashOrganised(n1, n2, g1, i, j), ClashWalk(n1, n2, g1)[k].dir))
  {
    var t := ClashOrganised(n1, n2, g1, i, j);
    var d1, d2 := ["r", g1], ["r", n1];
    var f1, f2 := ["r", g1, n1], ["r", n1, n2];
    assert d1 != d2;
    assert Parent(f1) == d1 && Parent(f2) == d2;
    forall p | p in FilesIn(t, d1) ensures p == f1 {
      assert p == f1 || p == f2;
    }
    forall p | p in FilesIn(t, d2) ensures p == f2 {
      assert p == f1 || p == f2;
    }
    forall p | p in t.files ensures Parent(p) != ["r"] {
      assert p == f1 || p == f2;
    }
    assert d1 in ChildDirs(t, ["r"]) && d2 in ChildDirs(t, ["r"]);
    forall e | e in ChildDirs(t, ["r"]) ensures e == d1 || e == d2 {
      assert e == [] || e == ["r"] || e == d1 || e == d2;
    }
    forall e | e in t.dirs && e != [] ensures Parent(e) != d1 && Parent(e) != d2 {
      assert e == ["r"] || e == d1 || e == d2;
    }
  }

  lemma ClashWalkIsBottomUp(n1: string, n2: string, g1: string, i: FileInfo, j: FileInfo)
    requires ClashNames(n1, n2, g1)
    ensures IsBottomUpWalk(ClashWalk(n1, n2, g1), ClashOrganised(n1, n2, g1, i, j), ["r"])
  {
    ClashWalkDirs(n1, n2, g1, i, j);
    ClashWalkListings(n1, n2, g1, i, j);
    var w := ClashWalk(n1, n2, g1);
    assert ["r", g1] != ["r", n1];
  }

  /** Visiting r/<g1>: its file cannot move up, since r/<n1> exists. */
  lemma ClashFirstVisit(n1: string, n2: string, g1: string, i: FileInfo, j: FileInfo)
    requires ClashNames(n1, n2, g1)
    ensures VisitStep(ClashOrganised(n1, n2, g1, i, j), {}, ["r"], ClashWalk(n1, n2, g1)[0])
         == ClashOrganised(n1, n2, g1, i, j)
  {
    var t := ClashOrganised(n1, n2, g1, i, j);
    var d1, d2, f1 := ["r", g1], ["r", n1], ["r", g1, n1];
    MoveOneUp(t, ["r"], d1, f1);
    assert Last(f1) == n1 && ["r"] + [Last(f1)] == d2 && Exists(t, d2);
  }

  /** Visiting r/<n1>: its file moves up to r/<n2>. */
  lemma ClashSecondVisit(n1: string, n2: string, g1: string, i: FileInfo, j: FileInfo)
    requires ClashNames(n1, n2, g1)
    ensures VisitStep(ClashOrganised(n1, n2, g1, i, j), {}, ["r"], ClashWalk(n1, n2, g1)[1])
         == ClashOrganised(n1, n2, g1, i, j).(files := map[["r", g1, n1] := i, ["r", n2] := j])
  {
    var t := ClashOrganised(n1, n2, g1, i, j);
    var d1, d2 := ["r", g1], ["r", n1];
    var f1, f2, back := ["r", g1, n1], ["r", n1, n2], ["r", n2];
    MoveOneUp(t, ["r"], d2, f2);
    assert Last(f2) == n2 && ["r"] + [Last(f2)] == back;
    assert back != d1 && back != d2 && back != f1;
    assert Renamed(t, f2, back) == t.(files := map[f1 := i, back := j]);
  }

  /** Visiting r: r/<g1> still holds a file and stays, r/<n1> is empty and goes. */
  lemma ClashLastVisit(n1: string, n2: string, g1: string, i: FileInfo, j: FileInfo)
    requires ClashNames(n1, n2, g1)
    ensures VisitStep(ClashOrganised(n1, n2, g1, i, j).(files := map[["r", g1, n1] := i, ["r", n2] := j]),
                      {}, ["r"], ClashWalk(n1, n2, g1)[2])
         == ClashFlattened(n1, n2, g1, i, j)
  {
    var s2 := ClashOrganised(n1, n2, g1, i, j).(files := map[["r", g1, n1] := i, ["r", n2] := j]);
    var d1, d2 := ["r", g1], ["r", n1];
    var f1, back := ["r", g1, n1], ["r", n2];
    assert !IsEmptyDir(s2, d1) by { assert Parent(f1) == d1; }
    forall p | p in s2.files ensures p == [] || Parent(p) != d2 {
      assert p == f1 || p == back;
    }
    forall e | e in s2.dirs ensures e == [] || Parent(e) != d2 {
      assert e == [] || e == ["r"] || e == d1 || e == d2;
    }
    assert IsEmptyDir(s2, d2);
    assert [d1, d2][..1] == [d1] && [d1][..0] == [];
    assert RemoveSubdirs(s2, {}, [d1]) == s2;
  }

  /**
   * Flattening the organised tree: r/<g1>/<n1> cannot move up while the
   * bucket folder r/<n1> exists, so it stays in its subfolder, and r/<g1>,
   * not empty, is not removed; r/<n1>/<n2> moves up and r/<n1> is removed.
   */
  lemma FlattenLeavesClashingFile(n1: string, n2: string, g1: string, i: FileInfo, j: FileInfo)
    requires ClashNames(n1, n2, g1)
    ensures IsBottomUpWalk(ClashWalk(n1, n2, g1), ClashOrganised(n1, n2, g1, i, j), ["r"])
    ensures FlattenRun(ClashOrganised(n1, n2, g1, i, j), {}, ["r"], ClashWalk(n1, n2, g1))
         == ClashFlattened(n1, n2, g1, i, j)
  {
    ClashWalkIsBottomUp(n1, n2, g1, i, j);
    var w := ClashWalk(n1, n2, g1);
    FlattenOfThree(ClashOrganised(n1, n2, g1, i, j), ["r"], w[0], w[1], w[2]);
    ClashFirstVisit(n1, n2, g1, i, j);
    ClashSecondVisit(n1, n2, g1, i, j);
    ClashLastVisit(n1, n2, g1, i, j);
  }

  /**
   * Organising r/pdf and r/a.pdf by extension and flattening the result
   * leaves r/no_extension/pdf in its subfolder: the round trip does not
   * bring every file back to the folder.
   */
  lemma OrganizeThenFlattenPdf(i: FileInfo, j: FileInfo)
    ensures Run(ClashBefore("pdf", "a.pdf", i, j), {}, ["r"], [["r", "pdf"], ["r", "a.pdf"]], ByExtension()).0
         == ClashOrganised("pdf", "a.pdf", "no_extension", i, j)
    ensures FlattenRun(ClashOrganised("pdf", "a.pdf", "no_extension", i, j), {}, ["r"], ClashWalk("pdf", "a.pdf", "no_extension"))
         == ClashFlattened("pdf", "a.pdf", "no_extension", i, j)
  {
    assert "a"[0] != '.' && "a" + "." + "pdf" == "a.pdf" && Lower("pdf") == "pdf";
    assert "" + "pdf" == "pdf";
    NoExtensionFolder("", "pdf", i, ByExtension());
    ExtensionFolderIsLoweredTail("a", "pdf", j, ByExtension());
    assert ClashNames("pdf", "a.pdf", "no_extension") by {
      assert |"pdf"| != |"a.pdf"| && |"no_extension"| != |"pdf"| && |"no_extension"| != |"a.pdf"|;
    }
    OrganizeNamesFolderAfterFile(ByExtension(), "pdf", "a.pdf", "no_extension", i, j);
    FlattenLeavesClashingFile("pdf", "a.pdf", "no_extension", i, j);
  }
}
