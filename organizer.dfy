/**
 * organize_files: snapshot the files of a folder (recursively or only its
 * top level), then move each one to root/<folder>/<basename>, where the
 * folder comes from the bucketing rule; skipped files stay, failed moves are
 * logged and the run goes on.
 */
module Organizer {
  import opened Wrappers
  import opened Classifier
  import opened FileTree

  /** What happened to one snapshotted path; Failed stands for the logged error message. */
  datatype Outcome = Moved(dst: Path) | Skipped | Failed | Missing

  /** The ValueError for a missing folder, and the error os.listdir raises on a regular file. */
  datatype OrganizeError = NotFound | NotADirectory

  /** The paths organize_files collects before moving anything. */
  function Snapshot(t: Tree, root: Path, recursive: bool): set<Path> {
    if recursive then FilesUnder(t, root) else FilesIn(t, root)
  }

  /**
   * One pass of the loop body for `src`: classify the file found there,
   * create root/<folder> when nothing exists at that path, and rename the
   * file to root/<folder>/<basename>.  A path that no longer holds a file is
   * Missing (`organize_files` would raise or skip it; MissingNeverHappens
   * rules it out).
   */
  function Step(t: Tree, locked: set<Path>, root: Path, src: Path, rule: Rule): (Tree, Outcome)
    requires OptionsFit(rule)
  {
    if src == [] || src !in t.files then (t, Missing)
    else
      match DestinationFolder(Last(src), t.files[src], true, rule)
      case None => (t, Skipped)
      case Some(folder) =>
        var target := root + [folder];
        var t1 := if Exists(t, target) then t else t.(dirs := t.dirs + {target});
        var dst := target + [Last(src)];
        if CanRename(t1, locked, src, dst) then (Renamed(t1, src, dst), Moved(dst)) else (t1, Failed)
  }

  /** The loop over the snapshot: the final tree and one outcome per snapshotted path. */
  function Run(t: Tree, locked: set<Path>, root: Path, items: seq<Path>, rule: Rule): (r: (Tree, seq<Outcome>))
    requires OptionsFit(rule)
    ensures |r.1| == |items|
    decreases |items|
  {
    if items == [] then (t, [])
    else
      var (t1, log) := Run(t, locked, root, items[..|items| - 1], rule);
      var (t2, o) := Step(t1, locked, root, items[|items| - 1], rule);
      (t2, log + [o])
  }

  /** A step only takes away the file it moves: every other file path stays occupied. */
  lemma StepKeepsOtherPaths(t: Tree, locked: set<Path>, root: Path, src: Path, rule: Rule, p: Path)
    requires OptionsFit(rule) && p in t.files && p != src
    ensures p in Step(t, locked, root, src, rule).0.files
  {
  }

  /** The loop body of organize_files for one snapshotted file. */
  method OrganizeOne(fs: FileSystem, root: Path, src: Path, rule: Rule) returns (o: Outcome)
    requires fs.Valid() && OptionsFit(rule) && src in fs.files && Under(root, src)
    modifies fs
    ensures fs.Valid()
    ensures (fs.View(), o) == Step(old(fs.View()), fs.locked, root, src, rule)
  {
    var folder := GetDestinationFolder(Last(src), fs.files[src], true, rule);
    if folder.None? {
      o := Skipped;
    } else {
      var target := root + [folder.value];
      if !(target in fs.files || target in fs.dirs) {
        AncestorIsDir(fs.View(), root, src);
        fs.MakeDirs(target);
      }
      var dst := target + [Last(src)];
      var ok := fs.Move(src, dst);
      o := if ok then Moved(dst) else Failed;
    }
  }

  /**
   * A run only ever adds files the rule has a folder for: every file of the
   * final tree is an original file with its original attributes, or one whose
   * name and attributes the rule sends somewhere.
   */
  lemma {:induction false} RunFilesOriginalOrClassified(t: Tree, locked: set<Path>, root: Path, items: seq<Path>, rule: Rule)
    requires OptionsFit(rule)
    ensures var t' := Run(t, locked, root, items, rule).0;
      forall p :: p in t'.files ==>
        (p in t.files && t'.files[p] == t.files[p]) || (p != [] && DestinationFolder(Last(p), t'.files[p], true, rule).Some?)
    decreases |items|
  {
    if items != [] {
      var prefix := items[..|items| - 1];
      RunFilesOriginalOrClassified(t, locked, root, prefix, rule);
      StepPlaces(Run(t, locked, root, prefix, rule).0, locked, root, items[|items| - 1], rule);
    }
  }

  /** Each path of a snapshot is a file below root. */
  lemma SnapshotBelowRoot(t: Tree, root: Path, recursive: bool, items: seq<Path>)
    requires Enumerates(items, Snapshot(t, root, recursive))
    ensures forall k :: 0 <= k < |items| ==> items[k] in t.files && Under(root, items[k])
  {
    forall k | 0 <= k < |items|
      ensures items[k] in t.files && Under(root, items[k])
    {
      assert items[k] in items;
      if !recursive {
        ChildIsUnder(items[k]);
      }
    }
  }

  /**
   * organize_files.  The folder must exist; without recursion it must be a
   * directory.  The snapshot is taken before anything moves, each snapshotted
   * path is handled exactly once, in snapshot order, and an empty snapshot
   * leaves the filesystem as it was.
   */
  method OrganizeFiles(fs: FileSystem, root: Path, rule: Rule, recursive: bool)
      returns (err: Option<OrganizeError>, items: seq<Path>, log: seq<Outcome>)
    requires fs.Valid() && OptionsFit(rule)
    modifies fs
    ensures fs.Valid()
    ensures !Exists(old(fs.View()), root) ==> err == Some(NotFound) && fs.View() == old(fs.View())
    ensures Exists(old(fs.View()), root) && root !in old(fs.dirs) && !recursive
        ==> err == Some(NotADirectory) && fs.View() == old(fs.View())
    ensures err.None? <==> Exists(old(fs.View()), root) && (recursive || root in old(fs.dirs))
    ensures err.None? ==> Enumerates(items, Snapshot(old(fs.View()), root, recursive))
    ensures err.None? ==> (fs.View(), log) == Run(old(fs.View()), fs.locked, root, items, rule)
    ensures err.None? && items == [] ==> fs.View() == old(fs.View())
  {
    var t0 := fs.View();
    items, log := [], [];
    if !(root in fs.files || root in fs.dirs) {
      return Some(NotFound), items, log;
    }
    if recursive {
      items := Enumerate(FilesUnder(fs.View(), root));
    } else {
      if root !in fs.dirs {
        return Some(NotADirectory), items, log;
      }
      items := Enumerate(FilesIn(fs.View(), root));
    }
    err := None;
    if items == [] {
      return;
    }
    SnapshotBelowRoot(t0, root, recursive, items);
    log := OrganizeAll(fs, root, items, rule);
  }

  /** The loop of organize_files over the snapshot, one OrganizeOne per path. */
  method OrganizeAll(fs: FileSystem, root: Path, items: seq<Path>, rule: Rule) returns (log: seq<Outcome>)
    requires fs.Valid() && OptionsFit(rule)
    requires forall i, j :: 0 <= i < j < |items| ==> items[i] != items[j]
    requires forall k :: 0 <= k < |items| ==> items[k] in fs.files && Under(root, items[k])
    modifies fs
    ensures fs.Valid()
    ensures (fs.View(), log) == Run(old(fs.View()), fs.locked, root, items, rule)
  {
    var t0 := fs.View();
    log := [];
    var i := 0;
    while i < |items|
      invariant 0 <= i <= |items|
      invariant fs.Valid()
      invariant (fs.View(), log) == Run(t0, fs.locked, root, items[..i], rule)
      invariant forall k :: i <= k < |items| ==> items[k] in fs.files
    {
      var src := items[i];
      assert items[..i + 1][..i] == items[..i];
      ghost var before := fs.View();
      var o := OrganizeOne(fs, root, src, rule);
      log := log + [o];
      forall k | i + 1 <= k < |items|
        ensures items[k] in fs.files
      {
        StepKeepsOtherPaths(before, fs.locked, root, src, rule, items[k]);
      }
      i := i + 1;
    }
    assert items[..i] == items;
  }

  // ---------------------------------------------------------------------
  // What a run promises
  // ---------------------------------------------------------------------

  /** `p` is root/<folder>/<basename> where <folder> is what the rule picks for the file now at `p`. */
  predicate Placed(t: Tree, root: Path, rule: Rule, p: Path)
    requires OptionsFit(rule)
  {
    p in t.files && |p| == |root| + 2 && p[..|root|] == root
    && DestinationFolder(Last(p), t.files[p], true, rule) == Some(p[|root|])
  }

  lemma StepWellFormed(t: Tree, locked: set<Path>, root: Path, src: Path, rule: Rule)
    requires OptionsFit(rule) && WellFormed(t) && Under(root, src)
    ensures WellFormed(Step(t, locked, root, src, rule).0)
  {
    if src in t.files {
      var folder := DestinationFolder(Last(src), t.files[src], true, rule);
      if folder.Some? {
        var target := root + [folder.value];
        AncestorIsDir(t, root, src);
        assert Parent(target) == root;
        var t1 := if Exists(t, target) then t else t.(dirs := t.dirs + {target});
        assert WellFormed(t1);
        var dst := target + [Last(src)];
        if CanRename(t1, locked, src, dst) {
          RenamedWellFormed(t1, locked, src, dst);
        }
      }
    }
  }

  /** A run over paths below root keeps the filesystem well formed. */
  lemma {:induction false} RunWellFormed(t: Tree, locked: set<Path>, root: Path, items: seq<Path>, rule: Rule)
    requires OptionsFit(rule) && WellFormed(t)
    requires forall k :: 0 <= k < |items| ==> Under(root, items[k])
    ensures WellFormed(Run(t, locked, root, items, rule).0)
    decreases |items|
  {
    if items != [] {
      var prefix := items[..|items| - 1];
      RunWellFormed(t, locked, root, prefix, rule);
      StepWellFormed(Run(t, locked, root, prefix, rule).0, locked, root, items[|items| - 1], rule);
    }
  }

  /**
   * Nothing outside root changes, directories are only ever added, and each
   * one added is a folder directly inside root.
   */
  lemma {:induction false} RunStaysInsideRoot(t: Tree, locked: set<Path>, root: Path, items: seq<Path>, rule: Rule)
    requires OptionsFit(rule)
    requires forall k :: 0 <= k < |items| ==> Under(root, items[k])
    ensures var t' := Run(t, locked, root, items, rule).0;
      && (forall p :: !Under(root, p) ==> (p in t'.files <==> p in t.files) && (p in t'.dirs <==> p in t.dirs))
      && (forall p :: !Under(root, p) && p in t.files ==> t'.files[p] == t.files[p])
      && t.dirs <= t'.dirs
      && (forall d :: d in t'.dirs && d !in t.dirs ==> d != [] && Parent(d) == root)
    decreases |items|
  {
    if items != [] {
      var prefix := items[..|items| - 1];
      RunStaysInsideRoot(t, locked, root, prefix, rule);
      var s := Run(t, locked, root, prefix, rule).0;
      var src := items[|items| - 1];
      if src in s.files {
        var folder := DestinationFolder(Last(src), s.files[src], true, rule);
        if folder.Some? {
          var target := root + [folder.value];
          var dst := target + [Last(src)];
          assert Under(root, target) && Parent(target) == root;
          assert Under(root, dst) by {
            assert dst[..|root|] == root;
          }
        }
      }
    }
  }

  /** No step adds a file: moves can only overwrite. */
  lemma {:induction false} RunNeverAddsFiles(t: Tree, locked: set<Path>, root: Path, items: seq<Path>, rule: Rule)
    requires OptionsFit(rule)
    ensures |Run(t, locked, root, items, rule).0.files| <= |t.files|
    decreases |items|
  {
    if items != [] {
      var prefix := items[..|items| - 1];
      RunNeverAddsFiles(t, locked, root, prefix, rule);
      var s := Run(t, locked, root, prefix, rule).0;
      var src := items[|items| - 1];
      if src != [] && src in s.files {
        var folder := DestinationFolder(Last(src), s.files[src], true, rule);
        if folder.Some? {
          var target := root + [folder.value];
          var t1 := if Exists(s, target) then s else s.(dirs := s.dirs + {target});
          RenamedCount(t1, src, target + [Last(src)]);
        }
      }
    }
  }

  /** A path that is in the tree and not in the snapshot is still occupied after the run. */
  lemma {:induction false} RunKeepsUnlisted(t: Tree, locked: set<Path>, root: Path, items: seq<Path>, rule: Rule, p: Path)
    requires OptionsFit(rule) && p in t.files && p !in items
    ensures p in Run(t, locked, root, items, rule).0.files
    decreases |items|
  {
    if items != [] {
      var prefix := items[..|items| - 1];
      assert p !in prefix;
      RunKeepsUnlisted(t, locked, root, prefix, rule, p);
      StepKeepsOtherPaths(Run(t, locked, root, prefix, rule).0, locked, root, items[|items| - 1], rule, p);
    }
  }

  /**
   * A file outside the snapshot keeps its attributes too, unless it sits at
   * a path of the form root/<folder>/<name>, where a move can replace it.
   */
  lemma {:induction false} RunKeepsUnlistedIntact(t: Tree, locked: set<Path>, root: Path, items: seq<Path>, rule: Rule, p: Path)
    requires OptionsFit(rule) && p in t.files && p !in items
    requires !(|p| == |root| + 2 && p[..|root|] == root)
    ensures p in Run(t, locked, root, items, rule).0.files
    ensures Run(t, locked, root, items, rule).0.files[p] == t.files[p]
    decreases |items|
  {
    if items != [] {
      var prefix := items[..|items| - 1];
      var src := items[|items| - 1];
      assert p !in prefix && p != src;
      RunKeepsUnlistedIntact(t, locked, root, prefix, rule, p);
      var s := Run(t, locked, root, prefix, rule).0;
      StepKeepsOtherPaths(s, locked, root, src, rule, p);
      var (s2, o) := Step(s, locked, root, src, rule);
      if src != [] && src in s.files {
        var folder := DestinationFolder(Last(src), s.files[src], true, rule);
        if folder.Some? {
          var dst := root + [folder.value, Last(src)];
          assert |dst| == |root| + 2 && dst[..|root|] == root;
          assert p != dst;
        }
      }
    }
  }

  /**
   * The snapshot is taken before any move and every path in it is handled
   * once, so each handled path still holds a file: no outcome is Missing.
   */
  lemma {:induction false} MissingNeverHappens(t: Tree, locked: set<Path>, root: Path, items: seq<Path>, rule: Rule)
    requires OptionsFit(rule) && WellFormed(t)
    requires forall i, j :: 0 <= i < j < |items| ==> items[i] != items[j]
    requires forall k :: 0 <= k < |items| ==> items[k] in t.files
    ensures forall k :: 0 <= k < |items| ==> Run(t, locked, root, items, rule).1[k] != Missing
    decreases |items|
  {
    if items != [] {
      var prefix := items[..|items| - 1];
      var src := items[|items| - 1];
      MissingNeverHappens(t, locked, root, prefix, rule);
      assert src !in prefix && src != [];
      RunKeepsUnlisted(t, locked, root, prefix, rule, src);
      var (s, log) := Run(t, locked, root, prefix, rule);
      var (s2, o) := Step(s, locked, root, src, rule);
      assert Run(t, locked, root, items, rule).1 == log + [o];
      assert o != Missing;
    }
  }

  /**
   * Where the file now at `p` stands after a run over `items` with outcomes
   * `log`: placed by the rule, or at a snapshotted path whose move did not
   * happen, or an original file outside the snapshot with its attributes.
   */
  ghost predicate Accounted(t: Tree, t': Tree, root: Path, rule: Rule, items: seq<Path>, log: seq<Outcome>, p: Path)
    requires OptionsFit(rule) && |log| == |items| && p in t'.files
  {
    || Placed(t', root, rule, p)
    || (exists k :: 0 <= k < |items| && items[k] == p && !log[k].Moved?)
    || (p in t.files && p !in items && t'.files[p] == t.files[p])
  }

  /** A moved file is placed, and every other file of the new tree was there before, unchanged. */
  lemma StepPlaces(s: Tree, locked: set<Path>, root: Path, src: Path, rule: Rule)
    requires OptionsFit(rule)
    ensures var (s2, o) := Step(s, locked, root, src, rule);
      && (o.Moved? ==> Placed(s2, root, rule, o.dst))
      && (forall p :: p in s2.files && !(o.Moved? && p == o.dst) ==> p in s.files && s2.files[p] == s.files[p])
      && (o.Moved? && src != o.dst ==> src !in s2.files)
  {
    var (s2, o) := Step(s, locked, root, src, rule);
    if o.Moved? {
      var folder := DestinationFolder(Last(src), s.files[src], true, rule).value;
      var p := o.dst;
      assert p == root + [folder] + [Last(src)];
      assert p[..|root|] == root && p[|root|] == folder && Last(p) == Last(src);
    }
  }

  /**
   * Where every file ends up: after a run each file is either placed in the
   * folder the rule picks for it, or sits at a snapshotted path whose move
   * was skipped or failed, or is an untouched file that was not snapshotted.
   */
  lemma {:induction false} RunPlacesFiles(t: Tree, locked: set<Path>, root: Path, items: seq<Path>, rule: Rule)
    requires OptionsFit(rule)
    ensures forall p :: p in Run(t, locked, root, items, rule).0.files ==>
      Accounted(t, Run(t, locked, root, items, rule).0, root, rule, items, Run(t, locked, root, items, rule).1, p)
    decreases |items|
  {
    if items != [] {
      var prefix := items[..|items| - 1];
      var src := items[|items| - 1];
      RunPlacesFiles(t, locked, root, prefix, rule);
      var (s, log) := Run(t, locked, root, prefix, rule);
      var (s2, o) := Step(s, locked, root, src, rule);
      assert Run(t, locked, root, items, rule) == (s2, log + [o]);
      StepPlaces(s, locked, root, src, rule);
      forall p | p in s2.files
        ensures Accounted(t, s2, root, rule, items, log + [o], p)
      {
        AccountedStep(t, root, rule, items, s, log, s2, o, p);
      }
    }
  }

  /** One more step keeps a file that was accounted for accounted for. */
  lemma AccountedStep(t: Tree, root: Path, rule: Rule, items: seq<Path>, s: Tree, log: seq<Outcome>, s2: Tree, o: Outcome, p: Path)
    requires OptionsFit(rule) && items != [] && |log| == |items| - 1
    requires o.Moved? ==> Placed(s2, root, rule, o.dst)
    requires p in s2.files
    requires !(o.Moved? && p == o.dst) ==> p in s.files && s2.files[p] == s.files[p]
    requires p in s.files ==> Accounted(t, s, root, rule, items[..|items| - 1], log, p)
    requires o.Moved? && items[|items| - 1] != o.dst ==> items[|items| - 1] !in s2.files
    ensures Accounted(t, s2, root, rule, items, log + [o], p)
  {
    var prefix := items[..|items| - 1];
    var log2 := log + [o];
    if !(o.Moved? && p == o.dst) {
      if exists k :: 0 <= k < |prefix| && prefix[k] == p && !log[k].Moved? {
        var k :| 0 <= k < |prefix| && prefix[k] == p && !log[k].Moved?;
        assert items[k] == p && log2[k] == log[k];
      } else if p == items[|items| - 1] {
        assert log2[|items| - 1] == o;
      } else {
        assert items == prefix + [items[|items| - 1]];
      }
    }
  }

  /**
   * One step: a skipped file leaves the tree untouched; a moved file lands at
   * root/<folder>/<basename> with its attributes and leaves its old path; a
   * failed move leaves every file where it was.
   */
  lemma StepOutcomes(t: Tree, locked: set<Path>, root: Path, src: Path, rule: Rule)
    requires OptionsFit(rule) && src != [] && src in t.files
    ensures var (t', o) := Step(t, locked, root, src, rule);
      var folder := DestinationFolder(Last(src), t.files[src], true, rule);
      && (o == Skipped <==> folder.None?)
      && (o == Skipped ==> t' == t)
      && (o.Moved? ==> folder.Some? && o.dst == root + [folder.value, Last(src)]
                       && o.dst in t'.files && t'.files[o.dst] == t.files[src]
                       && (src != o.dst ==> src !in t'.files))
      && (o == Failed ==> t'.files == t.files)
      && o != Missing
  {
    var folder := DestinationFolder(Last(src), t.files[src], true, rule);
    if folder.Some? {
      assert root + [folder.value] + [Last(src)] == root + [folder.value, Last(src)];
    }
  }

  /** When the rule picks a folder for every name, no outcome is Skipped. */
  lemma {:induction false} NoSkipsWhenRuleNeverSkips(t: Tree, locked: set<Path>, root: Path, items: seq<Path>, rule: Rule)
    requires OptionsFit(rule)
    requires forall name, info :: DestinationFolder(name, info, true, rule).Some?
    ensures forall k :: 0 <= k < |items| ==> Run(t, locked, root, items, rule).1[k] != Skipped
    decreases |items|
  {
    if items != [] {
      var prefix := items[..|items| - 1];
      NoSkipsWhenRuleNeverSkips(t, locked, root, prefix, rule);
      var (s, log) := Run(t, locked, root, prefix, rule);
      var (s2, o) := Step(s, locked, root, items[|items| - 1], rule);
      assert Run(t, locked, root, items, rule).1 == log + [o];
    }
  }

  /**
   * A recursive run in which every move succeeded leaves every file below
   * root at root/<folder>/<basename> for the folder the rule picks for it.
   */
  lemma AllPlacedWhenAllMoved(t: Tree, locked: set<Path>, root: Path, items: seq<Path>, rule: Rule)
    requires OptionsFit(rule) && Enumerates(items, FilesUnder(t, root))
    requires forall k :: 0 <= k < |items| ==> Run(t, locked, root, items, rule).1[k].Moved?
    ensures var t' := Run(t, locked, root, items, rule).0;
      forall p :: p in t'.files && Under(root, p) ==> Placed(t', root, rule, p)
  {
    RunPlacesFiles(t, locked, root, items, rule);
    var t' := Run(t, locked, root, items, rule).0;
    forall p | p in t'.files && Under(root, p)
      ensures Placed(t', root, rule, p)
    {
      assert Accounted(t, t', root, rule, items, Run(t, locked, root, items, rule).1, p);
      if p in t.files {
        assert p in FilesUnder(t, root);
      }
    }
  }

  /**
   * Organising by extension without an allow-list: at the end every file
   * below root sits in root/<its lower-cased extension, or no_extension>/,
   * except the files whose move failed, which stay where they were.
   */
  lemma ExtensionRunPlacesEveryFile(t: Tree, locked: set<Path>, root: Path, items: seq<Path>, rule: Rule)
    requires rule.criterion == FileExtension && !Truthy(rule.options)
    requires WellFormed(t) && Enumerates(items, FilesUnder(t, root))
    ensures var (t', log) := Run(t, locked, root, items, rule);
      forall p :: p in t'.files && Under(root, p) ==>
        || Placed(t', root, rule, p)
        || (exists k :: 0 <= k < |items| && items[k] == p && log[k] == Failed)
  {
    forall name, info
      ensures DestinationFolder(name, info, true, rule).Some?
    {
      ExtensionSkipIff(name, info, true, rule);
    }
    RunPlacesFiles(t, locked, root, items, rule);
    NoSkipsWhenRuleNeverSkips(t, locked, root, items, rule);
    assert forall k :: 0 <= k < |items| ==> items[k] in FilesUnder(t, root);
    MissingNeverHappens(t, locked, root, items, rule);
    var t' := Run(t, locked, root, items, rule).0;
    forall p | p in t'.files && Under(root, p) && p in t.files
      ensures p in items
    {
      assert p in FilesUnder(t, root);
    }
    forall p | p in t'.files
      ensures Accounted(t, t', root, rule, items, Run(t, locked, root, items, rule).1, p)
    {
    }
  }

  /**
   * Organising by extension: a snapshotted file that the rule skips (its
   * extension is left out of a non-empty allow-list) is never moved and
   * never overwritten; it keeps its path and its attributes.
   */
  lemma {:induction false} ExtensionSkippedStayPut(t: Tree, locked: set<Path>, root: Path, items: seq<Path>, rule: Rule)
    requires rule.criterion == FileExtension
    requires forall i, j :: 0 <= i < j < |items| ==> items[i] != items[j]
    requires forall k :: 0 <= k < |items| ==> items[k] in t.files && items[k] != []
    ensures forall k :: 0 <= k < |items| && DestinationFolder(Last(items[k]), t.files[items[k]], true, rule).None? ==>
      SkippedAndKept(t, Run(t, locked, root, items, rule), items, k)
    decreases |items|
  {
    if items != [] {
      var prefix := items[..|items| - 1];
      assert forall k :: 0 <= k < |prefix| ==> prefix[k] == items[k];
      ExtensionSkippedStayPut(t, locked, root, prefix, rule);
      SkippedStep(t, locked, root, items, rule);
    }
  }

  /** The file at items[k] was skipped and is still there, as it was in `t`. */
  ghost predicate SkippedAndKept(t: Tree, r: (Tree, seq<Outcome>), items: seq<Path>, k: int)
    requires 0 <= k < |items| && |r.1| == |items| && items[k] in t.files
  {
    r.1[k] == Skipped && items[k] in r.0.files && r.0.files[items[k]] == t.files[items[k]]
  }

  /** The step for the last snapshotted path keeps the skipped files of the earlier ones, and skips its own if the rule does. */
  lemma SkippedStep(t: Tree, locked: set<Path>, root: Path, items: seq<Path>, rule: Rule)
    requires rule.criterion == FileExtension && items != []
    requires forall i, j :: 0 <= i < j < |items| ==> items[i] != items[j]
    requires forall k :: 0 <= k < |items| ==> items[k] in t.files && items[k] != []
    requires var prefix := items[..|items| - 1];
      forall k :: 0 <= k < |prefix| && DestinationFolder(Last(prefix[k]), t.files[prefix[k]], true, rule).None? ==>
        SkippedAndKept(t, Run(t, locked, root, prefix, rule), prefix, k)
    ensures forall k :: 0 <= k < |items| && DestinationFolder(Last(items[k]), t.files[items[k]], true, rule).None? ==>
      SkippedAndKept(t, Run(t, locked, root, items, rule), items, k)
  {
    var prefix := items[..|items| - 1];
    forall k | 0 <= k < |items| && DestinationFolder(Last(items[k]), t.files[items[k]], true, rule).None?
      ensures SkippedAndKept(t, Run(t, locked, root, items, rule), items, k)
    {
      if k < |prefix| {
        assert prefix[k] == items[k];
        SkippedEarlierStays(t, locked, root, items, rule, k);
      } else {
        SkippedLast(t, locked, root, items, rule);
      }
    }
  }

  /** A file skipped earlier is neither moved nor overwritten by the last step. */
  lemma SkippedEarlierStays(t: Tree, locked: set<Path>, root: Path, items: seq<Path>, rule: Rule, k: nat)
    requires rule.criterion == FileExtension && k < |items| - 1
    requires forall k :: 0 <= k < |items| ==> items[k] in t.files && items[k] != []
    requires items[k] != items[|items| - 1]
    requires DestinationFolder(Last(items[k]), t.files[items[k]], true, rule).None?
    requires SkippedAndKept(t, Run(t, locked, root, items[..|items| - 1], rule), items[..|items| - 1], k)
    ensures SkippedAndKept(t, Run(t, locked, root, items, rule), items, k)
  {
    var prefix := items[..|items| - 1];
    var src := items[|items| - 1];
    var p := items[k];
    assert prefix[k] == p;
    var (s, log) := Run(t, locked, root, prefix, rule);
    var (s2, o) := Step(s, locked, root, src, rule);
    assert Run(t, locked, root, items, rule) == (s2, log + [o]);
    assert (log + [o])[k] == log[k];
    StepPlaces(s, locked, root, src, rule);
    StepKeepsOtherPaths(s, locked, root, src, rule, p);
    if o.Moved? {
      StepOutcomes(s, locked, root, src, rule);
      ExtensionIgnoresAttributes(Last(p), t.files[p], s.files[src], rule);
      assert Last(o.dst) == Last(src);
    }
  }

  /** The last snapshotted file, if the rule skips it, is skipped and stays as it was. */
  lemma SkippedLast(t: Tree, locked: set<Path>, root: Path, items: seq<Path>, rule: Rule)
    requires rule.criterion == FileExtension && items != []
    requires forall i, j :: 0 <= i < j < |items| ==> items[i] != items[j]
    requires forall k :: 0 <= k < |items| ==> items[k] in t.files && items[k] != []
    requires DestinationFolder(Last(items[|items| - 1]), t.files[items[|items| - 1]], true, rule).None?
    ensures SkippedAndKept(t, Run(t, locked, root, items, rule), items, |items| - 1)
  {
    var prefix := items[..|items| - 1];
    var src := items[|items| - 1];
    var (s, log) := Run(t, locked, root, prefix, rule);
    assert src !in prefix;
    RunKeepsUnlisted(t, locked, root, prefix, rule, src);
    RunFilesOriginalOrClassified(t, locked, root, prefix, rule);
    ExtensionIgnoresAttributes(Last(src), s.files[src], t.files[src], rule);
  }
}
