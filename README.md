# File organiser engine, modelled in Dafny

This project models the engine of a desktop file organiser: the three
functions of `src/organizer.py`.

- **`get_destination_folder`** is the bucketing rule. It picks the subfolder a
  file belongs in, or skips the file. It can bucket by a timestamp (year,
  month or day), by lower-cased extension with an optional allow-list, or by
  size. For size it uses the first matching user range, or three fixed
  buckets when no ranges are given.
- **`organize_files`** lists the files below a folder first, either
  recursively or only the top level. It then moves each file to
  `folder/<bucket>/<basename>`, creating the bucket folder when it is missing.
- **`move_files_to_parent`** flattens a folder. It walks the tree bottom-up,
  moves every file in a subdirectory up into the folder, and removes each
  subdirectory that has become empty.

## Modules

- `Dates` (dates.dfy) builds the `strftime` folder names `%Y`, `%Y-%m` and
  `%Y-%m-%d` from a date, zero-padded.
- `Classifier` (classifier.dfy) is the bucketing rule.
  - `DestinationFolder` is the rule as a pure function.
  - `GetDestinationFolder` is the method the organiser calls. It runs the
    size-range `for`/`break` loop as `MatchSizeRange`.
  - `ExtensionOf` follows `os.path.splitext(name)[1].lower().strip('.')`.
- `FileTree` (filetree.dfy) is the filesystem.
  - A `Tree` value holds a map from paths (lists of components) to file
    attributes, and a set of directories.
  - The class `FileSystem` holds the same state in fields. Its methods are
    the calls the organiser makes: `os.makedirs`, `shutil.move` to a file
    path, `shutil.move` into a directory, `os.rmdir`, and
    `os.walk(topdown=False)`. Each method is specified by a function on
    trees.
  - Paths whose move or removal the operating system refuses are the
    constant `locked`.
- `Organizer` (organizer.dfy) holds `organize_files`.
  - `OrganizeFiles` reports an error exactly when the folder is missing, or
    when it is a regular file in a run without recursion. Otherwise it is
    proved equal to the left fold `Run` of `Step` over the snapshot.
  - The lemmas describe where each file ends up.
- `Flattener` (flattener.dfy) holds `move_files_to_parent`.
  - `MoveFilesToParent` is proved equal to the fold `FlattenRun` over a
    bottom-up walk.
  - The lemmas show that no file is lost or changed, and that nothing outside
    the folder changes.
  - They also show that, when no refusal and no name clash stops it, the
    result is flat: every file sits directly in the folder and no
    subdirectory is left.
- `Workflow` (workflow.dfy) puts the two together. Organising a folder and
  flattening it again does not in general bring every file back into the
  folder. Two small trees show why, for every rule that buckets their names
  that way, and then for the extension criterion.

The order in which `os.walk` and `os.listdir` report entries is not fixed.
The snapshot is therefore any listing of the files, each listed once, and the
walk is any bottom-up walk. Every property is proved for all such orders.

## Model

| member | source | states |
|---|---|---|
| Dates.YearNameIff | src/organizer.py:50-51 | two valid dates get the same `%Y` folder exactly when their years are equal |
| Dates.MonthNameIff | src/organizer.py:52-53 | two valid dates get the same `%Y-%m` folder exactly when year and month are equal |
| Dates.DayNameIff | src/organizer.py:54-55 | two valid dates get the same `%Y-%m-%d` folder exactly when they are the same date |
| Dates.DigitsRoundTrip | src/organizer.py:51-55 | zero-padding a number to the strftime width loses nothing: parsing the digits gives the number back |
| Dates.DigitsInjective | src/organizer.py:51-55 | two numbers that fit the width have the same padded digits exactly when they are equal |
| Classifier.TimeFolderIff | src/organizer.py:49-57 | Yearly, Daily, and Monthly or absent or any other period give folders that coincide exactly when the dates share the year, the day, or the month |
| Classifier.TimeCriterionGroupsByPeriod | src/organizer.py:40-57 | under a time criterion no file is skipped, and two files share a folder exactly when the criterion's timestamps fall in the same period |
| Classifier.SameYearSameFolder | src/organizer.py:50-51 | with yearly buckets, two files share a folder exactly when their timestamps have the same year, whatever the month |
| Classifier.UnrecognisedIsCreationMonthly | src/organizer.py:85-89 | an unrecognised criterion gives the creation-time `%Y-%m` folder, whatever the options and period |
| Classifier.SplitExtAtLastDot | src/organizer.py:60 | splitext takes the text from the last dot when a non-dot character comes before that dot |
| Classifier.ExtensionAfterLastDot | src/organizer.py:60 | the extension of `stem.tail`, where tail has no dot and stem is not all dots, is the lower-cased tail |
| Classifier.ExtensionNoDot | src/organizer.py:60 | a name without a dot has the empty extension |
| Classifier.ExtensionHiddenFile | src/organizer.py:60 | a name whose only dots are leading ones, such as `.bashrc`, has the empty extension |
| Classifier.NameShapes | src/organizer.py:60-63 | every name has no dot and the empty extension, or has a last dot at some position k; its extension is then empty when only dots come before k, and the lower-cased text after k otherwise |
| Classifier.ExtensionExampleUpperCase | src/organizer.py:60-63 | `A.TXT` has extension `txt` |
| Classifier.ExtensionExampleHidden | src/organizer.py:60-63 | `.bashrc` has no extension |
| Classifier.ExtensionExampleTrailingDot | src/organizer.py:60-63 | `notes.` has no extension, because the dot is stripped |
| Classifier.ExtensionFolderIsLoweredTail | src/organizer.py:58-63 | without an allow-list, `stem.TAIL` goes to the folder named by the lower-cased tail |
| Classifier.NoExtensionFolder | src/organizer.py:63 | without an allow-list, a name with no dot or a hidden name goes to `no_extension` |
| Classifier.EmptyAllowListAllowsAll | src/organizer.py:58-65 | an empty allow-list acts as no list at all, for every name and file kind |
| Classifier.AllowListSkipsUnlisted | src/organizer.py:60-63 | with a non-empty allow-list, `stem.TAIL` is skipped exactly when the lower-cased tail is not listed, and goes to that tail's folder when it is |
| Classifier.ExtensionIgnoresAttributes | src/organizer.py:58-65 | under the extension criterion the folder depends on the name only, never on size or timestamps |
| Classifier.FirstMatchWins | src/organizer.py:70-74 | the first range in list order with `min <= size < max` gives the label, whatever later ranges overlap it |
| Classifier.FirstMatchNone | src/organizer.py:75-76 | the range search finds nothing exactly when no range holds the size |
| Classifier.MatchSizeRange | src/organizer.py:69-76 | the `for`/`break` loop with its `matched` flag returns the first-match label, or nothing |
| Classifier.DefaultSizeFolder | src/organizer.py:78-84 | `Small Files` exactly below 1 MiB, `Medium Files` exactly from 1 MiB to below 100 MiB, `Large Files` exactly from 100 MiB on, so the three buckets partition the sizes |
| Classifier.SizeFolderFirstMatch | src/organizer.py:66-74 | with size ranges given, the file goes to the label of the first range holding its size |
| Classifier.SizeFolderSkipIff | src/organizer.py:68-76 | with a non-empty range list, a file is skipped exactly when no range holds its size |
| Classifier.EmptyRangeListUsesDefaults | src/organizer.py:66-84 | an empty range list acts as no list at all: every file goes to its fixed size bucket |
| Classifier.DefaultSizeNeverSkips | src/organizer.py:77-84 | with no ranges, no file is skipped and each goes to one of the three fixed buckets |
| Classifier.FrontEndRangesExamples | src/gui.py:206-213 | with the front end's six ranges (`1 GB+` unbounded), 10 MiB goes to `5 - 50 MB` and 2 GiB to `1 GB+` |
| Classifier.GetDestinationFolder | src/organizer.py:39-91 | the imperative rule, with its range loop, returns what the rule function gives for every criterion |
| FileTree.RenamedCount | src/organizer.py:35 | a rename keeps the number of files, or loses one when it overwrites another file |
| FileTree.RenamedWellFormed | src/organizer.py:35 | a permitted rename leaves every file inside an existing directory |
| FileTree.RemoveDirWellFormed | src/organizer.py:107 | `os.rmdir` removes only an empty directory, so nothing is left without a parent |
| FileTree.Enumerate | src/organizer.py:11-20 | the listing loop lists each member of the set once and nothing else |
| FileTree.DeepestFirst | src/organizer.py:95 | lists each directory once, longer paths before shorter ones |
| FileTree.LongestFirstIsBottomUp | src/organizer.py:95 | a longest-first order visits every directory after all directories below it |
| FileTree.FileSystem.MakeDirs | src/organizer.py:31-32 | creates the missing bucket folder and changes nothing else |
| FileTree.FileSystem.Move | src/organizer.py:34-37 | succeeds exactly when the source is a permitted file and the target's parent is a directory and the target is not a directory; the new state is the rename, and a refusal changes nothing |
| FileTree.FileSystem.MoveInto | src/organizer.py:100 | moving into a directory succeeds exactly when nothing there has the file's name and the rename to that name is permitted; the new state is that rename, and a refusal changes nothing |
| FileTree.FileSystem.RemoveDir | src/organizer.py:106-109 | succeeds exactly on an empty, permitted directory; a refusal changes nothing |
| FileTree.FileSystem.WalkBottomUp | src/organizer.py:95 | lists every directory within the folder once, each with its files and subdirectories, every directory after those below it |
| Organizer.OrganizeFiles | src/organizer.py:6-37 | a missing folder raises and changes nothing; without recursion a regular file raises and changes nothing; there is no error in any other case, and then the snapshot lists each file once before any move, the new state is the fold of the steps over it, and an empty snapshot changes nothing |
| Organizer.OrganizeAll | src/organizer.py:25-37 | the loop runs one step per snapshotted path, in order, and goes on after a failed move |
| Organizer.OrganizeOne | src/organizer.py:26-37 | one loop pass: classify, create the bucket folder if missing, move |
| Organizer.SnapshotBelowRoot | src/organizer.py:10-20 | every snapshotted path is a file below the folder |
| Organizer.StepOutcomes | src/organizer.py:26-37 | a skipped file leaves the tree as it was; a moved file lands at `root/bucket/basename` with its attributes and leaves its old path; a failed move changes no file |
| Organizer.StepPlaces | src/organizer.py:30-35 | a moved file is placed where the rule says, and every other file is unchanged |
| Organizer.StepKeepsOtherPaths | src/organizer.py:34-35 | a step takes away no file other than the one it moves |
| Organizer.MissingNeverHappens | src/organizer.py:10-26 | because the snapshot is fixed first and each path is handled once, each path still holds a file when its turn comes |
| Organizer.RunWellFormed | src/organizer.py:25-37 | a run keeps every file and folder inside an existing directory |
| Organizer.RunStaysInsideRoot | src/organizer.py:25-37 | nothing outside the folder changes, directories are only added, and each added one sits directly in the folder |
| Organizer.RunNeverAddsFiles | src/organizer.py:34-35 | the number of files after a run is at most the number before: moves never create files, and an overwrite removes one |
| Organizer.RunKeepsUnlisted | src/organizer.py:25-37 | the path of a file outside the snapshot still holds a file after the run; a move can replace it with another file |
| Organizer.RunKeepsUnlistedIntact | src/organizer.py:25-37 | a file outside the snapshot keeps its path and attributes when its path is not of the form `root/<folder>/<name>`, the only form a move can write to |
| Organizer.RunPlacesFiles | src/organizer.py:25-37 | each final file is placed in the folder the rule picks for it, or sits at a snapshotted path whose move did not happen, or is an original file outside the snapshot with its attributes (size and dates) |
| Organizer.RunFilesOriginalOrClassified | src/organizer.py:25-35 | each final file is an original file with its attributes (size and dates), or a file the rule sends to some folder |
| Organizer.NoSkipsWhenRuleNeverSkips | src/organizer.py:26-28 | when the rule skips no file, no outcome is a skip |
| Organizer.AllPlacedWhenAllMoved | src/organizer.py:10-37 | in a recursive run where every move succeeds, every file below the folder ends at `root/bucket/basename` for its own bucket |
| Organizer.ExtensionRunPlacesEveryFile | src/organizer.py:10-37 | in a recursive run by extension without an allow-list, every file below the folder ends in its extension's folder, unless its move failed |
| Organizer.ExtensionSkippedStayPut | src/organizer.py:26-28 | by extension, a file the allow-list skips is logged as skipped and keeps its path and attributes (size and dates) to the end of the run |
| Organizer.SkippedEarlierStays | src/organizer.py:26-35 | a later move never overwrites a file skipped by extension, because a same-named file would be skipped too |
| Flattener.MoveFilesToParent | src/organizer.py:93-121 | with recursion the state becomes the fold of the visits over a bottom-up walk; without it the filesystem is unchanged, and a missing folder or a regular file raises |
| Flattener.VisitDirectory | src/organizer.py:96-109 | one visit: the file loop, which moves nothing when the directory is the folder itself, then the rmdir loop |
| Flattener.MoveIntoDirKept | src/organizer.py:100 | moving into the folder never overwrites: every file is kept, where it was or at `root/basename` |
| Flattener.FlattenKeepsEveryFile | src/organizer.py:95-109 | for every walk, each file ends where it was or at `root/basename` with its attributes (size and dates), no two files end at the same path, the number of files is unchanged, files directly in the folder stay as they are, any file not directly in the folder was there before, and no directory is created |
| Flattener.KeptIsBijection | src/organizer.py:96-102 | whenever a tree keeps the files of another, as every flatten does, each of its files is where exactly one original file went, with that file's attributes: no file is invented and none is lost |
| Flattener.FlattenWellFormed | src/organizer.py:103-109 | the flattened tree stays well formed: a directory is removed only when it is empty |
| Flattener.FlattenStaysInsideRoot | src/organizer.py:95-109 | nothing outside the folder changes |
| Flattener.MoveFilesUpMovesAll | src/organizer.py:96-102 | the files of a subdirectory, when their names are free in the folder and nothing is refused, all move up |
| Flattener.MoveFilesUpAtRoot | src/organizer.py:98 | the folder's own files are never moved |
| Flattener.RemoveSubdirsRemovesAll | src/organizer.py:104-109 | empty, permitted subdirectories are all removed and files are untouched |
| Flattener.VisitKeepsInvariant | src/organizer.py:95-109 | when nothing below the folder is refused, no two files below it share a basename, and no directory in it is named like one of them: after each visit, the visited directories other than the folder hold no files and no directories, and the directories still to come hold what they held |
| Workflow.OrganizeOverwritesSameName | src/organizer.py:25-35 | when the rule sends `r/a/<name>` and `r/b/<name>` to one bucket, a recursive run moves both to `r/<bucket>/<name>`, both moves succeed, and the second replaces the first: two files become one |
| Workflow.OrganizeOverwritesTxt | src/organizer.py:25-35 | by extension, `r/a/x.txt` and `r/b/x.txt` end as the single file `r/txt/x.txt`, the one moved last |
| Workflow.OrganizeNamesFolderAfterFile | src/organizer.py:25-35 | when the rule sends `r/<n1>` to bucket `<g1>` and `r/<n2>` to a bucket named `<n1>`, organising leaves `r/<g1>/<n1>` beside a new folder `r/<n1>` holding `<n2>` |
| Workflow.ClashWalkIsBottomUp | src/organizer.py:95 | the walk visiting `r/<g1>`, then `r/<n1>`, then `r` is a bottom-up walk of that organised tree |
| Workflow.FlattenLeavesClashingFile | src/organizer.py:95-109 | flattening that tree leaves `r/<g1>/<n1>` and its folder in place, because `r/<n1>` is still a directory when its move is tried; `<n2>` moves up and `r/<n1>` is removed |
| Workflow.OrganizeThenFlattenPdf | src/organizer.py:25-109 | by extension, organising `r/pdf` and `r/a.pdf` and then flattening gives back `r/a.pdf` but leaves `r/no_extension/pdf` in its subfolder |
| Flattener.Flattened | src/organizer.py:93-109 | with no refusals below the folder, no two files below it sharing a basename, and no directory in it named like one of them: afterwards every file below the folder sits directly in it, no subdirectory is left, the folder remains, and every file is kept |

## Left out

- The desktop front end (widgets, drag and drop, worker thread, file count) and the launcher are not part of this model. The front end's size-range table appears only as the example `FrontEndRangesExamples`, with its infinite upper bound written as an absent maximum.
- Turning timestamps into dates (`os.path.getctime`, `getmtime` and `getatime`, then `datetime.fromtimestamp`) depends on floating-point time and the local time zone. The dates are inputs of type `Date`. A file keeps its `created` date when it is moved. On POSIX systems a rename updates the inode change time, which `os.path.getctime` reads, so a second run by creation time can bucket a moved file by the time of the move.
- Error messages printed with `print` are not modelled. A failed move is the outcome `Failed` in the organiser, and an unchanged state in the flattener.
- `os.makedirs` failing (the source does not catch it) is not modelled. The bucket folder is created whenever nothing exists at its path and the folder is a directory.
- Operating-system refusals are a fixed set of paths, `locked`. Other transient failures are not modelled.
- FileSystem.Move: a move whose target path is an existing directory is modelled as a failed move. `shutil.move` would move the file into that directory instead.
- Moving onto an existing file replaces it. `os.rename` does this on POSIX systems. Where `os.rename` refuses, `shutil.move` copies the file and unlinks the source instead, with the same result.
- Bucket labels from user size ranges are single, ordinary path components. In the source, a label holding a path separator creates nested folders. A label `""` or `"."` moves files into the folder itself, and `".."` moves them into its parent, where `RunStaysInsideRoot` would not hold. The model treats each label as a new directory name instead.
- Classifier.ExtensionOf: lowering covers ASCII letters only. Python's `str.lower` also lowers other Unicode letters.
- Dates.YearName: years below 1000 are zero-padded to four digits. Some C libraries print them without padding.
- Classifier.DestinationFolder: the size criterion with a non-empty extension list makes the source raise. It raises a TypeError at the size comparison when an entry is three characters long, such as `txt`, and a ValueError while unpacking any other entry. The model requires (`OptionsFit`) that callers never pass such a list.
- Organizer.Step: a snapshotted path that no longer holds a file is the outcome `Missing`. In the source, the time and size criteria would raise when they query its attributes, and the extension criterion would skip it because `os.path.isfile` is false. `MissingNeverHappens` shows the case cannot occur.
- Organizer.ExtensionSkippedStayPut: "a skipped file stays where it was" is proved for the extension criterion only. With size ranges, a skipped file at `root/<label>/<name>` can be replaced by a later file of the same name that the rule moves there, so the property does not hold in general.
- Organising and then flattening is not a round trip in general, and the model proves no such property. Same-named files sent to one bucket overwrite each other when organised (`OrganizeOverwritesSameName`). A file stays in its subfolder when flattening if a bucket folder has its basename (`FlattenLeavesClashingFile`). Only `Flattened` gives the flat result, under its conditions.
- Flattener.Flattened: the flat result is proved under its three conditions (no refusals, unique basenames, no clashing directory). Without them the model still proves that every file is kept (`FlattenKeepsEveryFile`), but some files may stay where they were.
