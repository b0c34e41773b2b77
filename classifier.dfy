/**
 * The bucketing rule of the organiser (`get_destination_folder`): the name of
 * the subfolder a file goes to under the chosen criterion, or None when the
 * file is to be skipped.  The operating-system queries of
 * `get_destination_folder` (timestamps, size, "is it a regular file") arrive here as plain inputs.
 */
module Classifier {
  import opened Wrappers
  import opened Dates

  /** The criteria the organiser understands; any other selector is Unrecognised. */
  datatype Criterion =
    | CreationTime
    | ModifiedTime
    | LastAccessedTime
    | FileExtension
    | FileSize
    | Unrecognised

  /** Granularity of time buckets; Unlisted stands for any other period string. */
  datatype Period = Yearly | Monthly | Daily | Unlisted

  /** One user size range: files with `min <= size < max` go to folder `bucket`; a missing max is unbounded. */
  datatype SizeRange = SizeRange(bucket: string, min: int, max: Option<int>)

  /** The criterion-specific `options` argument: nothing, an extension allow-list, or size ranges. */
  datatype Options =
    | NoOptions
    | Extensions(allowed: seq<string>)
    | SizeRanges(ranges: seq<SizeRange>)

  /** Everything the caller chooses for one run. */
  datatype Rule = Rule(criterion: Criterion, options: Options, period: Option<Period>)

  /** What the classifier reads about a file: its size in bytes and its three timestamps as local dates. */
  datatype FileInfo = FileInfo(size: nat, created: Date, modified: Date, accessed: Date)

  /** Python truthiness of `options`: None and the empty list are false. */
  predicate Truthy(o: Options) {
    match o
    case NoOptions => false
    case Extensions(allowed) => allowed != []
    case SizeRanges(ranges) => ranges != []
  }

  /** `ext in options`: a string is never equal to a size-range tuple. */
  predicate Allows(o: Options, ext: string) {
    o.Extensions? && ext in o.allowed
  }

  /**
   * The size criterion unpacks every option as a (label, min, max) triple;
   * a non-empty extension list there makes `get_destination_folder` raise,
   * so callers never pass one.
   */
  predicate OptionsFit(rule: Rule) {
    rule.criterion == FileSize && Truthy(rule.options) ==> rule.options.SizeRanges?
  }

  // ---------------------------------------------------------------------
  // Extensions, as os.path.splitext(name)[1].lower().strip('.')
  // ---------------------------------------------------------------------

  /** Index of the last occurrence of `c` in `s`, or -1 (str.rfind). */
  function RFind(s: string, c: char): (i: int)
    ensures -1 <= i < |s|
    ensures i >= 0 ==> s[i] == c && c !in s[i + 1..]
    ensures i == -1 ==> c !in s
  {
    if s == [] then -1
    else if s[|s| - 1] == c then |s| - 1
    else
      var init := s[..|s| - 1];
      var r := RFind(init, c);
      assert s == init + [s[|s| - 1]];
      assert r >= 0 ==> s[r + 1..] == init[r + 1..] + [s[|s| - 1]];
      r
  }

  predicate AllDots(s: string) {
    forall i :: 0 <= i < |s| ==> s[i] == '.'
  }

  /**
   * The extension part of os.path.splitext for a file name (no separator):
   * the text from the last dot on, provided some character before that dot
   * is not a dot; leading dots of a name never start an extension.
   */
  function SplitExt(name: string): string {
    var dot := RFind(name, '.');
    if dot >= 0 && !AllDots(name[..dot]) then name[dot..] else ""
  }

  function LowerChar(c: char): char {
    if 'A' <= c <= 'Z' then (c as int - 'A' as int + 'a' as int) as char else c
  }

  /** str.lower restricted to ASCII letters. */
  function Lower(s: string): (r: string)
    ensures |r| == |s|
    ensures forall i :: 0 <= i < |s| ==> r[i] == LowerChar(s[i])
  {
    if s == [] then [] else [LowerChar(s[0])] + Lower(s[1..])
  }

  function StripLeadingDots(s: string): string {
    if s != [] && s[0] == '.' then StripLeadingDots(s[1..]) else s
  }

  function StripTrailingDots(s: string): string {
    if s != [] && s[|s| - 1] == '.' then StripTrailingDots(s[..|s| - 1]) else s
  }

  /** str.strip('.') */
  function StripDots(s: string): string {
    StripTrailingDots(StripLeadingDots(s))
  }

  /** The lower-cased extension without its dot, possibly empty. */
  function ExtensionOf(name: string): string {
    StripDots(Lower(SplitExt(name)))
  }

  lemma LowerNoDot(s: string)
    requires '.' !in s
    ensures '.' !in Lower(s)
  {
    assert forall i :: 0 <= i < |s| ==> Lower(s)[i] != '.';
  }

  /** Characters after the last occurrence do not move it. */
  lemma {:induction false} RFindPastTail(pre: string, tail: string, c: char)
    requires c !in tail
    ensures RFind(pre + tail, c) == RFind(pre, c)
  {
    if tail != [] {
      assert (pre + tail)[|pre + tail| - 1] == tail[|tail| - 1];
      assert (pre + tail)[..|pre + tail| - 1] == pre + tail[..|tail| - 1];
      RFindPastTail(pre, tail[..|tail| - 1], c);
    } else {
      assert pre + tail == pre;
    }
  }

  /** Stripping the dot of ".x" gives x when x holds no dot. */
  lemma StripOneDot(x: string)
    requires '.' !in x
    ensures StripDots("." + x) == x
  {
    assert ("." + x)[1..] == x;
    assert StripLeadingDots("." + x) == StripLeadingDots(x);
    if x != [] {
      assert x[0] != '.' && x[|x| - 1] != '.';
    }
  }

  lemma SplitExtAtLastDot(stem: string, tail: string)
    requires !AllDots(stem) && '.' !in tail
    ensures SplitExt(stem + "." + tail) == "." + tail
  {
    var pre := stem + ".";
    var name := stem + "." + tail;
    assert pre[|pre| - 1] == '.';
    RFindPastTail(pre, tail, '.');
    assert name == pre + tail;
    var dot := RFind(name, '.');
    assert dot == |stem|;
    assert name[..dot] == stem;
    assert name[dot..] == "." + tail;
  }

  /** A name split at its last dot, with a non-dot character before it, has the lower-cased tail as extension. */
  lemma ExtensionAfterLastDot(stem: string, tail: string)
    requires !AllDots(stem) && '.' !in tail
    ensures ExtensionOf(stem + "." + tail) == Lower(tail)
  {
    SplitExtAtLastDot(stem, tail);
    LowerNoDot(tail);
    assert Lower("." + tail) == "." + Lower(tail);
    StripOneDot(Lower(tail));
  }

  /** A name without a dot has no extension. */
  lemma ExtensionNoDot(name: string)
    requires '.' !in name
    ensures ExtensionOf(name) == ""
  {
  }

  /** A hidden name such as ".bashrc" (only dots before its last dot) has no extension. */
  lemma ExtensionHiddenFile(dots: string, tail: string)
    requires AllDots(dots) && '.' !in tail
    ensures ExtensionOf(dots + "." + tail) == ""
  {
    var name := dots + "." + tail;
    RFindPastTail(dots + ".", tail, '.');
    assert name == (dots + ".") + tail;
    var dot := RFind(name, '.');
    assert dot == |dots|;
    assert name[..dot] == dots;
  }

  /**
   * Every name falls under one of the three lemmas above: it has no dot and
   * no extension, or it has a last dot at some k, and its extension is ""
   * when only dots come before k and the lower-cased text after k otherwise.
   */
  lemma {:induction false} NameShapes(name: string)
    ensures || ('.' !in name && ExtensionOf(name) == "")
            || exists k :: 0 <= k < |name| && name[k] == '.' && '.' !in name[k + 1..]
                 && ExtensionOf(name) == (if AllDots(name[..k]) then "" else Lower(name[k + 1..]))
  {
    var dot := RFind(name, '.');
    if dot >= 0 {
      var stem, tail := name[..dot], name[dot + 1..];
      assert name[dot] == '.' && '.' !in tail;
      assert name == stem + "." + tail;
      if AllDots(stem) {
        ExtensionHiddenFile(stem, tail);
      } else {
        ExtensionAfterLastDot(stem, tail);
      }
    } else {
      ExtensionNoDot(name);
    }
  }

  // ---------------------------------------------------------------------
  // Sizes
  // ---------------------------------------------------------------------

  const MiB: nat := 1024 * 1024

  /** `min_size <= size < max_size` */
  predicate InRange(r: SizeRange, size: nat) {
    r.min <= size && (r.max.None? || size < r.max.value)
  }

  /** The label of the first range, in list order, that holds `size`. */
  function FirstMatch(ranges: seq<SizeRange>, size: nat): Option<string> {
    if ranges == [] then None
    else if InRange(ranges[0], size) then Some(ranges[0].bucket)
    else FirstMatch(ranges[1..], size)
  }

  /** The first range that holds the size wins, whatever later ranges overlap it. */
  lemma {:induction false} FirstMatchWins(ranges: seq<SizeRange>, size: nat, i: nat)
    requires i < |ranges| && InRange(ranges[i], size)
    requires forall j :: 0 <= j < i ==> !InRange(ranges[j], size)
    ensures FirstMatch(ranges, size) == Some(ranges[i].bucket)
  {
    if i > 0 {
      FirstMatchWins(ranges[1..], size, i - 1);
    }
  }

  /** The search comes back empty exactly when no range holds the size. */
  lemma {:induction false} FirstMatchNone(ranges: seq<SizeRange>, size: nat)
    ensures FirstMatch(ranges, size) == None <==> forall j :: 0 <= j < |ranges| ==> !InRange(ranges[j], size)
  {
    if ranges != [] {
      FirstMatchNone(ranges[1..], size);
      assert forall j :: 1 <= j < |ranges| ==> ranges[j] == ranges[1..][j - 1];
    }
  }

  /** The for/break loop over the ranges with its `matched` flag. */
  method MatchSizeRange(ranges: seq<SizeRange>, size: nat) returns (folder: Option<string>)
    ensures folder == FirstMatch(ranges, size)
  {
    var matched := false;
    folder := None;
    var i := 0;
    while i < |ranges|
      invariant 0 <= i <= |ranges|
      invariant !matched ==> folder == None && FirstMatch(ranges[i..], size) == FirstMatch(ranges, size)
      invariant matched ==> folder == FirstMatch(ranges, size)
    {
      var r := ranges[i];
      if r.min <= size && (r.max.None? || size < r.max.value) {
        folder := Some(r.bucket);
        matched := true;
        break;
      }
      assert ranges[i..][1..] == ranges[i + 1..];
      i := i + 1;
    }
    if !matched {
      folder := None;
    }
  }

  /** The three fixed buckets used when no ranges are given; they partition the sizes. */
  function DefaultSizeFolder(size: nat): (folder: string)
    ensures folder == "Small Files" <==> size < MiB
    ensures folder == "Medium Files" <==> MiB <= size < 100 * MiB
    ensures folder == "Large Files" <==> 100 * MiB <= size
  {
    if size < MiB then "Small Files"
    else if size < MiB * 100 then "Medium Files"
    else "Large Files"
  }

  // ---------------------------------------------------------------------
  // Time buckets
  // ---------------------------------------------------------------------

  /** The timestamp a time criterion reads; anything else reads the creation time. */
  function StampFor(c: Criterion, info: FileInfo): Date {
    match c
    case ModifiedTime => info.modified
    case LastAccessedTime => info.accessed
    case _ => info.created
  }

  /** The folder name of a date at a granularity; absent or unlisted periods are monthly. */
  function TimeFolder(d: Date, period: Option<Period>): string {
    match period
    case Some(Yearly) => YearName(d)
    case Some(Daily) => DayName(d)
    case _ => MonthName(d)
  }

  /** Calendar equivalence at a granularity, stated on the dates themselves. */
  predicate SamePeriod(d1: Date, d2: Date, period: Option<Period>) {
    match period
    case Some(Yearly) => d1.year == d2.year
    case Some(Daily) => d1 == d2
    case _ => d1.year == d2.year && d1.month == d2.month
  }

  /** Two dates get the same time folder exactly when they fall in the same period. */
  lemma TimeFolderIff(d1: Date, d2: Date, period: Option<Period>)
    requires ValidDate(d1) && ValidDate(d2)
    ensures TimeFolder(d1, period) == TimeFolder(d2, period) <==> SamePeriod(d1, d2, period)
  {
    match period
    case Some(Yearly) => YearNameIff(d1, d2);
    case Some(Daily) => DayNameIff(d1, d2);
    case _ => MonthNameIff(d1, d2);
  }

  // ---------------------------------------------------------------------
  // The rule
  // ---------------------------------------------------------------------

  predicate IsTimeCriterion(c: Criterion) {
    c == CreationTime || c == ModifiedTime || c == LastAccessedTime
  }

  /** get_destination_folder: the folder name for a file, or None to skip it. */
  function DestinationFolder(name: string, info: FileInfo, isFile: bool, rule: Rule): Option<string>
    requires OptionsFit(rule)
  {
    match rule.criterion
    case CreationTime => Some(TimeFolder(info.created, rule.period))
    case ModifiedTime => Some(TimeFolder(info.modified, rule.period))
    case LastAccessedTime => Some(TimeFolder(info.accessed, rule.period))
    case FileExtension =>
      if !isFile then None
      else
        var ext := ExtensionOf(name);
        if Truthy(rule.options) && !Allows(rule.options, ext) then None
        else Some(if ext == "" then "no_extension" else ext)
    case FileSize =>
      if Truthy(rule.options) then FirstMatch(rule.options.ranges, info.size)
      else Some(DefaultSizeFolder(info.size))
    case Unrecognised => Some(MonthName(info.created))
  }

  /**
   * The imperative form of get_destination_folder, running the size-range
   * loop; the organiser calls this one.
   */
  method GetDestinationFolder(name: string, info: FileInfo, isFile: bool, rule: Rule) returns (folder: Option<string>)
    requires OptionsFit(rule)
    ensures folder == DestinationFolder(name, info, isFile, rule)
  {
    match rule.criterion {
      case CreationTime =>
        folder := Some(TimeFolder(info.created, rule.period));
      case ModifiedTime =>
        folder := Some(TimeFolder(info.modified, rule.period));
      case LastAccessedTime =>
        folder := Some(TimeFolder(info.accessed, rule.period));
      case FileExtension =>
        if isFile {
          var ext := ExtensionOf(name);
          if Truthy(rule.options) && !Allows(rule.options, ext) {
            folder := None;
          } else {
            folder := Some(if ext == "" then "no_extension" else ext);
          }
        } else {
          folder := None;
        }
      case FileSize =>
        if Truthy(rule.options) {
          folder := MatchSizeRange(rule.options.ranges, info.size);
        } else {
          folder := Some(DefaultSizeFolder(info.size));
        }
      case Unrecognised =>
        folder := Some(MonthName(info.created));
    }
  }

  // ---------------------------------------------------------------------
  // What the rule promises
  // ---------------------------------------------------------------------

  /**
   * Under a time criterion no file is skipped, and two files share a folder
   * exactly when the criterion's timestamps fall in the same period.
   */
  lemma TimeCriterionGroupsByPeriod(n1: string, i1: FileInfo, n2: string, i2: FileInfo, isFile1: bool, isFile2: bool, rule: Rule)
    requires IsTimeCriterion(rule.criterion)
    requires ValidDate(StampFor(rule.criterion, i1)) && ValidDate(StampFor(rule.criterion, i2))
    ensures DestinationFolder(n1, i1, isFile1, rule).Some?
    ensures DestinationFolder(n1, i1, isFile1, rule) == DestinationFolder(n2, i2, isFile2, rule)
        <==> SamePeriod(StampFor(rule.criterion, i1), StampFor(rule.criterion, i2), rule.period)
  {
    TimeFolderIff(StampFor(rule.criterion, i1), StampFor(rule.criterion, i2), rule.period);
  }

  /** Yearly buckets: files from the same year share one folder whatever their month. */
  lemma SameYearSameFolder(n1: string, i1: FileInfo, n2: string, i2: FileInfo, rule: Rule)
    requires IsTimeCriterion(rule.criterion) && rule.period == Some(Yearly)
    requires ValidDate(StampFor(rule.criterion, i1)) && ValidDate(StampFor(rule.criterion, i2))
    ensures DestinationFolder(n1, i1, true, rule) == DestinationFolder(n2, i2, true, rule)
        <==> StampFor(rule.criterion, i1).year == StampFor(rule.criterion, i2).year
  {
    TimeCriterionGroupsByPeriod(n1, i1, n2, i2, true, true, rule);
  }

  /** An unrecognised criterion behaves as creation time with monthly buckets, whatever the period. */
  lemma UnrecognisedIsCreationMonthly(name: string, info: FileInfo, isFile: bool, rule: Rule)
    requires rule.criterion == Unrecognised
    ensures DestinationFolder(name, info, isFile, rule)
         == DestinationFolder(name, info, isFile, Rule(CreationTime, NoOptions, Some(Monthly)))
  {
  }

  /** Without an allow-list, a file named stem.TAIL goes to the lower-cased tail. */
  lemma ExtensionFolderIsLoweredTail(stem: string, tail: string, info: FileInfo, rule: Rule)
    requires rule.criterion == FileExtension && !Truthy(rule.options)
    requires !AllDots(stem) && '.' !in tail && tail != ""
    ensures DestinationFolder(stem + "." + tail, info, true, rule) == Some(Lower(tail))
  {
    ExtensionAfterLastDot(stem, tail);
  }

  /** Without an allow-list, a name with no dot, or a hidden name, goes to "no_extension". */
  lemma NoExtensionFolder(dots: string, tail: string, info: FileInfo, rule: Rule)
    requires rule.criterion == FileExtension && !Truthy(rule.options)
    requires '.' !in tail
    ensures '.' !in dots + tail ==> DestinationFolder(dots + tail, info, true, rule) == Some("no_extension")
    ensures AllDots(dots) ==> DestinationFolder(dots + "." + tail, info, true, rule) == Some("no_extension")
  {
    if '.' !in dots + tail {
      ExtensionNoDot(dots + tail);
    }
    if AllDots(dots) {
      ExtensionHiddenFile(dots, tail);
    }
  }

  /**
   * The skip rule of the extension criterion: a file is skipped exactly when
   * a non-empty allow-list leaves its extension out (or it is not a regular
   * file); otherwise its folder is its extension, or "no_extension".
   */
  lemma ExtensionSkipIff(name: string, info: FileInfo, isFile: bool, rule: Rule)
    requires rule.criterion == FileExtension
    ensures DestinationFolder(name, info, isFile, rule).None?
        <==> !isFile || (Truthy(rule.options) && !Allows(rule.options, ExtensionOf(name)))
    ensures DestinationFolder(name, info, isFile, rule).Some? ==>
        DestinationFolder(name, info, isFile, rule).value
          == if ExtensionOf(name) == "" then "no_extension" else ExtensionOf(name)
  {
  }

  /** An empty allow-list is falsy: it lets every extension through, exactly as no list at all. */
  lemma EmptyAllowListAllowsAll(name: string, info: FileInfo, isFile: bool, period: Option<Period>)
    ensures DestinationFolder(name, info, isFile, Rule(FileExtension, Extensions([]), period))
         == DestinationFolder(name, info, isFile, Rule(FileExtension, NoOptions, period))
  {
  }

  /** With a non-empty allow-list, stem.TAIL is skipped exactly when the lower-cased tail is not listed. */
  lemma AllowListSkipsUnlisted(stem: string, tail: string, info: FileInfo, allowed: seq<string>, period: Option<Period>)
    requires allowed != [] && !AllDots(stem) && '.' !in tail && tail != ""
    ensures DestinationFolder(stem + "." + tail, info, true, Rule(FileExtension, Extensions(allowed), period)).None?
        <==> Lower(tail) !in allowed
    ensures Lower(tail) in allowed
        ==> DestinationFolder(stem + "." + tail, info, true, Rule(FileExtension, Extensions(allowed), period)) == Some(Lower(tail))
  {
    ExtensionAfterLastDot(stem, tail);
  }

  /** Under the extension criterion the folder depends on the name alone, never on size or dates. */
  lemma ExtensionIgnoresAttributes(name: string, i1: FileInfo, i2: FileInfo, rule: Rule)
    requires rule.criterion == FileExtension
    ensures DestinationFolder(name, i1, true, rule) == DestinationFolder(name, i2, true, rule)
  {
  }

  /** With ranges given, the first range in list order that holds the size names the folder. */
  lemma SizeFolderFirstMatch(name: string, info: FileInfo, rule: Rule, i: nat)
    requires rule.criterion == FileSize && rule.options.SizeRanges?
    requires i < |rule.options.ranges| && InRange(rule.options.ranges[i], info.size)
    requires forall j :: 0 <= j < i ==> !InRange(rule.options.ranges[j], info.size)
    ensures DestinationFolder(name, info, true, rule) == Some(rule.options.ranges[i].bucket)
  {
    FirstMatchWins(rule.options.ranges, info.size, i);
  }

  /** With ranges given, a file is skipped exactly when no range holds its size. */
  lemma SizeFolderSkipIff(name: string, info: FileInfo, rule: Rule)
    requires rule.criterion == FileSize && rule.options.SizeRanges? && rule.options.ranges != []
    ensures DestinationFolder(name, info, true, rule).None?
        <==> forall j :: 0 <= j < |rule.options.ranges| ==> !InRange(rule.options.ranges[j], info.size)
  {
    FirstMatchNone(rule.options.ranges, info.size);
  }

  /** Without ranges, every file lands in exactly one of the three fixed buckets. */
  lemma DefaultSizeNeverSkips(name: string, info: FileInfo, rule: Rule)
    requires rule.criterion == FileSize && !Truthy(rule.options)
    ensures DestinationFolder(name, info, true, rule) == Some(DefaultSizeFolder(info.size))
    ensures DefaultSizeFolder(info.size) in {"Small Files", "Medium Files", "Large Files"}
  {
  }

  /** An empty range list is falsy: the three fixed buckets apply, exactly as with no list at all. */
  lemma EmptyRangeListUsesDefaults(name: string, info: FileInfo, period: Option<Period>)
    ensures DestinationFolder(name, info, true, Rule(FileSize, SizeRanges([]), period))
         == DestinationFolder(name, info, true, Rule(FileSize, NoOptions, period))
         == Some(DefaultSizeFolder(info.size))
  {
  }

  /** The size ranges the desktop front end offers; "1 GB+" has no upper bound. */
  function FrontEndSizeRanges(): seq<SizeRange> {
    [ SizeRange("0 - 5 MB", 0, Some(5 * MiB)),
      SizeRange("5 - 50 MB", 5 * MiB, Some(50 * MiB)),
      SizeRange("50 - 100 MB", 50 * MiB, Some(100 * MiB)),
      SizeRange("100 - 500 MB", 100 * MiB, Some(500 * MiB)),
      SizeRange("500 MB - 1 GB", 500 * MiB, Some(1024 * MiB)),
      SizeRange("1 GB+", 1024 * MiB, None) ]
  }

  /** A 10 MB file with the front end's ranges lands in the second bucket; a 2 GB file in the last. */
  lemma FrontEndRangesExamples()
    ensures FirstMatch(FrontEndSizeRanges(), 10 * MiB) == Some("5 - 50 MB")
    ensures FirstMatch(FrontEndSizeRanges(), 2048 * MiB) == Some("1 GB+")
  {
    FirstMatchWins(FrontEndSizeRanges(), 10 * MiB, 1);
    FirstMatchWins(FrontEndSizeRanges(), 2048 * MiB, 5);
  }

  /** Concrete extensions, as os.path.splitext and the lower/strip chain give them. */
  lemma ExtensionExampleUpperCase()
    ensures ExtensionOf("A.TXT") == "txt"
  {
    assert "A"[0] != '.';
    ExtensionAfterLastDot("A", "TXT");
    assert "A" + "." + "TXT" == "A.TXT";
    assert Lower("TXT") == "txt";
  }

  lemma ExtensionExampleHidden()
    ensures ExtensionOf(".bashrc") == ""
  {
    ExtensionHiddenFile("", "bashrc");
    assert "" + "." + "bashrc" == ".bashrc";
  }

  lemma ExtensionExampleTrailingDot()
    ensures ExtensionOf("notes.") == ""
  {
    assert "notes"[0] != '.';
    ExtensionAfterLastDot("notes", "");
    assert "notes" + "." + "" == "notes.";
  }
}
