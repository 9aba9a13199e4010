/**
 * rename_photos: every JPEG of a directory whose TIFF DateTime tag (tag
 * 306, "YYYY:MM:DD HH:MM:SS") can be read is renamed to
 * "YYYY-MM-DD-HH-MM" plus its suffix in lower case; a file that already
 * has that name is skipped; a file without EXIF data, without the tag, or
 * on which any step raises counts as an error and keeps its name. Each
 * file gets one log entry, and the run is framed by a start and a
 * summary entry.
 *
 * The directory listing, the EXIF reader and os.rename are inputs: each
 * file comes with what reading its EXIF data gives and whether renaming
 * it raises; the text of any exception is given with the file.
 */
module PhotoRenamer {
  import opened Wrappers
  import opened Text
  import opened PathNames
  import opened Chrono
  import opened LogBuffer

  /** The TIFF/EXIF tag number of DateTime. */
  const DateTimeTag := 306

  /** A value of the EXIF dictionary: a text, or some other value with its Python truth value. */
  datatype TagValue = TagText(text: string) | NonText(truthy: bool)

  /** What Image.open(f)._getexif() gives: an exception, None, or the tag dictionary. */
  datatype ExifData = Unreadable | NoExif | Tags(tags: map<int, TagValue>)

  /**
   * One file the glob yields: its name, its EXIF data, whether os.rename
   * raises for it, and the text of the exception raised while handling it.
   */
  datatype PhotoFile = PhotoFile(name: string, exif: ExifData, renameRaises: bool, errorText: string)

  datatype RenameOutcome =
    | Renamed(newName: string)
    | AlreadyNamed
    | MissingExif
    | MissingTimestamp
    | Failed(reason: string)

  /**
   * dt.strftime("%Y-%m-%d-%H-%M") + file_path.suffix.lower(): a name whose
   * stem is the formatted minute and whose suffix is the old suffix in
   * lower case.
   */
  function NewName(name: string, dt: DateTime): (r: string)
    requires Valid(dt)
    ensures Stem(r) == FormatStem(dt) && Suffix(r) == Lower(Suffix(name))
  {
    LowerSuffix(Suffix(name));
    StemSuffixOfJoin(FormatStem(dt), Lower(Suffix(name)));
    FormatStem(dt) + Lower(Suffix(name))
  }

  /** A suffix lower-cased is still a suffix: its one dot stays first. */
  lemma LowerSuffix(suf: string)
    requires suf == [] || (|suf| >= 2 && suf[0] == '.' && '.' !in suf[1..])
    ensures var low := Lower(suf); low == [] || (|low| >= 2 && low[0] == '.' && '.' !in low[1..])
  {
    LowerKeepsDots(suf);
    if suf != [] {
      assert forall i :: 1 <= i < |suf| ==> suf[i] == suf[1..][i - 1];
      assert forall i :: 1 <= i < |suf| ==> Lower(suf)[1..][i - 1] == Lower(suf)[i];
    }
  }

  /** The truth value of exif_data.get(306). */
  predicate HasTimestamp(tags: map<int, TagValue>)
  {
    DateTimeTag in tags &&
    match tags[DateTimeTag]
    case TagText(t) => t != []
    case NonText(truthy) => truthy
  }

  /** The date and time tag 306 holds, when it is a non-empty text strptime accepts. */
  function TimestampOf(f: PhotoFile): Option<DateTime>
  {
    match f.exif
    case Tags(tags) =>
      if HasTimestamp(tags) && tags[DateTimeTag].TagText? then ParseExifDateTime(tags[DateTimeTag].text) else None
    case _ => None
  }

  /**
   * The branch of the loop body a file takes. Only a file whose tag gives a
   * date and time can be renamed or skipped: it is skipped when the new name
   * is the one it has, and renamed to the new name unless os.rename raises.
   * Without EXIF data it is MissingExif, and unreadable it is Failed.
   */
  function Classify(f: PhotoFile): (r: RenameOutcome)
    ensures r.Renamed? || r.AlreadyNamed? ==> TimestampOf(f).Some?
    ensures r.Renamed? ==> r.newName != f.name && !f.renameRaises
    ensures TimestampOf(f).Some? && !f.renameRaises ==> r.Renamed? || r.AlreadyNamed?
    ensures f.exif.NoExif? || f.exif == Tags(map[]) ==> r == MissingExif
    ensures f.exif.Unreadable? ==> r == Failed(f.errorText)
  {
    match f.exif
    case Unreadable => Failed(f.errorText)
    case NoExif => MissingExif
    case Tags(tags) =>
      if tags == map[] then MissingExif
      else if !HasTimestamp(tags) then MissingTimestamp
      else match tags[DateTimeTag]
        case NonText(_) => Failed(f.errorText)
        case TagText(t) =>
          match ParseExifDateTime(t)
          case None => Failed(f.errorText)
          case Some(dt) =>
            var newName := NewName(f.name, dt);
            if newName == f.name then AlreadyNamed
            else if f.renameRaises then Failed(f.errorText)
            else Renamed(newName)
  }

  /** The text a file's log message opens with, one per outcome. */
  function Label(o: RenameOutcome): string
  {
    match o
    case Renamed(_) => "Premenovaný súbor: "
    case AlreadyNamed => "Preskočený súbor (už má správny názov): "
    case MissingTimestamp => "Chýba časová pečiatka v EXIF dátach: "
    case MissingExif => "Chýbajú EXIF dáta: "
    case Failed(_) => "Chyba pri spracovaní "
  }

  /**
   * The log message of one file: its outcome's label, then the file name,
   * then the new name of a rename or the reason of an error.
   */
  function FileMessage(f: PhotoFile): (r: string)
    ensures var lead := Label(Classify(f));
      |r| >= |lead| + |f.name| && r[..|lead|] == lead && r[|lead|..|lead| + |f.name|] == f.name
  {
    var lead := Label(Classify(f));
    var detail := match Classify(f)
      case Renamed(n) => " -> " + n
      case Failed(reason) => ": " + reason
      case _ => "";
    var r := lead + f.name + detail;
    assert r[..|lead|] == lead && r[|lead|..|lead| + |f.name|] == f.name;
    r
  }

  /** The three counters: renamed, skipped and errors. */
  datatype Tally = Tally(renamed: nat, skipped: nat, errors: nat)

  /** The counter an outcome increments. */
  function Bump(t: Tally, o: RenameOutcome): (r: Tally)
    ensures r.renamed + r.skipped + r.errors == t.renamed + t.skipped + t.errors + 1
  {
    match o
    case Renamed(_) => t.(renamed := t.renamed + 1)
    case AlreadyNamed => t.(skipped := t.skipped + 1)
    case _ => t.(errors := t.errors + 1)
  }

  function Count(fs: seq<PhotoFile>): (t: Tally)
    ensures t.renamed + t.skipped + t.errors == |fs|
  {
    if fs == [] then Tally(0, 0, 0) else Bump(Count(fs[..|fs| - 1]), Classify(fs[|fs| - 1]))
  }

  /** The rename an outcome performs, if any, as (old name, new name). */
  function RenameOf(f: PhotoFile, o: RenameOutcome): seq<(string, string)>
  {
    match o case Renamed(n) => [(f.name, n)] case _ => []
  }

  /** The renames os.rename performs, in listing order. */
  function Renames(fs: seq<PhotoFile>): seq<(string, string)>
  {
    if fs == [] then [] else Renames(fs[..|fs| - 1]) + RenameOf(fs[|fs| - 1], Classify(fs[|fs| - 1]))
  }

  /** The entry that opens a run: a fixed label followed by the directory's text. */
  function StartMessage(directory: string): (r: string)
    ensures |r| >= |directory| && r[|r| - |directory|..] == directory
  {
    var lead := "Začínam premenovanie fotografií v adresári: ";
    assert (lead + directory)[|lead|..] == directory;
    lead + directory
  }

  /** The summary the function logs and returns: the three counts, in decimal. */
  function SummaryText(t: Tally): string
  {
    "Dokončené premenovanie: " + (NatToString(t.renamed) + (" premenovaných, "
      + (NatToString(t.skipped) + (" preskočených, " + (NatToString(t.errors) + " chýb")))))
  }

  /** Two runs give the same summary exactly when their three counts agree. */
  lemma SummaryTextReportsCounts(t1: Tally, t2: Tally)
    ensures SummaryText(t1) == SummaryText(t2) <==> t1 == t2
  {
    if SummaryText(t1) == SummaryText(t2) {
      var head := "Dokončené premenovanie: ";
      var e1, e2 := NatToString(t1.errors) + " chýb", NatToString(t2.errors) + " chýb";
      var s1, s2 := NatToString(t1.skipped) + (" preskočených, " + e1), NatToString(t2.skipped) + (" preskočených, " + e2);
      var r1, r2 := NatToString(t1.renamed) + (" premenovaných, " + s1), NatToString(t2.renamed) + (" premenovaných, " + s2);
      assert (head + r1)[|head|..] == r1 && (head + r2)[|head|..] == r2;
      LeadingNumber(t1.renamed, " premenovaných, " + s1, t2.renamed, " premenovaných, " + s2);
      assert (" premenovaných, " + s1)[16..] == s1 && (" premenovaných, " + s2)[16..] == s2;
      LeadingNumber(t1.skipped, " preskočených, " + e1, t2.skipped, " preskočených, " + e2);
      assert (" preskočených, " + e1)[15..] == e1 && (" preskočených, " + e2)[15..] == e2;
      LeadingNumber(t1.errors, " chýb", t2.errors, " chýb");
    }
  }

  /** A number written in decimal and followed by a non-digit can be read off the front of a text. */
  lemma LeadingNumber(n1: nat, x1: string, n2: nat, x2: string)
    requires |x1| > 0 && |x2| > 0 && !IsDigit(x1[0]) && !IsDigit(x2[0])
    requires NatToString(n1) + x1 == NatToString(n2) + x2
    ensures n1 == n2 && x1 == x2
  {
    var a, b := NatToString(n1), NatToString(n2);
    if |a| <= |b| {
      LeadingDigitsNotShorter(a, x1, b, x2);
    } else {
      LeadingDigitsNotShorter(b, x2, a, x1);
    }
    assert a == (a + x1)[..|a|] && b == (b + x2)[..|b|];
    assert x1 == (a + x1)[|a|..] && x2 == (b + x2)[|b|..];
  }

  /** Two texts that agree, each a run of digits and then a non-digit, have digit runs of one length. */
  lemma LeadingDigitsNotShorter(a: string, x1: string, b: string, x2: string)
    requires AllDigits(a) && AllDigits(b) && |x1| > 0 && !IsDigit(x1[0])
    requires a + x1 == b + x2 && |a| <= |b|
    ensures |a| == |b|
  {
    assert (b + x2)[|a|] == (a + x1)[|a|] == x1[0];
  }

  predicate ValidClocks(clock: seq<ClockTime>)
  {
    forall i :: 0 <= i < |clock| ==> ValidClock(clock[i])
  }

  /** The entries of the files, stamped with the clock readings in turn. */
  function FileEntries(fs: seq<PhotoFile>, clock: seq<ClockTime>): (r: seq<string>)
    requires |clock| == |fs| && ValidClocks(clock)
    ensures |r| == |fs|
  {
    if fs == [] then []
    else FileEntries(fs[..|fs| - 1], clock[..|fs| - 1]) + [Entry(clock[|fs| - 1], FileMessage(fs[|fs| - 1]))]
  }

  lemma FileEntriesPrefix(fs: seq<PhotoFile>, clock: seq<ClockTime>, i: nat)
    requires |clock| == |fs| && ValidClocks(clock) && i < |fs|
    ensures FileEntries(fs[..i + 1], clock[..i + 1]) == FileEntries(fs[..i], clock[..i]) + [Entry(clock[i], FileMessage(fs[i]))]
  {
    assert fs[..i + 1][..i] == fs[..i];
    assert clock[..i + 1][..i] == clock[..i];
  }

  lemma CountPrefix(fs: seq<PhotoFile>, i: nat)
    requires i < |fs|
    ensures Count(fs[..i + 1]) == Bump(Count(fs[..i]), Classify(fs[i]))
    ensures Renames(fs[..i + 1]) == Renames(fs[..i]) + RenameOf(fs[i], Classify(fs[i]))
  {
    assert fs[..i + 1][..i] == fs[..i];
  }

  /** The log after the first i + 1 files is the log after the first i, then the entry of file i. */
  lemma RenameAllStep(files: seq<PhotoFile>, clock: seq<ClockTime>, i: nat, start: seq<string>, logs: seq<string>)
    requires |clock| == |files| && ValidClocks(clock) && i < |files|
    requires logs == start + FileEntries(files[..i], clock[..i])
    ensures logs + [Entry(clock[i], FileMessage(files[i]))] == start + FileEntries(files[..i + 1], clock[..i + 1])
  {
    FileEntriesPrefix(files, clock, i);
  }

  /**
   * One pass of the loop body: the file's branch is taken, its entry
   * logged, its counter incremented, and its rename performed when it has
   * one.
   */
  method RenameOne(log: LogCollector, f: PhotoFile, now: ClockTime,
                   renamedCount: nat, skippedCount: nat, errorCount: nat, renames: seq<(string, string)>)
    returns (renamed': nat, skipped': nat, errors': nat, renames': seq<(string, string)>)
    requires ValidClock(now)
    modifies log
    ensures Tally(renamed', skipped', errors') == Bump(Tally(renamedCount, skippedCount, errorCount), Classify(f))
    ensures renames' == renames + RenameOf(f, Classify(f))
    ensures log.logs == old(log.logs) + [Entry(now, FileMessage(f))]
  {
    renamed', skipped', errors', renames' := renamedCount, skippedCount, errorCount, renames;
    var outcome := Classify(f);
    match outcome {
      case Renamed(newName) =>
        renames' := renames' + [(f.name, newName)];
        renamed' := renamed' + 1;
      case AlreadyNamed =>
        skipped' := skipped' + 1;
      case _ =>
        errors' := errors' + 1;
    }
    log.AddLog(FileMessage(f), now);
  }

  /** The loop over the files, each stamped with its own clock reading. */
  method RenameAll(log: LogCollector, files: seq<PhotoFile>, clock: seq<ClockTime>)
    returns (renamedCount: nat, skippedCount: nat, errorCount: nat, renames: seq<(string, string)>)
    requires |clock| == |files| && ValidClocks(clock)
    modifies log
    ensures Tally(renamedCount, skippedCount, errorCount) == Count(files)
    ensures renames == Renames(files)
    ensures log.logs == old(log.logs) + FileEntries(files, clock)
  {
    renamedCount, skippedCount, errorCount := 0, 0, 0;
    renames := [];
    var i := 0;
    while i < |files|
      invariant 0 <= i <= |files|
      invariant Tally(renamedCount, skippedCount, errorCount) == Count(files[..i])
      invariant renames == Renames(files[..i])
      invariant log.logs == old(log.logs) + FileEntries(files[..i], clock[..i])
    {
      ghost var before := log.logs;
      CountPrefix(files, i);
      renamedCount, skippedCount, errorCount, renames :=
        RenameOne(log, files[i], clock[i], renamedCount, skippedCount, errorCount, renames);
      RenameAllStep(files, clock, i, old(log.logs), before);
      i := i + 1;
    }
    assert files[..i] == files && clock[..i] == clock;
  }

  /**
   * rename_photos over the files the glob yields. `directory` is the text
   * of Path(directory), which the start entry logs. `clock` holds the
   * readings of datetime.now() at the successive log calls. Returns the
   * summary and the renames performed.
   */
  method RenamePhotos(log: LogCollector, directory: string, files: seq<PhotoFile>, clock: seq<ClockTime>)
    returns (summary: string, renames: seq<(string, string)>)
    requires |clock| == |files| + 2 && ValidClocks(clock)
    modifies log
    ensures summary == SummaryText(Count(files))
    ensures renames == Renames(files)
    ensures log.logs == old(log.logs) + [Entry(clock[0], StartMessage(directory))]
                        + FileEntries(files, clock[1..|files| + 1]) + [Entry(clock[|files| + 1], summary)]
  {
    log.AddLog(StartMessage(directory), clock[0]);
    var renamedCount, skippedCount, errorCount;
    renamedCount, skippedCount, errorCount, renames := RenameAll(log, files, clock[1..|files| + 1]);
    summary := SummaryText(Tally(renamedCount, skippedCount, errorCount));
    log.AddLog(summary, clock[|files| + 1]);
  }

  // ---------------------------------------------------------------------
  // Properties of the rename rule

  /**
   * Two photos get the same new name exactly when they were taken in the
   * same minute and their suffixes agree once lower-cased: the seconds are
   * not part of the name.
   */
  lemma SameMinuteSameName(name1: string, dt1: DateTime, name2: string, dt2: DateTime)
    requires Valid(dt1) && Valid(dt2)
    ensures NewName(name1, dt1) == NewName(name2, dt2) <==>
      dt1.(second := 0) == dt2.(second := 0) && Lower(Suffix(name1)) == Lower(Suffix(name2))
  {
    ParseFormatStem(dt1);
    ParseFormatStem(dt2);
    if dt1.(second := 0) == dt2.(second := 0) {
      assert FormatStem(dt1) == FormatStem(dt1.(second := 0));
      assert FormatStem(dt2) == FormatStem(dt2.(second := 0));
    }
  }

  /** Once the tag has given a date and time, only the name comparison and the rename decide. */
  lemma ClassifyOfTimestamp(f: PhotoFile)
    ensures TimestampOf(f).Some? ==>
      Classify(f) == if NewName(f.name, TimestampOf(f).value) == f.name then AlreadyNamed
                     else if f.renameRaises then Failed(f.errorText)
                     else Renamed(NewName(f.name, TimestampOf(f).value))
    ensures TimestampOf(f).None? ==> !Classify(f).Renamed? && !Classify(f).AlreadyNamed?
  {
  }

  /**
   * A file whose tag 306 is the EXIF text of `dt` is renamed to
   * "YYYY-MM-DD-HH-MM" of `dt` plus its lower-cased suffix (the seconds are
   * dropped), unless it already has that name or the rename raises.
   */
  lemma ExifTextRenamed(f: PhotoFile, dt: DateTime)
    requires Valid(dt)
    requires f.exif.Tags? && DateTimeTag in f.exif.tags && f.exif.tags[DateTimeTag] == TagText(ExifText(dt))
    ensures TimestampOf(f) == Some(dt)
    ensures NewName(f.name, dt) == FormatStem(dt.(second := 0)) + Lower(Suffix(f.name))
    ensures Classify(f) == if NewName(f.name, dt) == f.name then AlreadyNamed
                           else if f.renameRaises then Failed(f.errorText)
                           else Renamed(NewName(f.name, dt))
  {
    ParseExifText(dt);
    assert ExifText(dt) != [] by {
      assert ParseExifDateTime([]) == None by {
        assert Split([], ':') == [[]];
      }
    }
    assert HasTimestamp(f.exif.tags);
    ClassifyOfTimestamp(f);
  }

  lemma ExamplePadding()
    ensures Pad4(2023) == "2023"
    ensures Pad2(1) == "01" && Pad2(2) == "02" && Pad2(3) == "03" && Pad2(4) == "04" && Pad2(5) == "05"
  {
    assert Pad2(20) == "20" && Pad2(23) == "23";
  }

  lemma ExampleExifText()
    ensures ExifText(DateTime(2023, 1, 2, 3, 4, 5)) == "2023:01:02 03:04:05"
  {
    ExamplePadding();
    JoinFive(Pad4(2023), Pad2(1), Pad2(2) + " " + Pad2(3), Pad2(4), Pad2(5), ':');
  }

  lemma ExampleStem()
    ensures FormatStem(DateTime(2023, 1, 2, 3, 4, 5)) == "2023-01-02-03-04"
  {
    ExamplePadding();
    JoinFive(Pad4(2023), Pad2(1), Pad2(2), Pad2(3), Pad2(4), '-');
  }

  lemma ExampleSuffix()
    ensures Lower(Suffix("IMG_0001.jpg")) == ".jpg"
  {
    assert "IMG_0001.jpg" == "IMG_0001" + ".jpg";
    StemSuffixOfJoin("IMG_0001", ".jpg");
    assert Lower(".jpg") == ".jpg";
  }

  /** The example of a photo taken at 2023:01:02 03:04:05. */
  lemma ExampleRename(f: PhotoFile, stamp: string)
    requires stamp == "2023:01:02 03:04:05"
    requires f.name == "IMG_0001.jpg" && !f.renameRaises
    requires f.exif == Tags(map[DateTimeTag := TagText(stamp)])
    ensures Classify(f) == Renamed("2023-01-02-03-04.jpg")
  {
    var dt := DateTime(2023, 1, 2, 3, 4, 5);
    ExampleExifText();
    ExifTextRenamed(f, dt);
    ExampleNewName(f.name, dt);
  }

  lemma ExampleNewName(name: string, dt: DateTime)
    requires name == "IMG_0001.jpg" && dt == DateTime(2023, 1, 2, 3, 4, 5)
    ensures NewName(name, dt) == "2023-01-02-03-04.jpg" != name
  {
    ExampleStem();
    ExampleSuffix();
  }

  /** A file is skipped exactly when its tag parses and the new name is the name it already has. */
  lemma AlreadyNamedIff(f: PhotoFile)
    ensures Classify(f) == AlreadyNamed <==> TimestampOf(f).Some? && NewName(f.name, TimestampOf(f).value) == f.name
  {
    ClassifyOfTimestamp(f);
  }

  /** Renaming settles a file: renamed once, it is skipped by the next run. */
  lemma RenamedIsSkippedNext(f: PhotoFile, n: string)
    requires Classify(f) == Renamed(n)
    ensures TimestampOf(f).Some? && n == NewName(f.name, TimestampOf(f).value) && n != f.name
    ensures Classify(f.(name := n)) == AlreadyNamed
  {
    ClassifyOfTimestamp(f);
    var dt := TimestampOf(f).value;
    LowerIdempotent(Suffix(f.name));
    assert TimestampOf(f.(name := n)) == Some(dt);
    ClassifyOfTimestamp(f.(name := n));
    assert NewName(n, dt) == FormatStem(dt) + Lower(Lower(Suffix(f.name)));
  }

  /** The name the rule writes is one the analysis accepts: its stem parses back to the minute. */
  lemma RenamedNameParses(f: PhotoFile, n: string)
    requires Classify(f) == Renamed(n)
    ensures TimestampOf(f).Some?
    ensures ParseStem(Stem(n)) == Some(TimestampOf(f).value.(second := 0))
  {
    ClassifyOfTimestamp(f);
    var dt := TimestampOf(f).value;
    ParseFormatStem(dt);
  }

  /** A file already named by its minute but with an upper-case letter in its suffix is still renamed. */
  lemma UpperSuffixRenamed(f: PhotoFile, dt: DateTime, suf: string, k: nat)
    requires Valid(dt) && TimestampOf(f) == Some(dt) && !f.renameRaises
    requires |suf| >= 2 && suf[0] == '.' && '.' !in suf[1..]
    requires 0 < k < |suf| && IsUpper(suf[k])
    requires f.name == FormatStem(dt) + suf
    ensures Classify(f) == Renamed(FormatStem(dt) + Lower(suf))
  {
    ClassifyOfTimestamp(f);
    StemSuffixOfJoin(FormatStem(dt), suf);
    assert Lower(suf)[k] != suf[k];
    assert NewName(f.name, dt) != f.name by {
      assert NewName(f.name, dt)[|FormatStem(dt)| + k] == Lower(suf)[k];
      assert f.name[|FormatStem(dt)| + k] == suf[k];
    }
  }

  /** Exactly the files counted as renamed are renamed, each to a name other than its own. */
  lemma {:induction false} RenamesCounted(fs: seq<PhotoFile>)
    ensures |Renames(fs)| == Count(fs).renamed
    ensures forall k :: 0 <= k < |Renames(fs)| ==> Renames(fs)[k].0 != Renames(fs)[k].1
  {
    if fs != [] {
      var init := fs[..|fs| - 1];
      var f := fs[|fs| - 1];
      RenamesCounted(init);
      if Classify(f).Renamed? {
        RenamedIsSkippedNext(f, Classify(f).newName);
      }
    }
  }
}
