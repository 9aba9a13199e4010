/**
 * What a run of analyze_and_store does, file by file and as a whole: the
 * four fates of a photo (skipped, dropped for an unparsable name, dropped
 * after opening its date for an undecodable image, analysed), how the two
 * counters tally them, and that a second run without forcing finds
 * nothing left to do.
 */
module AnalysisRuns {
  import opened Wrappers
  import opened PathNames
  import opened Chrono
  import opened SectionStore
  import opened AnalysisServer

  /** The branch of the loop body a photo takes. */
  datatype Outcome = Skipped | Unparsed | Undecoded | Analyzed

  function OutcomeOf(metadata: map<string, FileInfo>, f: Photo, force: bool): Outcome
  {
    if !force && !ShouldAnalyze(metadata, f.path, f.info) then Skipped
    else if ParseStem(Stem(f.name)).None? then Unparsed
    else if f.image.None? then Undecoded
    else Analyzed
  }

  /** The date list a photo with a parsable name belongs to. */
  function DateKey(f: Photo): string
    requires ParseStem(Stem(f.name)).Some?
  {
    IsoDate(ParseStem(Stem(f.name)).value)
  }

  // ---------------------------------------------------------------------
  // One photo

  /**
   * A photo is counted as skipped exactly when forcing is off and its path
   * is recorded with its current fingerprint; a skip changes nothing else.
   */
  lemma SkippedIff(s: SectionRun, section: string, f: Photo, force: bool)
    requires s.doc.dates.Valid()
    ensures var r := ProcessFile(s, section, f, force);
      && (r.filesSkipped == s.filesSkipped + 1 <==> !force && Lookup(s.metadata, f.path) == Some(f.info))
      && (r.filesSkipped != s.filesSkipped + 1 ==> r.filesSkipped == s.filesSkipped)
      && (OutcomeOf(s.metadata, f, force) == Skipped ==> r == s.(filesSkipped := s.filesSkipped + 1))
  {
  }

  /** With forcing on, the stored fingerprints decide nothing: only the metadata of the result depends on them. */
  lemma ForceIgnoresMetadata(s: SectionRun, section: string, f: Photo, m: map<string, FileInfo>)
    requires s.doc.dates.Valid()
    ensures OutcomeOf(m, f, true) == OutcomeOf(s.metadata, f, true) != Skipped
    ensures ProcessFile(s.(metadata := m), section, f, true).(metadata := map[])
         == ProcessFile(s, section, f, true).(metadata := map[])
  {
  }

  /** A name that is not a date drops the photo: no list, no record, no fingerprint, no count. */
  lemma UnparsedDropped(s: SectionRun, section: string, f: Photo, force: bool)
    requires s.doc.dates.Valid()
    requires force || ShouldAnalyze(s.metadata, f.path, f.info)
    requires ParseStem(Stem(f.name)).None?
    ensures OutcomeOf(s.metadata, f, force) == Unparsed
    ensures ProcessFile(s, section, f, force) == s
  {
  }

  /**
   * An undecodable image still opens its date's list (empty when new),
   * but records nothing and is counted nowhere.
   */
  lemma UndecodedOpensDate(s: SectionRun, section: string, f: Photo, force: bool)
    requires s.doc.dates.Valid()
    requires force || ShouldAnalyze(s.metadata, f.path, f.info)
    requires ParseStem(Stem(f.name)).Some? && f.image.None?
    ensures OutcomeOf(s.metadata, f, force) == Undecoded
    ensures var r := ProcessFile(s, section, f, force);
      && r.metadata == s.metadata && r.heatMaps == s.heatMaps
      && r.filesAnalyzed == s.filesAnalyzed && r.filesSkipped == s.filesSkipped
      && DateKey(f) in r.doc.dates.buckets
      && (DateKey(f) !in s.doc.dates.buckets ==> r.doc.dates.buckets[DateKey(f)] == [])
      && (forall k :: k in s.doc.dates.buckets ==> k in r.doc.dates.buckets && r.doc.dates.buckets[k] == s.doc.dates.buckets[k])
  {
  }

  /**
   * An analysed photo: its record, named after the photo, stamped with the
   * ISO time of its name and pointing at its heat map, is merged into its
   * date's list (replacing the record of the same name, or growing the list
   * by one); other dates keep their lists; its fingerprint is recorded under
   * its path and no other; the analysed counter grows by one.
   */
  lemma AnalyzedMerges(s: SectionRun, section: string, f: Photo, force: bool)
    requires s.doc.dates.Valid()
    requires force || ShouldAnalyze(s.metadata, f.path, f.info)
    requires ParseStem(Stem(f.name)).Some? && f.image.Some?
    ensures OutcomeOf(s.metadata, f, force) == Analyzed
    ensures var r := ProcessFile(s, section, f, force);
      var dt := ParseStem(Stem(f.name)).value;
      var key := DateKey(f);
      var old_ := if key in s.doc.dates.buckets then s.doc.dates.buckets[key] else [];
      && r.filesAnalyzed == s.filesAnalyzed + 1 && r.filesSkipped == s.filesSkipped
      && r.metadata == s.metadata[f.path := f.info]
      && r.heatMaps == s.heatMaps + {section + "_" + Stem(f.name) + "_heat_map.npy"}
      && key in r.doc.dates.buckets
      && r.doc.dates.buckets[key] == Upsert(old_, AnalysisRecord(IsoFormat(dt), f.name,
           f.image.value.averageBrightness, f.image.value.brightnessVariation, f.image.value.shadowPercentage,
           section + "_" + Stem(f.name) + "_heat_map.npy"))
      && (|r.doc.dates.buckets[key]| == |old_| || |r.doc.dates.buckets[key]| == |old_| + 1)
      && (forall k :: k in s.doc.dates.buckets && k != key ==> k in r.doc.dates.buckets && r.doc.dates.buckets[k] == s.doc.dates.buckets[k])
  {
  }

  // ---------------------------------------------------------------------
  // A section's photos

  /** The walk never yields the same path twice. */
  ghost predicate DistinctPaths(fs: seq<Photo>)
  {
    forall i, j :: 0 <= i < j < |fs| ==> fs[i].path != fs[j].path
  }

  ghost predicate NotAmong(p: string, fs: seq<Photo>)
  {
    forall g :: g in fs ==> g.path != p
  }

  /** How many of `fs` take branch `o`, judged against the fingerprints `metadata`. */
  function CountOutcome(metadata: map<string, FileInfo>, fs: seq<Photo>, force: bool, o: Outcome): (n: nat)
    ensures n <= |fs|
  {
    if fs == [] then 0
    else CountOutcome(metadata, fs[..|fs| - 1], force, o) + (if OutcomeOf(metadata, fs[|fs| - 1], force) == o then 1 else 0)
  }

  /** Every photo takes exactly one of the four branches. */
  lemma {:induction false} OutcomesPartition(metadata: map<string, FileInfo>, fs: seq<Photo>, force: bool)
    ensures CountOutcome(metadata, fs, force, Skipped) + CountOutcome(metadata, fs, force, Unparsed)
          + CountOutcome(metadata, fs, force, Undecoded) + CountOutcome(metadata, fs, force, Analyzed) == |fs|
  {
    if fs != [] {
      OutcomesPartition(metadata, fs[..|fs| - 1], force);
    }
  }

  /** The branch a photo takes depends on the fingerprints only through its own path's entry. */
  lemma OutcomeOfLookup(m1: map<string, FileInfo>, m2: map<string, FileInfo>, f: Photo, force: bool)
    requires Lookup(m1, f.path) == Lookup(m2, f.path)
    ensures OutcomeOf(m1, f, force) == OutcomeOf(m2, f, force)
  {
    assert ShouldAnalyze(m1, f.path, f.info) == ShouldAnalyze(m2, f.path, f.info);
  }

  lemma {:induction false} CountOutcomeFrame(m1: map<string, FileInfo>, m2: map<string, FileInfo>, fs: seq<Photo>, force: bool, o: Outcome)
    requires SameLookups(m1, m2, fs)
    ensures CountOutcome(m1, fs, force, o) == CountOutcome(m2, fs, force, o)
  {
    if fs != [] {
      SameLookupsInit(m1, m2, fs);
      CountOutcomeFrame(m1, m2, fs[..|fs| - 1], force, o);
      OutcomeOfLookup(m1, m2, fs[|fs| - 1], force);
    }
  }

  /** The two fingerprint maps agree on every path of `fs`. */
  ghost predicate SameLookups(m1: map<string, FileInfo>, m2: map<string, FileInfo>, fs: seq<Photo>)
  {
    forall g :: g in fs ==> Lookup(m1, g.path) == Lookup(m2, g.path)
  }

  lemma SameLookupsInit(m1: map<string, FileInfo>, m2: map<string, FileInfo>, fs: seq<Photo>)
    requires fs != [] && SameLookups(m1, m2, fs)
    ensures SameLookups(m1, m2, fs[..|fs| - 1]) && Lookup(m1, fs[|fs| - 1].path) == Lookup(m2, fs[|fs| - 1].path)
  {
    assert fs[|fs| - 1] in fs;
    forall g | g in fs[..|fs| - 1] ensures Lookup(m1, g.path) == Lookup(m2, g.path) { assert g in fs; }
  }

  /** One pass of the loop body records a fingerprint under the photo's own path at most, and never drops a date. */
  lemma ProcessFileFrame(s: SectionRun, section: string, f: Photo, force: bool)
    requires s.doc.dates.Valid()
    ensures var r := ProcessFile(s, section, f, force);
      && (forall p :: p != f.path ==> Lookup(r.metadata, p) == Lookup(s.metadata, p))
      && s.doc.dates.buckets.Keys <= r.doc.dates.buckets.Keys
  {
    var o := OutcomeOf(s.metadata, f, force);
    if o == Analyzed || o == Undecoded {
      var dt := ParseStem(Stem(f.name)).value;
      var dates := EnsureBucket(s.doc.dates, IsoDate(dt));
      assert s.doc.dates.buckets.Keys <= dates.buckets.Keys;
    }
  }

  /** One pass of the loop body adds one to the counter of the branch the photo takes, if it has one. */
  lemma CounterStep(s: SectionRun, section: string, f: Photo, force: bool)
    requires s.doc.dates.Valid()
    ensures var r := ProcessFile(s, section, f, force);
      && r.filesAnalyzed == s.filesAnalyzed + (if OutcomeOf(s.metadata, f, force) == Analyzed then 1 else 0)
      && r.filesSkipped == s.filesSkipped + (if OutcomeOf(s.metadata, f, force) == Skipped then 1 else 0)
  {
  }

  /** The last photo's path is not among the others, which stay distinct. */
  lemma LastNotAmong(fs: seq<Photo>)
    requires fs != [] && DistinctPaths(fs)
    ensures NotAmong(fs[|fs| - 1].path, fs[..|fs| - 1]) && DistinctPaths(fs[..|fs| - 1])
  {
    var init := fs[..|fs| - 1];
    forall g | g in init ensures g.path != fs[|fs| - 1].path {
      var i :| 0 <= i < |init| && init[i] == g;
    }
  }

  /** A photo of the walk is one of the earlier photos or the last one. */
  lemma InitOrLast(g: Photo, fs: seq<Photo>)
    requires g in fs
    ensures g in fs[..|fs| - 1] || g == fs[|fs| - 1]
  {
    var i :| 0 <= i < |fs| && fs[i] == g;
    if i < |fs| - 1 {
      assert fs[..|fs| - 1][i] == g;
    }
  }

  /** A path among none of the photos is among none of the earlier ones, and is not the last one's. */
  lemma NotAmongInit(p: string, fs: seq<Photo>)
    requires fs != [] && NotAmong(p, fs)
    ensures NotAmong(p, fs[..|fs| - 1]) && p != fs[|fs| - 1].path
  {
    assert fs[|fs| - 1] in fs;
    forall g | g in fs[..|fs| - 1] ensures g.path != p { assert g in fs; }
  }

  /**
   * With distinct paths, the two counters grow by the number of photos
   * that, judged against the fingerprints at the start of the section, are
   * analysed and skipped; fingerprints of paths outside the section stay.
   */
  lemma {:induction false} CountersTally(s: SectionRun, section: string, fs: seq<Photo>, force: bool)
    requires s.doc.dates.Valid() && DistinctPaths(fs)
    ensures var r := ProcessFiles(s, section, fs, force);
      && r.filesAnalyzed == s.filesAnalyzed + CountOutcome(s.metadata, fs, force, Analyzed)
      && r.filesSkipped == s.filesSkipped + CountOutcome(s.metadata, fs, force, Skipped)
      && (forall p :: NotAmong(p, fs) ==> Lookup(r.metadata, p) == Lookup(s.metadata, p))
  {
    if fs != [] {
      var init := fs[..|fs| - 1];
      var f := fs[|fs| - 1];
      LastNotAmong(fs);
      CountersTally(s, section, init, force);
      var mid := ProcessFiles(s, section, init, force);
      OutcomeOfLookup(mid.metadata, s.metadata, f, force);
      CounterStep(mid, section, f, force);
      ProcessFileFrame(mid, section, f, force);
      forall p | NotAmong(p, fs) ensures NotAmong(p, init) && p != f.path {
        NotAmongInit(p, fs);
      }
    }
  }

  /**
   * A photo a second run without forcing would leave alone: skipped for its
   * fingerprint, dropped for its name, or undecodable with its date already
   * open.
   */
  ghost predicate Settled(metadata: map<string, FileInfo>, keys: set<string>, f: Photo)
  {
    match OutcomeOf(metadata, f, false)
    case Analyzed => false
    case Undecoded => DateKey(f) in keys
    case _ => true
  }

  ghost predicate AllSettled(metadata: map<string, FileInfo>, keys: set<string>, fs: seq<Photo>)
  {
    forall f :: f in fs ==> Settled(metadata, keys, f)
  }

  /** A settled photo stays settled while other paths gain fingerprints and dates are opened. */
  lemma SettledKept(m1: map<string, FileInfo>, k1: set<string>, m2: map<string, FileInfo>, k2: set<string>, g: Photo)
    requires Settled(m1, k1, g) && Lookup(m1, g.path) == Lookup(m2, g.path) && k1 <= k2
    ensures Settled(m2, k2, g)
  {
    OutcomeOfLookup(m1, m2, g, false);
  }

  /** The loop body leaves a settled photo's run as it is, bar the skipped counter. */
  lemma SettledStep(s: SectionRun, section: string, f: Photo)
    requires s.doc.dates.Valid() && Settled(s.metadata, s.doc.dates.buckets.Keys, f)
    ensures ProcessFile(s, section, f, false)
         == if OutcomeOf(s.metadata, f, false) == Skipped then s.(filesSkipped := s.filesSkipped + 1) else s
  {
  }

  /** Over settled photos the loop changes nothing but the skipped counter. */
  lemma {:induction false} SettledWalk(s: SectionRun, section: string, fs: seq<Photo>)
    requires s.doc.dates.Valid() && AllSettled(s.metadata, s.doc.dates.buckets.Keys, fs)
    ensures ProcessFiles(s, section, fs, false) == s.(filesSkipped := s.filesSkipped + CountOutcome(s.metadata, fs, false, Skipped))
  {
    if fs != [] {
      var init := fs[..|fs| - 1];
      var f := fs[|fs| - 1];
      assert f in fs;
      assert forall g :: g in init ==> g in fs;
      SettledWalk(s, section, init);
      var mid := ProcessFiles(s, section, init, false);
      SettledStep(mid, section, f);
    }
  }

  /** The photo just processed is settled, and (without forcing) is recognised exactly when it was counted. */
  lemma SettleStep(s: SectionRun, section: string, f: Photo, force: bool)
    requires s.doc.dates.Valid()
    ensures var r := ProcessFile(s, section, f, force);
      && Settled(r.metadata, r.doc.dates.buckets.Keys, f)
      && (!force ==> (OutcomeOf(r.metadata, f, false) == Skipped
                      <==> r.filesAnalyzed + r.filesSkipped == s.filesAnalyzed + s.filesSkipped + 1))
      && r.filesAnalyzed + r.filesSkipped <= s.filesAnalyzed + s.filesSkipped + 1
      && s.filesAnalyzed <= r.filesAnalyzed && s.filesSkipped <= r.filesSkipped
  {
    var r := ProcessFile(s, section, f, force);
    match OutcomeOf(s.metadata, f, force)
    case Skipped =>
    case Unparsed =>
    case Undecoded =>
    case Analyzed =>
      assert Lookup(r.metadata, f.path) == Some(f.info);
  }

  /**
   * After the loop every photo of the section is settled, and (without
   * forcing) as many photos are now recognised by their fingerprints as
   * the loop counted as analysed or skipped.
   */
  lemma {:induction false} WalkSettles(s: SectionRun, section: string, fs: seq<Photo>, force: bool)
    requires s.doc.dates.Valid() && DistinctPaths(fs)
    ensures var r := ProcessFiles(s, section, fs, force);
      && AllSettled(r.metadata, r.doc.dates.buckets.Keys, fs)
      && s.filesAnalyzed <= r.filesAnalyzed && s.filesSkipped <= r.filesSkipped
      && (!force ==> CountOutcome(r.metadata, fs, false, Skipped)
                     == (r.filesAnalyzed - s.filesAnalyzed) + (r.filesSkipped - s.filesSkipped))
  {
    if fs != [] {
      var init := fs[..|fs| - 1];
      var f := fs[|fs| - 1];
      LastNotAmong(fs);
      WalkSettles(s, section, init, force);
      var mid := ProcessFiles(s, section, init, force);
      var r := ProcessFile(mid, section, f, force);
      ProcessFileFrame(mid, section, f, force);
      SettleStep(mid, section, f, force);
      forall g | g in fs ensures Settled(r.metadata, r.doc.dates.buckets.Keys, g) {
        InitOrLast(g, fs);
        if g != f {
          SettledKept(mid.metadata, mid.doc.dates.buckets.Keys, r.metadata, r.doc.dates.buckets.Keys, g);
        }
      }
      if !force {
        CountOutcomeFrame(r.metadata, mid.metadata, init, false, Skipped);
      }
    }
  }

  // ---------------------------------------------------------------------
  // A whole run over the photos directory

  /** Entries of one directory have distinct names. */
  ghost predicate DistinctEntryNames(entries: seq<DirEntry>)
  {
    forall i, j :: 0 <= i < j < |entries| ==> entries[i].name != entries[j].name
  }

  /** No path is found twice by the walk, within a section or across sections. */
  ghost predicate WalkPaths(entries: seq<DirEntry>)
  {
    && (forall i :: 0 <= i < |entries| ==> DistinctPaths(entries[i].photos))
    && (forall i, j, f, g :: 0 <= i < j < |entries| && f in entries[i].photos && g in entries[j].photos ==> f.path != g.path)
  }

  /** The photos of the sections that the fingerprints `metadata` recognise. */
  function KnownCount(metadata: map<string, FileInfo>, entries: seq<DirEntry>): nat
  {
    if entries == [] then 0
    else
      var e := entries[|entries| - 1];
      KnownCount(metadata, entries[..|entries| - 1]) + (if e.isDir then CountOutcome(metadata, e.photos, false, Skipped) else 0)
  }

  lemma {:induction false} KnownCountFrame(m1: map<string, FileInfo>, m2: map<string, FileInfo>, entries: seq<DirEntry>)
    requires forall e, f :: e in entries && f in e.photos ==> Lookup(m1, f.path) == Lookup(m2, f.path)
    ensures KnownCount(m1, entries) == KnownCount(m2, entries)
  {
    if entries != [] {
      var e := entries[|entries| - 1];
      assert e in entries;
      assert forall g :: g in entries[..|entries| - 1] ==> g in entries;
      KnownCountFrame(m1, m2, entries[..|entries| - 1]);
      CountOutcomeFrame(m1, m2, e.photos, false, Skipped);
    }
  }

  /** A section a second run without forcing would leave alone: saved, sorted, and every photo settled. */
  ghost predicate SectionSettled(run: Run, e: DirEntry)
  {
    e.isDir ==>
      && e.name in run.analyses
      && AllSorted(run.analyses[e.name].dates)
      && AllSettled(run.metadata, run.analyses[e.name].dates.buckets.Keys, e.photos)
  }

  ghost predicate RunSettled(run: Run, entries: seq<DirEntry>)
  {
    forall e :: e in entries ==> SectionSettled(run, e)
  }

  /** A settled section is loaded, walked, sorted and saved back as it was. */
  lemma RerunSection(run: Run, e: DirEntry)
    requires DocsValid(run.analyses) && SectionSettled(run, e)
    ensures ProcessSection(run, e, false)
         == run.(filesSkipped := run.filesSkipped + if e.isDir then CountOutcome(run.metadata, e.photos, false, Skipped) else 0)
  {
    if e.isDir {
      var doc := run.analyses[e.name];
      var s0 := SectionRun(doc, run.metadata, run.heatMaps, run.filesAnalyzed, run.filesSkipped);
      SettledWalk(s0, e.name, e.photos);
      SortBucketsOfSorted(doc.dates);
      assert run.analyses[e.name := doc] == run.analyses;
    }
  }

  /** Over settled sections a run changes nothing but the skipped counter. */
  lemma {:induction false} RerunSections(run: Run, entries: seq<DirEntry>)
    requires DocsValid(run.analyses) && RunSettled(run, entries)
    ensures RunSections(run, entries, false) == run.(filesSkipped := run.filesSkipped + KnownCount(run.metadata, entries))
  {
    if entries != [] {
      var init := entries[..|entries| - 1];
      var e := entries[|entries| - 1];
      assert e in entries;
      assert forall g :: g in init ==> g in entries;
      RerunSections(run, init);
      var mid := RunSections(run, init, false);
      RerunSection(mid, e);
    }
  }

  /**
   * Processing a section settles it; fingerprints of paths outside it and
   * documents of other sections stay as they were.
   */
  lemma SectionSettles(run: Run, e: DirEntry, force: bool)
    requires DocsValid(run.analyses) && DistinctPaths(e.photos)
    ensures var r := ProcessSection(run, e, force);
      && SectionSettled(r, e)
      && (forall p :: NotAmong(p, e.photos) ==> Lookup(r.metadata, p) == Lookup(run.metadata, p))
      && (forall n :: n in run.analyses && n != e.name ==> n in r.analyses && r.analyses[n] == run.analyses[n])
      && run.filesAnalyzed <= r.filesAnalyzed && run.filesSkipped <= r.filesSkipped
      && (!force && e.isDir ==> CountOutcome(r.metadata, e.photos, false, Skipped)
                                == (r.filesAnalyzed - run.filesAnalyzed) + (r.filesSkipped - run.filesSkipped))
      && (!e.isDir ==> r == run)
  {
    if e.isDir {
      var doc := LoadSectionData(run.analyses, e.name);
      var s0 := SectionRun(doc, run.metadata, run.heatMaps, run.filesAnalyzed, run.filesSkipped);
      WalkSettles(s0, e.name, e.photos, force);
      CountersTally(s0, e.name, e.photos, force);
      var fr := ProcessFiles(s0, e.name, e.photos, force);
      SortBucketsSorts(fr.doc.dates);
    }
  }

  /**
   * After a run every section directory is settled; without forcing, the
   * final fingerprints recognise as many photos as the run counted as
   * analysed or skipped.
   */
  lemma {:induction false} RunSettles(run: Run, entries: seq<DirEntry>, force: bool)
    requires DocsValid(run.analyses) && DistinctEntryNames(entries) && WalkPaths(entries)
    ensures var r := RunSections(run, entries, force);
      && RunSettled(r, entries)
      && run.filesAnalyzed <= r.filesAnalyzed && run.filesSkipped <= r.filesSkipped
      && (!force ==> KnownCount(r.metadata, entries)
                     == (r.filesAnalyzed - run.filesAnalyzed) + (r.filesSkipped - run.filesSkipped))
  {
    if entries != [] {
      var init := entries[..|entries| - 1];
      var e := entries[|entries| - 1];
      assert DistinctEntryNames(init) && WalkPaths(init);
      RunSettles(run, init, force);
      var mid := RunSections(run, init, force);
      var r := ProcessSection(mid, e, force);
      assert DistinctPaths(e.photos);
      SectionSettles(mid, e, force);
      forall g, f | g in init && f in g.photos ensures NotAmong(f.path, e.photos) {
        var i :| 0 <= i < |init| && init[i] == g;
        assert entries[i] == g;
        forall h | h in e.photos ensures h.path != f.path {
          assert entries[|entries| - 1] == e;
        }
      }
      forall g | g in entries ensures SectionSettled(r, g) {
        if g != e && g.isDir {
          var i :| 0 <= i < |entries| && entries[i] == g;
          assert i < |entries| - 1;
          assert g in init && g.name != e.name;
          var keys := mid.analyses[g.name].dates.buckets.Keys;
          forall f | f in g.photos ensures Settled(r.metadata, keys, f) {
            SettledKept(mid.metadata, keys, r.metadata, keys, f);
          }
        }
      }
      if !force {
        KnownCountFrame(r.metadata, mid.metadata, init);
      }
    }
  }

  /**
   * Running analyze_and_store a second time, without forcing, over the same
   * photos finds nothing to analyse: documents, fingerprints and heat maps
   * stay as the first run left them, and (when the first run was not
   * forced) as many photos are now counted as skipped as the first run
   * counted as analysed or skipped.
   */
  lemma RerunChangesNothing(run: Run, entries: seq<DirEntry>, force: bool)
    requires DocsValid(run.analyses) && DistinctEntryNames(entries) && WalkPaths(entries)
    ensures var first := RunSections(run, entries, force);
      var second := RunSections(first.(filesAnalyzed := 0, filesSkipped := 0), entries, false);
      && second.analyses == first.analyses
      && second.metadata == first.metadata
      && second.heatMaps == first.heatMaps
      && second.filesAnalyzed == 0
      && (!force ==> second.filesSkipped == (first.filesAnalyzed - run.filesAnalyzed) + (first.filesSkipped - run.filesSkipped))
  {
    var first := RunSections(run, entries, force);
    RunSettles(run, entries, force);
    var start := first.(filesAnalyzed := 0, filesSkipped := 0);
    assert RunSettled(start, entries);
    RerunSections(start, entries);
  }

  // ---------------------------------------------------------------------
  // Well-formed documents

  /** Every record sits in the list of its own date, and no list names an image twice. */
  ghost predicate WellFiled(dates: Dates)
  {
    forall k :: k in dates.buckets ==>
      && DistinctNames(dates.buckets[k])
      && (forall x :: x in dates.buckets[k] ==> k <= x.datetime)
  }

  lemma EnsureBucketKeepsWellFiled(dates: Dates, key: string)
    requires dates.Valid() && WellFiled(dates)
    ensures WellFiled(EnsureBucket(dates, key))
  {
  }

  /** Merging a record into the list of a date its datetime starts with keeps the document well filed. */
  lemma MergeRecordKeepsWellFiled(dates: Dates, key: string, rec: AnalysisRecord)
    requires dates.Valid() && key in dates.buckets && WellFiled(dates) && key <= rec.datetime
    ensures WellFiled(MergeRecord(dates, key, rec))
  {
    var r := MergeRecord(dates, key, rec);
    UpsertKeepsNamesDistinct(dates.buckets[key], rec);
    forall x | x in r.buckets[key] ensures key <= x.datetime {
      assert x in dates.buckets[key] || x == rec;
    }
  }

  lemma ProcessFileKeepsWellFiled(s: SectionRun, section: string, f: Photo, force: bool)
    requires s.doc.dates.Valid() && WellFiled(s.doc.dates)
    ensures WellFiled(ProcessFile(s, section, f, force).doc.dates)
  {
    var o := OutcomeOf(s.metadata, f, force);
    if o == Analyzed || o == Undecoded {
      var dt := ParseStem(Stem(f.name)).value;
      var dates := EnsureBucket(s.doc.dates, IsoDate(dt));
      EnsureBucketKeepsWellFiled(s.doc.dates, IsoDate(dt));
      if o == Analyzed {
        var rec := MakeRecord(section, f, dt, f.image.value);
        assert IsoDate(dt) <= rec.datetime;
        MergeRecordKeepsWellFiled(dates, IsoDate(dt), rec);
      }
    }
  }

  lemma {:induction false} ProcessFilesKeepsWellFiled(s: SectionRun, section: string, fs: seq<Photo>, force: bool)
    requires s.doc.dates.Valid() && WellFiled(s.doc.dates)
    ensures WellFiled(ProcessFiles(s, section, fs, force).doc.dates)
  {
    if fs != [] {
      ProcessFilesKeepsWellFiled(s, section, fs[..|fs| - 1], force);
      ProcessFileKeepsWellFiled(ProcessFiles(s, section, fs[..|fs| - 1], force), section, fs[|fs| - 1], force);
    }
  }

  lemma SortBucketsKeepsWellFiled(dates: Dates)
    requires WellFiled(dates)
    ensures WellFiled(SortBuckets(dates))
  {
    forall k | k in dates.buckets
      ensures DistinctNames(SortBuckets(dates).buckets[k])
      ensures forall x :: x in SortBuckets(dates).buckets[k] ==> k <= x.datetime
    {
      SortKeepsNamesDistinct(dates.buckets[k]);
      assert forall x :: x in SortBuckets(dates).buckets[k] ==> x in multiset(dates.buckets[k]);
    }
  }

  ghost predicate AllWellFiled(analyses: map<string, SectionDocument>)
  {
    forall n :: n in analyses ==> WellFiled(analyses[n].dates)
  }

  /** A run keeps every saved document well filed. */
  lemma {:induction false} RunKeepsWellFiled(run: Run, entries: seq<DirEntry>, force: bool)
    requires DocsValid(run.analyses) && AllWellFiled(run.analyses)
    ensures AllWellFiled(RunSections(run, entries, force).analyses)
  {
    if entries != [] {
      var init := entries[..|entries| - 1];
      var e := entries[|entries| - 1];
      RunKeepsWellFiled(run, init, force);
      var mid := RunSections(run, init, force);
      if e.isDir {
        var doc := LoadSectionData(mid.analyses, e.name);
        var s0 := SectionRun(doc, mid.metadata, mid.heatMaps, mid.filesAnalyzed, mid.filesSkipped);
        ProcessFilesKeepsWellFiled(s0, e.name, e.photos, force);
        SortBucketsKeepsWellFiled(ProcessFiles(s0, e.name, e.photos, force).doc.dates);
      }
    }
  }
}
