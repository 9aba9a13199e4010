/**
 * RoofAnalysisServer: the incremental photo analysis of a tree of roof
 * sections. Every section directory's photos are checked against the
 * stored fingerprints; new or changed ones are analysed, their records
 * merged into the section document under their capture date, and their
 * fingerprints recorded; each document is sorted and saved at the end of
 * its section.
 *
 * The file system is given as values: the section directories with the
 * photos the recursive walk finds, each with its path, name, current
 * fingerprint and the outcome of decoding and analysing it (None when the
 * image cannot be decoded). The saved documents, metadata and heat maps
 * are fields of the server.
 */
module AnalysisServer {
  import opened Wrappers
  import opened PathNames
  import opened Chrono
  import opened SectionStore

  /** _get_file_info: MD5 hex digest, size in bytes and modification time (a float, only compared). */
  datatype FileInfo = FileInfo(hash: string, size: nat, mtime: real)

  /** What _analyze_single_image returns besides the heat map; the image numerics are not modelled. */
  datatype ImageStats = ImageStats(averageBrightness: real, brightnessVariation: real, shadowPercentage: real)

  /** A file of the walk: str(path), its name, its fingerprint now, and the analysis of its decoded pixels. */
  datatype Photo = Photo(path: string, name: string, info: FileInfo, image: Option<ImageStats>)

  /** An entry of the photos directory; only directories are sections. */
  datatype DirEntry = DirEntry(name: string, isDir: bool, photos: seq<Photo>)

  /** metadata.json: {'analyzed_files': {path: fingerprint}} */
  datatype Metadata = Metadata(analyzedFiles: map<string, FileInfo>)

  /** _load_metadata: the saved metadata, or {'analyzed_files': {}} when there is none. */
  function LoadMetadata(saved: Option<Metadata>): (m: Metadata)
    ensures saved.None? ==> m.analyzedFiles == map[]
    ensures saved.Some? ==> m == saved.value
  {
    if saved.Some? then saved.value else Metadata(map[])
  }

  function Lookup(analyzed: map<string, FileInfo>, path: string): Option<FileInfo>
  {
    if path in analyzed then Some(analyzed[path]) else None
  }

  /**
   * _should_analyze_file: a file needs analysis unless its path is recorded
   * with exactly the fingerprint it has now.
   */
  function ShouldAnalyze(analyzed: map<string, FileInfo>, path: string, current: FileInfo): (b: bool)
    ensures b <==> Lookup(analyzed, path) != Some(current)
  {
    if path !in analyzed then true
    else
      var stored := analyzed[path];
      current.hash != stored.hash || current.size != stored.size || current.mtime != stored.mtime
  }

  /** f"{section_name}_{img_path.stem}_heat_map.npy": the section, "_", the photo's stem, "_heat_map.npy". */
  function HeatMapFileName(section: string, imageName: string): (r: string)
    ensures |r| == |section| + 1 + |Stem(imageName)| + 13
    ensures r[..|section| + 1] == section + "_"
    ensures r[|section| + 1..|r| - 13] == Stem(imageName)
    ensures r[|r| - 13..] == "_heat_map.npy"
  {
    var r := section + "_" + Stem(imageName) + "_heat_map.npy";
    assert r[..|section| + 1] == section + "_";
    assert r[|section| + 1..|r| - 13] == Stem(imageName);
    r
  }

  /**
   * The record the analysis of one photo produces: named after the photo,
   * stamped with the ISO text of its minute (which opens with the key of its
   * date), carrying the statistics and the heat map's file name.
   */
  function MakeRecord(section: string, f: Photo, dt: DateTime, stats: ImageStats): (r: AnalysisRecord)
    requires Valid(dt)
    ensures r.imageName == f.name && r.heatMapFile == HeatMapFileName(section, f.name)
    ensures r.datetime == IsoFormat(dt) && r.datetime[..10] == IsoDate(dt)
    ensures r.averageBrightness == stats.averageBrightness && r.brightnessVariation == stats.brightnessVariation
    ensures r.shadowPercentage == stats.shadowPercentage
  {
    AnalysisRecord(IsoFormat(dt), f.name, stats.averageBrightness, stats.brightnessVariation,
                   stats.shadowPercentage, HeatMapFileName(section, f.name))
  }

  /** What a run has built up while it walks one section. */
  datatype SectionRun = SectionRun(
    doc: SectionDocument,
    metadata: map<string, FileInfo>,
    heatMaps: set<string>,
    filesAnalyzed: nat,
    filesSkipped: nat)

  /** The body of the loop over one section's photos. */
  function ProcessFile(s: SectionRun, section: string, f: Photo, force: bool): (r: SectionRun)
    requires s.doc.dates.Valid()
    ensures r.doc.name == s.doc.name && r.doc.dates.Valid()
  {
    if !force && !ShouldAnalyze(s.metadata, f.path, f.info) then
      s.(filesSkipped := s.filesSkipped + 1)
    else match ParseStem(Stem(f.name))
      case None => s
      case Some(dt) =>
        var dateKey := IsoDate(dt);
        var dates := EnsureBucket(s.doc.dates, dateKey);
        match f.image
        case None => s.(doc := s.doc.(dates := dates))
        case Some(stats) =>
          var rec := MakeRecord(section, f, dt, stats);
          SectionRun(s.doc.(dates := MergeRecord(dates, dateKey, rec)),
                     s.metadata[f.path := f.info],
                     s.heatMaps + {rec.heatMapFile},
                     s.filesAnalyzed + 1,
                     s.filesSkipped)
  }

  /** The loop over one section's photos, in walk order. */
  function ProcessFiles(s: SectionRun, section: string, fs: seq<Photo>, force: bool): (r: SectionRun)
    requires s.doc.dates.Valid()
    ensures r.doc.name == s.doc.name && r.doc.dates.Valid()
    ensures r.filesAnalyzed + r.filesSkipped <= s.filesAnalyzed + s.filesSkipped + |fs|
  {
    if fs == [] then s
    else ProcessFile(ProcessFiles(s, section, fs[..|fs| - 1], force), section, fs[|fs| - 1], force)
  }

  /** One more photo at the end of the walk is one more pass of the loop body. */
  lemma ProcessFilesSnoc(s: SectionRun, section: string, fs: seq<Photo>, f: Photo, force: bool)
    requires s.doc.dates.Valid()
    ensures ProcessFiles(s, section, fs + [f], force) == ProcessFile(ProcessFiles(s, section, fs, force), section, f, force)
  {
    assert (fs + [f])[..|fs|] == fs;
  }

  /** The loop over the first j + 1 photos is the loop over the first j, then photo j. */
  lemma ProcessFilesPrefix(s: SectionRun, section: string, fs: seq<Photo>, j: nat, force: bool)
    requires s.doc.dates.Valid() && j < |fs|
    ensures ProcessFiles(s, section, fs[..j + 1], force) == ProcessFile(ProcessFiles(s, section, fs[..j], force), section, fs[j], force)
  {
    assert fs[..j + 1] == fs[..j] + [fs[j]];
    ProcessFilesSnoc(s, section, fs[..j], fs[j], force);
  }

  /** What a run has built up over all sections so far. */
  datatype Run = Run(
    analyses: map<string, SectionDocument>,
    metadata: map<string, FileInfo>,
    heatMaps: set<string>,
    filesAnalyzed: nat,
    filesSkipped: nat)

  /** Saved documents are well formed and each is saved under its own name. */
  ghost predicate DocsValid(analyses: map<string, SectionDocument>)
  {
    forall k :: k in analyses ==> analyses[k].name == k && analyses[k].dates.Valid()
  }

  /** One entry of the photos directory: a section is loaded, walked, sorted and saved. */
  function ProcessSection(run: Run, e: DirEntry, force: bool): (r: Run)
    requires DocsValid(run.analyses)
    ensures DocsValid(r.analyses)
  {
    if !e.isDir then run
    else
      var doc := LoadSectionData(run.analyses, e.name);
      var fr := ProcessFiles(SectionRun(doc, run.metadata, run.heatMaps, run.filesAnalyzed, run.filesSkipped),
                             e.name, e.photos, force);
      var saved := fr.doc.(dates := SortBuckets(fr.doc.dates));
      assert saved.name == e.name && saved.dates.Valid();
      Run(run.analyses[e.name := saved], fr.metadata, fr.heatMaps, fr.filesAnalyzed, fr.filesSkipped)
  }

  /** The loop over the entries of the photos directory. */
  function RunSections(run: Run, entries: seq<DirEntry>, force: bool): (r: Run)
    requires DocsValid(run.analyses)
    ensures DocsValid(r.analyses)
  {
    if entries == [] then run
    else ProcessSection(RunSections(run, entries[..|entries| - 1], force), entries[|entries| - 1], force)
  }

  /** The loop over the first i + 1 entries is the loop over the first i, then entry i. */
  lemma RunSectionsPrefix(run: Run, entries: seq<DirEntry>, i: nat, force: bool)
    requires DocsValid(run.analyses) && i < |entries|
    ensures RunSections(run, entries[..i + 1], force) == ProcessSection(RunSections(run, entries[..i], force), entries[i], force)
  {
    assert entries[..i + 1][..i] == entries[..i];
  }

  class RoofAnalysisServer {
    /** self.metadata, loaded once and saved at the end of a run */
    var metadata: Metadata
    /** the analyses/<section>_analysis.json files, by section name */
    var analyses: map<string, SectionDocument>
    /** the names of the files in heat_maps/ */
    var heatMaps: set<string>

    ghost predicate Valid()
      reads this
    {
      DocsValid(analyses)
    }

    ghost function State(): Run
      reads this
    {
      Run(analyses, metadata.analyzedFiles, heatMaps, 0, 0)
    }

    /** __init__: the data directory's saved metadata (if any), documents and heat maps. */
    constructor (savedMetadata: Option<Metadata>, savedAnalyses: map<string, SectionDocument>, savedHeatMaps: set<string>)
      requires DocsValid(savedAnalyses)
      ensures Valid()
      ensures metadata == LoadMetadata(savedMetadata)
      ensures analyses == savedAnalyses && heatMaps == savedHeatMaps
    {
      metadata := LoadMetadata(savedMetadata);
      analyses := savedAnalyses;
      heatMaps := savedHeatMaps;
    }

    /**
     * analyze_and_store: walks `photos` and returns the numbers of analysed
     * and skipped files (which the Python code prints).
     */
    method AnalyzeAndStore(photos: seq<DirEntry>, force: bool) returns (filesAnalyzed: nat, filesSkipped: nat)
      requires Valid()
      modifies this
      ensures Valid()
      ensures Run(analyses, metadata.analyzedFiles, heatMaps, filesAnalyzed, filesSkipped)
              == RunSections(old(State()), photos, force)
    {
      ghost var start := State();
      filesAnalyzed, filesSkipped := 0, 0;
      var i := 0;
      while i < |photos|
        invariant 0 <= i <= |photos|
        invariant Run(analyses, metadata.analyzedFiles, heatMaps, filesAnalyzed, filesSkipped)
                  == RunSections(start, photos[..i], force)
        invariant DocsValid(analyses)
      {
        RunSectionsPrefix(start, photos, i, force);
        filesAnalyzed, filesSkipped := AnalyzeSection(photos[i], force, filesAnalyzed, filesSkipped);
        i := i + 1;
      }
      assert photos[..i] == photos;
    }

    /**
     * One pass of the loop over the photos directory: a directory is a
     * section whose document is loaded, extended photo by photo, sorted
     * date by date and saved; any other entry is passed over.
     */
    method AnalyzeSection(sectionDir: DirEntry, force: bool, analyzedSoFar: nat, skippedSoFar: nat)
      returns (filesAnalyzed: nat, filesSkipped: nat)
      requires Valid()
      modifies this
      ensures Valid()
      ensures Run(analyses, metadata.analyzedFiles, heatMaps, filesAnalyzed, filesSkipped)
              == ProcessSection(Run(old(analyses), old(metadata.analyzedFiles), old(heatMaps), analyzedSoFar, skippedSoFar),
                                sectionDir, force)
    {
      filesAnalyzed, filesSkipped := analyzedSoFar, skippedSoFar;
      if !sectionDir.isDir {
        return;
      }
      var sectionName := sectionDir.name;
      var sectionData := LoadSectionData(analyses, sectionName);
      sectionData, filesAnalyzed, filesSkipped := WalkSection(sectionName, sectionDir.photos, force, sectionData, filesAnalyzed, filesSkipped);
      var sortedDates := SortEachBucket(sectionData.dates);
      var saved := sectionData.(dates := sortedDates);
      assert saved.name == sectionName && saved.dates.Valid();
      analyses := analyses[sectionName := saved];
    }

    /** The loop over one section's photos, in walk order. */
    method WalkSection(sectionName: string, photos: seq<Photo>, force: bool, sectionData: SectionDocument,
                       analyzedSoFar: nat, skippedSoFar: nat)
      returns (newData: SectionDocument, filesAnalyzed: nat, filesSkipped: nat)
      requires sectionData.dates.Valid()
      modifies this`metadata, this`heatMaps
      ensures SectionRun(newData, metadata.analyzedFiles, heatMaps, filesAnalyzed, filesSkipped)
              == ProcessFiles(SectionRun(sectionData, old(metadata.analyzedFiles), old(heatMaps), analyzedSoFar, skippedSoFar),
                              sectionName, photos, force)
    {
      ghost var before := SectionRun(sectionData, metadata.analyzedFiles, heatMaps, analyzedSoFar, skippedSoFar);
      newData, filesAnalyzed, filesSkipped := sectionData, analyzedSoFar, skippedSoFar;
      var j := 0;
      while j < |photos|
        invariant 0 <= j <= |photos|
        invariant SectionRun(newData, metadata.analyzedFiles, heatMaps, filesAnalyzed, filesSkipped)
                  == ProcessFiles(before, sectionName, photos[..j], force)
      {
        ProcessFilesPrefix(before, sectionName, photos, j, force);
        newData, filesAnalyzed, filesSkipped := VisitPhoto(sectionName, photos[j], force, newData, filesAnalyzed, filesSkipped);
        j := j + 1;
      }
      assert photos[..j] == photos;
    }

    /**
     * The record replaces the first one of the same image name, or is
     * appended when there is none.
     */
    static method ReplaceOrAppend(bucket: seq<AnalysisRecord>, analysisResult: AnalysisRecord) returns (r: seq<AnalysisRecord>)
      ensures r == Upsert(bucket, analysisResult)
    {
      var existing := FirstIndexOf(bucket, analysisResult.imageName);
      if existing.Some? {
        r := bucket[existing.value := analysisResult];
      } else {
        r := bucket + [analysisResult];
      }
    }

    /** A date seen for the first time gets an empty list, added last to the date order. */
    static method OpenDate(sectionData: SectionDocument, dateStr: string) returns (newData: SectionDocument)
      requires sectionData.dates.Valid()
      ensures newData == sectionData.(dates := EnsureBucket(sectionData.dates, dateStr))
    {
      newData := sectionData;
      if dateStr !in newData.dates.buckets {
        newData := newData.(dates := Dates(newData.dates.order + [dateStr], newData.dates.buckets[dateStr := []]));
      }
    }

    /**
     * One pass of the loop over a section's photos: skip an unchanged file,
     * drop a file whose stem is not a date, open the date's list, and merge
     * the analysis of a decodable photo while recording its fingerprint.
     */
    method VisitPhoto(sectionName: string, img: Photo, force: bool, sectionData: SectionDocument,
                      analyzedSoFar: nat, skippedSoFar: nat)
      returns (newData: SectionDocument, filesAnalyzed: nat, filesSkipped: nat)
      requires sectionData.dates.Valid()
      modifies this`metadata, this`heatMaps
      ensures SectionRun(newData, metadata.analyzedFiles, heatMaps, filesAnalyzed, filesSkipped)
              == ProcessFile(SectionRun(sectionData, old(metadata.analyzedFiles), old(heatMaps), analyzedSoFar, skippedSoFar),
                             sectionName, img, force)
    {
      newData, filesAnalyzed, filesSkipped := sectionData, analyzedSoFar, skippedSoFar;
      if !force && !ShouldAnalyze(metadata.analyzedFiles, img.path, img.info) {
        filesSkipped := filesSkipped + 1;
        return;
      }
      var imgDatetime := ParseStem(Stem(img.name));
      if imgDatetime.None? {
        return;
      }
      var dt := imgDatetime.value;
      newData := OpenDate(newData, IsoDate(dt));
      if img.image.None? {
        return;
      }
      newData := StoreAnalysis(sectionName, img, dt, img.image.value, newData);
      filesAnalyzed := filesAnalyzed + 1;
    }

    /**
     * The analysed photo: its heat map is saved, its record merged into the
     * list of its date, and its fingerprint recorded under its path.
     */
    method StoreAnalysis(sectionName: string, img: Photo, dt: DateTime, analysis: ImageStats, sectionData: SectionDocument)
      returns (newData: SectionDocument)
      requires Chrono.Valid(dt) && sectionData.dates.Valid() && IsoDate(dt) in sectionData.dates.buckets
      modifies this`metadata, this`heatMaps
      ensures newData == sectionData.(dates := MergeRecord(sectionData.dates, IsoDate(dt), MakeRecord(sectionName, img, dt, analysis)))
      ensures metadata.analyzedFiles == old(metadata.analyzedFiles)[img.path := img.info]
      ensures heatMaps == old(heatMaps) + {HeatMapFileName(sectionName, img.name)}
    {
      var dateStr := IsoDate(dt);
      var heatMapFile := HeatMapFileName(sectionName, img.name);
      heatMaps := heatMaps + {heatMapFile};
      var analysisResult := AnalysisRecord(IsoFormat(dt), img.name, analysis.averageBrightness,
                                           analysis.brightnessVariation, analysis.shadowPercentage, heatMapFile);
      var bucket := ReplaceOrAppend(sectionData.dates.buckets[dateStr], analysisResult);
      newData := sectionData.(dates := sectionData.dates.(buckets := sectionData.dates.buckets[dateStr := bucket]));
      metadata := metadata.(analyzedFiles := metadata.analyzedFiles[img.path := img.info]);
    }

    /** get_analysis_summary: per saved document, its dates and its number of measurements. */
    method GetAnalysisSummary() returns (summary: map<string, SectionSummary>)
      requires Valid()
      ensures summary.Keys == analyses.Keys
      ensures forall k :: k in analyses ==> summary[k] == Summarize(analyses[k])
    {
      summary := map[];
      var files := analyses.Keys;
      while files != {}
        invariant files <= analyses.Keys
        invariant summary.Keys == analyses.Keys - files
        invariant forall k :: k in summary ==> summary[k] == Summarize(analyses[k])
        decreases files
      {
        var analysisFile :| analysisFile in files;
        var sectionData := analyses[analysisFile];
        summary := summary[sectionData.name := Summarize(sectionData)];
        files := files - {analysisFile};
      }
    }
  }
}
