# Roof photo bookkeeping, modelled in Dafny

This project models the bookkeeping core of a small roof-monitoring tool.
The tool has two parts.

- **Rename tool.** It renames JPEG photos after the date and time in their
  TIFF/EXIF `DateTime` tag (tag 306, `YYYY:MM:DD HH:MM:SS`). The new name is
  `YYYY-MM-DD-HH-MM` plus the lower-cased suffix.
- **Analysis server** (`RoofAnalysisServer`). It walks one directory per
  roof section. It checks recorded photos against their stored fingerprint
  (MD5, size, mtime) and records the fingerprint of every photo it
  analyses. It analyses only new or changed photos and merges one record per photo into a
  per-section document, keyed by the ISO date of the photo's file name. At
  the end of each section it sorts each date's records by their `datetime`
  text. It can also summarise the saved documents.

The backend that serves both parts has three more pieces in the model: an
in-memory log of time-stamped entries, and the 400/404 checks its two POST
handlers make before doing any work.

The model has ten modules, one per file:

| module | file | what it holds |
|---|---|---|
| `Wrappers` | wrappers.dfy | `Option` |
| `Text` | text.dfy | ASCII digits, zero padding, `str()` of a natural number, `split`/`join` at one character, ASCII `lower()`, and Python's code-point order on `str` |
| `PathNames` | path_names.dfy | `pathlib`'s `stem` and `suffix` |
| `Chrono` | chrono.dfy | `datetime` validity, `strptime` for the two formats the tool parses, `strftime`/`isoformat` for the texts it writes |
| `SectionStore` | section_store.dfy | section documents, the update-or-append merge, the stable sort by `datetime`, the summary |
| `AnalysisServer` | analysis_server.dfy | fingerprints and the change check; the loop body and the loops of `analyze_and_store` as functions; the `RoofAnalysisServer` class whose methods run them step by step on its fields |
| `AnalysisRuns` | analysis_runs.dfy | what one photo, one section and one run do; counter tallies; a second run without forcing changes nothing; documents stay well filed |
| `LogBuffer` | logs.dfy | the `LogCollector` class and the entry format |
| `PhotoRenamer` | rename.dfy | `rename_photos`: classification, counters, log entries, renames |
| `RequestValidation` | request_validation.dfy | the 400/404/proceed order of `api_rename` and `api_analyze` |

### How the world is modelled

The world outside the program is given as values, not performed.

- **Analysis input.** The directory walk is a sequence of section entries,
  each with the sequence of photos its recursive walk yields. Each photo
  carries its current fingerprint and the decoded image's statistics, or
  `None` when decoding fails.
- **Rename input.** The rename tool's listing is a sequence of files. Each
  file carries three things:
  - what reading its EXIF data gives;
  - whether `os.rename` raises for it;
  - the text of the exception raised for it, if any.
- **Clock.** Every log call is given its clock reading.
- **Persistence.** The saved documents, the metadata and the heat-map files
  are fields of the server object. A save is the update of a field.

`strptime` is modelled by the regular expression it builds:

- `%Y` is exactly four digits.
- `%m`, `%d`, `%H`, `%M` and `%S` are one or two digits within their range.
  `%S` goes up to 61, and `%d` also accepts a space followed by one digit.
- A blank in the format matches one or more whitespace characters.
- The whole text must be consumed.
- `datetime()` then rejects year 0, a day past the end of its month, and a
  second of 60 or 61.

The rename tool reads tag 306, `DateTime`, not `DateTimeOriginal` (tag
36867). Some descriptions of the tool speak of the original capture time;
the model follows the code.

A few facts the proofs bring out:

- A photo whose name does not parse is dropped without being counted or
  logged (`AnalysisRuns.UnparsedDropped`).
- A photo that cannot be decoded still opens an empty date list in its
  section document (`AnalysisRuns.UndecodedOpensDate`).
- Two photos taken within the same minute with the same lower-cased suffix
  get the same new name (`PhotoRenamer.SameMinuteSameName`).

## Model

| member | source | states |
|---|---|---|
| AnalysisServer.LoadMetadata | renemaPhotos.py:33-38 | without saved metadata the fingerprint map starts empty; otherwise the saved metadata is used unchanged |
| SectionStore.LoadSectionData | renemaPhotos.py:118-127 | a saved section document is returned as it is; without one, the document is named after the section and has no dates |
| SectionStore.FreshSectionSummary | renemaPhotos.py:124-127 | a fresh section document is well formed and summarises to no dates and zero measurements |
| AnalysisServer.ShouldAnalyze | renemaPhotos.py:61-71 | a file needs analysis exactly when its path is not recorded, or is recorded with a fingerprint (hash, size, mtime) different from its current one |
| Chrono.ParseStem | renemaPhotos.py:73-79 | a stem that parses gives a valid date and time whose seconds are 0; every other stem gives None |
| Chrono.FormatStem | BE_app.py:49-49 | the stem the rename tool writes is sixteen characters with no dot, so it is the whole stem of the new name; ParseFormatStem reads it back |
| Chrono.ParseFormatStem | renemaPhotos.py:73-79 | every stem `YYYY-MM-DD-HH-MM` written for a valid date and time parses back to that date and time with the seconds cleared |
| Chrono.IsoDate | renemaPhotos.py:169-169 | the date key is `YYYY-MM-DD`: ten characters, dashes at positions 4 and 7, and digit fields that read back as the year, month and day |
| Chrono.IsoFormat | renemaPhotos.py:188-188 | the record's datetime text is `YYYY-MM-DDTHH:MM:SS`: nineteen characters whose first ten are the date key, and whose hour, minute and second fields read back to the time |
| SectionStore.EnsureBucket | renemaPhotos.py:170-171 | afterwards the date has a list; an existing list is untouched; a new date gets an empty list and is added at the end of the date order |
| SectionStore.FirstIndexOf | renemaPhotos.py:197-198 | finds a position exactly when some record carries the name; that record carries it and no earlier one does |
| SectionStore.Upsert | renemaPhotos.py:197-202 | the list keeps its length if the name is present and grows by one otherwise; the result holds the new record, and its other records come from the old list |
| SectionStore.UpsertInPlace | renemaPhotos.py:199-200 | a record with the same image name is replaced at the first position carrying that name, and every other position is unchanged |
| SectionStore.UpsertAppends | renemaPhotos.py:201-202 | a record for a new image name is appended at the end |
| SectionStore.UpsertIdempotent | renemaPhotos.py:197-202 | merging the same record twice gives the same list as merging it once |
| SectionStore.UpsertKeepsNamesDistinct | renemaPhotos.py:197-202 | a list in which no image name repeats still has none repeating after a merge |
| SectionStore.MergeRecord | renemaPhotos.py:197-202 | the merged date's list becomes the update-or-append of the record into it; the document stays well formed with the same date order; every other date keeps its list |
| SectionStore.MergeRecordIdempotent | renemaPhotos.py:197-202 | merging a record into a document twice is the same as merging it once |
| SectionStore.MergeCountsOnce | renemaPhotos.py:197-202 | a merge adds one measurement to the summary when the image is new to its date, and none when it replaces a record |
| SectionStore.SortByDatetime | renemaPhotos.py:209-210 | sorting gives a permutation of the list (same multiset, same length) |
| SectionStore.SortByDatetimeSorted | renemaPhotos.py:209-210 | the sorted list is non-decreasing in the code-point order of the datetime texts |
| SectionStore.SortByDatetimeStable | renemaPhotos.py:209-210 | records with equal datetime texts keep their relative order |
| SectionStore.SortByDatetimeOfSorted | renemaPhotos.py:209-210 | a list already in order is left exactly as it is |
| SectionStore.SortKeepsNamesDistinct | renemaPhotos.py:209-210 | sorting keeps image names distinct within a list |
| SectionStore.SortBuckets | renemaPhotos.py:209-210 | sorting every date's list keeps the date order and the dates, and keeps the document well formed |
| SectionStore.SortBucketsSorts | renemaPhotos.py:209-210 | after sorting, every list is ordered by datetime and is a permutation of its old contents |
| SectionStore.SortBucketsOfSorted | renemaPhotos.py:209-210 | sorting a document whose lists are all ordered changes nothing |
| SectionStore.SortEachBucket | renemaPhotos.py:209-210 | the loop over the dates leaves the same dates in the same order, and each list equal to the stable sort of the old one |
| SectionStore.Summarize | renemaPhotos.py:231-235 | a section's summary lists its dates in insertion order |
| SectionStore.SortKeepsSummary | renemaPhotos.py:209-235 | sorting changes neither the dates nor the total number of measurements the summary reports |
| AnalysisServer.HeatMapFileName | renemaPhotos.py:182-182 | the heat map's file name is the section name, `_`, the photo's stem, then `_heat_map.npy` |
| AnalysisServer.MakeRecord | renemaPhotos.py:187-194 | the record carries the photo's name, the ISO text of its minute (which opens with the key of its date), the three statistics and the heat map's file name; AnalysisRuns.AnalyzedMerges states where it is merged |
| AnalysisServer.ProcessFile | renemaPhotos.py:160-206 | one pass of the per-photo loop body keeps the document well formed and under its name |
| AnalysisServer.ProcessFiles | renemaPhotos.py:159-206 | the per-photo loop keeps the document well formed, and adds at most one count per photo to the two counters together |
| AnalysisServer.ProcessSection | renemaPhotos.py:149-213 | processing one entry of the photos directory keeps every saved document well formed and saved under its own name |
| AnalysisServer.RunSections | renemaPhotos.py:148-213 | the loop over the photos directory keeps every saved document well formed and saved under its own name |
| AnalysisServer.RoofAnalysisServer.constructor | renemaPhotos.py:14-31 | the server starts from the saved metadata, or the empty default, and from the saved documents and heat maps |
| AnalysisServer.RoofAnalysisServer.AnalyzeAndStore | renemaPhotos.py:135-220 | the new documents, fingerprints, heat maps and the two counts are those of the run over the directory entries, starting from the old state |
| AnalysisServer.RoofAnalysisServer.AnalyzeSection | renemaPhotos.py:148-213 | one entry: a directory's document is loaded, extended photo by photo, sorted and saved; any other entry is passed over |
| AnalysisServer.RoofAnalysisServer.WalkSection | renemaPhotos.py:159-206 | the step-by-step loop over a section's photos ends in the state the per-photo loop function describes |
| AnalysisServer.RoofAnalysisServer.VisitPhoto | renemaPhotos.py:160-206 | one photo: skipped, dropped, date opened, or merged with its fingerprint recorded, exactly as the loop body function says |
| AnalysisServer.RoofAnalysisServer.OpenDate | renemaPhotos.py:169-171 | the document afterwards has the list of the photo's date: an existing list is kept, and a new date gets an empty list added last, as the document function says |
| AnalysisServer.RoofAnalysisServer.StoreAnalysis | renemaPhotos.py:182-206 | an analysed photo's record is merged into the list of its date, its fingerprint is recorded under its path, and its heat map is added |
| AnalysisServer.RoofAnalysisServer.ReplaceOrAppend | renemaPhotos.py:197-202 | the record replaces the first one with the same image name, or is appended when there is none; this is the merge the document function performs |
| AnalysisServer.RoofAnalysisServer.GetAnalysisSummary | renemaPhotos.py:222-237 | one summary per saved document, keyed by section name: its dates and its total of measurements |
| AnalysisRuns.SkippedIff | renemaPhotos.py:160-163 | a photo is counted as skipped exactly when forcing is off and its path is recorded with its current fingerprint; a skip changes nothing else |
| AnalysisRuns.ForceIgnoresMetadata | renemaPhotos.py:160-163 | with forcing on, no photo is skipped, and the stored fingerprints affect nothing but the resulting fingerprints |
| AnalysisRuns.UnparsedDropped | renemaPhotos.py:165-167 | a photo whose stem is not a date is dropped: no date list, no record, no fingerprint, no count |
| AnalysisRuns.UndecodedOpensDate | renemaPhotos.py:169-176 | an undecodable photo opens its date's list (empty if new) but adds no record, fingerprint, heat map or count; other dates keep their lists |
| AnalysisRuns.AnalyzedMerges | renemaPhotos.py:182-206 | an analysed photo's record is merged into its date's list; that list keeps its length or grows by one; other dates keep their lists; the analysed count grows by one; only the photo's path gets its fingerprint; the heat map is added |
| AnalysisRuns.OutcomesPartition | renemaPhotos.py:159-206 | every photo takes exactly one of four branches: skipped, unparsed, undecoded or analysed |
| AnalysisRuns.CountersTally | renemaPhotos.py:159-206 | with distinct paths, the analysed and skipped counters grow by the number of photos that take those branches against the starting fingerprints; fingerprints of other paths stay |
| AnalysisRuns.SettledWalk | renemaPhotos.py:159-206 | over settled photos (skipped, unparsable, or undecodable with their date already open), the loop changes nothing but the skipped counter |
| AnalysisRuns.WalkSettles | renemaPhotos.py:159-206 | after the loop every photo of the section is settled; without forcing, the new fingerprints recognise as many photos as were counted as analysed or skipped |
| AnalysisRuns.RerunSections | renemaPhotos.py:148-213 | over settled sections, a run without forcing leaves documents, fingerprints and heat maps as they were and counts every recognised photo as skipped |
| AnalysisRuns.RunSettles | renemaPhotos.py:148-213 | with distinct section names and photo paths, a run leaves every section settled, saved and sorted; without forcing, the recognised photos number what the run counted |
| AnalysisRuns.RerunChangesNothing | renemaPhotos.py:135-216 | a second run without forcing, over the same photos, changes no document, fingerprint or heat map, and analyses nothing; if the first run was not forced, it skips as many photos as the first run analysed and skipped |
| AnalysisRuns.ProcessFilesKeepsWellFiled | renemaPhotos.py:169-202 | the per-photo loop keeps every record in the list of its own date, with no image name repeated in a list |
| AnalysisRuns.SortBucketsKeepsWellFiled | renemaPhotos.py:209-210 | sorting keeps every record in the list of its own date, with no image name repeated in a list |
| AnalysisRuns.RunKeepsWellFiled | renemaPhotos.py:148-213 | a whole run keeps every saved document well filed |
| LogBuffer.Entry | BE_app.py:20-21 | an entry is a ten-character stamp followed by the whole message; ParseEntryOfEntry reads both parts back |
| LogBuffer.ParseEntryOfEntry | BE_app.py:19-22 | every log entry is the clock text `HH:MM:SS`, then `": "`, then the message, and both parts read back exactly |
| LogBuffer.LogCollector.constructor | BE_app.py:16-17 | a new collector has no entries |
| LogBuffer.LogCollector.AddLog | BE_app.py:19-23 | exactly one stamped entry is appended at the end, and the earlier entries are unchanged |
| LogBuffer.LogCollector.GetLogs | BE_app.py:25-26 | returns the entries so far |
| LogBuffer.LogCollector.ClearLogs | BE_app.py:28-29 | the log becomes empty |
| Chrono.ParseExifDateTime | BE_app.py:48-48 | the EXIF date-time text gives a valid date and time, or None where strptime raises |
| Chrono.ParseExifText | BE_app.py:48-48 | every EXIF date-time text `YYYY:MM:DD HH:MM:SS` of a valid date and time parses back to it |
| PathNames.Stem | BE_app.py:49-49 | a name is its stem followed by its suffix |
| PathNames.StemSuffixOfJoin | BE_app.py:49-49 | a dot-free stem followed by a suffix splits back into the two |
| PhotoRenamer.Count | BE_app.py:35-69 | the renamed, skipped and error counts add up to the number of files visited |
| PhotoRenamer.NewName | BE_app.py:49-49 | the new name's stem is the formatted minute, and its suffix is the old suffix lower-cased |
| PhotoRenamer.Classify | BE_app.py:42-69 | only a file whose tag 306 gives a date and time is renamed or skipped; it is skipped when the new name is its own name, otherwise renamed to the new name unless the rename raises; a file without EXIF data is a missing-EXIF error and an unreadable one a failure; ClassifyOfTimestamp and AlreadyNamedIff state the whole rule |
| PhotoRenamer.FileMessage | BE_app.py:54-68 | a file's log message opens with its outcome's text and then names the file |
| PhotoRenamer.StartMessage | BE_app.py:39-39 | the opening entry ends with the directory's text |
| PhotoRenamer.SummaryText | BE_app.py:71-71 | the summary reports the renamed, skipped and error counts; SummaryTextReportsCounts shows it determines them |
| PhotoRenamer.SummaryTextReportsCounts | BE_app.py:71-71 | two runs give the same summary exactly when their three counts are equal: each count can be read back from the text |
| PhotoRenamer.ClassifyOfTimestamp | BE_app.py:45-69 | a file whose tag gives a date and time is skipped if already so named, counted as an error if the rename raises, and renamed otherwise; a file whose tag does not give one is neither renamed nor skipped |
| PhotoRenamer.ExifTextRenamed | BE_app.py:46-58 | a file whose tag 306 is the EXIF text of a date and time gets the name of that minute plus its lower-cased suffix, with the seconds dropped |
| PhotoRenamer.ExampleRename | BE_app.py:46-55 | `IMG_0001.jpg` taken at `2023:01:02 03:04:05` is renamed to `2023-01-02-03-04.jpg` |
| PhotoRenamer.AlreadyNamedIff | BE_app.py:52-58 | a file is skipped exactly when its tag parses and the new name equals its current name |
| PhotoRenamer.RenamedIsSkippedNext | BE_app.py:49-58 | a renamed file gets a name other than its own, and a second run skips it |
| PhotoRenamer.RenamedNameParses | BE_app.py:49-49 | the analysis server's file-name parser reads a renamed file's stem back to its minute |
| PhotoRenamer.UpperSuffixRenamed | BE_app.py:49-55 | a file already named after its minute, but with an upper-case letter in its suffix, is still renamed |
| PhotoRenamer.SameMinuteSameName | BE_app.py:49-50 | two photos get the same new name exactly when they were taken in the same minute and their suffixes agree once lower-cased |
| PhotoRenamer.RenamesCounted | BE_app.py:41-69 | the number of renames performed equals the renamed count, and every rename changes the name |
| PhotoRenamer.RenameOne | BE_app.py:42-69 | one file: its branch's counter is incremented, its rename is performed if it has one, and its one entry is logged |
| PhotoRenamer.RenameAll | BE_app.py:41-69 | the loop's counters are the tally of the files' branches, its renames are those the branches call for in listing order, and one entry per file is logged |
| PhotoRenamer.RenamePhotos | BE_app.py:33-73 | the summary reports the three counts; the log gains the start entry, one entry per file and the summary entry |
| RequestValidation.ValidateRename | BE_app.py:80-84 | 400 exactly when photos_dir is missing or empty; otherwise 404 exactly when it is not a directory; otherwise proceed |
| RequestValidation.ValidateAnalyze | BE_app.py:108-112 | 400 exactly when photos_dir or data_dir is missing or empty; otherwise 404 exactly when photos_dir is not a directory; otherwise proceed |
| RequestValidation.BadRequestBeforeDirectoryCheck | BE_app.py:108-112 | whether a request gets the 400 does not depend on which directories exist |
| RequestValidation.AnalyzeAgreesWithRename | BE_app.py:108-112 | given a data_dir, the analyse handler decides exactly as the rename handler does |

## Left out

- Image numerics (grey conversion, mean, standard deviation, histogram equalisation, adaptive threshold) are floating-point calls into OpenCV and scikit-image. Each photo carries their result as given values. The heat map array is represented only by its file name.
- MD5 hashing, chunked reads and `stat` are I/O. A photo carries its fingerprint. The fingerprint is taken once per photo, while the code computes it again when recording it; this assumes the file does not change during the run.
- `mtime` is a float that is only compared for equality. The model uses a `real`.
- Decoding with `cv2.imdecode` and reading EXIF with PIL are foreign calls. Their outcome is given with each file.
- JSON loading and saving, `mkdir` and `np.save` are I/O. The documents, metadata and heat-map names are in-memory fields. Not crash-safe writes, and JSON's handling of floats and non-ASCII text, are outside the model.
- Directory enumeration (`iterdir`, `rglob('*.jp*g')`, `glob`) is given as sequences in walk order. Glob matching and its platform-dependent case sensitivity are not modelled.
- AnalysisRuns.CountersTally, AnalysisRuns.WalkSettles, AnalysisRuns.RunSettles and AnalysisRuns.RerunChangesNothing assume that the walk yields distinct paths and distinct section names. A real file system walk does.
- AnalysisServer.RoofAnalysisServer.GetAnalysisSummary reads the documents from the server's map instead of globbing `*_analysis.json`. It relies on each document being saved under its own name, which the server's invariant keeps.
- `print` output of the analysis run is not modelled. AnalyzeAndStore returns the two counts it prints.
- `strptime` also accepts Unicode digits and whitespace (`\d`, `\s`). The model accepts ASCII digits only, and as whitespace the ten ASCII characters `\s` matches (`\t \n \v \f \r`, `\x1c`-`\x1f` and space); the non-ASCII ones are not modelled.
- `str.lower()` also lower-cases non-ASCII letters. The model's `Lower` changes only `A`-`Z`.
- `strftime('%Y')` pads years below 1000 in a platform-dependent way. The model always writes four digits.
- Path equality in the rename check is modelled as POSIX equality of names in the same directory. Windows compares paths case-insensitively.
- `os.rename` may replace an existing file of the new name on POSIX. The directory's contents are not modelled; RenamePhotos returns the list of renames it performs.
- LogBuffer.LogCollector.GetLogs returns the entries as a value. In the Python code the caller gets the live list object.
- Exception texts (from opening a file, `strptime`, a non-text tag value, or `os.rename`) are given with each file. The model does not derive them.
- AnalysisServer.RoofAnalysisServer.AnalyzeAndStore: a run that raises part-way is not modelled. Nothing in `analyze_and_store` catches an exception from `stat` or reading a file that vanished or became unreadable during the walk, from `np.save`, or from loading a corrupt section file; the exception reaches the handler's 500 response. By then the sections already finished are saved, but `metadata.json` is not, so the next run analyses their photos again. The model describes only runs that complete (and AnalysisServer.RunSections likewise).
- PhotoRenamer.RenamePhotos: `directory` is taken as the text of `Path(directory)`. The normalisation `Path` performs (dropping a trailing slash, repeated slashes and `.` components) is not modelled, so the start entry logs the given text as it is.
- The HTTP layer is not modelled: Flask routing, CORS, `jsonify`, a missing JSON body, non-string parameter values, `os.makedirs` for data_dir, the analyse handler's log lines about the summary, and the 500 responses.
- The prototype analysis script and the web front end are not part of this model.
