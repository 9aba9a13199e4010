/**
 * The checks the two POST handlers make before any work: a missing or
 * empty parameter is a 400, a photos directory that does not exist is a
 * 404, and only then does the handler proceed. The JSON body's parameters
 * are given as optional texts, and the file system as the set of paths
 * that are directories.
 */
module RequestValidation {
  import opened Wrappers

  datatype Decision = BadRequest | NotFound | Proceed

  /** `not value` for data.get(key): None and "" are false. */
  predicate Missing(value: Option<string>)
  {
    value.None? || value.value == []
  }

  /** api_rename: photos_dir must be given, then must be a directory. */
  function ValidateRename(photosDir: Option<string>, directories: set<string>): (d: Decision)
    ensures d == BadRequest <==> Missing(photosDir)
    ensures d == NotFound <==> !Missing(photosDir) && photosDir.value !in directories
    ensures d == Proceed <==> !Missing(photosDir) && photosDir.value in directories
  {
    if Missing(photosDir) then BadRequest
    else if photosDir.value !in directories then NotFound
    else Proceed
  }

  /** api_analyze: photos_dir and data_dir must both be given, then photos_dir must be a directory. */
  function ValidateAnalyze(photosDir: Option<string>, dataDir: Option<string>, directories: set<string>): (d: Decision)
    ensures d == BadRequest <==> Missing(photosDir) || Missing(dataDir)
    ensures d == NotFound <==> !Missing(photosDir) && !Missing(dataDir) && photosDir.value !in directories
    ensures d == Proceed <==> !Missing(photosDir) && !Missing(dataDir) && photosDir.value in directories
  {
    if Missing(photosDir) || Missing(dataDir) then BadRequest
    else if photosDir.value !in directories then NotFound
    else Proceed
  }

  /** A missing parameter is reported before the file system is consulted: the 400 does not depend on it. */
  lemma BadRequestBeforeDirectoryCheck(photosDir: Option<string>, dataDir: Option<string>, dirs1: set<string>, dirs2: set<string>)
    ensures ValidateRename(photosDir, dirs1) == BadRequest <==> ValidateRename(photosDir, dirs2) == BadRequest
    ensures ValidateAnalyze(photosDir, dataDir, dirs1) == BadRequest <==> ValidateAnalyze(photosDir, dataDir, dirs2) == BadRequest
  {
  }

  /** Given a data directory, the analyse handler decides exactly as the rename handler does. */
  lemma AnalyzeAgreesWithRename(photosDir: Option<string>, dataDir: Option<string>, directories: set<string>)
    requires !Missing(dataDir)
    ensures ValidateAnalyze(photosDir, dataDir, directories) == ValidateRename(photosDir, directories)
  {
  }
}
