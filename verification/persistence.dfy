/** The backing file and the whole request cycle around the handlers:
    every request reloads the store from the file, runs one handler, and a
    mutating request writes the full store back. The file's contents and
    the result of the write are inputs; no I/O happens. */
module Persistence {
  import opened Activities

  /** What the backing file holds, as far as loading it is concerned. */
  datatype StoreFile =
    | Missing                  // no file at that path
    | Malformed                // present, but not parseable as a store
    | Stored(contents: Store)  // a well-formed store

  /** How the attempt to write the store back ended. Opening the file for
      writing truncates it, so a failure while writing loses the old
      contents; a failure of the open itself leaves them alone.
      `WriteFailed` stands for a cut that still decodes as UTF-8 text, so
      the next load sees malformed JSON; a cut inside a multi-byte
      character is not modelled. The error
      can also come from closing the file after every byte has been
      written, in which case the file holds the new store even though the
      save reports failure. */
  datatype SaveResult = Written | OpenFailed | WriteFailed | CloseFailed

  /** The store a request starts from. A missing or unparseable file is
      not an error: it yields the empty store. */
  function Load(file: StoreFile): (s: Store)
  {
    match file
    case Stored(contents) => contents
    case _ => map[]
  }

  /** The file after an attempt to write `store` to it. */
  function Save(file: StoreFile, store: Store, result: SaveResult): (f: StoreFile)
    ensures result == Written ==> Load(f) == store
    ensures result == OpenFailed ==> f == file
    ensures result == WriteFailed ==> Load(f) == map[]
    ensures result == CloseFailed ==> Load(f) == store
  {
    match result
    case Written => Stored(store)
    case OpenFailed => file
    case WriteFailed => Malformed
    case CloseFailed => Stored(store)
  }

  /** What a mutating request answers, and the file it leaves behind. */
  datatype Reply = Reply(outcome: Outcome, file: StoreFile)

  /** Runs a handler's decision against the file: a refusal answers at
      once and leaves the file alone; a write is saved and answered
      according to how the save went. */
  function Apply(file: StoreFile, change: Change, result: SaveResult): (r: Reply)
  {
    match change
    case Reject(outcome) => Reply(outcome, file)
    case Write(updated, message) => Reply(Commit(change, result == Written), Save(file, updated, result))
  }

  /** GET /activities: the store exactly as the file holds it, and the
      empty store when the file is missing or malformed. */
  function ListActivities(file: StoreFile): (s: Store)
  {
    Load(file)
  }

  /** One full signup request: reload the store, run the handler, save.
      A refused request leaves the file as it was; so does a failed save
      whose open failed. One that failed while writing leaves a file that
      no longer parses, and one that failed on close leaves the new store
      in the file although the answer is InternalError. */
  function SignupRequest(file: StoreFile, name: string, email: string, result: SaveResult): (r: Reply)
    ensures r.outcome == Signup(Load(file), name, email, result == Written)
    ensures r.outcome.Ok? ==> r.file == Stored(r.outcome.store)
    ensures r.outcome in {NotFound, BadRequest} ==> r.file == file
    ensures r.outcome == InternalError && result == OpenFailed ==> r.file == file
    ensures r.outcome == InternalError && result == WriteFailed ==> r.file == Malformed
    ensures r.outcome == InternalError && result == CloseFailed ==>
              r.file == Stored(Signup(Load(file), name, email, true).store)
  {
    Apply(file, SignupChange(Load(file), name, email), result)
  }

  /** One full unregister request, with the same treatment of the file as
      `SignupRequest`. */
  function UnregisterRequest(file: StoreFile, name: string, email: string, result: SaveResult): (r: Reply)
    ensures r.outcome == Unregister(Load(file), name, email, result == Written)
    ensures r.outcome.Ok? ==> r.file == Stored(r.outcome.store)
    ensures r.outcome in {NotFound, BadRequest} ==> r.file == file
    ensures r.outcome == InternalError && result == OpenFailed ==> r.file == file
    ensures r.outcome == InternalError && result == WriteFailed ==> r.file == Malformed
    ensures r.outcome == InternalError && result == CloseFailed ==>
              r.file == Stored(Unregister(Load(file), name, email, true).store)
  {
    Apply(file, UnregisterChange(Load(file), name, email), result)
  }

  /** A file is sound when the store it loads keeps every participant list
      free of duplicates. Missing and malformed files load as the empty
      store, so they are sound too. */
  predicate SoundFile(file: StoreFile)
  {
    Valid(Load(file))
  }

  /** After a successful request, listing the activities returns exactly the
      store the request produced. */
  lemma ListAfterSuccess(file: StoreFile, name: string, email: string, result: SaveResult)
    ensures var r := SignupRequest(file, name, email, result);
            r.outcome.Ok? ==> ListActivities(r.file) == r.outcome.store
    ensures var r := UnregisterRequest(file, name, email, result);
            r.outcome.Ok? ==> ListActivities(r.file) == r.outcome.store
  {
  }

  /** A save whose error comes from closing the file answers InternalError,
      yet the next listing already shows the update. */
  lemma CloseFailureKeepsUpdate(file: StoreFile, name: string, email: string)
    ensures var r := SignupRequest(file, name, email, CloseFailed);
            r.outcome == InternalError ==>
              ListActivities(r.file) == Signup(Load(file), name, email, true).store
    ensures var r := UnregisterRequest(file, name, email, CloseFailed);
            r.outcome == InternalError ==>
              ListActivities(r.file) == Unregister(Load(file), name, email, true).store
  {
  }

  /** A missing or malformed file loads as the empty store, so listing shows
      nothing and every signup or unregister is answered NotFound and leaves
      the file as it was. */
  lemma DegradedFileRefusesAll(file: StoreFile, name: string, email: string, result: SaveResult)
    requires !file.Stored?
    ensures ListActivities(file) == map[]
    ensures SignupRequest(file, name, email, result) == Reply(NotFound, file)
    ensures UnregisterRequest(file, name, email, result) == Reply(NotFound, file)
  {
  }

  /** Every request, whatever its answer and however the save went, leaves a
      sound file sound. */
  lemma RequestsPreserveSoundness(file: StoreFile, name: string, email: string, result: SaveResult)
    requires SoundFile(file)
    ensures SoundFile(SignupRequest(file, name, email, result).file)
    ensures SoundFile(UnregisterRequest(file, name, email, result).file)
  {
    var store := Load(file);
    SignupPreservesValid(store, name, email, true);
    UnregisterPreservesValid(store, name, email, true);
    assert Valid(map[]);
  }

  /** A worked example: one activity with one participant; sign a second
      one up, unregister the first, then try to sign the second up again. */
  lemma ChessClubScenario()
    ensures var club := Activity("Strategy and tactics", "Fridays", 12, ["a@x.com"]);
            var f0 := Stored(map["Chess Club" := club]);
            var r1 := SignupRequest(f0, "Chess Club", "b@x.com", Written);
            var r2 := UnregisterRequest(r1.file, "Chess Club", "a@x.com", Written);
            var r3 := SignupRequest(r2.file, "Chess Club", "b@x.com", Written);
            && r1.outcome.Ok?
            && ListActivities(r1.file)["Chess Club"].participants == ["a@x.com", "b@x.com"]
            && r2.outcome.Ok?
            && ListActivities(r2.file)["Chess Club"].participants == ["b@x.com"]
            && r3 == Reply(BadRequest, r2.file)
  {
  }
}
