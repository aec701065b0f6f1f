# Mergington High School activities API — roster model

The application keeps a JSON file that maps each extracurricular activity's
name to a record with a description, a schedule, a maximum number of
participants and an ordered list of participant emails. Students sign up
for an activity or unregister from it over HTTP. Each request reloads the
whole store from the file, checks and changes one participant list, and
writes the whole store back.

This project models that roster logic as pure functions over immutable
values:

- `Roster` (`roster.dfy`): operations on one participant list. It covers
  membership, Python's `list.remove` (`RemoveFirst`, which drops only the
  first occurrence) and the no-duplicates property.
- `Activities` (`activities.dfy`): the `Activity` record and the store, a
  `map<string, Activity>`. It holds the two handlers `Signup` and
  `Unregister` with their outcomes `NotFound` (404), `BadRequest` (400),
  `InternalError` (500) and `Ok`. Each handler is split into its checks and
  mutation (`SignupChange`, `UnregisterChange`) and the save step
  (`Commit`). The save outcome is a boolean input.
- `Persistence` (`persistence.dfy`): the backing file as a value. The file
  is `Missing`, `Malformed` or `Stored(store)`. `Load` falls back to the
  empty store, and `Save` takes how the write ended as an input. The full
  request cycle (reload, handle, save) is `SignupRequest` and
  `UnregisterRequest`. `ListActivities` is `GET /activities`.

The proved properties are these:

- Check order: an unknown activity answers NotFound before the email is
  looked at.
- Error cases: NotFound and BadRequest leave the file untouched.
- Append: a signup puts the email at the end of the list.
- No capacity check: a signup succeeds whenever the activity exists and the
  email is new, even when the list is already at `max_participants`.
- Unregister: it removes exactly the first occurrence and keeps the order
  of the rest.
- Frame: a successful request changes only the named activity's
  participant list.
- Invariant: no duplicate emails within an activity, kept by both
  handlers.
- Sequences: repeating a signup fails with BadRequest, and so does
  repeating an unregister on a duplicate-free store.
  Signing up and then unregistering restores the store.
- Degraded file: a missing or malformed file lists as empty and refuses
  every mutation.

Two details of the code shape the model:

- A failed save is not all-or-nothing. `save_activities` opens the file
  with mode `'w'`, which truncates it before `json.dump` writes anything,
  and it reports failure for any exception inside the `with` block,
  including one raised when the file is closed. The model therefore has
  three kinds of failed save, all answered InternalError:
  - `OpenFailed` leaves the file as it was.
  - `WriteFailed` leaves a file that no longer parses, so the next load
    sees the empty store. It stands for a cut that still decodes as
    UTF-8 text; a cut inside a multi-byte character is listed under
    "Left out".
  - `CloseFailed` comes after every byte was written, so the file already
    holds the new store.
- A duplicate signup answers 400, so the outcome is `BadRequest`.

## Model

| member | source | states |
|---|---|---|
| Roster.FirstIndex | src/app.py:117 | `list.remove` finds its target by a scan from the front: the index holds the email, and no earlier entry equals it |
| Roster.RemoveFirst | src/app.py:117 | removing a present email leaves a list exactly one entry shorter |
| Roster.RemoveFirstMultiset | src/app.py:117 | the removal takes away one copy of the email and nothing else (multiset difference) |
| Roster.RemoveFirstSplits | src/app.py:117 | the entry removed is exactly the first occurrence; the entries before and after it are kept, in order |
| Roster.NoDuplicatesAppend | src/app.py:79-86 | appending an email that the duplicate check found absent keeps the list duplicate-free |
| Roster.NoDuplicatesRemoveFirst | src/app.py:110-117 | removing from a duplicate-free list keeps it duplicate-free and leaves no copy of the email |
| Roster.RemoveFirstOfAppended | src/app.py:86-117 | removing an email just appended to a list that did not contain it gives back the original list |
| Activities.SignupChange | src/app.py:71-86 | unknown activity is NotFound, an email already listed is BadRequest, and otherwise only that activity's list changes, to the old list plus the email at the end |
| Activities.UnregisterChange | src/app.py:102-117 | unknown activity is NotFound, an unlisted email is BadRequest, and otherwise only that activity's list changes, losing one copy of the email |
| Activities.Signup | src/app.py:64-92 | the activity check comes first. Success holds exactly when the activity exists, the email is new and the save succeeds, with no capacity condition. A failed save is InternalError. On success only the named roster changes: it becomes the old list plus the email, and the message names the student and the activity |
| Activities.Unregister | src/app.py:95-123 | the activity check comes first. Success holds exactly when the activity exists, the email is listed and the save succeeds. A failed save is InternalError. On success only the named roster changes: it is one shorter and has one copy of the email fewer |
| Activities.UnregisterKeepsOrder | src/app.py:110-117 | a successful unregister cuts out the first occurrence of the email and keeps every other entry in order |
| Activities.SignupPreservesValid | src/app.py:79-86 | if no list holds a duplicate before a signup, none does after it |
| Activities.UnregisterPreservesValid | src/app.py:110-117 | if no list holds a duplicate before an unregister, none does after it, and the email is gone from the list |
| Activities.UnregisterTwiceFails | src/app.py:110-114 | in a duplicate-free store, unregistering the same email again after a success is BadRequest |
| Activities.UnregisterTwiceOnDuplicates | src/app.py:110-117 | without the invariant the previous row fails: with a list that names an email twice, two unregisters in a row both succeed |
| Activities.SignupTwiceFails | src/app.py:79-83 | signing the same email up again after a success is BadRequest |
| Activities.SignupThenUnregister | src/app.py:79-117 | signing a fresh email up and then unregistering it succeeds and restores the original store exactly |
| Persistence.Save | src/app.py:38-47 | a completed write loads back as the store written. A failed open leaves the file as it was. A write that fails while writing, with a cut that still decodes, leaves a file that loads as the empty store. A failure on close leaves the new store in the file |
| Persistence.SignupRequest | src/app.py:64-92 | the full signup cycle answers as the handler does on the reloaded store. On success the file holds the new store. NotFound, BadRequest and a failed open leave the file unchanged. A failed write leaves it unparseable, and a failure on close leaves the updated store in it |
| Persistence.UnregisterRequest | src/app.py:95-123 | the same for the full unregister cycle |
| Persistence.ListAfterSuccess | src/app.py:58-61 | after a successful request, `GET /activities` returns exactly the store the request produced |
| Persistence.CloseFailureKeepsUpdate | src/app.py:38-47 | a save whose error is raised on close answers InternalError, yet the next listing already shows the update (also src/app.py:89-90, 120-121) |
| Persistence.DegradedFileRefusesAll | src/app.py:24-35 | a missing or unparseable file loads as the empty store. Listing then shows nothing, and every signup or unregister is NotFound and leaves the file alone |
| Persistence.RequestsPreserveSoundness | src/app.py:64-123 | whatever a request answers and however its save ends, a file whose lists are duplicate-free stays so |
| Persistence.ChessClubScenario | src/app.py:64-123 | start with one activity listing `a@x.com`. Signing up `b@x.com` gives `[a@x.com, b@x.com]`. Unregistering `a@x.com` then gives `[b@x.com]`, and signing `b@x.com` up again is BadRequest |

## Left out

- The FastAPI application object, the static-file mount and the `/`
  redirect (src/app.py:15-21, 53-55) are framework wiring with no logic.
- File I/O, JSON parsing and serialisation, the UTF-8 encoding and the
  printed warnings (src/app.py:24-47) are library calls. The file's state
  and how a save ended are inputs (`StoreFile`, `SaveResult`, `saveOk`).
- `load_activities` catches only a missing file and a JSON syntax error. Any
  other read error, such as a permission error, propagates as an unhandled
  exception. The model has no outcome for it.
- The model assumes the file holds a JSON object of records with the four
  fields. Other shapes are not modelled:
  - A record that lacks `participants` raises in the handler.
  - A top level that is a list or a string still answers the
    `activity_name not in activities` test (src/app.py:72, 103) by list or
    substring membership. A name it lacks answers 404 and leaves the file
    alone. A name it contains raises a TypeError at src/app.py:76 or 107.
  - Any other non-object top level raises at the `in` test itself.
  - `GET /activities` returns any such value unchanged.
- Persistence.Save: a write cut inside a multi-byte character is not
  modelled. `json.dump` runs with `ensure_ascii=False` (src/app.py:43), so
  non-ASCII text is written as multi-byte UTF-8, and a short write can stop
  inside one character. The next `json.load` then raises
  `UnicodeDecodeError`, which src/app.py:33 does not catch. From then on
  every listing, signup and unregister fails with an unhandled error
  instead of seeing the empty store. `WriteFailed` covers only cuts that
  still decode.
- The module-level `activities` global, reassigned by each handler
  (src/app.py:50, 68-69, 99-100), is replaced by passing the store
  explicitly. It is reloaded on every request, so no state is lost.
- Concurrent requests and the read-modify-write race on the file are not
  modelled, because the code has no synchronisation. Two effects follow:
  - Two overlapping mutations can lose one update.
  - A request that loads while another request's save has just truncated
    the file sees a malformed file. It then lists `{}`, or answers 404 for
    an activity that exists.
- HTTP status codes and the `detail` strings of errors are an enumerated
  outcome. The success message is kept as a string built from the email and
  the activity name.
- Emails and activity names are arbitrary strings. The code neither
  validates nor normalises them, and neither does the model.
