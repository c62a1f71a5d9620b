# Notes API core: in-memory repository and note service

A Dafny model of the data layer of the notes API. It covers two parts:

- `NoteRepoMem`: a map from id to note plus an id counter `next`, with
  create, read, partial update and delete.
- `NoteService`: the business rules in front of the repository. A title must
  be non-empty and at most 100 bytes. Content may be at most 5000 bytes. An
  update first checks that the note exists, and only then validates.

Modules, one per file:

- `Core` (`core.dfy`): the note record, byte strings, the abstract clock
  reading `Time`, and the four failures with their Go messages.
- `StoreSpec` (`store_spec.dfy`): the repository state as a value, with one
  function per repository operation. Its lemmas cover each operation,
  `GetAll` snapshots, and arbitrary sequences of operations (ids are never
  reused).
- `Repo` (`repo.dfy`): the class `NoteRepoMem`. Its fields `notes` and
  `next` are updated in place. Each method is proved against `StoreSpec`.
- `ServiceSpec` (`service_spec.dfy`): the validation checks, and the
  service operations as functions on the state. Its lemmas cover error order,
  boundaries, partial-update semantics, and an invariant that holds over any
  sequence of requests.
- `Service` (`service.dfy`): the class `NoteService`. It makes the same
  repository calls in the same order as the Go code. Each method is proved
  against `ServiceSpec`.

The clock is a parameter: every operation that stamps a time takes `now`.
Strings are byte sequences, because Go's `len` counts bytes. Ids are
unbounded integers.

The model follows the Go code wherever a description of the intended
behaviour says otherwise:

- The limits count bytes, not characters.
- The repository's `Create` takes a whole note. It replaces only `ID` and
  `CreatedAt`, so an `UpdatedAt` in its input is kept. The service always
  passes none.
- `GetByID` hands out the stored record itself, not a copy (see Left out).

## Model

| member | source | states |
|---|---|---|
| `Core.MessagesIdentifyErrors` | pz11-notes-api/internal/http/handlers/notes.go:164-169 | No two failures share a message, so a caller that matches on the message string can tell which error occurred |
| `StoreSpec.EmptyFirstIdIsOne` | pz11-notes-api/internal/repo/note_mem.go:17-29 | A new repository is empty and valid, with counter 0, and its first create returns id 1 |
| `StoreSpec.CreateIsFresh` | pz11-notes-api/internal/repo/note_mem.go:21-30 | Create returns old `next` + 1, which was not a key. It stores the input with only `ID` and `CreatedAt` replaced, adds exactly that key, leaves every other note alone and keeps the invariant |
| `StoreSpec.GetByIDSucceedsIffStored` | pz11-notes-api/internal/repo/note_mem.go:43-52 | GetByID succeeds iff the id is a key, and returns the stored note. Otherwise it fails with "note not found" |
| `StoreSpec.UpdateChangesOnlyThatNote` | pz11-notes-api/internal/repo/note_mem.go:54-74 | An absent id fails with not-found and nothing changes. A present id changes only that note: a non-empty title or content replaces the stored one, an empty one keeps it, `UpdatedAt` is always `now`, and `ID`, `CreatedAt` and `next` are kept |
| `StoreSpec.DeleteRemovesExactlyThatKey` | pz11-notes-api/internal/repo/note_mem.go:76-87 | A present id: exactly that key is removed and `next` is kept. An absent id: fails with no change. Afterwards a second Delete fails with no change, and GetByID reports not-found |
| `StoreSpec.SnapshotCoversStore` | pz11-notes-api/internal/repo/note_mem.go:32-41 | A list of stored notes with distinct ids, as long as the map, contains every stored note |
| `StoreSpec.SnapshotsArePermutations` | pz11-notes-api/internal/repo/note_mem.go:36-39 | Any two GetAll results for one state hold the same notes, each once: only the order can differ |
| `StoreSpec.StepKeepsValid` | pz11-notes-api/internal/repo/note_mem.go:21-87 | Every repository operation keeps the invariant (keys in 1..next, each note's ID equal to its key). Only Create moves `next`, by exactly one |
| `StoreSpec.RunKeepsValid` | pz11-notes-api/internal/repo/note_mem.go:21-87 | Any sequence of repository operations keeps the invariant and never decreases `next` |
| `StoreSpec.IssuedIdsIncrease` | pz11-notes-api/internal/repo/note_mem.go:24-29 | Across any sequence of operations, the ids that successive creates return are strictly increasing and lie above the starting counter |
| `StoreSpec.NoIdReuse` | pz11-notes-api/internal/repo/note_mem.go:24 | After any sequence of operations, deletes included, the next created id is not a key now, was not a key at the start, and differs from every id issued before |
| `Repo.NoteRepoMem.constructor` | pz11-notes-api/internal/repo/note_mem.go:17-19 | NewNoteRepoMem: an empty map, `next` = 0, invariant established |
| `Repo.NoteRepoMem.Create` | pz11-notes-api/internal/repo/note_mem.go:21-30 | Returns old `next` + 1, which was not a key. The new state is the one the Create function gives, and the invariant is kept |
| `Repo.NoteRepoMem.GetAll` | pz11-notes-api/internal/repo/note_mem.go:32-41 | The loop that copies the notes, whatever order the keys are picked in, returns a snapshot: one copy per key, no duplicates, every stored note present |
| `Repo.NoteRepoMem.GetByID` | pz11-notes-api/internal/repo/note_mem.go:43-52 | Succeeds iff the id is a key, with the stored note. Otherwise fails with NotFound |
| `Repo.NoteRepoMem.Update` | pz11-notes-api/internal/repo/note_mem.go:54-74 | The new state is the one the Update function gives (the partial overwrite of that one note). It fails iff the id was absent, and `next` and the invariant are kept |
| `Repo.NoteRepoMem.Delete` | pz11-notes-api/internal/repo/note_mem.go:76-87 | The new state is the one the Delete function gives. It fails iff the id was absent, and `next` and the invariant are kept |
| `ServiceSpec.CreateCheck` | pz11-notes-api/internal/core/service/note_service.go:19-27 | Passes iff the title is 1..100 bytes and the content at most 5000. It reports empty-title exactly for an empty title, title-too-long exactly for a non-empty title over 100, and content-too-long only when the title is acceptable: the checks run in this fixed order |
| `ServiceSpec.UpdateCheck` | pz11-notes-api/internal/core/service/note_service.go:56-61 | Passes iff the title is at most 100 bytes and the content at most 5000, so an empty argument always passes. The title is checked first. It never reports empty-title |
| `ServiceSpec.CreateNoteOutcome` | pz11-notes-api/internal/core/service/note_service.go:18-40 | A failure returns the first failing check and leaves the store unchanged. A success returns the note with the given title and content, id old `next` + 1 (fresh), `CreatedAt` = now and no `UpdatedAt`, and that is exactly the note added to the store |
| `ServiceSpec.CreateCheckBoundaries` | pz11-notes-api/internal/core/service/note_service.go:19-27 | A 100-byte title with 5000-byte content is accepted. A 101-byte title is refused as too long. 5001-byte content is refused. An empty title with oversized content reports empty-title |
| `ServiceSpec.CreateThenGet` | pz11-notes-api/internal/core/service/note_service.go:29-39 | A valid CreateNote succeeds with an id of at least 1, and GetByID of that id then returns the identical record |
| `ServiceSpec.UpdateMissingIsNotFound` | pz11-notes-api/internal/core/service/note_service.go:50-54 | UpdateNote on a missing id returns NotFound and leaves the store unchanged, whatever the title and content (even oversized ones) |
| `ServiceSpec.UpdateNoteOutcome` | pz11-notes-api/internal/core/service/note_service.go:56-76 | On a stored id, an oversized non-empty argument fails with no change. Otherwise the result is the re-read stored note, and it is the only change. Its title and content are the arguments when non-empty and the old values when empty, so no field is ever cleared. ID and CreatedAt are kept, and UpdatedAt is now |
| `ServiceSpec.InterleavedDeleteFailsUpdate` | pz11-notes-api/internal/core/service/note_service.go:51-74 | If a delete of a stored id runs between UpdateNote's existence check and its update, the repository update fails with not-found and the re-read fails too. The one-step model does not capture this interleaving |
| `ServiceSpec.ServeKeepsWellFormed` | pz11-notes-api/internal/core/service/note_service.go:18-81 | Each service request keeps every stored note within the business rules (non-empty title of at most 100 bytes, content of at most 5000) |
| `ServiceSpec.ServeAllKeepsWellFormed` | pz11-notes-api/internal/core/service/note_service.go:18-81 | Any sequence of service requests from a well-formed store keeps every stored note within the business rules |
| `ServiceSpec.TwoNotesScenario` | pz11-notes-api/internal/core/service/note_service.go:18-39 | In an empty store, two valid creates get ids 1 and 2 and the store holds both notes. Deleting the first leaves only the second. The first then reads as not found, and deleting it again fails with no change |
| `Service.NoteService.constructor` | pz11-notes-api/internal/core/service/note_service.go:14-16 | NewNoteService: the service uses the given repository |
| `Service.NoteService.CreateNote` | pz11-notes-api/internal/core/service/note_service.go:18-40 | The result and new state are those of the CreateNote function. On failure the repository is untouched, and the invariant is kept |
| `Service.NoteService.GetAllNotes` | pz11-notes-api/internal/core/service/note_service.go:42-44 | Passthrough: a snapshot of the repository, holding every stored note |
| `Service.NoteService.GetNoteByID` | pz11-notes-api/internal/core/service/note_service.go:46-48 | Passthrough: exactly the repository's GetByID result, which succeeds iff the id is stored |
| `Service.NoteService.UpdateNote` | pz11-notes-api/internal/core/service/note_service.go:50-77 | The existence check, validation, partial overwrite and re-read give the result and state of the UpdateNote function. On failure the repository is untouched |
| `Service.NoteService.DeleteNote` | pz11-notes-api/internal/core/service/note_service.go:79-81 | Passthrough: the same outcome and the same state change as the repository's Delete |

## Left out

- The mutex (pz11-notes-api/internal/repo/note_mem.go:12). Each repository
  method is one atomic step, which is what the lock guarantees.
- Interleaving of service calls. The model takes each service call as one
  atomic step (`ServiceSpec.CreateNote`, `ServiceSpec.UpdateNote`,
  `ServiceSpec.ServeAll`, and the methods of `Service.NoteService`). In Go,
  `CreateNote` spans two separately locked repository calls
  (note_service.go:34, 39) and `UpdateNote` spans three (lines 51, 71, 76),
  and `net/http` serves each request on its own goroutine. So another
  request can run in between. A delete there makes `UpdateNote` fail at
  line 73 or `CreateNote`'s re-read at line 39 fail, and another update
  there is what `UpdateNote`'s re-read at line 76 then returns.
  `ServiceSpec.InterleavedDeleteFailsUpdate` shows the first case. The
  properties proved of the service hold only when service calls do not
  interleave.
- `time.Now()`. The time is a parameter `now`, and nothing is assumed about
  successive readings. So `CreatedAt <= UpdatedAt` is neither stated nor
  proved.
- Repo.NoteRepoMem.Create: ids are unbounded integers. The model does not
  capture the unguarded wrap-around of the `int64` counter.
- Repo.NoteRepoMem.GetByID: it returns the stored note as a value. In Go it
  returns a pointer to the stored record, so a later Update changes a note
  already handed out (this includes the notes CreateNote and UpdateNote
  return). The model does not claim snapshot isolation for it. Only GetAll
  copies.
- Repo.NoteRepoMem.GetAll: Go's randomised map iteration order is modelled
  as an arbitrary choice of the next key. The result is specified up to
  order.
- Go's `(value, error)` returns that can never be errors are not modelled as
  error paths:
  - the repository's `Create` and `GetAll` never fail;
  - the service's error branch after `Create`
    (pz11-notes-api/internal/core/service/note_service.go:35-37) has no
    counterpart;
  - after the existence check, the branch after `Update` (lines 72-74) is
    proved unreachable when service calls do not interleave. It is reachable
    in Go (see the previous bullet about interleaving).
- The declaration of `core.Note` is not part of this model. Its fields `ID`,
  `Title`, `Content`, `CreatedAt` and the optional `UpdatedAt` are taken from
  their uses in note_mem.go and note_service.go.
- HTTP handlers, router, Swagger/ReDoc serving and server start-up. This
  includes the Authorization-header checks, JSON, URL parameters and status
  codes. These are transport, not part of the core. Of the handlers' matching
  on error strings, the model keeps only the fact it relies on: the core's
  error messages are pairwise distinct (`Core.MessagesIdentifyErrors`).
