/** The note service: validation and orchestration in front of one
    repository. Each method makes the same repository calls, in the same
    order, as the Go service, and is proved against the matching function
    of `ServiceSpec`. */
module Service {
  import opened Core
  import StoreSpec
  import ServiceSpec
  import Repo

  class NoteService {
    const repo: Repo.NoteRepoMem

    /** `NewNoteService`: a service in front of the given repository. */
    constructor (repo: Repo.NoteRepoMem)
      ensures this.repo == repo
    {
      this.repo := repo;
    }

    /** Validates title and content, creates the note, and returns the
        stored record as re-read from the repository. */
    method CreateNote(title: Bytes, content: Bytes, now: Time) returns (r: Result<Note>)
      requires repo.Valid()
      modifies repo
      ensures repo.Valid()
      ensures (r, repo.State()) == ServiceSpec.CreateNote(old(repo.State()), title, content, now)
      ensures r.Err? ==> unchanged(repo)
    {
      if title == [] {
        return Err(EmptyTitle);
      }
      if |title| > ServiceSpec.MaxTitleLen {
        return Err(TitleTooLong);
      }
      if |content| > ServiceSpec.MaxContentLen {
        return Err(ContentTooLong);
      }
      var note := Blank().(Title := title, Content := content);
      // The Go repository's Create never returns an error, so the service's
      // error branch after it has no counterpart here.
      var id := repo.Create(note, now);
      r := repo.GetByID(id);
    }

    /** Passes through to the repository's `GetAll`. */
    method GetAllNotes() returns (all: seq<Note>)
      requires repo.Valid()
      ensures StoreSpec.IsSnapshot(repo.State(), all)
      ensures forall id :: id in repo.notes ==> repo.notes[id] in all
    {
      all := repo.GetAll();
    }

    /** Passes through to the repository's `GetByID`. */
    method GetNoteByID(id: int) returns (r: Result<Note>)
      ensures r == StoreSpec.GetByID(repo.State(), id)
      ensures r.Ok? <==> id in repo.notes
    {
      r := repo.GetByID(id);
    }

    /** Checks that the note exists, then validates the non-empty arguments,
        then applies the partial overwrite and returns the re-read record. */
    method UpdateNote(id: int, title: Bytes, content: Bytes, now: Time) returns (r: Result<Note>)
      requires repo.Valid()
      modifies repo
      ensures repo.Valid()
      ensures (r, repo.State()) == ServiceSpec.UpdateNote(old(repo.State()), id, title, content, now)
      ensures r.Err? ==> unchanged(repo)
    {
      var found := repo.GetByID(id);
      if found.Err? {
        return Err(found.error);
      }
      if title != [] && |title| > ServiceSpec.MaxTitleLen {
        return Err(TitleTooLong);
      }
      if content != [] && |content| > ServiceSpec.MaxContentLen {
        return Err(ContentTooLong);
      }
      var updates := Blank();
      if title != [] {
        updates := updates.(Title := title);
      }
      if content != [] {
        updates := updates.(Content := content);
      }
      var o := repo.Update(id, updates, now);
      // With no other service call interleaved, the existence check above
      // makes the repository's not-found return impossible here.
      assert o == Pass;
      r := repo.GetByID(id);
    }

    /** Passes through to the repository's `Delete`. */
    method DeleteNote(id: int) returns (o: Outcome)
      requires repo.Valid()
      modifies repo
      ensures repo.Valid()
      ensures (o, repo.State()) == StoreSpec.Delete(old(repo.State()), id)
    {
      o := repo.Delete(id);
    }
  }
}
