/** The in-memory repository: a map from id to note and the id counter,
    both updated in place. Each method is one atomic step on that state and
    is proved against the matching function of `StoreSpec`. */
module Repo {
  import opened Core
  import StoreSpec

  class NoteRepoMem {
    var notes: map<int, Note>
    var next: int

    /** The current state as a value. */
    function State(): StoreSpec.Store
      reads this
    {
      StoreSpec.Store(notes, next)
    }

    ghost predicate Valid()
      reads this
    {
      StoreSpec.Valid(State())
    }

    /** `NewNoteRepoMem`: an empty map, and the counter at its zero value. */
    constructor ()
      ensures Valid() && State() == StoreSpec.Empty()
      ensures notes == map[] && next == 0
    {
      notes := map[];
      next := 0;
    }

    /** Stores `n` under the next id, stamped with that id and `now`. */
    method Create(n: Note, now: Time) returns (id: int)
      requires Valid()
      modifies this
      ensures Valid()
      ensures (id, State()) == StoreSpec.Create(old(State()), n, now)
      ensures id == old(next) + 1 && id !in old(notes)
    {
      StoreSpec.CreateIsFresh(State(), n, now);
      next := next + 1;
      var stored := n.(ID := next, CreatedAt := now);
      notes := notes[next := stored];
      id := next;
    }

    /** One copy of every stored note, in the order the keys are picked;
        that order is left open, as Go's map iteration leaves it. */
    method GetAll() returns (all: seq<Note>)
      requires Valid()
      ensures StoreSpec.IsSnapshot(State(), all)
      ensures forall id :: id in notes ==> notes[id] in all
    {
      all := [];
      var rest := notes.Keys;
      while rest != {}
        invariant StoreSpec.PartialSnapshot(State(), all, rest)
        decreases rest
      {
        StoreSpec.NonEmptyHasMember(rest);
        var key :| key in rest;
        StoreSpec.PartialSnapshotStep(State(), all, rest, key);
        all := all + [notes[key]];
        rest := rest - {key};
      }
      StoreSpec.PartialSnapshotDone(State(), all);
    }

    /** The stored note under `id`, or "note not found". */
    method GetByID(id: int) returns (r: Result<Note>)
      ensures r == StoreSpec.GetByID(State(), id)
      ensures r.Ok? <==> id in notes
      ensures r.Ok? ==> r.value == notes[id]
      ensures r.Err? ==> r.error == NotFound
    {
      if id !in notes {
        return Err(NotFound);
      }
      r := Ok(notes[id]);
    }

    /** Partial overwrite of the note under `id`: a non-empty title or
        content replaces the stored one, and `UpdatedAt` is always set. */
    method Update(id: int, updated: Note, now: Time) returns (o: Outcome)
      requires Valid()
      modifies this
      ensures Valid()
      ensures (o, State()) == StoreSpec.Update(old(State()), id, updated, now)
      ensures next == old(next)
      ensures o == Fail(NotFound) <==> id !in old(notes)
    {
      if id !in notes {
        return Fail(NotFound);
      }
      var note := notes[id];
      if updated.Title != [] {
        note := note.(Title := updated.Title);
      }
      if updated.Content != [] {
        note := note.(Content := updated.Content);
      }
      note := note.(UpdatedAt := Some(now));
      notes := notes[id := note];
      o := Pass;
    }

    /** Removes the note under `id`, or fails with "note not found". */
    method Delete(id: int) returns (o: Outcome)
      requires Valid()
      modifies this
      ensures Valid()
      ensures (o, State()) == StoreSpec.Delete(old(State()), id)
      ensures next == old(next)
      ensures o == Fail(NotFound) <==> id !in old(notes)
    {
      if id !in notes {
        return Fail(NotFound);
      }
      notes := notes - {id};
      o := Pass;
    }
  }
}
