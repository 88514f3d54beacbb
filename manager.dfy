/**
 * NoteManager of models/notes.py: the in-memory sequence of notes and the
 * operations that update it. Each mutating operation is proved to take the
 * sequence to the value the matching function of NoteCollection gives, and
 * to keep the ids distinct. The JSON store is a ghost field: None while no
 * store file exists, otherwise the mappings last written by `save_notes`.
 */
module NoteManagement {
  import opened Wrappers
  import opened Notes
  import opened NoteCollection

  /** The scan that finds the largest held id, 0 when no note is held. */
  method MaxHeldId(notes: seq<Note>) returns (m: int)
    ensures m == MaxId(notes)
  {
    m := 0;
    var i := 0;
    while i < |notes|
      invariant 0 <= i <= |notes|
      invariant m == MaxId(notes[..i])
    {
      assert notes[..i + 1][..i] == notes[..i];
      if i == 0 || notes[i].id > m {
        m := notes[i].id;
      }
      i := i + 1;
    }
    assert notes[..|notes|] == notes;
  }

  /** The scan that finds the position of the first note whose id matches, if any. */
  method FindFirst(notes: seq<Note>, id: int) returns (r: Option<nat>)
    ensures r == FirstIndex(notes, id)
  {
    var i := 0;
    while i < |notes| && notes[i].id != id
      invariant 0 <= i <= |notes|
      invariant forall j :: 0 <= j < i ==> notes[j].id != id
    {
      i := i + 1;
    }
    r := if i < |notes| then Some(i) else None;
  }

  class NoteManager {
    var notes: seq<Note>
    ghost var store: Option<seq<NoteRecord>>

    /**
     * `__init__` / `load_notes`: `file` is the parsed store, None when the
     * store file does not exist; `now` stands in for the clock used when a
     * stored timestamp is empty.
     */
    constructor (file: Option<seq<NoteRecord>>, now: string)
      ensures notes == (if file.Some? then Loaded(file.value, now) else [])
      ensures store == file
      ensures now != "" ==> Stamped(notes)
    {
      notes := if file.Some? then Loaded(file.value, now) else [];
      store := file;
    }

    /** `save_notes`: the store is overwritten with one mapping per note. */
    method SaveNotes()
      modifies this`store
      ensures store == Some(Records(notes))
    {
      store := Some(Records(notes));
    }

    /** `create_note`, with `now` the clock reading. */
    method CreateNote(title: string, content: string, now: string)
      modifies this
      ensures notes == Create(old(notes), title, content, now)
      ensures DistinctIds(old(notes)) ==> DistinctIds(notes)
      ensures Stamped(old(notes)) && now != "" ==> Stamped(notes)
      ensures store == Some(Records(notes))
    {
      var m := MaxHeldId(notes);
      CreateEffect(notes, title, content, now);
      notes := notes + [NewNote(m + 1, title, content, None, now)];
      SaveNotes();
    }

    /** `view_note_details`: the first note with `id`, or None ("note not found"). Read-only. */
    method ViewNoteDetails(id: int) returns (r: Option<Note>)
      ensures r.None? <==> !HasId(notes, id)
      ensures r.Some? ==> FirstIndex(notes, id).Some? && r.value == notes[FirstIndex(notes, id).value]
    {
      var i := FindFirst(notes, id);
      r := if i.Some? then Some(notes[i.value]) else None;
    }

    /**
     * `edit_note`: `found` is false ("note not found") exactly when no note
     * carries `id`; then nothing changes and nothing is saved.
     */
    method EditNote(id: int, title: string, content: string, now: string) returns (found: bool)
      modifies this
      ensures found <==> HasId(old(notes), id)
      ensures notes == Edit(old(notes), id, title, content, now)
      ensures DistinctIds(old(notes)) ==> DistinctIds(notes)
      ensures Stamped(old(notes)) && now != "" ==> Stamped(notes)
      ensures store == if found then Some(Records(notes)) else old(store)
    {
      var i := FindFirst(notes, id);
      EditEffect(notes, id, title, content, now);
      if i.Some? {
        var k := i.value;
        notes := notes[k := Note(notes[k].id, title, content, now)];
        SaveNotes();
        found := true;
      } else {
        found := false;
      }
    }

    /** `delete_note`: drop every note with `id` and save, whether or not one matched. */
    method DeleteNote(id: int)
      modifies this
      ensures notes == Without(old(notes), id)
      ensures DistinctIds(old(notes)) ==> DistinctIds(notes)
      ensures Stamped(old(notes)) ==> Stamped(notes)
      ensures store == Some(Records(notes))
    {
      if DistinctIds(notes) {
        WithoutDistinct(notes, id);
      }
      notes := Without(notes, id);
      SaveNotes();
    }

    /** `export_to_csv`: one row per note, equal to its `to_dict`, in sequence order. Read-only. */
    method ExportToCsv() returns (rows: seq<NoteRecord>)
      ensures |rows| == |notes|
      ensures forall i :: 0 <= i < |notes| ==> rows[i] == ToDict(notes[i])
    {
      rows := [];
      var i := 0;
      while i < |notes|
        invariant 0 <= i <= |notes|
        invariant |rows| == i
        invariant forall j :: 0 <= j < i ==> rows[j] == ToDict(notes[j])
      {
        rows := rows + [ToDict(notes[i])];
        i := i + 1;
      }
    }

    /**
     * `import_from_csv`: one `create_note` with the row's title and content
     * for each parsed row in order, the k-th create reading the clock as `stamps[k]`.
     * Every create saves, so the store is rewritten unless there are no rows.
     */
    method ImportFromCsv(rows: seq<NoteRecord>, stamps: seq<string>)
      requires |stamps| == |rows|
      modifies this
      ensures notes == Import(old(notes), rows, stamps)
      ensures DistinctIds(old(notes)) ==> DistinctIds(notes)
      ensures Stamped(old(notes)) && (forall k :: 0 <= k < |stamps| ==> stamps[k] != "") ==> Stamped(notes)
      ensures store == if rows == [] then old(store) else Some(Records(notes))
    {
      var i := 0;
      while i < |rows|
        invariant 0 <= i <= |rows|
        invariant notes == Import(old(notes), rows[..i], stamps[..i])
        invariant store == if i == 0 then old(store) else Some(Records(notes))
        invariant Stamped(old(notes)) && (forall k :: 0 <= k < |stamps| ==> stamps[k] != "") ==> Stamped(notes)
      {
        ImportOneMore(old(notes), rows, stamps, i);
        CreateNote(rows[i].title, rows[i].content, stamps[i]);
        i := i + 1;
      }
      assert rows[..|rows|] == rows && stamps[..|rows|] == stamps;
      if DistinctIds(old(notes)) {
        ImportDistinct(old(notes), rows, stamps);
      }
    }
  }
}
