# Note manager — a Dafny model

This project models the note storage of a single-user note utility
(`models/notes.py`): the `Note` record with its conversion to and from a
four-key mapping (`id`, `title`, `content`, `timestamp`), and the
`NoteManager` that owns an ordered sequence of notes and creates, views,
edits, deletes, exports and imports them, rewriting its JSON store after
every change.

- `wrappers.dfy` — `Option`, used for "found / not found" outcomes.
- `note.dfy` (module `Notes`) — the `Note` value, the mapping `NoteRecord`,
  the constructor `NewNote` (a missing or empty timestamp is replaced by the
  clock reading), `ToDict`, `FromDict` and their round trip.
- `collection.dfy` (module `NoteCollection`) — what each manager operation
  does to the sequence of notes, as pure functions (`MaxId`, `Create`,
  `FirstIndex`, `Edit`, `Without`, `Records`, `Loaded`, `Import`), and the
  properties proved about them: id arithmetic, distinct ids kept, filter
  semantics and idempotence of delete, the import effect and the
  export-then-import round trip, the save-then-load round trip.
- `manager.dfy` (module `NoteManagement`) — the class `NoteManager` with a
  `notes: seq<Note>` field and a ghost `store` field standing for the JSON
  file, whose methods are proved to move `notes` to the value of the
  matching function and to keep the ids distinct; and the two scans the
  methods run (the largest held id, and the first note with a given id) as
  loops.

The clock is a parameter: each operation that reads the time takes the
reading as a string `now`, and an import takes one reading per row
(`stamps`), since each `create_note` of the import reads the clock anew.
The JSON and CSV files are replaced by already-parsed sequences of
`NoteRecord`; printed messages are replaced by results (`Option<Note>` for
view, `found: bool` for edit).

Behaviour worth knowing, modelled as the code has it:
- The Note constructor falls back to the clock whenever the timestamp it is
  given is false in Python's sense, so a stored mapping whose
  timestamp is the empty string gets a fresh timestamp when loaded; the
  round trip `from_dict(to_dict(n)) == n` holds exactly for notes with a
  non-empty timestamp (or an empty clock reading).
- The default id 0 is used only when no note is held (a store whose largest
  id is 0 also yields 0); a store holding
  only negative ids yields a negative maximum, and the new id is that plus 1.
- Ids are reused after the highest-id note is deleted (max + 1 rule).
- `delete_note` saves and reports success even when nothing matched.
- Nothing in the code checks that loaded ids are distinct; the methods
  therefore do not require it and instead promise to keep it.

## Model

| member | source | states |
|---|---|---|
| Notes.FromDictToDict | models/notes.py:14-19 | `from_dict(to_dict(n))` gives back `n` field for field exactly when its timestamp is non-empty (or the clock reads empty); an empty timestamp is regenerated |
| Notes.ToDictFromDict | models/notes.py:14-19 | `to_dict(from_dict(d))` gives back the mapping `d` when its timestamp is non-empty |
| NoteCollection.MaxIdIsMax | models/notes.py:37 | the largest held id is 0 with no notes, is at least every held id, and is the id of some held note otherwise |
| NoteCollection.CreateEffect | models/notes.py:36-39 | create appends exactly one note with the given title, content and clock reading, earlier notes unchanged; its id is max+1 (1 on an empty store), above every held id; distinct ids stay distinct |
| NoteCollection.FirstIndex | models/notes.py:48 | the lookup finds nothing exactly when no note has the id, else the index of the first note with it |
| NoteCollection.EditEffect | models/notes.py:54-63 | edit keeps length, order and all ids; on a present id only the first match gets the new title, content and timestamp, all other notes unchanged; on an absent id the sequence is unchanged; distinct ids stay distinct |
| NoteCollection.Without | models/notes.py:66 | after delete no note has the id, every kept note was there before, and every note with another id is kept |
| NoteCollection.WithoutAbsent | models/notes.py:66 | deleting an id no note carries changes nothing |
| NoteCollection.WithoutIdempotent | models/notes.py:66 | deleting twice equals deleting once |
| NoteCollection.WithoutAppend | models/notes.py:66 | delete works piecewise over concatenation, so the kept notes stay in their original relative order |
| NoteCollection.WithoutCount | models/notes.py:66 | each note with another id occurs after delete exactly as often as before; notes with the id never |
| NoteCollection.WithoutDistinct | models/notes.py:66 | delete keeps ids distinct |
| NoteCollection.SaveLoad | models/notes.py:25-34 | loading what `save_notes` wrote gives back the same notes when every timestamp is non-empty |
| NoteCollection.AppendedAt | models/notes.py:81-82 | the j-th note an import appends has id max+j+1 and the title, content and clock reading of row j |
| NoteCollection.MaxIdAppendLarger | models/notes.py:37 | after appending a note whose id is above the maximum, that id is the new maximum |
| NoteCollection.ImportMaxId | models/notes.py:37 | after importing k rows the maximum id has grown by exactly k |
| NoteCollection.ImportOneMore | models/notes.py:81-82 | importing rows 0..i is importing rows 0..i-1 followed by one `create_note` for row i |
| NoteCollection.ImportEffect | models/notes.py:78-82 | import over k rows keeps the held notes in front and appends k notes with ids max+1 … max+k, titles and contents in row order; the rows' id and timestamp columns are ignored |
| NoteCollection.ImportDistinct | models/notes.py:81-82 | import keeps ids distinct |
| NoteCollection.ExportImport | models/notes.py:70-82 | importing the exported rows into an empty manager yields the same (title, content) pairs in the same order, with ids 1, 2, … |
| NoteCollection.Scenario | models/notes.py:36-66 | empty store: create A gets id 1, create B id 2, delete 1 leaves only note 2, and the next create gets id 3 |
| NoteManagement.MaxHeldId | models/notes.py:37 | the scan computes the largest held id, 0 when no note is held |
| NoteManagement.FindFirst | models/notes.py:48 | the scan returns the index of the first note with the id, or None |
| NoteManagement.NoteManager.constructor | models/notes.py:22-30 | the notes are the loaded mappings, or none when the store file is absent; the store is untouched |
| NoteManagement.NoteManager.SaveNotes | models/notes.py:32-34 | the store becomes one `to_dict` mapping per note, in order |
| NoteManagement.NoteManager.CreateNote | models/notes.py:36-41 | the notes become the old notes plus one note with id max+1; ids stay distinct; the store is rewritten |
| NoteManagement.NoteManager.ViewNoteDetails | models/notes.py:47-52 | returns None exactly when no note has the id, else the first note with it; changes nothing |
| NoteManagement.NoteManager.EditNote | models/notes.py:54-63 | reports found exactly when a note has the id; the notes become the edited sequence; the store is rewritten only when found |
| NoteManagement.NoteManager.DeleteNote | models/notes.py:65-68 | the notes become those without the id; the store is rewritten unconditionally |
| NoteManagement.NoteManager.ExportToCsv | models/notes.py:70-76 | one row per note, equal to its `to_dict`, in sequence order; changes nothing |
| NoteManagement.NoteManager.ImportFromCsv | models/notes.py:78-83 | one `create_note` per row: the notes become the import of the rows; ids stay distinct; the store is rewritten unless there are no rows |

## Left out

- JSON reading and writing (`json.load`, `json.dump`, pretty-printing): the store is a ghost sequence of mappings; a read or parse failure other than a missing file is not modelled.
- CSV encoding and decoding (`csv.DictWriter`, `csv.DictReader`, header row, quoting, ids becoming text): rows are already-parsed `NoteRecord` values. A missing CSV file is not modelled, and neither is a header without a `title` or `content` column, which the code rejects with a `KeyError` when it reads the row. A row shorter than the header is not modelled either: its missing fields arrive as `None` and are created and stored that way, but notes here hold only strings.
- NoteCollection.ExportImport: assumes the CSV layer hands back exactly the strings it wrote; the code writes the file with `newline=''` but reads it in universal-newline mode, so a carriage return (`\r` or `\r\n`) inside a quoted title or content comes back as `\n`, which the lemma does not capture.
- The clock (`datetime.now().strftime`): readings are string parameters; their format and their ordering in time are not modelled.
- NoteManagement.NoteManager.constructor: when several stored timestamps are empty, each is replaced by the same reading `now`, where the code reads the clock once per note.
- Printed messages, and `list_notes`, which only prints: replaced by results or dropped.
- The file names (`NOTES_FILE`, the default `notes.csv`): configuration only.
- Object identity: notes are values, so an edit replaces the element of the sequence; the code mutates the note object in place, which is the same as long as no note object is shared, and the code never shares one.
