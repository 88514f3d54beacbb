/**
 * The Note entity of models/notes.py and its conversion to and from the
 * four-key mapping (`id`, `title`, `content`, `timestamp`) used by the JSON
 * store and by CSV rows.
 */
module Notes {
  import opened Wrappers

  /** One note as the manager holds it in memory. */
  datatype Note = Note(id: int, title: string, content: string, timestamp: string)

  /** The mapping produced by `to_dict` and consumed by `from_dict`. */
  datatype NoteRecord = NoteRecord(id: int, title: string, content: string, timestamp: string)

  /**
   * The Note constructor, whose timestamp argument is optional. A timestamp
   * that is absent or empty is replaced by the clock reading `now`.
   */
  function NewNote(id: int, title: string, content: string, timestamp: Option<string>, now: string): Note
  {
    var stamp := if timestamp.Some? && timestamp.value != "" then timestamp.value else now;
    Note(id, title, content, stamp)
  }

  function ToDict(n: Note): NoteRecord
  {
    NoteRecord(n.id, n.title, n.content, n.timestamp)
  }

  /** Rebuilds a note from a mapping; `now` is only used when the stored timestamp is empty. */
  function FromDict(d: NoteRecord, now: string): Note
  {
    NewNote(d.id, d.title, d.content, Some(d.timestamp), now)
  }

  /**
   * from_dict(to_dict(n)) gives back n: same id, title, content and timestamp.
   * Only an empty timestamp is not preserved: it is regenerated from the clock.
   */
  lemma FromDictToDict(n: Note, now: string)
    ensures FromDict(ToDict(n), now) == n <==> n.timestamp != "" || now == ""
    ensures n.timestamp != "" ==> FromDict(ToDict(n), now) == n
    ensures n.timestamp == "" ==> FromDict(ToDict(n), now) == n.(timestamp := now)
  {
  }

  /** to_dict(from_dict(d)) gives back d whenever d carries a non-empty timestamp. */
  lemma ToDictFromDict(d: NoteRecord, now: string)
    requires d.timestamp != ""
    ensures ToDict(FromDict(d, now)) == d
  {
  }
}
