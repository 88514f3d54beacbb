/**
 * The effect of each NoteManager operation of models/notes.py on the ordered
 * sequence of notes, as pure functions, with the properties the manager
 * promises proved about them.
 */
module NoteCollection {
  import opened Wrappers
  import opened Notes

  /** Some note in `s` carries `id`. */
  predicate HasId(s: seq<Note>, id: int)
  {
    exists i :: 0 <= i < |s| && s[i].id == id
  }

  /** The manager's invariant: no two notes share an id. */
  predicate DistinctIds(s: seq<Note>)
  {
    forall i, j :: 0 <= i < j < |s| ==> s[i].id != s[j].id
  }

  /** Every note carries a non-empty timestamp, as every clock reading does. */
  predicate Stamped(s: seq<Note>)
  {
    forall i :: 0 <= i < |s| ==> s[i].timestamp != ""
  }

  /** The largest held id, 0 when no note is held. */
  function MaxId(s: seq<Note>): int
  {
    if s == [] then 0
    else if |s| == 1 then s[0].id
    else
      var m := MaxId(s[..|s| - 1]);
      if s[|s| - 1].id > m then s[|s| - 1].id else m
  }

  /**
   * MaxId is the largest id held, and 0 when no note is held: every id is at
   * most MaxId, and a non-empty sequence holds a note carrying it.
   */
  lemma {:induction false} MaxIdIsMax(s: seq<Note>)
    ensures s == [] ==> MaxId(s) == 0
    ensures forall i :: 0 <= i < |s| ==> s[i].id <= MaxId(s)
    ensures s != [] ==> exists i :: 0 <= i < |s| && s[i].id == MaxId(s)
  {
    if |s| > 1 {
      var init := s[..|s| - 1];
      MaxIdIsMax(init);
      forall i | 0 <= i < |s| - 1 ensures s[i].id <= MaxId(s) {
        assert s[i] == init[i];
      }
      if s[|s| - 1].id <= MaxId(init) {
        var i :| 0 <= i < |init| && init[i].id == MaxId(init);
        assert s[i] == init[i];
      } else {
        assert s[|s| - 1].id == MaxId(s);
      }
    } else if |s| == 1 {
      assert s[0].id == MaxId(s);
    }
  }

  // ---------------------------------------------------------------- create

  /** `create_note`: append a note whose id is one more than the largest held id. */
  function Create(s: seq<Note>, title: string, content: string, now: string): seq<Note>
  {
    s + [NewNote(MaxId(s) + 1, title, content, None, now)]
  }

  /**
   * Creating appends exactly one note carrying the given title and content
   * and the clock reading; its id is (largest held id, 0 if none) + 1, so it
   * exceeds every id held, and distinct ids stay distinct.
   */
  lemma CreateEffect(s: seq<Note>, title: string, content: string, now: string)
    ensures var r := Create(s, title, content, now);
      |r| == |s| + 1 && r[..|s|] == s &&
      r[|s|] == Note(MaxId(s) + 1, title, content, now) &&
      (s == [] ==> r[|s|].id == 1) &&
      (forall i :: 0 <= i < |s| ==> s[i].id < r[|s|].id) &&
      (DistinctIds(s) ==> DistinctIds(r))
  {
    var r := Create(s, title, content, now);
    MaxIdIsMax(s);
    assert r[..|s|] == s;
  }

  // ---------------------------------------------------------------- lookup

  /** The position of the first note carrying `id`, or None when no note carries it. */
  function FirstIndex(s: seq<Note>, id: int): (r: Option<nat>)
    ensures r.None? <==> !HasId(s, id)
    ensures r.Some? ==>
      r.value < |s| && s[r.value].id == id && forall j :: 0 <= j < r.value ==> s[j].id != id
  {
    if s == [] then None
    else if s[0].id == id then Some(0)
    else
      match FirstIndex(s[1..], id)
      case None =>
        assert forall i :: 1 <= i < |s| ==> s[i] == s[1..][i - 1];
        None
      case Some(k) =>
        assert forall j :: 1 <= j <= k ==> s[j] == s[1..][j - 1];
        Some(k + 1)
  }

  // ---------------------------------------------------------------- edit

  /** `edit_note`: overwrite title, content and timestamp of the first note with `id`, if any. */
  function Edit(s: seq<Note>, id: int, title: string, content: string, now: string): seq<Note>
  {
    match FirstIndex(s, id)
    case None => s
    case Some(i) => s[i := Note(s[i].id, title, content, now)]
  }

  /**
   * Editing keeps length, order and every id; on a present id exactly the
   * first matching note takes the new title, content and timestamp and every
   * other note is untouched; on an absent id nothing changes.
   */
  lemma EditEffect(s: seq<Note>, id: int, title: string, content: string, now: string)
    ensures var r := Edit(s, id, title, content, now);
      |r| == |s| &&
      (forall j :: 0 <= j < |s| ==> r[j].id == s[j].id) &&
      (!HasId(s, id) ==> r == s) &&
      (HasId(s, id) ==>
         exists i :: (0 <= i < |s| && FirstIndex(s, id) == Some(i) &&
           r[i] == Note(id, title, content, now) &&
           (forall j :: 0 <= j < |s| && j != i ==> r[j] == s[j]))) &&
      (DistinctIds(s) ==> DistinctIds(r))
  {
  }

  // ---------------------------------------------------------------- delete

  /** `delete_note`: keep, in order, the notes whose id differs from `id`. */
  function Without(s: seq<Note>, id: int): (r: seq<Note>)
    ensures |r| <= |s|
    ensures !HasId(r, id)
    ensures forall n :: n in r ==> n in s
    ensures forall n :: n in s && n.id != id ==> n in r
  {
    if s == [] then []
    else
      var rest := Without(s[1..], id);
      assert forall n :: n in s && n != s[0] ==> n in s[1..];
      if s[0].id == id then rest else [s[0]] + rest
  }

  /** Deleting an id nobody holds changes nothing. */
  lemma {:induction false} WithoutAbsent(s: seq<Note>, id: int)
    requires !HasId(s, id)
    ensures Without(s, id) == s
  {
    if s != [] {
      assert !HasId(s[1..], id) by {
        forall i | 0 <= i < |s[1..]| ensures s[1..][i].id != id {
          assert s[1..][i] == s[i + 1];
        }
      }
      WithoutAbsent(s[1..], id);
    }
  }

  /** Deleting twice is deleting once. */
  lemma WithoutIdempotent(s: seq<Note>, id: int)
    ensures Without(Without(s, id), id) == Without(s, id)
  {
    WithoutAbsent(Without(s, id), id);
  }

  /** Deletion works piecewise: the kept notes of `a + b` are those of `a` followed by those of `b`. */
  lemma {:induction false} WithoutAppend(a: seq<Note>, b: seq<Note>, id: int)
    ensures Without(a + b, id) == Without(a, id) + Without(b, id)
  {
    if a == [] {
      assert a + b == b;
    } else {
      assert (a + b)[1..] == a[1..] + b;
      WithoutAppend(a[1..], b, id);
    }
  }

  /** A note with another id occurs in the result exactly as often as before; one with `id` never. */
  lemma {:induction false} WithoutCount(s: seq<Note>, id: int, n: Note)
    ensures multiset(Without(s, id))[n] == if n.id == id then 0 else multiset(s)[n]
  {
    if s != [] {
      WithoutCount(s[1..], id, n);
      var head := if s[0].id == id then [] else [s[0]];
      assert s == [s[0]] + s[1..];
      assert multiset(s) == multiset([s[0]]) + multiset(s[1..]);
      assert multiset(Without(s, id)) == multiset(head) + multiset(Without(s[1..], id));
    }
  }

  /** Deleting keeps the ids distinct. */
  lemma {:induction false} WithoutDistinct(s: seq<Note>, id: int)
    requires DistinctIds(s)
    ensures DistinctIds(Without(s, id))
  {
    if s != [] {
      WithoutDistinct(s[1..], id);
      var rest := Without(s[1..], id);
      if s[0].id != id {
        forall j | 0 <= j < |rest| ensures rest[j].id != s[0].id {
          assert rest[j] in s[1..];
        }
      }
    }
  }

  // ---------------------------------------------------------------- export / persistence

  /** One `to_dict` mapping per note, in sequence order: the CSV export rows and the JSON store contents. */
  function Records(s: seq<Note>): seq<NoteRecord>
  {
    seq(|s|, i requires 0 <= i < |s| => ToDict(s[i]))
  }

  /** `load_notes`: one `from_dict` note per stored mapping, in order. */
  function Loaded(d: seq<NoteRecord>, now: string): seq<Note>
  {
    seq(|d|, i requires 0 <= i < |d| => FromDict(d[i], now))
  }

  /** Reloading what was saved gives back the same notes, provided no timestamp is empty. */
  lemma SaveLoad(s: seq<Note>, now: string)
    requires Stamped(s)
    ensures Loaded(Records(s), now) == s
  {
  }

  // ---------------------------------------------------------------- import

  /** The notes an import of `rows` appends after a largest held id `base`. */
  function Appended(base: int, rows: seq<NoteRecord>, stamps: seq<string>): seq<Note>
    requires |stamps| == |rows|
    decreases |rows|
  {
    if rows == [] then []
    else
      var k := |rows| - 1;
      Appended(base, rows[..k], stamps[..k]) + [Note(base + k + 1, rows[k].title, rows[k].content, stamps[k])]
  }

  /**
   * `import_from_csv`: the notes held so far, followed by one new note per
   * row in row order, row k being created at clock reading `stamps[k]`.
   */
  function Import(s: seq<Note>, rows: seq<NoteRecord>, stamps: seq<string>): seq<Note>
    requires |stamps| == |rows|
  {
    s + Appended(MaxId(s), rows, stamps)
  }

  /** The j-th appended note has id base+j+1 and the title, content and clock reading of row j. */
  lemma {:induction false} AppendedAt(base: int, rows: seq<NoteRecord>, stamps: seq<string>)
    requires |stamps| == |rows|
    ensures |Appended(base, rows, stamps)| == |rows|
    ensures forall j :: 0 <= j < |rows| ==>
      Appended(base, rows, stamps)[j] == Note(base + j + 1, rows[j].title, rows[j].content, stamps[j])
    decreases |rows|
  {
    if rows != [] {
      var k := |rows| - 1;
      AppendedAt(base, rows[..k], stamps[..k]);
      forall j | 0 <= j < k
        ensures Appended(base, rows, stamps)[j] == Note(base + j + 1, rows[j].title, rows[j].content, stamps[j])
      {
        assert rows[..k][j] == rows[j] && stamps[..k][j] == stamps[j];
      }
    }
  }

  /** Appending a note whose id exceeds the largest held id makes that id the largest. */
  lemma MaxIdAppendLarger(s: seq<Note>, n: Note)
    requires n.id > MaxId(s)
    ensures MaxId(s + [n]) == n.id
  {
    if s != [] {
      assert (s + [n])[..|s|] == s;
    }
  }

  /** After importing k rows the largest held id has grown by exactly k. */
  lemma {:induction false} ImportMaxId(s: seq<Note>, rows: seq<NoteRecord>, stamps: seq<string>)
    requires |stamps| == |rows|
    ensures MaxId(Import(s, rows, stamps)) == MaxId(s) + |rows|
    decreases |rows|
  {
    if rows == [] {
      assert Import(s, rows, stamps) == s;
    } else {
      var k := |rows| - 1;
      var m := MaxId(s);
      var before := Appended(m, rows[..k], stamps[..k]);
      var n := Note(m + k + 1, rows[k].title, rows[k].content, stamps[k]);
      ImportMaxId(s, rows[..k], stamps[..k]);
      MaxIdAppendLarger(s + before, n);
      assert Import(s, rows, stamps) == (s + before) + [n];
    }
  }

  /**
   * Import is row-by-row creation: creating the note for row i after
   * importing rows 0 .. i-1 is importing rows 0 .. i.
   */
  lemma ImportOneMore(s: seq<Note>, rows: seq<NoteRecord>, stamps: seq<string>, i: nat)
    requires |stamps| == |rows| && i < |rows|
    ensures Create(Import(s, rows[..i], stamps[..i]), rows[i].title, rows[i].content, stamps[i]) ==
      Import(s, rows[..i + 1], stamps[..i + 1])
  {
    var m := MaxId(s);
    ImportMaxId(s, rows[..i], stamps[..i]);
    assert rows[..i + 1][..i] == rows[..i] && stamps[..i + 1][..i] == stamps[..i];
    var before := Appended(m, rows[..i], stamps[..i]);
    var n := Note(m + i + 1, rows[i].title, rows[i].content, stamps[i]);
    assert (s + before) + [n] == s + (before + [n]);
  }

  /**
   * Importing k rows keeps the held notes as a prefix and appends k notes with
   * the consecutive ids max+1 .. max+k, whose titles and contents follow the
   * rows in order; the rows' own id and timestamp are ignored.
   */
  lemma ImportEffect(s: seq<Note>, rows: seq<NoteRecord>, stamps: seq<string>)
    requires |stamps| == |rows|
    ensures |Import(s, rows, stamps)| == |s| + |rows|
    ensures Import(s, rows, stamps)[..|s|] == s
    ensures forall j :: 0 <= j < |rows| ==>
      Import(s, rows, stamps)[|s| + j] == Note(MaxId(s) + j + 1, rows[j].title, rows[j].content, stamps[j])
  {
    var added := Appended(MaxId(s), rows, stamps);
    AppendedAt(MaxId(s), rows, stamps);
    var r := s + added;
    assert r[..|s|] == s;
    forall j | 0 <= j < |rows|
      ensures r[|s| + j] == Note(MaxId(s) + j + 1, rows[j].title, rows[j].content, stamps[j])
    {
      assert r[|s| + j] == added[j];
    }
  }

  /** Importing keeps the ids distinct. */
  lemma ImportDistinct(s: seq<Note>, rows: seq<NoteRecord>, stamps: seq<string>)
    requires |stamps| == |rows|
    requires DistinctIds(s)
    ensures DistinctIds(Import(s, rows, stamps))
  {
    var r := Import(s, rows, stamps);
    MaxIdIsMax(s);
    ImportEffect(s, rows, stamps);
    forall i, j | 0 <= i < j < |r| ensures r[i].id != r[j].id {
      if j >= |s| {
        var jj := j - |s|;
        assert r[|s| + jj] == Note(MaxId(s) + jj + 1, rows[jj].title, rows[jj].content, stamps[jj]);
        if i < |s| {
          assert r[i] == s[i];
        } else {
          var ii := i - |s|;
          assert r[|s| + ii] == Note(MaxId(s) + ii + 1, rows[ii].title, rows[ii].content, stamps[ii]);
        }
      } else {
        assert r[i] == s[i] && r[j] == s[j];
      }
    }
  }

  /**
   * Exporting the notes and importing the rows into an empty manager gives
   * the same titles and contents in the same order, with ids 1, 2, ... and
   * the clock readings of the import as timestamps.
   */
  lemma ExportImport(s: seq<Note>, stamps: seq<string>)
    requires |stamps| == |s|
    ensures var r := Import([], Records(s), stamps);
      |r| == |s| &&
      forall j :: 0 <= j < |s| ==>
        r[j] == Note(j + 1, s[j].title, s[j].content, stamps[j])
  {
    ImportEffect([], Records(s), stamps);
  }

  /**
   * The life cycle of an empty store: create "A" (id 1), create "B" (id 2),
   * delete 1 leaves only note 2, and the next create gets id 3.
   */
  lemma Scenario(t1: string, t2: string, t3: string)
    ensures var s1 := Create([], "A", "x", t1);
      var s2 := Create(s1, "B", "y", t2);
      var s3 := Without(s2, 1);
      var s4 := Create(s3, "C", "z", t3);
      s1 == [Note(1, "A", "x", t1)] &&
      s2 == [Note(1, "A", "x", t1), Note(2, "B", "y", t2)] &&
      s3 == [Note(2, "B", "y", t2)] &&
      s4 == [Note(2, "B", "y", t2), Note(3, "C", "z", t3)]
  {
    var s2 := Create(Create([], "A", "x", t1), "B", "y", t2);
    assert s2[1..] == [Note(2, "B", "y", t2)];
  }
}
