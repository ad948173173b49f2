/**
 * The standalone inbox store (inbox.py): one `notes` table whose `tags`
 * column holds a JSON list of strings or NULL.  Each method is one atomic
 * step; each reading of the clock is a parameter.
 */
module SimpleInbox {
  import opened Wrappers
  import QueryOrder

  /** A row of `notes`; `tags` is None for NULL. */
  datatype NoteRow = NoteRow(content: string, timestamp: int, updatedAt: int, tags: Option<seq<string>>)

  /** A note as the store returns it. */
  datatype Note = Note(id: int, content: string, timestamp: int, updatedAt: int, tags: seq<string>)

  /** A condition get_notes appends to its WHERE clause, with the parameter it binds. */
  datatype Condition = TimestampFrom(after: int) | TimestampUntil(before: int)

  /** An assignment update_note appends to its SET clause. */
  datatype Assignment = SetContent(content: string) | SetTags(tags: seq<string>) | SetUpdatedAt(time: int)

  /** What create_note writes to the tags column: NULL for no tags or an empty list. */
  function StoredTags(tags: Option<seq<string>>): (stored: Option<seq<string>>)
    ensures stored.None? <==> tags.None? || tags.value == []
  {
    if tags.Some? && tags.value != [] then tags else None
  }

  /** What a read makes of the tags column: NULL reads as the empty list. */
  function ReadTags(stored: Option<seq<string>>): (tags: seq<string>)
    ensures stored.Some? ==> tags == stored.value
  {
    stored.GetOr([])
  }

  /** A list of tags written by create_note reads back as itself, and no tags as the empty list. */
  lemma TagsRoundTrip(tags: Option<seq<string>>)
    ensures ReadTags(StoredTags(tags)) == tags.GetOr([])
  {
  }

  function RowToNote(id: int, row: NoteRow): (note: Note)
    ensures note.id == id && note.content == row.content && note.timestamp == row.timestamp
    ensures note.updatedAt == row.updatedAt && note.tags == ReadTags(row.tags)
  {
    Note(id, row.content, row.timestamp, row.updatedAt, ReadTags(row.tags))
  }

  /** `timestamp >= ?`, `timestamp <= ?` */
  predicate Holds(c: Condition, row: NoteRow)
  {
    match c
    case TimestampFrom(after) => after <= row.timestamp
    case TimestampUntil(before) => row.timestamp <= before
  }

  predicate AllHold(conds: seq<Condition>, row: NoteRow)
  {
    forall i :: 0 <= i < |conds| ==> Holds(conds[i], row)
  }

  /** The notes a caller of get_notes asks for: both bounds inclusive. */
  predicate InWindow(row: NoteRow, after: Option<int>, before: Option<int>)
  {
    && (after.None? || after.value <= row.timestamp)
    && (before.None? || row.timestamp <= before.value)
  }

  /** The WHERE clause get_notes assembles, one condition per bound the caller supplies. */
  method BuildConditions(after: Option<int>, before: Option<int>) returns (conds: seq<Condition>)
    ensures forall row :: AllHold(conds, row) <==> InWindow(row, after, before)
    ensures |conds| == (if after.Some? then 1 else 0) + (if before.Some? then 1 else 0)
  {
    conds := [];
    if after.Some? {
      conds := conds + [TimestampFrom(after.value)];
    }
    if before.Some? {
      conds := conds + [TimestampUntil(before.value)];
    }
    forall row
      ensures AllHold(conds, row) <==> InWindow(row, after, before)
    {
      if after.Some? {
        assert conds[0] == TimestampFrom(after.value);
      }
      if before.Some? {
        assert conds[|conds| - 1] == TimestampUntil(before.value);
      }
    }
  }

  /** The effect of one SET assignment on a row. */
  function Assign(a: Assignment, row: NoteRow): NoteRow
  {
    match a
    case SetContent(c) => row.(content := c)
    case SetTags(tags) => row.(tags := Some(tags))
    case SetUpdatedAt(t) => row.(updatedAt := t)
  }

  /** The effect of a SET clause: its assignments from left to right. */
  function Apply(updates: seq<Assignment>, row: NoteRow): NoteRow
    decreases |updates|
  {
    if updates == [] then row else Apply(updates[1..], Assign(updates[0], row))
  }

  /** The patch update_note means: only the fields given change, and the update time always does. */
  function Patched(row: NoteRow, newContent: Option<string>, newTags: Option<seq<string>>, now: int): NoteRow
  {
    NoteRow(newContent.GetOr(row.content), row.timestamp, now,
            if newTags.Some? then Some(newTags.value) else row.tags)
  }

  /** The SET clause update_note assembles: one assignment per field given, then the update time. */
  method BuildUpdates(newContent: Option<string>, newTags: Option<seq<string>>, now: int) returns (updates: seq<Assignment>)
    ensures updates != [] && updates[|updates| - 1] == SetUpdatedAt(now)
    ensures forall row :: Apply(updates, row) == Patched(row, newContent, newTags, now)
  {
    updates := [];
    if newContent.Some? {
      updates := updates + [SetContent(newContent.value)];
    }
    if newTags.Some? {
      updates := updates + [SetTags(newTags.value)];
    }
    updates := updates + [SetUpdatedAt(now)];
    forall row
      ensures Apply(updates, row) == Patched(row, newContent, newTags, now)
    {
      var r1 := if newContent.Some? then Assign(SetContent(newContent.value), row) else row;
      var r2 := if newTags.Some? then Assign(SetTags(newTags.value), r1) else r1;
      var tail := if newTags.Some? then [SetTags(newTags.value), SetUpdatedAt(now)] else [SetUpdatedAt(now)];
      assert updates == (if newContent.Some? then [SetContent(newContent.value)] else []) + tail;
      if newContent.Some? {
        assert updates[1..] == tail;
      }
      assert Apply(updates, row) == Apply(tail, r1);
      if newTags.Some? {
        assert tail[1..] == [SetUpdatedAt(now)];
      }
      assert Apply(tail, r1) == Apply([SetUpdatedAt(now)], r2);
      assert [SetUpdatedAt(now)][1..] == [];
      assert Apply([SetUpdatedAt(now)], r2) == Assign(SetUpdatedAt(now), r2);
    }
  }

  /** The ORDER BY key of get_notes. */
  function TimestampKey(notes: map<int, NoteRow>): int -> int
  {
    (id: int) => if id in notes then notes[id].timestamp else 0
  }

  /** The id of a note. */
  function NoteId(n: Note): int
  {
    n.id
  }

  class Inbox {
    var notes: map<int, NoteRow>
    /** The AUTOINCREMENT counter: the largest id ever handed out. */
    var noteSeq: int

    ghost predicate Valid()
      reads this
    {
      forall id :: id in notes ==> id <= noteSeq
    }

    /** Opens a database whose table already holds the given rows. */
    constructor Open(notes0: map<int, NoteRow>, noteSeq0: int)
      requires forall id :: id in notes0 ==> id <= noteSeq0
      ensures Valid() && notes == notes0 && noteSeq == noteSeq0
    {
      notes, noteSeq := notes0, noteSeq0;
    }

    /** _get_note_by_id */
    function GetNoteById(id: int): (r: Option<Note>)
      reads this
      ensures r.None? <==> id !in notes
      ensures r.Some? ==> r.value == RowToNote(id, notes[id])
    {
      if id in notes then Some(RowToNote(id, notes[id])) else None
    }

    /**
     * create_note: the note is stamped with `created`, or with the clock
     * reading `now` without one; its update time is the later reading
     * `insertedAt`.  No tags and an empty list are both stored as NULL.
     */
    method CreateNote(content: string, tags: Option<seq<string>>, created: Option<int>, now: int, insertedAt: int)
      returns (note: Option<Note>)
      requires Valid()
      modifies this
      ensures Valid()
      ensures noteSeq == old(noteSeq) + 1 && forall id :: id in old(notes) ==> id < noteSeq
      ensures notes == old(notes)[noteSeq := NoteRow(content, created.GetOr(now), insertedAt, StoredTags(tags))]
      ensures note == Some(Note(noteSeq, content, created.GetOr(now), insertedAt, tags.GetOr([])))
      ensures note == GetNoteById(noteSeq)
    {
      var timestamp := created.GetOr(now);
      var tagsJson := StoredTags(tags);
      var noteId := noteSeq + 1;
      notes := notes[noteId := NoteRow(content, timestamp, insertedAt, tagsJson)];
      noteSeq := noteId;
      TagsRoundTrip(tags);
      note := GetNoteById(noteId);
    }

    /**
     * update_note: changes the content and the tags only where new values are
     * given, always sets the update time, and returns the note as stored.
     */
    method UpdateNote(id: int, newContent: Option<string>, newTags: Option<seq<string>>, now: int)
      returns (note: Option<Note>)
      requires Valid()
      modifies this
      ensures Valid()
      ensures id !in old(notes) ==> note.None? && notes == old(notes)
      ensures id in old(notes) ==> notes == old(notes)[id := Patched(old(notes)[id], newContent, newTags, now)]
      ensures note == GetNoteById(id) && noteSeq == old(noteSeq)
    {
      var updatedAt := now;
      var updates := BuildUpdates(newContent, newTags, updatedAt);
      if id in notes {
        notes := notes[id := Apply(updates, notes[id])];
      }
      note := GetNoteById(id);
    }

    /** The ids of the notes get_notes' WHERE clause keeps. */
    function Matching(after: Option<int>, before: Option<int>): (ids: set<int>)
      reads this
      ensures forall id :: id in ids <==> id in notes && InWindow(notes[id], after, before)
    {
      set id | id in notes && InWindow(notes[id], after, before)
    }

    /** get_notes: the notes in the window, newest first, at most `limit` of them. */
    method GetNotes(limit: int, after: Option<int>, before: Option<int>) returns (result: seq<Note>)
      ensures QueryOrder.IsTop(QueryOrder.IdsOf(result, NoteId), Matching(after, before),
                               TimestampKey(notes), true, QueryOrder.LimitOf(Some(limit)))
      ensures forall i :: 0 <= i < |result| ==>
                result[i].id in notes && result[i] == RowToNote(result[i].id, notes[result[i].id])
    {
      var conds := BuildConditions(after, before);
      var pool := set id | id in notes && AllHold(conds, notes[id]);
      assert pool == Matching(after, before);
      var ids := QueryOrder.SelectTop(pool, TimestampKey(notes), true, QueryOrder.LimitOf(Some(limit)));
      result := [];
      for i := 0 to |ids|
        invariant |result| == i
        invariant forall k :: 0 <= k < i ==> result[k] == RowToNote(ids[k], notes[ids[k]])
      {
        result := result + [RowToNote(ids[i], notes[ids[i]])];
      }
      assert QueryOrder.IdsOf(result, NoteId) == ids;
    }

    /** get_all_tags: the union of the tag lists of the non-NULL rows, each tag once. */
    method GetAllTags() returns (tags: seq<string>)
      ensures QueryOrder.Distinct(tags)
      ensures forall t :: t in tags <==> exists id :: id in notes && notes[id].tags.Some? && t in notes[id].tags.value
    {
      var allTags: set<string> := {};
      var rest := set id | id in notes && notes[id].tags.Some?;
      ghost var done: set<int> := {};
      while rest != {}
        invariant rest + done == set id | id in notes && notes[id].tags.Some?
        invariant rest !! done
        invariant forall t :: t in allTags <==> exists id :: id in done && t in notes[id].tags.value
        decreases |rest|
      {
        var id := PickOne(rest);
        allTags := allTags + set t | t in notes[id].tags.value;
        rest, done := rest - {id}, done + {id};
      }
      tags := QueryOrder.SetToSeq(allTags);
    }

    /** delete_note: true exactly when a row was removed. */
    method DeleteNote(id: int) returns (deleted: bool)
      requires Valid()
      modifies this
      ensures Valid()
      ensures deleted == (id in old(notes))
      ensures notes == old(notes) - {id} && noteSeq == old(noteSeq)
    {
      deleted := id in notes;
      notes := notes - {id};
    }
  }

  /** A note created with an empty tag list stores NULL and reads back with no tags. */
  method EmptyTagsScenario(now: int, insertedAt: int) returns (note: Option<Note>, stored: Option<seq<string>>)
    ensures stored.None? && note == Some(Note(1, "c", now, insertedAt, []))
  {
    var inbox := new Inbox.Open(map[], 0);
    note := inbox.CreateNote("c", Some([]), None, now, insertedAt);
    stored := inbox.notes[1].tags;
  }

  /** Setting the tags to an empty list stores `[]`, not NULL, and leaves the content alone. */
  method ClearTagsScenario(now: int, later: int) returns (note: Option<Note>, stored: Option<seq<string>>)
    ensures stored == Some([]) && note == Some(Note(1, "c", now, later, []))
  {
    var inbox := new Inbox.Open(map[], 0);
    var created := inbox.CreateNote("c", Some(["x"]), None, now, now);
    note := inbox.UpdateNote(1, None, Some([]), later);
    stored := inbox.notes[1].tags;
  }
}
