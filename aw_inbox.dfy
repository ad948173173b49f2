/**
 * The ActivityWatch inbox store (aw_inbox/inbox.py): a `notes` table whose
 * tag lists are JSON arrays of strings, and a separate `comments` table.
 * The connection never turns on SQLite's foreign-key enforcement, so the
 * ON DELETE CASCADE declared on `comments` has no effect.  Each method is
 * one atomic step; the current time is passed in as `now`.
 */
module AwInbox {
  import opened Wrappers
  import QueryOrder
  import TagIndex

  datatype NoteRow = NoteRow(content: string, tags: seq<string>, createdAt: int, updatedAt: int)

  datatype CommentRow = CommentRow(noteId: int, content: string, createdAt: int)

  /** The Event a note becomes: stamped with its creation time, duration zero, the row as its data. */
  datatype Event = Event(timestamp: int, id: int, content: string, tags: seq<string>, createdAt: int, updatedAt: int)

  /** A comment as get_comments_for_note returns it. */
  datatype Comment = Comment(id: int, content: string, createdAt: int)

  /** One entry of get_detailed_tags. */
  datatype TagStats = TagStats(tag: string, count: nat, latestUpdatedAt: int)

  /** A condition get_notes appends to its WHERE clause, with the parameter it binds. */
  datatype Condition = HasTag(tag: string) | CreatedFrom(after: int) | CreatedBefore(before: int)

  /** How many of the newest notes update_note searches for the note it changed. */
  const RescanLimit: nat := 1000

  /** `EXISTS (SELECT 1 FROM json_each(tags) WHERE value = ?)`, `created_at >= ?`, `created_at < ?` */
  predicate Holds(c: Condition, row: NoteRow)
  {
    match c
    case HasTag(t) => t in row.tags
    case CreatedFrom(after) => after <= row.createdAt
    case CreatedBefore(before) => row.createdAt < before
  }

  predicate AllHold(conds: seq<Condition>, row: NoteRow)
  {
    forall i :: 0 <= i < |conds| ==> Holds(conds[i], row)
  }

  /**
   * The notes a caller of get_notes asks for: a tag element equal to `tag`
   * (an empty tag asks for nothing), created at or after `after` and before
   * `before`.
   */
  predicate InWindow(row: NoteRow, tag: Option<string>, after: Option<int>, before: Option<int>)
  {
    && (tag.None? || tag.value == [] || tag.value in row.tags)
    && (after.None? || after.value <= row.createdAt)
    && (before.None? || row.createdAt < before.value)
  }

  /** The ORDER BY key of get_notes. */
  function CreatedKey(notes: map<int, NoteRow>): int -> int
  {
    (id: int) => if id in notes then notes[id].createdAt else 0
  }

  /** The note id of an event. */
  function EventId(e: Event): int
  {
    e.id
  }

  /** The row an event was made from. */
  function RowOf(e: Event): NoteRow
  {
    NoteRow(e.content, e.tags, e.createdAt, e.updatedAt)
  }

  /** _row_to_event */
  function RowToEvent(id: int, row: NoteRow): (e: Event)
    ensures RowOf(e) == row && e.id == id && e.timestamp == row.createdAt
  {
    Event(row.createdAt, id, row.content, row.tags, row.createdAt, row.updatedAt)
  }

  /** The rows the tag queries read. */
  function TagRowsOf(notes: map<int, NoteRow>): TagIndex.TagRows
  {
    map id | id in notes :: TagIndex.TagRow(notes[id].tags, notes[id].updatedAt)
  }

  /** The notes created at or after `c`. */
  ghost function CreatedSince(notes: map<int, NoteRow>, c: int): set<int>
  {
    set id | id in notes && notes[id].createdAt >= c
  }

  /** The notes created after `c`. */
  ghost function CreatedAfter(notes: map<int, NoteRow>, c: int): set<int>
  {
    set id | id in notes && notes[id].createdAt > c
  }

  /** The WHERE clause get_notes assembles, one condition per filter the caller supplies. */
  method BuildConditions(tag: Option<string>, after: Option<int>, before: Option<int>) returns (conds: seq<Condition>)
    ensures forall row :: AllHold(conds, row) <==> InWindow(row, tag, after, before)
    ensures |conds| == (if tag.Some? && tag.value != [] then 1 else 0)
                     + (if after.Some? then 1 else 0) + (if before.Some? then 1 else 0)
  {
    conds := [];
    if tag.Some? && tag.value != [] {
      conds := conds + [HasTag(tag.value)];
    }
    if after.Some? {
      conds := conds + [CreatedFrom(after.value)];
    }
    if before.Some? {
      conds := conds + [CreatedBefore(before.value)];
    }
    forall row
      ensures AllHold(conds, row) <==> InWindow(row, tag, after, before)
    {
      var k := 0;
      if tag.Some? && tag.value != [] {
        assert conds[k] == HasTag(tag.value);
        k := k + 1;
      }
      if after.Some? {
        assert conds[k] == CreatedFrom(after.value);
        k := k + 1;
      }
      if before.Some? {
        assert conds[k] == CreatedBefore(before.value);
      }
    }
  }

  /** `r` lists each tag of `rows` once with its statistics, most recently updated first. */
  ghost predicate IsLatestRanking(r: seq<TagStats>, rows: TagIndex.TagRows)
  {
    && (forall i, j :: 0 <= i < j < |r| ==> r[i].tag != r[j].tag)
    && (forall t :: t in TagIndex.Universe(rows) <==> exists i :: 0 <= i < |r| && r[i].tag == t)
    && (forall i :: 0 <= i < |r| ==> r[i].count == TagIndex.TagCount(rows, r[i].tag))
    && (forall i :: 0 <= i < |r| ==> TagIndex.IsLatest(rows, r[i].tag, r[i].latestUpdatedAt))
    && (forall i, j :: 0 <= i < j < |r| ==> r[i].latestUpdatedAt >= r[j].latestUpdatedAt)
  }

  /** The per-tag statistics, listed in an order of non-increasing latest update time, form a ranking. */
  lemma RankingOfStats(r: seq<TagStats>, order: seq<string>, counts: map<string, nat>,
                       latest: map<string, int>, rows: TagIndex.TagRows)
    requires counts.Keys == latest.Keys == TagIndex.Universe(rows)
    requires forall t :: t in counts ==> counts[t] == TagIndex.TagCount(rows, t)
    requires forall t :: t in latest ==> TagIndex.IsLatest(rows, t, latest[t])
    requires QueryOrder.Distinct(order)
    requires forall t :: t in latest <==> t in order
    requires forall i, j :: 0 <= i < j < |order| ==> order[i] in latest && order[j] in latest && latest[order[i]] >= latest[order[j]]
    requires |r| == |order|
    requires forall k :: 0 <= k < |r| ==> order[k] in latest && r[k] == TagStats(order[k], counts[order[k]], latest[order[k]])
    ensures IsLatestRanking(r, rows)
  {
    forall i, j | 0 <= i < j < |r|
      ensures r[i].tag != r[j].tag && r[i].latestUpdatedAt >= r[j].latestUpdatedAt
    {
      assert r[i].tag == order[i] && r[j].tag == order[j];
    }
    forall t
      ensures t in TagIndex.Universe(rows) <==> exists i :: 0 <= i < |r| && r[i].tag == t
    {
      if t in TagIndex.Universe(rows) {
        var i :| 0 <= i < |order| && order[i] == t;
        assert r[i].tag == t;
      }
    }
  }

  /** The GROUP BY query of get_detailed_tags with its `ORDER BY latest_updated_at DESC`. */
  method RankByLatest(rows: TagIndex.TagRows) returns (r: seq<TagStats>)
    ensures IsLatestRanking(r, rows)
  {
    var counts, latest := TagIndex.Aggregate(rows);
    var order := QueryOrder.KeysByValueDescending(latest);
    r := [];
    for i := 0 to |order|
      invariant |r| == i
      invariant forall k :: 0 <= k < i ==> r[k] == TagStats(order[k], counts[order[k]], latest[order[k]])
    {
      r := r + [TagStats(order[i], counts[order[i]], latest[order[i]])];
    }
    RankingOfStats(r, order, counts, latest, rows);
  }

  class Inbox {
    var notes: map<int, NoteRow>
    var comments: map<int, CommentRow>
    /** The AUTOINCREMENT counters: the largest id each table has ever handed out. */
    var noteSeq: int
    var commentSeq: int

    ghost predicate Valid()
      reads this
    {
      && (forall id :: id in notes ==> id <= noteSeq)
      && (forall cid :: cid in comments ==> cid <= commentSeq)
    }

    /** Opens a database whose tables already hold the given rows. */
    constructor Open(notes0: map<int, NoteRow>, comments0: map<int, CommentRow>, noteSeq0: int, commentSeq0: int)
      requires forall id :: id in notes0 ==> id <= noteSeq0
      requires forall cid :: cid in comments0 ==> cid <= commentSeq0
      ensures Valid()
      ensures notes == notes0 && comments == comments0 && noteSeq == noteSeq0 && commentSeq == commentSeq0
    {
      notes, comments := notes0, comments0;
      noteSeq, commentSeq := noteSeq0, commentSeq0;
    }

    /** The ids of the notes get_notes' WHERE clause keeps. */
    function Matching(tag: Option<string>, after: Option<int>, before: Option<int>): (ids: set<int>)
      reads this
      ensures forall id :: id in ids <==> id in notes && InWindow(notes[id], tag, after, before)
    {
      set id | id in notes && InWindow(notes[id], tag, after, before)
    }

    /**
     * get_notes: the notes in the window as events, newest first, at most
     * `limit` of them, ties at the cut in any order.
     */
    method GetNotes(limit: int, tag: Option<string>, after: Option<int>, before: Option<int>) returns (events: seq<Event>)
      ensures QueryOrder.IsTop(QueryOrder.IdsOf(events, EventId), Matching(tag, after, before),
                               CreatedKey(notes), true, QueryOrder.LimitOf(Some(limit)))
      ensures forall i :: 0 <= i < |events| ==>
                events[i].id in notes && events[i] == RowToEvent(events[i].id, notes[events[i].id])
    {
      var conds := BuildConditions(tag, after, before);
      var pool := set id | id in notes && AllHold(conds, notes[id]);
      assert pool == Matching(tag, after, before);
      var ids := QueryOrder.SelectTop(pool, CreatedKey(notes), true, QueryOrder.LimitOf(Some(limit)));
      events := [];
      for i := 0 to |ids|
        invariant |events| == i
        invariant forall k :: 0 <= k < i ==> events[k] == RowToEvent(ids[k], notes[ids[k]])
      {
        events := events + [RowToEvent(ids[i], notes[ids[i]])];
      }
      assert QueryOrder.IdsOf(events, EventId) == ids;
    }

    /** create_note: a new row whose creation and update times are both `created`, or `now` without one. */
    method CreateNote(content: string, tags: Option<seq<string>>, created: Option<int>, now: int) returns (e: Event)
      requires Valid()
      modifies this
      ensures Valid()
      ensures e.id == old(noteSeq) + 1 && noteSeq == e.id
      ensures forall id :: id in old(notes) ==> id < e.id
      ensures e == RowToEvent(e.id, NoteRow(content, tags.GetOr([]), created.GetOr(now), created.GetOr(now)))
      ensures notes == old(notes)[e.id := RowOf(e)]
      ensures comments == old(comments) && commentSeq == old(commentSeq)
    {
      var tagsJson := tags.GetOr([]);
      var createdAt := created.GetOr(now);
      var noteId := noteSeq + 1;
      notes := notes[noteId := NoteRow(content, tagsJson, createdAt, createdAt)];
      noteSeq := noteId;
      e := Event(createdAt, noteId, content, tagsJson, createdAt, createdAt);
    }

    /**
     * update_note: replaces content and tags and stamps the note with `now`;
     * then looks for it among the RescanLimit newest notes, so it answers None
     * for a changed note that enough newer notes push out of that window.
     */
    method UpdateNote(id: int, newContent: string, newTags: Option<seq<string>>, now: int) returns (r: Option<Event>)
      requires Valid()
      modifies this
      ensures Valid()
      ensures id !in old(notes) ==> r.None? && notes == old(notes)
      ensures id in old(notes) ==>
                notes == old(notes)[id := NoteRow(newContent, newTags.GetOr([]), old(notes)[id].createdAt, now)]
      ensures r.Some? ==> id in notes && r.value == RowToEvent(id, notes[id])
      ensures id in notes && |CreatedSince(notes, notes[id].createdAt)| <= RescanLimit ==> r.Some?
      ensures id in notes && |CreatedAfter(notes, notes[id].createdAt)| >= RescanLimit ==> r.None?
      ensures comments == old(comments) && noteSeq == old(noteSeq) && commentSeq == old(commentSeq)
    {
      var found := id in notes;
      if !found {
        return None;
      }
      var newTagsJson := newTags.GetOr([]);
      var updatedAt := now;
      notes := notes[id := NoteRow(newContent, newTagsJson, notes[id].createdAt, updatedAt)];
      var recent := GetNotes(RescanLimit, None, None, None);
      r := None;
      var i := 0;
      ghost var at := 0;
      while i < |recent| && r.None?
        invariant 0 <= i <= |recent|
        invariant r.None? ==> forall k :: 0 <= k < i ==> recent[k].id != id
        invariant r.Some? ==> 0 <= at < |recent| && recent[at] == r.value && r.value.id == id
      {
        if recent[i].id == id {
          r := Some(recent[i]);
          at := i;
        }
        i := i + 1;
      }
      ghost var ids := QueryOrder.IdsOf(recent, EventId);
      ghost var key := CreatedKey(notes);
      assert Matching(None, None, None) == notes.Keys;
      assert r.None? ==> id !in ids;
      assert r.Some? ==> ids[at] == id;
      if |CreatedSince(notes, notes[id].createdAt)| <= RescanLimit {
        QueryOrder.TopIncludes(ids, notes.Keys, key, RescanLimit, id, CreatedSince(notes, notes[id].createdAt));
      }
      if |CreatedAfter(notes, notes[id].createdAt)| >= RescanLimit {
        QueryOrder.TopExcludes(ids, notes.Keys, key, RescanLimit, id, CreatedAfter(notes, notes[id].createdAt));
      }
    }

    /** The comments of a note. */
    function CommentsOf(noteId: int): (cids: set<int>)
      reads this
      ensures forall cid :: cid in cids <==> cid in comments && comments[cid].noteId == noteId
    {
      set cid | cid in comments && comments[cid].noteId == noteId
    }

    /** get_comments_for_note: every comment of the note, oldest first. */
    method GetCommentsForNote(noteId: int) returns (cs: seq<Comment>)
      ensures forall i :: 0 <= i < |cs| ==>
                cs[i].id in CommentsOf(noteId)
                && cs[i] == Comment(cs[i].id, comments[cs[i].id].content, comments[cs[i].id].createdAt)
      ensures forall cid :: cid in CommentsOf(noteId) ==> exists i :: 0 <= i < |cs| && cs[i].id == cid
      ensures forall i, j :: 0 <= i < j < |cs| ==> cs[i].id != cs[j].id && cs[i].createdAt <= cs[j].createdAt
    {
      var pool := CommentsOf(noteId);
      var rows := comments;
      var key := (cid: int) => if cid in rows then rows[cid].createdAt else 0;
      var cids := QueryOrder.SelectTop(pool, key, false, None);
      cs := [];
      for i := 0 to |cids|
        invariant |cs| == i
        invariant forall k :: 0 <= k < i ==>
                    cs[k] == Comment(cids[k], comments[cids[k]].content, comments[cids[k]].createdAt)
      {
        cs := cs + [Comment(cids[i], comments[cids[i]].content, comments[cids[i]].createdAt)];
      }
      assert forall k :: 0 <= k < |cids| ==> cs[k].id == cids[k] && cs[k].createdAt == key(cids[k]);
      forall cid | cid in pool
        ensures exists i :: 0 <= i < |cs| && cs[i].id == cid
      {
        var i :| 0 <= i < |cids| && cids[i] == cid;
        assert cs[i].id == cid;
      }
    }

    /** add_comment_to_note: appends a comment stamped `now`, whether or not the note exists. */
    method AddCommentToNote(noteId: int, content: string, now: int)
      requires Valid()
      modifies this
      ensures Valid()
      ensures commentSeq == old(commentSeq) + 1
      ensures comments == old(comments)[commentSeq := CommentRow(noteId, content, now)]
      ensures commentSeq in CommentsOf(noteId)
      ensures notes == old(notes) && noteSeq == old(noteSeq)
    {
      var createdAt := now;
      var commentId := commentSeq + 1;
      comments := comments[commentId := CommentRow(noteId, content, createdAt)];
      commentSeq := commentId;
    }

    /** get_all_tags: every tag value of every note, once. */
    method GetAllTags() returns (tags: seq<string>)
      ensures QueryOrder.Distinct(tags)
      ensures forall t :: t in tags <==> exists id :: id in notes && t in notes[id].tags
    {
      var tagSet := TagIndex.CollectTags(TagRowsOf(notes));
      tags := QueryOrder.SetToSeq(tagSet);
      forall t | t in tags
        ensures exists id :: id in notes && t in notes[id].tags
      {
        var id :| id in TagRowsOf(notes) && t in TagRowsOf(notes)[id].tags;
        assert id in notes && t in notes[id].tags;
      }
      forall t | exists id :: id in notes && t in notes[id].tags
        ensures t in tags
      {
        var id :| id in notes && t in notes[id].tags;
        assert id in TagRowsOf(notes) && t in TagRowsOf(notes)[id].tags;
      }
    }

    /**
     * get_detailed_tags: one entry per tag with its number of occurrences and
     * the latest update time of the notes carrying it, most recently updated first.
     */
    method GetDetailedTags() returns (r: seq<TagStats>)
      ensures IsLatestRanking(r, TagRowsOf(notes))
    {
      r := RankByLatest(TagRowsOf(notes));
    }

    /** delete_note: removes the note if it exists; its comments stay. */
    method DeleteNote(id: int) returns (deleted: bool)
      requires Valid()
      modifies this
      ensures Valid()
      ensures deleted == (id in old(notes))
      ensures notes == old(notes) - {id}
      ensures comments == old(comments) && noteSeq == old(noteSeq) && commentSeq == old(commentSeq)
    {
      var found := id in notes;
      if !found {
        return false;
      }
      notes := notes - {id};
      return true;
    }
  }

  /** Comments survive the deletion of their note: no cascade takes them. */
  method CommentsOutliveNote(now: int) returns (deleted: bool, cs: seq<Comment>)
    ensures deleted && cs == [Comment(1, "remark", now)]
  {
    var inbox := new Inbox.Open(map[], map[], 0, 0);
    var e := inbox.CreateNote("note", None, None, now);
    inbox.AddCommentToNote(e.id, "remark", now);
    deleted := inbox.DeleteNote(e.id);
    cs := inbox.GetCommentsForNote(e.id);
    assert inbox.CommentsOf(1) == {1};
    // every listed entry is comment 1 and entries are distinct, so there is one
    assert cs[0] == cs[|cs| - 1];
    assert |cs| == 1;
    assert cs == [cs[0]];
  }
}
