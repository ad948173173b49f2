/**
 * The Rust note store (src/db.rs): the `notes` and `note_relations` tables
 * with their AUTOINCREMENT counters, foreign keys with ON DELETE CASCADE
 * (enforcement is switched on when the connection opens), and the functions
 * that read and write them.  Each function is one atomic step; the current
 * time is passed in as `now`.
 */
module NoteDb {
  import opened Wrappers
  import opened NoteModels
  import TagLike
  import QueryText
  import QueryOrder
  import TagIndex

  /**
   * A row of `notes`.  `tags` is the stored JSON tag list, or None when the
   * stored text is not a JSON list of strings.
   */
  datatype NoteRow = NoteRow(content: string, tags: Option<seq<string>>, createdAt: int, updatedAt: int)

  /** A row of `note_relations`; the relation type is the text stored in its column. */
  datatype RelationRow = RelationRow(sourceNoteId: int, targetNoteId: int, relationType: string, createdAt: int)

  /** Reads a note row: fails when its tag text does not parse. */
  function MapRowToNote(id: int, row: NoteRow): (r: Result<Note, DbError>)
    ensures r.Err? <==> row.tags.None?
    ensures r.Ok? ==> r.value.id == id && RowOf(r.value) == row
  {
    match row.tags
    case None => Err(InvalidTagJson)
    case Some(tags) => Ok(Note(id, row.content, tags, row.createdAt, row.updatedAt))
  }

  /** The row a note is stored as. */
  function RowOf(note: Note): NoteRow
  {
    NoteRow(note.content, Some(note.tags), note.createdAt, note.updatedAt)
  }

  /** The text written to the `relation_type` column. */
  function RelationTypeName(t: NoteRelationType): (s: string)
    ensures ParseRelationType(s) == t
  {
    match t
    case Comment => "Comment"
    case Reference => "Reference"
    case Link => "Link"
  }

  /** Reads the `relation_type` column; any text other than the three names reads as Reference. */
  function ParseRelationType(s: string): (t: NoteRelationType)
    ensures t == Comment <==> s == "Comment"
    ensures t == Link <==> s == "Link"
  {
    match s
    case "Comment" => Comment
    case "Reference" => Reference
    case "Link" => Link
    case _ => Reference
  }

  /** Reads a relation row. */
  function MapRowToRelation(id: int, row: RelationRow): (r: NoteRelation)
    ensures r.id == id && r.sourceNoteId == row.sourceNoteId && r.targetNoteId == row.targetNoteId
    ensures r.createdAt == row.createdAt && r.relationType == ParseRelationType(row.relationType)
  {
    NoteRelation(id, row.sourceNoteId, row.targetNoteId, ParseRelationType(row.relationType), row.createdAt)
  }

  /** The WHERE clause of get_notes_db for one row. */
  predicate InWindow(row: NoteRow, tag: Option<string>, after: Option<int>, before: Option<int>)
  {
    && (tag.None? || TagLike.TagMatches(row.tags, tag.value))
    && (after.None? || after.value <= row.createdAt)
    && (before.None? || row.createdAt < before.value)
  }

  /** The ORDER BY key of get_notes_db. */
  function CreatedKey(notes: map<int, NoteRow>): int -> int
  {
    (id: int) => if id in notes then notes[id].createdAt else 0
  }

  /** Notes read back row by row keep the order and distinctness of the selected ids. */
  lemma FetchedInOrder(notes: map<int, NoteRow>, ids: seq<int>, found: seq<Note>)
    requires QueryOrder.Distinct(ids) && QueryOrder.Ordered(ids, CreatedKey(notes), true)
    requires forall k :: 0 <= k < |ids| ==> ids[k] in notes
    requires |found| == |ids|
    requires forall k :: 0 <= k < |ids| ==> found[k].id == ids[k] && RowOf(found[k]) == notes[ids[k]]
    ensures forall i, j :: 0 <= i < j < |found| ==>
              found[i].id != found[j].id && found[i].createdAt >= found[j].createdAt
  {
    forall i, j | 0 <= i < j < |found|
      ensures found[i].id != found[j].id && found[i].createdAt >= found[j].createdAt
    {
      assert CreatedKey(notes)(ids[i]) >= CreatedKey(notes)(ids[j]);
      assert found[i].createdAt == notes[ids[i]].createdAt;
      assert found[j].createdAt == notes[ids[j]].createdAt;
    }
  }

  /** When every matching id is selected, an unreadable row is among the selected exactly when it is among the matching. */
  lemma UnreadableCovered(notes: map<int, NoteRow>, ids: seq<int>, pool: set<int>)
    requires forall k :: 0 <= k < |ids| ==> ids[k] in pool && ids[k] in notes
    requires forall id :: id in pool ==> id in ids && id in notes
    ensures (exists i :: 0 <= i < |ids| && notes[ids[i]].tags.None?)
        <==> (exists id :: id in pool && notes[id].tags.None?)
  {
    if exists i :: 0 <= i < |ids| && notes[ids[i]].tags.None? {
      var i :| 0 <= i < |ids| && notes[ids[i]].tags.None?;
      assert ids[i] in pool;
    }
    if exists id :: id in pool && notes[id].tags.None? {
      var id :| id in pool && notes[id].tags.None?;
      var i :| 0 <= i < |ids| && ids[i] == id;
    }
  }

  /** The `relation_type = ?` clause, when a type is asked for. */
  predicate TypeMatches(relationType: Option<NoteRelationType>, stored: string)
  {
    relationType.None? || stored == RelationTypeName(relationType.value)
  }

  /** The rows the tag queries read: those whose tag text is a JSON list of strings. */
  function TagRowsOf(notes: map<int, NoteRow>): TagIndex.TagRows
  {
    map id | id in notes && notes[id].tags.Some? :: TagIndex.TagRow(notes[id].tags.value, notes[id].updatedAt)
  }

  /** The note `id` is stored with readable tags that include `t`. */
  ghost predicate CarriesReadable(notes: map<int, NoteRow>, id: int, t: string)
  {
    id in notes && notes[id].tags.Some? && t in notes[id].tags.value
  }

  /**
   * `r` lists each tag of `rows` once, with its occurrence count and latest
   * update time, most frequent first.
   */
  ghost predicate IsTagRanking(r: seq<DetailedTag>, rows: TagIndex.TagRows)
  {
    && (forall i, j :: 0 <= i < j < |r| ==> r[i].name != r[j].name)
    && (forall t :: t in TagIndex.Universe(rows) <==> exists i :: 0 <= i < |r| && r[i].name == t)
    && (forall i :: 0 <= i < |r| ==> r[i].count == TagIndex.TagCount(rows, r[i].name))
    && (forall i :: 0 <= i < |r| ==>
          r[i].lastModified.Some? && TagIndex.IsLatest(rows, r[i].name, r[i].lastModified.value))
    && (forall i, j :: 0 <= i < j < |r| ==> r[i].count >= r[j].count)
  }

  /** The per-tag statistics, listed in an order of non-increasing count, form a ranking. */
  lemma RankingOfStats(r: seq<DetailedTag>, order: seq<string>, counts: map<string, nat>,
                       latest: map<string, int>, rows: TagIndex.TagRows)
    requires counts.Keys == latest.Keys == TagIndex.Universe(rows)
    requires forall t :: t in counts ==> counts[t] == TagIndex.TagCount(rows, t)
    requires forall t :: t in latest ==> TagIndex.IsLatest(rows, t, latest[t])
    requires QueryOrder.Distinct(order)
    requires forall t :: t in counts <==> t in order
    requires forall i, j :: 0 <= i < j < |order| ==> order[i] in counts && order[j] in counts && counts[order[i]] >= counts[order[j]]
    requires |r| == |order|
    requires forall k :: 0 <= k < |r| ==> order[k] in counts && r[k] == DetailedTag(order[k], counts[order[k]], Some(latest[order[k]]))
    ensures IsTagRanking(r, rows)
  {
    forall i, j | 0 <= i < j < |r|
      ensures r[i].name != r[j].name && r[i].count >= r[j].count
    {
      assert r[i].name == order[i] && r[j].name == order[j];
    }
    forall t
      ensures t in TagIndex.Universe(rows) <==> exists i :: 0 <= i < |r| && r[i].name == t
    {
      if t in TagIndex.Universe(rows) {
        var i :| 0 <= i < |order| && order[i] == t;
        assert r[i].name == t;
      }
    }
  }

  /** The GROUP BY query of get_detailed_tags_db with its `ORDER BY count DESC`. */
  method RankTags(rows: TagIndex.TagRows) returns (r: seq<DetailedTag>)
    ensures IsTagRanking(r, rows)
  {
    var counts, latest := TagIndex.Aggregate(rows);
    var order := QueryOrder.KeysByValueDescending(counts);
    r := [];
    for i := 0 to |order|
      invariant |r| == i
      invariant forall k :: 0 <= k < i ==>
                  r[k] == DetailedTag(order[k], counts[order[k]], Some(latest[order[k]]))
    {
      r := r + [DetailedTag(order[i], counts[order[i]], Some(latest[order[i]]))];
    }
    RankingOfStats(r, order, counts, latest, rows);
  }

  class NoteStore {
    var notes: map<int, NoteRow>
    var relations: map<int, RelationRow>
    /** The AUTOINCREMENT counters: the largest id each table has ever handed out. */
    var noteSeq: int
    var relationSeq: int
    /** Every id ever handed out, including those of deleted rows. */
    ghost var issuedNoteIds: set<int>
    ghost var issuedRelationIds: set<int>

    /** Ids never exceed their counter, and every relation's endpoints exist. */
    ghost predicate Valid()
      reads this
    {
      && notes.Keys <= issuedNoteIds
      && (forall id :: id in issuedNoteIds ==> id <= noteSeq)
      && relations.Keys <= issuedRelationIds
      && (forall rid :: rid in issuedRelationIds ==> rid <= relationSeq)
      && (forall rid :: rid in relations ==>
            relations[rid].sourceNoteId in notes && relations[rid].targetNoteId in notes)
    }

    /** Opens a database whose tables already hold the given rows. */
    constructor Open(notes0: map<int, NoteRow>, relations0: map<int, RelationRow>, noteSeq0: int, relationSeq0: int)
      requires forall id :: id in notes0 ==> id <= noteSeq0
      requires forall rid :: rid in relations0 ==> rid <= relationSeq0
      requires forall rid :: rid in relations0 ==>
                 relations0[rid].sourceNoteId in notes0 && relations0[rid].targetNoteId in notes0
      ensures Valid()
      ensures notes == notes0 && relations == relations0
      ensures noteSeq == noteSeq0 && relationSeq == relationSeq0
    {
      notes, relations := notes0, relations0;
      noteSeq, relationSeq := noteSeq0, relationSeq0;
      issuedNoteIds, issuedRelationIds := notes0.Keys, relations0.Keys;
    }

    /** get_note_db: the note with this id, None when there is none, an error when its tags do not parse. */
    function GetNote(id: int): (r: Result<Option<Note>, DbError>)
      reads this
      ensures r == Ok(None) <==> id !in notes
      ensures r.Err? <==> id in notes && notes[id].tags.None?
      ensures r.Ok? && r.value.Some? ==> id in notes && r.value.value.id == id && RowOf(r.value.value) == notes[id]
    {
      if id !in notes then Ok(None)
      else match MapRowToNote(id, notes[id])
        case Ok(note) => Ok(Some(note))
        case Err(e) => Err(e)
    }

    /** create_note_db */
    method CreateNote(payload: CreateNotePayload, now: int) returns (note: Note)
      requires Valid()
      modifies this
      ensures Valid()
      ensures note.id == old(noteSeq) + 1 && noteSeq == note.id
      ensures note.id !in old(issuedNoteIds) && issuedNoteIds == old(issuedNoteIds) + {note.id}
      ensures note.content == payload.content && note.tags == payload.tags.GetOr([])
      ensures note.createdAt == payload.createdAt.GetOr(now) && note.updatedAt == note.createdAt
      ensures notes == old(notes)[note.id := RowOf(note)]
      ensures relations == old(relations) && relationSeq == old(relationSeq)
      ensures issuedRelationIds == old(issuedRelationIds)
      ensures GetNote(note.id) == Ok(Some(note))
    {
      var createdAt := payload.createdAt.GetOr(now);
      var updatedAt := createdAt;
      var tags := payload.tags.GetOr([]);
      var id := noteSeq + 1;
      notes := notes[id := NoteRow(payload.content, Some(tags), createdAt, updatedAt)];
      noteSeq := id;
      issuedNoteIds := issuedNoteIds + {id};
      note := Note(id, payload.content, tags, createdAt, updatedAt);
    }

    /** The ids of the rows get_notes_db's WHERE clause keeps. */
    function Matching(tag: Option<string>, after: Option<int>, before: Option<int>): (ids: set<int>)
      reads this
      ensures forall id :: id in ids <==> id in notes && InWindow(notes[id], tag, after, before)
    {
      set id | id in notes && InWindow(notes[id], tag, after, before)
    }

    /**
     * get_notes_db: the notes in the window, newest first, at most `limit`
     * of them.  `selected` is the rows the database returns (ties at the cut
     * in any order); the call fails exactly when one of those is unreadable,
     * so an unreadable note beyond the limit does no harm.
     */
    method GetNotes(limit: Option<int>, tag: Option<string>, after: Option<int>, before: Option<int>)
      returns (r: Result<seq<Note>, DbError>, ghost selected: seq<int>)
      ensures QueryOrder.IsTop(selected, Matching(tag, after, before), CreatedKey(notes), true, QueryOrder.LimitOf(limit))
      ensures r.Err? <==> exists i :: 0 <= i < |selected| && notes[selected[i]].tags.None?
      ensures r.Err? ==> r.error == InvalidTagJson
      ensures r.Ok? ==> |r.value| == |selected|
      ensures r.Ok? ==> forall i :: 0 <= i < |selected| ==>
                r.value[i].id == selected[i] && RowOf(r.value[i]) == notes[selected[i]]
      ensures r.Ok? ==> forall i, j :: 0 <= i < j < |r.value| ==>
                r.value[i].id != r.value[j].id && r.value[i].createdAt >= r.value[j].createdAt
      ensures r.Ok? ==> |r.value| == QueryOrder.Capped(|Matching(tag, after, before)|, QueryOrder.LimitOf(limit))
      ensures QueryOrder.LimitOf(limit).None? ==>
                (r.Err? <==> exists id :: id in Matching(tag, after, before) && notes[id].tags.None?)
      ensures QueryOrder.LimitOf(limit) == Some(0) ==> r == Ok([])
    {
      var query, params := QueryText.BuildNotesQuery(limit, tag, after, before);
      var finalQuery := QueryText.NumberPlaceholders(query);
      // The database runs finalQuery with params bound in order; the selection below is its meaning.
      var pool := Matching(tag, after, before);
      var ids := QueryOrder.SelectTop(pool, CreatedKey(notes), true, QueryOrder.LimitOf(limit));
      selected := ids;
      r := ReadRows(ids);
      if r.Ok? {
        FetchedInOrder(notes, ids, r.value);
      }
      if QueryOrder.LimitOf(limit).None? {
        UnreadableCovered(notes, ids, pool);
      }
    }

    /**
     * The rows of a statement read one by one through map_row_to_note, the
     * first row that fails ending the read with its error.
     */
    method ReadRows(ids: seq<int>) returns (r: Result<seq<Note>, DbError>)
      requires forall k :: 0 <= k < |ids| ==> ids[k] in notes
      ensures r.Err? <==> exists i :: 0 <= i < |ids| && notes[ids[i]].tags.None?
      ensures r.Err? ==> r.error == InvalidTagJson
      ensures r.Ok? ==> |r.value| == |ids|
      ensures r.Ok? ==> forall i :: 0 <= i < |ids| ==> r.value[i].id == ids[i] && RowOf(r.value[i]) == notes[ids[i]]
    {
      var found: seq<Note> := [];
      for i := 0 to |ids|
        invariant |found| == i
        invariant forall k :: 0 <= k < i ==>
                    found[k].id == ids[k] && RowOf(found[k]) == notes[ids[k]] && notes[ids[k]].tags.Some?
      {
        var note := MapRowToNote(ids[i], notes[ids[i]]);
        if note.Err? {
          return Err(note.error);
        }
        found := found + [note.value];
      }
      return Ok(found);
    }

    /** update_note_db: replaces content and tags of an existing note and stamps it with `now`. */
    method UpdateNote(id: int, payload: UpdateNotePayload, now: int) returns (r: Result<Option<Note>, DbError>)
      requires Valid()
      modifies this
      ensures Valid()
      ensures id !in old(notes) ==> r == Ok(None) && notes == old(notes)
      ensures id in old(notes) ==>
                && notes == old(notes)[id := NoteRow(payload.content, Some(payload.tags.GetOr([])), old(notes)[id].createdAt, now)]
                && r == Ok(Some(Note(id, payload.content, payload.tags.GetOr([]), old(notes)[id].createdAt, now)))
      ensures relations == old(relations) && noteSeq == old(noteSeq) && relationSeq == old(relationSeq)
      ensures issuedNoteIds == old(issuedNoteIds) && issuedRelationIds == old(issuedRelationIds)
    {
      var updatedAt := now;
      var tags := payload.tags.GetOr([]);
      if id !in notes {
        return Ok(None);
      }
      notes := notes[id := NoteRow(payload.content, Some(tags), notes[id].createdAt, updatedAt)];
      r := GetNote(id);
    }

    /** delete_note_db: removes the note and, by cascade, every relation naming it. */
    method DeleteNote(id: int) returns (deleted: bool)
      requires Valid()
      modifies this
      ensures Valid()
      ensures deleted == (id in old(notes))
      ensures notes == old(notes) - {id}
      ensures relations == map rid | rid in old(relations) &&
                old(relations)[rid].sourceNoteId != id && old(relations)[rid].targetNoteId != id :: old(relations)[rid]
      ensures noteSeq == old(noteSeq) && relationSeq == old(relationSeq)
      ensures issuedNoteIds == old(issuedNoteIds) && issuedRelationIds == old(issuedRelationIds)
      ensures GetNote(id) == Ok(None)
    {
      deleted := id in notes;
      notes := notes - {id};
      relations := map rid | rid in relations &&
                     relations[rid].sourceNoteId != id && relations[rid].targetNoteId != id :: relations[rid];
    }

    /** get_all_tags_db: every tag of the readable rows once; unreadable rows are skipped. */
    method GetAllTags() returns (tags: seq<string>)
      ensures QueryOrder.Distinct(tags)
      ensures forall t :: t in tags <==> exists id :: CarriesReadable(notes, id, t)
    {
      var tagSet: set<string> := {};
      var rest := notes.Keys;
      while rest != {}
        invariant rest <= notes.Keys
        invariant forall t :: t in tagSet <==> exists id :: id !in rest && CarriesReadable(notes, id, t)
        decreases |rest|
      {
        var id := PickOne(rest);
        match notes[id].tags {
          case Some(ts) =>
            for j := 0 to |ts|
              invariant forall t :: t in tagSet <==>
                (exists id' :: id' !in rest && CarriesReadable(notes, id', t)) || t in ts[..j]
            {
              tagSet := tagSet + {ts[j]};
            }
            assert ts[..|ts|] == ts;
          case None =>
            // the row is reported and skipped
        }
        rest := rest - {id};
      }
      tags := QueryOrder.SetToSeq(tagSet);
    }

    /**
     * get_detailed_tags_db: one entry per tag of the readable rows with its
     * number of occurrences and the latest update time of the notes carrying
     * it, most frequent first.
     */
    method GetDetailedTags() returns (r: seq<DetailedTag>)
      ensures IsTagRanking(r, TagRowsOf(notes))
    {
      r := RankTags(TagRowsOf(notes));
    }

    /** The relations get_relations_for_note_db selects. */
    function RelationsTo(noteId: int, relationType: Option<NoteRelationType>): (rids: set<int>)
      reads this
      ensures forall rid :: rid in rids <==>
                rid in relations && relations[rid].targetNoteId == noteId && TypeMatches(relationType, relations[rid].relationType)
    {
      set rid | rid in relations && relations[rid].targetNoteId == noteId && TypeMatches(relationType, relations[rid].relationType)
    }

    /** get_relations_for_note_db: the edges pointing at the note, optionally of one type, oldest first. */
    method GetRelationsForNote(noteId: int, relationType: Option<NoteRelationType>) returns (r: seq<NoteRelation>)
      ensures forall i :: 0 <= i < |r| ==>
                r[i].id in RelationsTo(noteId, relationType) && r[i] == MapRowToRelation(r[i].id, relations[r[i].id])
      ensures forall rid :: rid in RelationsTo(noteId, relationType) ==> exists i :: 0 <= i < |r| && r[i].id == rid
      ensures forall i, j :: 0 <= i < j < |r| ==> r[i].id != r[j].id && r[i].createdAt <= r[j].createdAt
    {
      var pool := RelationsTo(noteId, relationType);
      var rs := relations;
      var key := (rid: int) => if rid in rs then rs[rid].createdAt else 0;
      var rids := QueryOrder.SelectTop(pool, key, false, None);
      r := [];
      for i := 0 to |rids|
        invariant |r| == i
        invariant forall k :: 0 <= k < i ==> r[k] == MapRowToRelation(rids[k], relations[rids[k]])
      {
        r := r + [MapRowToRelation(rids[i], relations[rids[i]])];
      }
      assert forall k :: 0 <= k < |rids| ==> r[k].id == rids[k] && r[k].createdAt == key(rids[k]);
      forall rid | rid in pool
        ensures exists i :: 0 <= i < |r| && r[i].id == rid
      {
        var i :| 0 <= i < |rids| && rids[i] == rid;
        assert r[i].id == rid;
      }
    }

    /** The Comment edges get_comments_for_note_db joins with their source notes. */
    function CommentEdgesTo(noteId: int): (rids: set<int>)
      reads this
      ensures forall rid :: rid in rids <==>
                && rid in relations && relations[rid].targetNoteId == noteId
                && relations[rid].relationType == "Comment" && relations[rid].sourceNoteId in notes
    {
      set rid | rid in relations && relations[rid].targetNoteId == noteId &&
                relations[rid].relationType == "Comment" && relations[rid].sourceNoteId in notes
    }

    /**
     * get_comments_for_note_db: each Comment edge to the note with the note
     * it comes from, oldest edge first; fails when such a note has unreadable tags.
     */
    method GetCommentsForNote(noteId: int) returns (r: Result<seq<(Note, NoteRelation)>, DbError>)
      ensures r.Ok? ==> forall i :: 0 <= i < |r.value| ==>
                var (n, e) := r.value[i];
                && e.id in CommentEdgesTo(noteId)
                && e == NoteRelation(e.id, relations[e.id].sourceNoteId, noteId, Comment, relations[e.id].createdAt)
                && n.id == e.sourceNoteId && RowOf(n) == notes[n.id]
      ensures r.Ok? ==> forall rid :: rid in CommentEdgesTo(noteId) ==>
                exists i :: 0 <= i < |r.value| && r.value[i].1.id == rid
      ensures r.Ok? ==> forall i, j :: 0 <= i < j < |r.value| ==>
                r.value[i].1.id != r.value[j].1.id && r.value[i].1.createdAt <= r.value[j].1.createdAt
      ensures r.Err? <==> exists rid :: rid in CommentEdgesTo(noteId) && notes[relations[rid].sourceNoteId].tags.None?
      ensures r.Err? ==> r.error == InvalidTagJson
    {
      var pool := CommentEdgesTo(noteId);
      var rs := relations;
      var key := (rid: int) => if rid in rs then rs[rid].createdAt else 0;
      var rids := QueryOrder.SelectTop(pool, key, false, None);
      var pairs: seq<(Note, NoteRelation)> := [];
      for i := 0 to |rids|
        invariant |pairs| == i
        invariant forall k :: 0 <= k < i ==>
                    var (n, e) := pairs[k];
                    && e == NoteRelation(rids[k], relations[rids[k]].sourceNoteId, noteId, Comment, relations[rids[k]].createdAt)
                    && n.id == e.sourceNoteId && RowOf(n) == notes[n.id]
      {
        var edge := relations[rids[i]];
        var note := MapRowToNote(edge.sourceNoteId, notes[edge.sourceNoteId]);
        if note.Err? {
          ghost var rid := rids[i];
          assert rid in CommentEdgesTo(noteId) && notes[relations[rid].sourceNoteId].tags.None?;
          return Err(note.error);
        }
        pairs := pairs + [(note.value, NoteRelation(rids[i], edge.sourceNoteId, edge.targetNoteId, Comment, edge.createdAt))];
      }
      assert forall k :: 0 <= k < |rids| ==> pairs[k].1.id == rids[k] && pairs[k].1.createdAt == key(rids[k]);
      forall rid | rid in pool
        ensures exists i :: 0 <= i < |pairs| && pairs[i].1.id == rid
      {
        var i :| 0 <= i < |rids| && rids[i] == rid;
        assert pairs[i].1.id == rid;
      }
      return Ok(pairs);
    }

    /** create_note_relation_db: adds a typed edge between two existing notes. */
    method CreateNoteRelation(sourceId: int, targetId: int, payload: CreateNoteRelationPayload, now: int)
      returns (r: Result<NoteRelation, DbError>)
      requires Valid()
      modifies this
      ensures Valid()
      ensures r.Err? <==> sourceId !in old(notes) || targetId !in old(notes)
      ensures r.Err? ==> r.error == QueryReturnedNoRows && relations == old(relations) && relationSeq == old(relationSeq)
      ensures r.Ok? ==> r.value == NoteRelation(old(relationSeq) + 1, sourceId, targetId, payload.relationType, now)
      ensures r.Ok? ==> relationSeq == r.value.id && r.value.id !in old(issuedRelationIds)
      ensures r.Ok? ==> relations == old(relations)[r.value.id := RelationRow(sourceId, targetId, RelationTypeName(payload.relationType), now)]
      ensures r.Ok? ==> MapRowToRelation(r.value.id, relations[r.value.id]) == r.value
      ensures notes == old(notes) && noteSeq == old(noteSeq) && issuedNoteIds == old(issuedNoteIds)
    {
      var sourceExists := sourceId in notes;
      var targetExists := targetId in notes;
      if !sourceExists || !targetExists {
        return Err(QueryReturnedNoRows);
      }
      var typeName := RelationTypeName(payload.relationType);
      var createdAt := now;
      var id := relationSeq + 1;
      relations := relations[id := RelationRow(sourceId, targetId, typeName, createdAt)];
      relationSeq := id;
      issuedRelationIds := issuedRelationIds + {id};
      r := Ok(NoteRelation(id, sourceId, targetId, payload.relationType, createdAt));
    }

    /** add_comment_db: creates a note and its Comment edge to the target in one step. */
    method AddComment(targetId: int, payload: CreateCommentPayload, now: int)
      returns (r: Result<(Note, NoteRelation), DbError>)
      requires Valid()
      modifies this
      ensures Valid()
      ensures targetId !in old(notes) ==> r == Err(QueryReturnedNoRows)
      ensures r.Err? ==> && notes == old(notes) && relations == old(relations)
                         && noteSeq == old(noteSeq) && relationSeq == old(relationSeq)
      ensures targetId in old(notes) ==> r.Ok?
      ensures r.Ok? ==>
                var (note, edge) := r.value;
                && note == Note(old(noteSeq) + 1, payload.content, payload.tags.GetOr([]), now, now)
                && edge == NoteRelation(old(relationSeq) + 1, note.id, targetId, Comment, now)
                && notes == old(notes)[note.id := RowOf(note)]
                && relations == old(relations)[edge.id := RelationRow(note.id, targetId, "Comment", now)]
                && noteSeq == note.id && relationSeq == edge.id
                && edge.id in CommentEdgesTo(targetId)
    {
      var targetExists := targetId in notes;
      if !targetExists {
        return Err(QueryReturnedNoRows);
      }
      var createdAt := now;
      var updatedAt := createdAt;
      var tags := payload.tags.GetOr([]);
      var commentNoteId := noteSeq + 1;
      notes := notes[commentNoteId := NoteRow(payload.content, Some(tags), createdAt, updatedAt)];
      noteSeq := commentNoteId;
      issuedNoteIds := issuedNoteIds + {commentNoteId};
      var relationId := relationSeq + 1;
      relations := relations[relationId := RelationRow(commentNoteId, targetId, "Comment", createdAt)];
      relationSeq := relationId;
      issuedRelationIds := issuedRelationIds + {relationId};
      r := Ok((Note(commentNoteId, payload.content, tags, createdAt, updatedAt),
               NoteRelation(relationId, commentNoteId, targetId, Comment, createdAt)));
    }
  }
  /** Deleting a readable note takes its own occurrences out of every tag count. */
  lemma DeleteNoteTagCount(notes: map<int, NoteRow>, id: int, t: string)
    requires id in notes && notes[id].tags.Some?
    ensures TagIndex.TagCount(TagRowsOf(notes - {id}), t)
            == TagIndex.TagCount(TagRowsOf(notes), t) - TagIndex.Occurrences(notes[id].tags.value, t)
  {
    assert TagRowsOf(notes - {id}) == TagRowsOf(notes) - {id};
    TagIndex.TagCountRemove(TagRowsOf(notes), id, t);
  }

  /** Storing a new note adds its own occurrences to every tag count. */
  lemma CreateNoteTagCount(notes: map<int, NoteRow>, id: int, row: NoteRow, t: string)
    requires id !in notes && row.tags.Some?
    ensures TagIndex.TagCount(TagRowsOf(notes[id := row]), t)
            == TagIndex.TagCount(TagRowsOf(notes), t) + TagIndex.Occurrences(row.tags.value, t)
  {
    assert TagRowsOf(notes[id := row]) == TagRowsOf(notes)[id := TagIndex.TagRow(row.tags.value, row.updatedAt)];
    TagIndex.TagCountAdd(TagRowsOf(notes), id, TagIndex.TagRow(row.tags.value, row.updatedAt), t);
  }

  /** Deleting twice: the second call finds nothing to delete. */
  method DeleteTwice(store: NoteStore, id: int) returns (first: bool, second: bool)
    requires store.Valid()
    modifies store
    ensures first == (id in old(store.notes)) && !second
    ensures store.GetNote(id) == Ok(None)
  {
    first := store.DeleteNote(id);
    second := store.DeleteNote(id);
  }

  /** Two notes linked one to the other: the target lists exactly that one edge. */
  method LinkScenario(now: int) returns (rels: seq<NoteRelation>)
    ensures rels == [NoteRelation(1, 1, 2, Link, now)]
  {
    var store := new NoteStore.Open(map[], map[], 0, 0);
    var a := store.CreateNote(CreateNotePayload("A", None, None), now);
    var b := store.CreateNote(CreateNotePayload("B", None, None), now);
    var link := store.CreateNoteRelation(a.id, b.id, CreateNoteRelationPayload(Link), now);
    rels := store.GetRelationsForNote(b.id, None);
    assert store.RelationsTo(2, None) == {1};
    // every listed entry is edge 1 and entries are distinct, so there is one
    assert 1 in store.RelationsTo(2, None);
    assert rels[0] == rels[|rels| - 1];
    assert |rels| == 1;
  }

  /** A comment added to a note is listed, with its edge, as the note's only comment. */
  method CommentScenario(now: int) returns (comments: Result<seq<(Note, NoteRelation)>, DbError>)
    ensures comments == Ok([(Note(2, "reply", [], now, now), NoteRelation(1, 2, 1, Comment, now))])
  {
    var store := new NoteStore.Open(map[], map[], 0, 0);
    var target := store.CreateNote(CreateNotePayload("note", None, None), now);
    var added := store.AddComment(target.id, CreateCommentPayload("reply", None), now);
    comments := store.GetCommentsForNote(target.id);
    assert store.CommentEdgesTo(1) == {1};
    assert store.notes[2].tags == Some([]);
    assert comments.Ok?;
    // every listed entry is edge 1 and entries are distinct, so there is one
    assert 1 in store.CommentEdgesTo(1);
    assert comments.value[0] == comments.value[|comments.value| - 1];
    assert |comments.value| == 1;
    var only := comments.value[0];
    assert only.1 == NoteRelation(1, 2, 1, Comment, now);
    assert RowOf(only.0) == NoteRow("reply", Some([]), now, now);
    assert only.0 == Note(2, "reply", [], now, now);
    assert comments.value == [only];
  }
}
