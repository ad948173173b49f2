/**
 * The records the Rust note store exchanges with its callers (src/models.rs),
 * with timestamps as integer clock readings and ids as unbounded integers.
 * The relation records are not declared in src/models.rs; their shape follows
 * their construction in src/db.rs.
 */
module NoteModels {
  import opened Wrappers

  /** A note as returned to callers: its tags already parsed. */
  datatype Note = Note(id: int, content: string, tags: seq<string>, createdAt: int, updatedAt: int)

  /** Body of a create request: tags and creation time are optional. */
  datatype CreateNotePayload = CreateNotePayload(content: string, tags: Option<seq<string>>, createdAt: Option<int>)

  /** Body of an update request: content is always given, tags may be left out. */
  datatype UpdateNotePayload = UpdateNotePayload(content: string, tags: Option<seq<string>>)

  /** One entry of the detailed tag list. */
  datatype DetailedTag = DetailedTag(name: string, count: int, lastModified: Option<int>)

  /** The closed set of edge kinds between notes. */
  datatype NoteRelationType = Comment | Reference | Link

  /** A directed, typed edge from a source note to a target note. */
  datatype NoteRelation = NoteRelation(
    id: int, sourceNoteId: int, targetNoteId: int, relationType: NoteRelationType, createdAt: int)

  /** Body of a create-relation request. */
  datatype CreateNoteRelationPayload = CreateNoteRelationPayload(relationType: NoteRelationType)

  /** Body of an add-comment request; the tag list is read by src/db.rs, so it is optional here. */
  datatype CreateCommentPayload = CreateCommentPayload(content: string, tags: Option<seq<string>>)

  /** The errors the store reports: a missing row, or a stored tag list that does not parse. */
  datatype DbError = QueryReturnedNoRows | InvalidTagJson
}
