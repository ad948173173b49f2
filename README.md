# Note store of aw-inbox, modelled in Dafny

aw-inbox keeps short notes. Each note has content, an ordered list of tags and two timestamps. Notes can be linked by typed edges (Comment, Reference, Link). The tag lists embedded in the notes are aggregated into a tag cloud. This project models the store three times, once per implementation in the repository:

- `note_db.dfy`, module `NoteDb`: the Rust store, `src/db.rs`. Class `NoteStore` holds:
  - the `notes` and `note_relations` tables, as maps from id to row;
  - their AUTOINCREMENT counters;
  - the ids ever issued, as ghost state.

  Its invariant `Valid` says that ids never pass their counter and that every relation's endpoints exist. Foreign keys are enforced with ON DELETE CASCADE.
- `aw_inbox.dfy`, module `AwInbox`: the ActivityWatch inbox, `aw_inbox/inbox.py`. Class `Inbox` has a notes table and a separate comments table. The connection never enables foreign keys, so comments survive their note.
- `simple_inbox.dfy`, module `SimpleInbox`: the standalone inbox, `inbox.py`. It has:
  - partial-patch updates;
  - a tags column that is NULL for no tags;
  - inclusive bounds on both ends of the listing window.

Shared modules:

- `models.dfy`, module `NoteModels`: the records of `src/models.rs`, plus the relation records that `src/db.rs` builds.
- `query_order.dfy`, module `QueryOrder`: what SQLite does with `ORDER BY … LIMIT n`. `SelectTop` returns distinct rows of the pool in key order, as many as the limit allows; rows with equal keys may come in any order. No row left out ranks before a row taken. `SetToSeq` turns a hash set into a list.
- `query_text.dfy`, module `QueryText`: the query text that `get_notes_db` assembles, and the loop that rewrites its k-th `?` as `?k`.
- `tag_like.dfy`, module `TagLike`: the Rust tag filter `tags LIKE '%"t"%'`. Stored tag lists are written as JSON text (`["a","b"]`), and the quoted tag is searched for as a substring of that text.
- `tag_index.dfy`, module `TagIndex`: the tag aggregation that SQLite's `json_each` with `GROUP BY` computes:
  - the distinct tags;
  - per tag, the number of occurrences;
  - per tag, the latest update time of the notes carrying it.
- `wrappers.dfy`, module `Wrappers`: `Option`, `Result` and a deterministic choice from a set.

Modelling conventions:

- Every store method is one atomic step. The current time is an integer parameter (`now`); a second reading of the clock is a second parameter.
- A Rust tag list that does not parse is stored as `None` in the tag column. Reading such a note fails with `InvalidTagJson`, and the tag queries skip the row.

Three places where the model keeps what the code does, though the names or comments suggest otherwise:

- The tag count of `get_detailed_tags_db` is `COUNT(*)` over `json_each`. That is the number of occurrences of the tag, not the number of notes carrying it; a note listing a tag twice counts twice.
- The Rust tag filter is a substring test on the stored JSON text, not an exact element test. `TagLike.TagMatchesExact` proves that it is exact for tags containing no `"` and no `,`. `TagLike.CommaMatchesBetweenTags` shows a tag for which it is not exact.
- An unknown `relation_type` text reads back as Reference (src/db.rs:322). A type filter compares the stored text, so such a row is not returned by a filter for Reference.

## Model

| member | source | states |
|---|---|---|
| NoteDb.MapRowToNote | src/db.rs:95-109 | reading a note row fails exactly when its tag text does not parse; otherwise the note carries the row's id, content, tags and both times unchanged |
| NoteDb.RelationTypeName | src/db.rs:435-439 | the text stored for each relation type reads back as that same type |
| NoteDb.ParseRelationType | src/db.rs:316-324 | a relation reads as Comment exactly for the text "Comment" and as Link exactly for "Link"; every other text reads as Reference |
| NoteDb.MapRowToRelation | src/db.rs:316-332 | a relation row keeps its id, endpoints and creation time, and its type is the parsed type text |
| NoteDb.NoteStore.GetNote | src/db.rs:145-156 | answers Ok(None) exactly when no note has the id, fails exactly when the note's tags are unreadable, and otherwise returns the stored note with that id |
| NoteDb.NoteStore.CreateNote | src/db.rs:111-143 | the new id is one past the counter and was never issued before; content is stored, tags default to [] and the creation time to now; the update time equals the creation time; no other row changes; GetNote of the id then returns this note |
| NoteDb.NoteStore.GetNotes | src/db.rs:158-210 | the ghost result `selected` is the database's answer: stored notes that pass the tag filter with after <= created_at < before, each at most once, newest first, as many as the limit allows (a negative limit lets all through), with no matching note left out newer than one selected; fails with InvalidTagJson exactly when a selected note is unreadable, so an unreadable note cut off by the LIMIT causes no failure and LIMIT 0 returns Ok([]); without a limit, fails exactly when some matching note is unreadable; otherwise returns the selected notes in order with their stored fields |
| NoteDb.NoteStore.ReadRows | src/db.rs:202-209 | reading the selected rows through map_row_to_note fails with InvalidTagJson exactly when one of them is unreadable, and otherwise returns one note per row, in order, with that row's id and fields |
| NoteDb.FetchedInOrder | src/db.rs:181-209 | notes read back from distinct ids in non-increasing creation time are distinct and in non-increasing creation time |
| NoteDb.UnreadableCovered | src/db.rs:183-207 | when every matching id is selected, some selected note is unreadable exactly when some matching note is |
| NoteDb.NoteStore.UpdateNote | src/db.rs:212-240 | for an absent id answers Ok(None) and changes nothing; otherwise replaces content and tags (missing tags become []) and sets the update time to now, keeping id, creation time, every other note and every relation, and returns the updated note |
| NoteDb.NoteStore.DeleteNote | src/db.rs:242-248 | answers true exactly when the note existed; afterwards the note is absent and so is every relation naming it as source or target; counters are untouched |
| NoteDb.DeleteTwice | src/db.rs:242-248 | deleting the same id twice: the second call answers false and the note stays absent |
| NoteDb.NoteStore.GetAllTags | src/db.rs:252-278 | lists each tag of the readable notes exactly once and nothing else; unreadable rows are skipped without failing |
| NoteDb.RankTags | src/db.rs:281-312 | one entry per distinct tag of the rows; the count is the tag's number of occurrences, the last-modified time the latest update time of the notes carrying it; entries in non-increasing count |
| NoteDb.RankingOfStats | src/db.rs:281-312 | the aggregated statistics listed in non-increasing count form a ranking of the tags of the readable rows |
| NoteDb.NoteStore.GetDetailedTags | src/db.rs:281-312 | the ranking of RankTags over the store's readable notes |
| NoteDb.DeleteNoteTagCount | src/db.rs:281-312 | deleting a readable note lowers each tag's count by exactly that note's occurrences of the tag |
| NoteDb.CreateNoteTagCount | src/db.rs:281-312 | storing a readable note raises each tag's count by exactly that note's occurrences of the tag |
| NoteDb.NoteStore.GetRelationsForNote | src/db.rs:335-372 | returns exactly the relations targeting the note whose stored type text matches the requested type (all types when none is asked), each once, in non-decreasing creation time |
| NoteDb.NoteStore.GetCommentsForNote | src/db.rs:375-414 | returns exactly the Comment relations targeting the note whose source note exists, each once and paired with its source note, in non-decreasing creation time; fails exactly when one of those source notes is unreadable |
| NoteDb.NoteStore.CreateNoteRelation | src/db.rs:417-457 | fails with QueryReturnedNoRows and inserts nothing exactly when the source or the target is absent; otherwise stores one relation with the next id and time now, whose stored type text reads back as the requested type; notes are untouched |
| NoteDb.NoteStore.AddComment | src/db.rs:460-516 | fails with QueryReturnedNoRows and changes nothing exactly when the target is absent; otherwise adds exactly one note (tags default to []) and one Comment relation from it to the target, both created at now, and that relation is among the target's comment edges |
| NoteDb.LinkScenario | src/db.rs:417-457 | after linking note 1 to note 2, note 2 lists exactly that one Link relation |
| NoteDb.CommentScenario | src/db.rs:460-516 | after a comment is added to a note, the note's comments are exactly that comment note paired with its Comment relation |
| QueryText.BuildNotesQuery | src/db.rs:165-185 | the query is the SELECT text, then ` AND tags LIKE ?`, ` AND created_at >= ?`, ` AND created_at < ?` for each filter given, in that order, then ` ORDER BY created_at DESC` and, when a limit is given, ` LIMIT ` and the limit's decimal text; one parameter per given filter: `params[0]` the pattern `%"t"%`, `params[c]` the lower bound and `params[c + a]` the upper bound, where c and a count the tag and lower-bound filters given; after numbering, those clauses carry `?1`, `?(1+c)` and `?(1+c+a)`, so each `?k` is bound to the k-th parameter |
| QueryText.AppendFilters | src/db.rs:168-179 | appends one clause per given filter in the order tag, lower bound, upper bound, and collects the matching parameters in the same order |
| QueryText.NotesQueryCount | src/db.rs:165-185 | the assembled query has exactly one placeholder per given filter; the SELECT, ORDER BY and LIMIT texts add none |
| QueryText.NotesQueryNumbering | src/db.rs:165-196 | numbering the assembled query from 1 turns the tag, lower-bound and upper-bound clauses present into `?1`, `?(1+c)`, `?(1+c+a)` and leaves every other character in place |
| QueryText.QueryNumbered | src/db.rs:165-196 | for any fixed head and tail without placeholders and three optional one-placeholder clauses, numbering gives the clauses present consecutive numbers from 1 |
| QueryText.NumberPlaceholders | src/db.rs:187-196 | the rewritten query is the numbering of the whole query starting at 1 |
| QueryText.NumberedNext | src/db.rs:187-196 | the placeholder after a prefix with n placeholders becomes `?` followed by the number k+n, and the text around it keeps its characters in order |
| QueryText.NumberedPlain | src/db.rs:187-196 | text without placeholders is left unchanged |
| QueryText.NumberedConcat | src/db.rs:187-196 | numbering a concatenation numbers the second part from where the first part stopped |
| TagLike.TagMatchesComplete | src/db.rs:168-170 | a note whose tags contain t passes the filter for t |
| TagLike.TagMatchesExact | src/db.rs:168-170 | for a tag with no quote or comma, over tags with no quote, the filter passes exactly the notes carrying the tag |
| TagLike.NoMatchOnLongerTag | src/db.rs:168-170 | the filter for "x" rejects a note tagged only "xyz" |
| TagLike.CommaMatchesBetweenTags | src/db.rs:168-170 | the filter for "," passes the note tagged ["a", "b"], which does not carry "," |
| QueryOrder.SelectTop | src/db.rs:181-185 | the result is distinct rows of the pool in key order, as many as the limit allows, with no row left out ranking before a row taken; without a limit, exactly the pool |
| QueryOrder.KeysByValueDescending | src/db.rs:293-294 | each key of the map once, in non-increasing value |
| QueryOrder.SetToSeq | src/db.rs:277 | each element of the set exactly once and nothing else |
| QueryOrder.TopIncludes | aw_inbox/inbox.py:196-199 | a row with at most n rows of the pool ranking with or before it is among the first n |
| QueryOrder.TopExcludes | aw_inbox/inbox.py:196-199 | a row with at least n rows of the pool ranking strictly before it is not among the first n |
| TagIndex.CollectTags | aw_inbox/inbox.py:281-285 | the distinct tags carried by any row |
| TagIndex.CountTag | src/db.rs:286 | the number of occurrences of the tag summed over all rows |
| TagIndex.LatestOf | src/db.rs:287 | for a carried tag, an update time of a row carrying it that no other such row exceeds |
| TagIndex.Aggregate | src/db.rs:283-292 | statistics for exactly the carried tags: each tag's occurrence count and latest update time |
| TagIndex.TagCountPositive | src/db.rs:283-292 | a tag's count is positive exactly when some row carries it |
| TagIndex.TagCountRemove | src/db.rs:283-292 | removing a row subtracts exactly its own occurrences from each tag's count |
| TagIndex.TagCountAdd | src/db.rs:283-292 | adding a row adds exactly its own occurrences to each tag's count |
| TagIndex.UntaggedRowContributesNothing | src/db.rs:283-292 | a row with no tags changes neither the set of tags, nor any count, nor any latest update time |
| TagIndex.TwoNoteTagCounts | src/db.rs:283-292 | with notes tagged ["x"] and ["x", "y"], "x" counts 2 and "y" 1; without the first note both count 1 |
| AwInbox.RowToEvent | aw_inbox/inbox.py:124-136 | the event carries the row's id, content, tags and times, and its timestamp is the creation time |
| AwInbox.BuildConditions | aw_inbox/inbox.py:98-111 | the conditions hold for a note exactly when it has a tag element equal to the tag (an empty tag filters nothing), was created at or after the lower bound and before the upper bound; one condition per filter applied |
| AwInbox.Inbox.GetNotes | aw_inbox/inbox.py:86-122 | the events are distinct notes in the window, newest first, as many as the limit allows, with no note left out newer than one returned; each is its row converted to an event |
| AwInbox.Inbox.CreateNote | aw_inbox/inbox.py:138-169 | the new id exceeds every existing one; content is stored, tags are the given list or []; creation and update time are both the given time or now; comments untouched |
| AwInbox.Inbox.UpdateNote | aw_inbox/inbox.py:171-199 | for an absent id answers None and changes nothing; otherwise replaces content and tags (None becomes []) and sets the update time to now, keeping the creation time; answers the updated note when at most 1000 notes were created at or after it, and None when at least 1000 were created after it |
| AwInbox.Inbox.GetCommentsForNote | aw_inbox/inbox.py:202-215 | exactly the comments whose note id is the note, each once, in non-decreasing creation time |
| AwInbox.Inbox.AddCommentToNote | aw_inbox/inbox.py:218-228 | adds exactly one comment with the next id, the note id, the content and time now, whether or not the note exists; notes untouched |
| AwInbox.Inbox.GetAllTags | aw_inbox/inbox.py:277-287 | each tag found in any note exactly once, and nothing else |
| AwInbox.RankByLatest | aw_inbox/inbox.py:289-301 | one entry per distinct tag with its occurrence count and latest update time, in non-increasing latest update time |
| AwInbox.RankingOfStats | aw_inbox/inbox.py:289-301 | the aggregated statistics listed in non-increasing latest update time form a ranking of the tags of the rows |
| AwInbox.Inbox.GetDetailedTags | aw_inbox/inbox.py:289-301 | the ranking of RankByLatest over the stored notes |
| AwInbox.Inbox.DeleteNote | aw_inbox/inbox.py:303-318 | answers false and changes nothing for an absent id; otherwise removes exactly that note and answers true; comments are untouched |
| AwInbox.CommentsOutliveNote | aw_inbox/inbox.py:303-318 | after a note with one comment is deleted, that comment is still listed for the note's id |
| SimpleInbox.StoredTags | inbox.py:34 | the column is NULL exactly when no tags or an empty list are given |
| SimpleInbox.ReadTags | inbox.py:49 | a non-NULL column reads as its list |
| SimpleInbox.TagsRoundTrip | inbox.py:30-50 | a tag list written at creation reads back as itself, and no tags as [] |
| SimpleInbox.BuildConditions | inbox.py:80-95 | the conditions hold for a note exactly when its timestamp lies within both bounds, both inclusive; one condition per bound given |
| SimpleInbox.BuildUpdates | inbox.py:55-66 | the SET clause always ends by setting the update time, and applied to any row it changes the content only when new content is given and the tags only when new tags are given |
| SimpleInbox.Inbox.GetNoteById | inbox.py:42-50 | None exactly when no row has the id; otherwise the row with NULL tags read as [] |
| SimpleInbox.Inbox.CreateNote | inbox.py:30-40 | the new id exceeds every existing one; the timestamp is the given time or the first clock reading, the update time the later reading; NULL is stored for no or empty tags; returns the note as read back by id |
| SimpleInbox.Inbox.UpdateNote | inbox.py:52-74 | for an absent id answers None and changes nothing; otherwise patches only the fields given and always sets the update time; returns the note as read back by id |
| SimpleInbox.Inbox.GetNotes | inbox.py:76-103 | distinct notes with after <= timestamp <= before, newest first, as many as the limit allows, none left out newer than one returned |
| SimpleInbox.Inbox.GetAllTags | inbox.py:105-116 | each tag of the non-NULL tag lists exactly once, and nothing else |
| SimpleInbox.Inbox.DeleteNote | inbox.py:125-131 | answers true exactly when a row was removed; afterwards the id is absent |
| SimpleInbox.EmptyTagsScenario | inbox.py:30-50 | a note created with an empty tag list stores NULL and reads back with tags [] |
| SimpleInbox.ClearTagsScenario | inbox.py:52-74 | updating only the tags to [] stores [] rather than NULL and keeps the content |

## Left out

- HTTP layers: the Rocket routes and their shared connection (src/lib.rs, src/main.rs), the Flask routes (aw_inbox/main.py, aw_inbox/inbox.py:320-398) and their validation of blank content.
- Connection setup and schema creation (src/db.rs:23-91, the `_create_tables` methods): only their effects are modelled. These are the AUTOINCREMENT counters, the foreign keys with ON DELETE CASCADE in the Rust store, and the missing enforcement in aw_inbox/inbox.py.
- Transactions, locking and concurrent callers: each operation is one atomic step. The existence checks in `create_note_relation_db` and `add_comment_db` are therefore not racy in the model.
- Timestamp formats and time zones (RFC 3339, `isoformat`, UTC conversion). Times are integers. In aw_inbox/inbox.py the window filter compares ISO text, which agrees with integer order only when all stored times share one offset.
- JSON serialisation. Tag lists are sequences, and a Rust row whose tag text is not a JSON list is `None`. Rows holding a JSON array with non-string elements, and Python tag columns holding JSON that is not a list, are not modelled.
- TagLike.TagMatches: the text is written without JSON escaping and matched case for case, without `%` and `_` wildcards inside the tag. A Rust row whose tag text does not parse never matches, although its raw text could contain the quoted tag.
- The tag filter of inbox.py's `get_notes` (inbox.py:83-85). It calls `JSON_CONTAINS`, which SQLite does not define, so `SimpleInbox.Inbox.GetNotes` has no tag parameter.
- `get_child_tags` and `search_tags` (aw_inbox/inbox.py:241-275): they read a `tags` table that nothing creates. `test_connection` only prints.
- aw_inbox/flomo.py: a stub without logic.
- The 64-bit range of ids and counts: integers are unbounded.
- Python default arguments: get_notes' default limit of 50 (aw_inbox/inbox.py:86, inbox.py:76) is not modelled; callers of the model always pass a limit.
- The order in which a hash set or `SELECT DISTINCT` yields its elements: the model fixes no order.
- The text of the Python queries: `BuildConditions` and `BuildUpdates` model the clauses they append by their meaning, one condition or assignment per clause.
