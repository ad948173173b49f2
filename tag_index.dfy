/**
 * The tag cloud the stores derive from the tag lists embedded in note rows:
 * the distinct tags, and per tag the number of occurrences and the latest
 * update time of the notes carrying it.  Rows are given as the tag list and
 * update time of each note id; a store first drops the rows whose tag data it
 * cannot read.  The methods here are what SQLite's `json_each` with `GROUP
 * BY` or `DISTINCT` computes.
 */
module TagIndex {
  import opened Wrappers

  /** The part of a note row that the tag queries read. */
  datatype TagRow = TagRow(tags: seq<string>, updatedAt: int)

  type TagRows = map<int, TagRow>

  /** The note `id` carries tag `t`. */
  ghost predicate Carries(rows: TagRows, id: int, t: string)
  {
    id in rows && t in rows[id].tags
  }

  /** The tags carried by the notes among `ids`. */
  ghost function UniverseOver(rows: TagRows, ids: set<int>): set<string>
  {
    set id, t | id in ids && id in rows && t in rows[id].tags :: t
  }

  /** Every tag carried by some note. */
  ghost function Universe(rows: TagRows): set<string>
  {
    UniverseOver(rows, rows.Keys)
  }

  /** How often `t` occurs in one tag list. */
  function Occurrences(tags: seq<string>, t: string): nat
  {
    multiset(tags)[t]
  }

  /** Occurrences of `t` in the row of `id`, none when there is no such row. */
  ghost function OccursIn(rows: TagRows, id: int, t: string): nat
  {
    if id in rows then Occurrences(rows[id].tags, t) else 0
  }

  /** Occurrences of `t` summed over the rows of `ids`. */
  ghost function CountOver(rows: TagRows, ids: set<int>, t: string): nat
    decreases ids
  {
    if ids == {} then 0
    else
      var id := Pick(ids);
      OccursIn(rows, id, t) + CountOver(rows, ids - {id}, t)
  }

  /** Occurrences of `t` across all tag lists: what `COUNT(*)` gives per tag. */
  ghost function TagCount(rows: TagRows, t: string): nat
  {
    CountOver(rows, rows.Keys, t)
  }

  /** `m` is the largest update time among the notes of `ids` that carry `t`. */
  ghost predicate IsLatestOver(rows: TagRows, ids: set<int>, t: string, m: int)
  {
    && (exists id :: id in ids && Carries(rows, id, t) && rows[id].updatedAt == m)
    && (forall id :: id in ids && Carries(rows, id, t) ==> rows[id].updatedAt <= m)
  }

  /** `m` is what `MAX(updated_at)` gives for tag `t`. */
  ghost predicate IsLatest(rows: TagRows, t: string, m: int)
  {
    IsLatestOver(rows, rows.Keys, t, m)
  }

  /** The sum does not depend on which row is taken first. */
  lemma {:induction false} CountOverPick(rows: TagRows, ids: set<int>, x: int, t: string)
    requires x in ids
    ensures CountOver(rows, ids, t) == OccursIn(rows, x, t) + CountOver(rows, ids - {x}, t)
    decreases ids
  {
    var y := Pick(ids);
    if y != x {
      CountOverPick(rows, ids - {y}, x, t);
      CountOverPick(rows, ids - {x}, y, t);
      assert ids - {y} - {x} == ids - {x} - {y};
    }
  }

  /** The sum over `ids` reads only the rows of `ids`. */
  lemma {:induction false} CountOverFrame(rows: TagRows, rows': TagRows, ids: set<int>, t: string)
    requires forall id :: id in ids ==> OccursIn(rows, id, t) == OccursIn(rows', id, t)
    ensures CountOver(rows, ids, t) == CountOver(rows', ids, t)
    decreases ids
  {
    if ids != {} {
      var x := Pick(ids);
      CountOverPick(rows, ids, x, t);
      CountOverPick(rows', ids, x, t);
      CountOverFrame(rows, rows', ids - {x}, t);
    }
  }

  /** The sum is positive exactly when one of the rows carries the tag. */
  lemma {:induction false} CountOverPositive(rows: TagRows, ids: set<int>, t: string)
    ensures CountOver(rows, ids, t) > 0 <==> exists id :: id in ids && Carries(rows, id, t)
    decreases ids
  {
    if ids != {} {
      var x := Pick(ids);
      CountOverPick(rows, ids, x, t);
      CountOverPositive(rows, ids - {x}, t);
      assert Carries(rows, x, t) <==> OccursIn(rows, x, t) > 0;
      if exists id :: id in ids && Carries(rows, id, t) {
        var id :| id in ids && Carries(rows, id, t);
        assert id == x || id in ids - {x};
      }
    }
  }

  /** A tag has a positive count exactly when some note carries it. */
  lemma TagCountPositive(rows: TagRows, t: string)
    ensures TagCount(rows, t) > 0 <==> t in Universe(rows)
  {
    CountOverPositive(rows, rows.Keys, t);
    if t in Universe(rows) {
      var id :| id in rows && t in rows[id].tags;
      assert Carries(rows, id, t);
    }
  }

  /** Removing a note takes away exactly its own occurrences of every tag. */
  lemma TagCountRemove(rows: TagRows, id: int, t: string)
    requires id in rows
    ensures TagCount(rows - {id}, t) == TagCount(rows, t) - Occurrences(rows[id].tags, t)
  {
    CountOverPick(rows, rows.Keys, id, t);
    assert (rows - {id}).Keys == rows.Keys - {id};
    CountOverFrame(rows - {id}, rows, rows.Keys - {id}, t);
  }

  /** Adding a note adds exactly its own occurrences of every tag. */
  lemma TagCountAdd(rows: TagRows, id: int, row: TagRow, t: string)
    requires id !in rows
    ensures TagCount(rows[id := row], t) == TagCount(rows, t) + Occurrences(row.tags, t)
  {
    var rows' := rows[id := row];
    CountOverPick(rows', rows'.Keys, id, t);
    assert rows'.Keys - {id} == rows.Keys;
    CountOverFrame(rows', rows, rows.Keys, t);
  }

  /** A note without tags changes neither the tag set nor any count nor any latest time. */
  lemma UntaggedRowContributesNothing(rows: TagRows, id: int, updatedAt: int, t: string, m: int)
    requires id !in rows
    ensures Universe(rows[id := TagRow([], updatedAt)]) == Universe(rows)
    ensures TagCount(rows[id := TagRow([], updatedAt)], t) == TagCount(rows, t)
    ensures IsLatest(rows[id := TagRow([], updatedAt)], t, m) <==> IsLatest(rows, t, m)
  {
    var rows' := rows[id := TagRow([], updatedAt)];
    TagCountAdd(rows, id, TagRow([], updatedAt), t);
    assert Occurrences([], t) == 0;
    forall x | x in Universe(rows')
      ensures x in Universe(rows)
    {
      var k :| k in rows' && x in rows'[k].tags;
      assert k != id;
      assert k in rows && x in rows[k].tags;
    }
    forall x | x in Universe(rows)
      ensures x in Universe(rows')
    {
      var k :| k in rows && x in rows[k].tags;
      assert k in rows' && x in rows'[k].tags;
    }
    assert forall k :: Carries(rows', k, t) <==> Carries(rows, k, t);
    if IsLatest(rows', t, m) {
      var k :| k in rows'.Keys && Carries(rows', k, t) && rows'[k].updatedAt == m;
      assert k in rows.Keys && Carries(rows, k, t) && rows[k].updatedAt == m;
    }
    if IsLatest(rows, t, m) {
      var k :| k in rows.Keys && Carries(rows, k, t) && rows[k].updatedAt == m;
      assert k in rows'.Keys && Carries(rows', k, t) && rows'[k].updatedAt == m;
    }
  }

  /**
   * Notes A tagged ["x"] and B tagged ["x", "y"]: "x" counts 2 and "y" 1;
   * once A is gone both count 1.
   */
  lemma TwoNoteTagCounts(a: TagRow, b: TagRow)
    requires a.tags == ["x"] && b.tags == ["x", "y"]
    ensures TagCount(map[1 := a, 2 := b], "x") == 2 && TagCount(map[1 := a, 2 := b], "y") == 1
    ensures TagCount(map[2 := b], "x") == 1 && TagCount(map[2 := b], "y") == 1
  {
    var none: TagRows := map[];
    assert Occurrences(a.tags, "x") == 1 && Occurrences(a.tags, "y") == 0;
    assert Occurrences(b.tags, "x") == 1 && Occurrences(b.tags, "y") == 1;
    TagCountAdd(none, 1, a, "x");
    TagCountAdd(none, 1, a, "y");
    TagCountAdd(none[1 := a], 2, b, "x");
    TagCountAdd(none[1 := a], 2, b, "y");
    TagCountAdd(none, 2, b, "x");
    TagCountAdd(none, 2, b, "y");
    assert none[1 := a][2 := b] == map[1 := a, 2 := b];
    assert none[2 := b] == map[2 := b];
  }

  /** The distinct tags of all rows (`SELECT DISTINCT value FROM notes, json_each(tags)`). */
  method CollectTags(rows: TagRows) returns (tags: set<string>)
    ensures tags == Universe(rows)
  {
    tags := {};
    var rest := rows.Keys;
    while rest != {}
      invariant rest <= rows.Keys
      invariant tags == UniverseOver(rows, rows.Keys - rest)
      decreases |rest|
    {
      var id := PickOne(rest);
      ghost var done := rows.Keys - rest;
      tags := tags + set t | t in rows[id].tags;
      rest := rest - {id};
      assert rows.Keys - rest == done + {id};
      assert UniverseOver(rows, done + {id}) == UniverseOver(rows, done) + set t | t in rows[id].tags;
    }
  }

  /** `COUNT(*)` of the rows `json_each` yields for one tag value. */
  method CountTag(rows: TagRows, t: string) returns (c: nat)
    ensures c == TagCount(rows, t)
  {
    c := 0;
    var rest := rows.Keys;
    while rest != {}
      invariant rest <= rows.Keys
      invariant c + CountOver(rows, rest, t) == TagCount(rows, t)
      decreases |rest|
    {
      var id := PickOne(rest);
      CountOverPick(rows, rest, id, t);
      c := c + Occurrences(rows[id].tags, t);
      rest := rest - {id};
    }
  }

  /** `MAX(updated_at)` over the notes carrying one tag value. */
  method LatestOf(rows: TagRows, t: string) returns (m: int)
    requires t in Universe(rows)
    ensures IsLatest(rows, t, m)
  {
    var found := false;
    m := 0;
    var rest := rows.Keys;
    while rest != {}
      invariant rest <= rows.Keys
      invariant found ==> IsLatestOver(rows, rows.Keys - rest, t, m)
      invariant !found ==> forall id :: id in rows.Keys - rest ==> !Carries(rows, id, t)
      decreases |rest|
    {
      var id := PickOne(rest);
      if t in rows[id].tags && (!found || rows[id].updatedAt > m) {
        m := rows[id].updatedAt;
        found := true;
      }
      rest := rest - {id};
    }
    assert found by {
      var id :| id in rows && t in rows[id].tags;
      assert Carries(rows, id, t);
    }
  }

  /** The statistics of every tag: what the GROUP BY query yields before it is ordered. */
  method Aggregate(rows: TagRows) returns (counts: map<string, nat>, latest: map<string, int>)
    ensures counts.Keys == latest.Keys == Universe(rows)
    ensures forall t :: t in counts ==> counts[t] == TagCount(rows, t)
    ensures forall t :: t in latest ==> IsLatest(rows, t, latest[t])
  {
    var universe := CollectTags(rows);
    counts, latest := map[], map[];
    var rest := universe;
    while rest != {}
      invariant rest <= universe
      invariant forall t :: t in counts <==> t in universe && t !in rest
      invariant forall t :: t in latest <==> t in universe && t !in rest
      invariant forall t :: t in counts ==> counts[t] == TagCount(rows, t)
      invariant forall t :: t in latest ==> IsLatest(rows, t, latest[t])
      decreases |rest|
    {
      var t := PickOne(rest);
      var c := CountTag(rows, t);
      var m := LatestOf(rows, t);
      counts := counts[t := c];
      latest := latest[t := m];
      rest := rest - {t};
    }
  }
}
