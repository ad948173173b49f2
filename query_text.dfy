/**
 * The SQL text get_notes_db assembles (src/db.rs:165-196): a fixed SELECT,
 * one `AND ... ?` clause and one bound parameter per filter the caller gave,
 * the ordering, an inlined LIMIT, and then a pass that turns the k-th `?`
 * into `?k`.
 */
module QueryText {
  import opened Wrappers
  import TagLike

  /** A value bound to a placeholder. */
  datatype SqlParam = TextParam(text: string) | TimeParam(time: int)

  /** The decimal digits of a natural number. */
  function Decimal(n: nat): (r: string)
    ensures |r| >= 1 && '?' !in r
  {
    var d := "0123456789"[n % 10];
    if n < 10 then [d] else Decimal(n / 10) + [d]
  }

  /** Rust's `format!("{}", n)` of a signed integer. */
  function SignedDecimal(n: int): (r: string)
    ensures '?' !in r
  {
    if n < 0 then "-" + Decimal(-n) else Decimal(n)
  }

  /** Number of `?` placeholders in a text. */
  function Placeholders(s: string): nat
  {
    if s == [] then 0 else (if s[0] == '?' then 1 else 0) + Placeholders(s[1..])
  }

  /** The text with its placeholders numbered from `k` on, left to right. */
  function Numbered(s: string, k: nat): string
  {
    if s == [] then []
    else if s[0] == '?' then "?" + Decimal(k) + Numbered(s[1..], k + 1)
    else [s[0]] + Numbered(s[1..], k)
  }

  lemma {:induction false} PlaceholdersConcat(a: string, b: string)
    ensures Placeholders(a + b) == Placeholders(a) + Placeholders(b)
  {
    if a != [] {
      assert (a + b)[0] == a[0] && (a + b)[1..] == a[1..] + b;
      PlaceholdersConcat(a[1..], b);
    } else {
      assert a + b == b;
    }
  }

  lemma {:induction false} PlaceholdersNone(s: string)
    requires '?' !in s
    ensures Placeholders(s) == 0
  {
    if s != [] {
      assert '?' !in s[1..];
      PlaceholdersNone(s[1..]);
    }
  }

  /** Text without placeholders comes through unchanged. */
  lemma {:induction false} NumberedPlain(s: string, k: nat)
    requires '?' !in s
    ensures Numbered(s, k) == s
  {
    if s != [] {
      assert '?' !in s[1..];
      NumberedPlain(s[1..], k);
    }
  }

  /** Numbering a concatenation numbers the second part after the first part's placeholders. */
  lemma {:induction false} NumberedConcat(a: string, b: string, k: nat)
    ensures Numbered(a + b, k) == Numbered(a, k) + Numbered(b, k + Placeholders(a))
  {
    if a != [] {
      assert (a + b)[0] == a[0] && (a + b)[1..] == a[1..] + b;
      if a[0] == '?' {
        NumberedConcat(a[1..], b, k + 1);
      } else {
        NumberedConcat(a[1..], b, k);
      }
    } else {
      assert a + b == b;
    }
  }

  /**
   * The placeholder that follows `a` gets the number after those of `a`, and
   * every other character stays where it was: numbering from 1, the k-th `?`
   * becomes `?k`.
   */
  lemma NumberedNext(a: string, b: string, k: nat)
    ensures Numbered(a + "?" + b, k)
         == Numbered(a, k) + "?" + Decimal(k + Placeholders(a)) + Numbered(b, k + Placeholders(a) + 1)
  {
    var rest := "?" + b;
    var n := k + Placeholders(a);
    NumberedConcat(a, rest, k);
    assert a + "?" + b == a + rest;
    assert rest[0] == '?' && rest[1..] == b;
    var tail := Numbered(b, n + 1);
    assert Numbered(rest, n) == "?" + Decimal(n) + tail;
    assert Numbered(a, k) + ("?" + Decimal(n) + tail) == Numbered(a, k) + "?" + Decimal(n) + tail;
  }

  /** One step of the numbering: the character at `i` and the text after it. */
  lemma NumberedStep(s: string, i: nat, k: nat)
    requires i < |s|
    ensures Numbered(s[i..], k)
         == if s[i] == '?' then "?" + Decimal(k) + Numbered(s[i + 1..], k + 1) else [s[i]] + Numbered(s[i + 1..], k)
  {
    assert s[i..][0] == s[i] && s[i..][1..] == s[i + 1..];
  }

  /** Concatenation regrouped. */
  lemma Regroup(a: string, b: string, c: string)
    ensures a + b + c == a + (b + c)
  {
  }

  /** The renumbering loop of get_notes_db. */
  method NumberPlaceholders(query: string) returns (numbered: string)
    ensures numbered == Numbered(query, 1)
  {
    numbered := [];
    var paramIndex: nat := 1;
    assert query[0..] == query;
    for i := 0 to |query|
      invariant numbered + Numbered(query[i..], paramIndex) == Numbered(query, 1)
    {
      NumberedStep(query, i, paramIndex);
      var rest := query[i + 1..];
      if query[i] == '?' {
        var mark := "?" + Decimal(paramIndex);
        Regroup(numbered, mark, Numbered(rest, paramIndex + 1));
        numbered := numbered + mark;
        paramIndex := paramIndex + 1;
      } else {
        Regroup(numbered, [query[i]], Numbered(rest, paramIndex));
        numbered := numbered + [query[i]];
      }
    }
    assert query[|query|..] == [];
  }

  /** Text that holds no placeholder. */
  type PlainText = s: string | '?' !in s

  const SelectColumns: PlainText := "SELECT id, content, tags, "
  const SelectTimes: PlainText := "created_at, updated_at "
  const SelectFrom: PlainText := "FROM notes WHERE 1=1"
  const SelectNotes: PlainText := SelectColumns + SelectTimes + SelectFrom
  /** The filter clauses, each up to its placeholder. */
  const TagFilter: PlainText := " AND tags LIKE "
  const AfterFilter: PlainText := " AND created_at >= "
  const BeforeFilter: PlainText := " AND created_at < "
  const OrderClause: PlainText := " ORDER BY created_at DESC"

  /** A filter clause with its `?`. */
  function Filter(filter: string): string
  {
    filter + "?"
  }

  /** A filter clause, present only when the filter was given. */
  function Clause(filter: string, given: bool): string
  {
    if given then Filter(filter) else ""
  }

  /** A filter clause as the renumbering pass leaves it: its `?` turned into `?k`. */
  function NumberedClause(filter: string, given: bool, k: nat): string
  {
    if given then filter + "?" + Decimal(k) else ""
  }

  /** The inlined `LIMIT n`: Rust's `format!(" LIMIT {}", l)`. */
  function LimitText(l: int): PlainText
  {
    " LIMIT " + SignedDecimal(l)
  }

  /** The inlined LIMIT, when a limit was given. */
  function LimitClause(limit: Option<int>): PlainText
  {
    if limit.Some? then LimitText(limit.value) else ""
  }

  /** 1 when a clause is present, 0 otherwise. */
  function Count(given: bool): nat
  {
    if given then 1 else 0
  }

  /** How many of the three filters were given. */
  function FilterCount(tag: Option<string>, after: Option<int>, before: Option<int>): nat
  {
    Count(tag.Some?) + Count(after.Some?) + Count(before.Some?)
  }

  /** Appending a clause: the filter text when given, nothing otherwise. */
  lemma AppendOptional(query: string, filter: string, given: bool)
    ensures query + Clause(filter, given) == if given then query + Filter(filter) else query
  {
    if !given {
      assert query + Clause(filter, given) == query + [];
    }
  }

  /** Appending the LIMIT clause: its text when a limit was given, nothing otherwise. */
  lemma AppendLimit(query: string, limit: Option<int>)
    ensures query + LimitClause(limit) == if limit.Some? then query + LimitText(limit.value) else query
  {
    if limit.None? {
      assert query + LimitClause(limit) == query + [];
    }
  }

  /** Appending text without a placeholder leaves the count alone. */
  lemma PlainCount(query: string, text: PlainText)
    ensures Placeholders(query + text) == Placeholders(query)
  {
    PlaceholdersConcat(query, text);
    PlaceholdersNone(text);
  }

  /** Appending a clause adds one placeholder when the filter was given. */
  lemma ClauseCount(query: string, filter: PlainText, given: bool)
    ensures Placeholders(query + Clause(filter, given)) == Placeholders(query) + Count(given)
  {
    PlaceholdersConcat(query, Clause(filter, given));
    if given {
      PlaceholdersConcat(filter, "?");
      PlaceholdersNone(filter);
    }
  }

  /** Appending text without a placeholder leaves the numbering of the rest alone. */
  lemma AppendPlain(query: string, text: PlainText, k: nat)
    ensures Numbered(query + text, k) == Numbered(query, k) + text
  {
    NumberedConcat(query, text, k);
    NumberedPlain(text, k + Placeholders(query));
  }

  /** Appending a given filter clause numbers its placeholder after those already in the query. */
  lemma AppendFilter(query: string, filter: PlainText, k: nat)
    ensures Numbered(query + filter + "?", k) == Numbered(query, k) + filter + "?" + Decimal(k + Placeholders(query))
  {
    NumberedNext(query + filter, "", k);
    assert query + filter + "?" + "" == query + filter + "?";
    NumberedConcat(query, filter, k);
    NumberedPlain(filter, k + Placeholders(query));
    PlainCount(query, filter);
  }

  /** Appending a clause numbers its placeholder, if any, after those already in the query. */
  lemma AppendClause(query: string, filter: PlainText, given: bool, k: nat)
    ensures Numbered(query + Clause(filter, given), k)
         == Numbered(query, k) + NumberedClause(filter, given, k + Placeholders(query))
  {
    if given {
      AppendFilter(query, filter, k);
      assert query + Clause(filter, given) == query + filter + "?" by {
        assert query + (filter + "?") == query + filter + "?";
      }
      var n := k + Placeholders(query);
      assert Numbered(query, k) + NumberedClause(filter, given, n) == Numbered(query, k) + filter + "?" + Decimal(n) by {
        assert Numbered(query, k) + (filter + "?" + Decimal(n)) == Numbered(query, k) + filter + "?" + Decimal(n);
      }
    } else {
      assert query + Clause(filter, given) == query;
    }
  }

  /** One more optional clause, numbered k, given what is known of the query so far. */
  lemma AppendNumbered(query: string, filter: PlainText, given: bool, k: nat, numbered: string)
    requires Placeholders(query) + 1 == k && Numbered(query, 1) == numbered
    ensures Numbered(query + Clause(filter, given), 1) == numbered + NumberedClause(filter, given, k)
  {
    AppendClause(query, filter, given, 1);
  }

  /** A query assembled from a fixed head, three optional clauses and a fixed tail has one placeholder per clause. */
  lemma QueryCount(head: PlainText, f1: PlainText, g1: bool, f2: PlainText, g2: bool, f3: PlainText, g3: bool,
                   order: PlainText, lim: PlainText)
    ensures Placeholders(head + Clause(f1, g1) + Clause(f2, g2) + Clause(f3, g3) + order + lim)
         == Count(g1) + Count(g2) + Count(g3)
  {
    PlaceholdersNone(head);
    var q1 := head + Clause(f1, g1);
    ClauseCount(head, f1, g1);
    var q2 := q1 + Clause(f2, g2);
    ClauseCount(q1, f2, g2);
    var q3 := q2 + Clause(f3, g3);
    ClauseCount(q2, f3, g3);
    PlainCount(q3, order);
    PlainCount(q3 + order, lim);
  }

  /** Numbering the head and three optional clauses: the clauses present carry consecutive numbers from 1. */
  lemma FiltersNumbered(head: PlainText, f1: PlainText, g1: bool, f2: PlainText, g2: bool, f3: PlainText, g3: bool)
    ensures Numbered(head + Clause(f1, g1) + Clause(f2, g2) + Clause(f3, g3), 1)
         == head + NumberedClause(f1, g1, 1) + NumberedClause(f2, g2, 1 + Count(g1))
            + NumberedClause(f3, g3, 1 + Count(g1) + Count(g2))
  {
    PlaceholdersNone(head);
    NumberedPlain(head, 1);
    var q1 := head + Clause(f1, g1);
    AppendNumbered(head, f1, g1, 1, head);
    ClauseCount(head, f1, g1);
    var n1 := head + NumberedClause(f1, g1, 1);
    var q2 := q1 + Clause(f2, g2);
    AppendNumbered(q1, f2, g2, 1 + Count(g1), n1);
    ClauseCount(q1, f2, g2);
    var n2 := n1 + NumberedClause(f2, g2, 1 + Count(g1));
    AppendNumbered(q2, f3, g3, 1 + Count(g1) + Count(g2), n2);
  }

  /**
   * Numbering a query assembled from a fixed head, three optional clauses
   * and a fixed tail: the clauses present carry consecutive numbers from 1.
   */
  lemma QueryNumbered(head: PlainText, f1: PlainText, g1: bool, f2: PlainText, g2: bool, f3: PlainText, g3: bool,
                      order: PlainText, lim: PlainText)
    ensures Numbered(head + Clause(f1, g1) + Clause(f2, g2) + Clause(f3, g3) + order + lim, 1)
         == head + NumberedClause(f1, g1, 1) + NumberedClause(f2, g2, 1 + Count(g1))
            + NumberedClause(f3, g3, 1 + Count(g1) + Count(g2)) + order + lim
  {
    var q := head + Clause(f1, g1) + Clause(f2, g2) + Clause(f3, g3);
    FiltersNumbered(head, f1, g1, f2, g2, f3, g3);
    AppendPlain(q, order, 1);
    AppendPlain(q + order, lim, 1);
  }

  /**
   * The text get_notes_db assembles: the SELECT, a clause per given filter in
   * the order tag, lower bound, upper bound, the ordering and the inlined LIMIT.
   */
  function NotesQueryText(limit: Option<int>, tag: Option<string>, after: Option<int>, before: Option<int>): string
  {
    SelectNotes + Clause(TagFilter, tag.Some?) + Clause(AfterFilter, after.Some?)
    + Clause(BeforeFilter, before.Some?) + OrderClause + LimitClause(limit)
  }

  /**
   * The same text with its placeholders numbered: `?1` in the first clause
   * present, `?2` in the second, `?3` in the third.
   */
  function NumberedNotesQuery(limit: Option<int>, tag: Option<string>, after: Option<int>, before: Option<int>): string
  {
    SelectNotes + NumberedClause(TagFilter, tag.Some?, 1)
    + NumberedClause(AfterFilter, after.Some?, 1 + Count(tag.Some?))
    + NumberedClause(BeforeFilter, before.Some?, 1 + Count(tag.Some?) + Count(after.Some?))
    + OrderClause + LimitClause(limit)
  }

  /** The assembled text has one placeholder per given filter. */
  lemma NotesQueryCount(limit: Option<int>, tag: Option<string>, after: Option<int>, before: Option<int>)
    ensures Placeholders(NotesQueryText(limit, tag, after, before)) == FilterCount(tag, after, before)
  {
    QueryCount(SelectNotes, TagFilter, tag.Some?, AfterFilter, after.Some?, BeforeFilter, before.Some?,
               OrderClause, LimitClause(limit));
  }

  /** The renumbering pass turns the assembled text into the numbered one. */
  lemma NotesQueryNumbering(limit: Option<int>, tag: Option<string>, after: Option<int>, before: Option<int>)
    ensures Numbered(NotesQueryText(limit, tag, after, before), 1) == NumberedNotesQuery(limit, tag, after, before)
  {
    QueryNumbered(SelectNotes, TagFilter, tag.Some?, AfterFilter, after.Some?, BeforeFilter, before.Some?,
                  OrderClause, LimitClause(limit));
  }

  /**
   * The filter part of get_notes_db's builder: a clause and a parameter for
   * each given filter, in the order tag, lower bound, upper bound.
   */
  method AppendFilters(select: string, tag: Option<string>, after: Option<int>, before: Option<int>)
    returns (query: string, params: seq<SqlParam>)
    ensures query == select + Clause(TagFilter, tag.Some?) + Clause(AfterFilter, after.Some?)
                     + Clause(BeforeFilter, before.Some?)
    ensures |params| == FilterCount(tag, after, before)
    ensures tag.Some? ==> params[0] == TextParam(TagLike.LikePattern(tag.value))
    ensures after.Some? ==> params[Count(tag.Some?)] == TimeParam(after.value)
    ensures before.Some? ==> params[Count(tag.Some?) + Count(after.Some?)] == TimeParam(before.value)
  {
    query := select;
    params := [];
    AppendOptional(query, TagFilter, tag.Some?);
    if tag.Some? {
      query := query + Filter(TagFilter);
      params := params + [TextParam(TagLike.LikePattern(tag.value))];
    }
    AppendOptional(query, AfterFilter, after.Some?);
    if after.Some? {
      query := query + Filter(AfterFilter);
      params := params + [TimeParam(after.value)];
    }
    AppendOptional(query, BeforeFilter, before.Some?);
    if before.Some? {
      query := query + Filter(BeforeFilter);
      params := params + [TimeParam(before.value)];
    }
  }

  /**
   * The query builder of get_notes_db: the assembled text and one parameter
   * per given filter in the same order, so that after renumbering the
   * placeholder `?k` is bound to the k-th parameter.
   */
  method BuildNotesQuery(limit: Option<int>, tag: Option<string>, after: Option<int>, before: Option<int>)
    returns (query: string, params: seq<SqlParam>)
    ensures query == NotesQueryText(limit, tag, after, before)
    ensures Placeholders(query) == |params| == FilterCount(tag, after, before)
    ensures tag.Some? ==> params[0] == TextParam(TagLike.LikePattern(tag.value))
    ensures after.Some? ==> params[Count(tag.Some?)] == TimeParam(after.value)
    ensures before.Some? ==> params[Count(tag.Some?) + Count(after.Some?)] == TimeParam(before.value)
    ensures Numbered(query, 1) == NumberedNotesQuery(limit, tag, after, before)
  {
    query, params := AppendFilters(SelectNotes, tag, after, before);
    query := query + OrderClause;
    AppendLimit(query, limit);
    if limit.Some? {
      query := query + LimitText(limit.value);
    }
    NotesQueryCount(limit, tag, after, before);
    NotesQueryNumbering(limit, tag, after, before);
  }
}
