/**
 * The Rust tag filter `tags LIKE '%"t"%'` of get_notes_db.  Tag lists are
 * stored as the JSON text serde writes for a list of strings, `["a","b"]`, and
 * the filter keeps a row when the quoted tag occurs anywhere in that text.
 * The model writes the text without escaping and matches literally, case
 * for case, with no `%` or `_` wildcards inside the tag.
 */
module TagLike {
  import opened Wrappers

  const Quote: char := '"'

  /** `"s"` */
  function Quoted(s: string): string
  {
    [Quote] + s + [Quote]
  }

  /** `"a","b","c"` */
  function JoinQuoted(tags: seq<string>): string
    decreases |tags|
  {
    if |tags| == 0 then []
    else if |tags| == 1 then Quoted(tags[0])
    else Quoted(tags[0]) + [','] + JoinQuoted(tags[1..])
  }

  /** The stored text of a tag list: `["a","b","c"]`. */
  function TagsJson(tags: seq<string>): string
  {
    ['['] + JoinQuoted(tags) + [']']
  }

  /** The parameter bound to the LIKE placeholder: `%"t"%`. */
  function LikePattern(t: string): string
  {
    ['%'] + Quoted(t) + ['%']
  }

  /** `pat` occurs in `text` starting at position `p`. */
  predicate OccursAt(pat: string, text: string, p: int)
  {
    0 <= p && p + |pat| <= |text| && forall i :: 0 <= i < |pat| ==> text[p + i] == pat[i]
  }

  /** `text LIKE '%' || pat || '%'` */
  predicate Occurs(pat: string, text: string)
  {
    exists p | 0 <= p <= |text| - |pat| :: OccursAt(pat, text, p)
  }

  /** The filter applied to one stored tag list; `None` stands for a list that is not valid JSON. */
  predicate TagMatches(stored: Option<seq<string>>, t: string)
  {
    stored.Some? && Occurs(Quoted(t), TagsJson(stored.value))
  }

  predicate NoQuote(s: string)
  {
    Quote !in s
  }

  /** An occurrence stays an occurrence when text is added around it. */
  lemma OccursAtShift(pat: string, pre: string, text: string, post: string, p: int)
    requires OccursAt(pat, text, p)
    ensures OccursAt(pat, pre + text + post, |pre| + p)
  {
    forall i | 0 <= i < |pat|
      ensures (pre + text + post)[|pre| + p + i] == pat[i]
    {
      assert (pre + text + post)[|pre| + p + i] == text[p + i];
    }
  }

  /** A text starts with its own prefix. */
  lemma OccursAtStart(pat: string, a: string, b: string)
    ensures OccursAt(pat, pat + a + b, 0)
  {
  }

  /** An occurrence stays an occurrence when text is put before it. */
  lemma OccursAtAfter(pat: string, pre: string, text: string, p: int)
    requires OccursAt(pat, text, p)
    ensures OccursAt(pat, pre + text, |pre| + p)
  {
  }

  /** Every tag of a list occurs, quoted, in the joined text. */
  lemma {:induction false} JoinQuotedHas(tags: seq<string>, t: string)
    requires t in tags
    ensures exists p :: OccursAt(Quoted(t), JoinQuoted(tags), p)
  {
    if tags[0] == t {
      JoinQuotedHead(tags);
    } else {
      assert t in tags[1..];
      JoinQuotedHas(tags[1..], t);
      var p :| OccursAt(Quoted(t), JoinQuoted(tags[1..]), p);
      JoinQuotedTail(tags, t, p);
    }
  }

  /** The first tag opens the joined text. */
  lemma JoinQuotedHead(tags: seq<string>)
    requires |tags| >= 1
    ensures OccursAt(Quoted(tags[0]), JoinQuoted(tags), 0)
  {
    if |tags| == 1 {
      OccursAtStart(Quoted(tags[0]), [], []);
      assert Quoted(tags[0]) + [] + [] == JoinQuoted(tags);
    } else {
      OccursAtStart(Quoted(tags[0]), [','], JoinQuoted(tags[1..]));
    }
  }

  /** An occurrence in the text joined from the later tags is one in the whole text. */
  lemma JoinQuotedTail(tags: seq<string>, t: string, p: int)
    requires |tags| >= 2
    requires OccursAt(Quoted(t), JoinQuoted(tags[1..]), p)
    ensures OccursAt(Quoted(t), JoinQuoted(tags), |Quoted(tags[0])| + 1 + p)
  {
    OccursAtAfter(Quoted(t), Quoted(tags[0]) + [','], JoinQuoted(tags[1..]), p);
  }

  /** A note carrying the tag passes the filter. */
  lemma TagMatchesComplete(tags: seq<string>, t: string)
    requires t in tags
    ensures TagMatches(Some(tags), t)
  {
    JoinQuotedHas(tags, t);
    var p :| OccursAt(Quoted(t), JoinQuoted(tags), p);
    OccursAtShift(Quoted(t), ['['], JoinQuoted(tags), [']'], p);
    assert ['['] + JoinQuoted(tags) + [']'] == TagsJson(tags);
  }

  /**
   * Inside the joined text an occurrence of a quoted tag with neither quote
   * nor comma in it can only start at an opening quote, and then it is that
   * whole tag.
   */
  lemma {:induction false} JoinQuotedExact(tags: seq<string>, t: string, q: int)
    requires NoQuote(t) && ',' !in t
    requires forall k :: 0 <= k < |tags| ==> NoQuote(tags[k])
    requires OccursAt(Quoted(t), JoinQuoted(tags), q)
    ensures t in tags
    decreases |tags|
  {
    var text := JoinQuoted(tags);
    var pat := Quoted(t);
    var s := tags[0];
    var n := |s|;
    var m := |t|;
    var rest := if |tags| == 1 then [] else [','] + JoinQuoted(tags[1..]);
    assert text == Quoted(s) + rest;
    assert text[0] == Quote && text[n + 1] == Quote;
    assert forall i :: 0 <= i < n ==> text[1 + i] == s[i];
    assert pat[0] == Quote && pat[m + 1] == Quote;
    assert forall i :: 1 <= i <= m ==> pat[i] == t[i - 1];
    assert text[q] == Quote by { assert text[q + 0] == pat[0]; }
    // the positions where a misplaced occurrence would put a quote against a tag character
    ghost var k1 := if q == 0 && m > n then n + 1 else 0;
    ghost var k2 := if q == n + 1 && |tags| > 1 then 1 else 0;
    assert pat[k1] == text[q + k1] && pat[k2] == text[q + k2];
    assert |tags| > 1 ==> text[n + 2] == ',';
    if q == 0 {
      if m < n {
        assert false;
      } else if m > n {
        assert false;
      }
      forall i | 0 <= i < m
        ensures t[i] == s[i]
      {
        assert text[q + (1 + i)] == pat[1 + i];
      }
      assert t == s;
    } else if q <= n {
      assert false;
    } else if |tags| == 1 {
      assert false;
    } else if q == n + 1 {
      if m == 0 {
        assert false;
      } else {
        assert false;
      }
    } else if q == n + 2 {
      assert false;
    } else {
      var tail := JoinQuoted(tags[1..]);
      var q' := q - (n + 3);
      assert text == (Quoted(s) + [',']) + tail;
      forall i | 0 <= i < |pat|
        ensures tail[q' + i] == pat[i]
      {
        assert text[q + i] == tail[q' + i];
      }
      assert OccursAt(pat, tail, q');
      JoinQuotedExact(tags[1..], t, q');
      assert t in tags;
    }
  }

  /**
   * The filter is an exact element test for tags without quotes or commas:
   * "x" passes a note tagged "x" and never one tagged only "xyz".
   */
  lemma TagMatchesExact(tags: seq<string>, t: string)
    requires NoQuote(t) && ',' !in t
    requires forall k :: 0 <= k < |tags| ==> NoQuote(tags[k])
    ensures TagMatches(Some(tags), t) <==> t in tags
  {
    if TagMatches(Some(tags), t) {
      var text := TagsJson(tags);
      var pat := Quoted(t);
      var p :| 0 <= p <= |text| - |pat| && OccursAt(pat, text, p);
      var inner := JoinQuoted(tags);
      assert text == ['['] + inner + [']'];
      assert p != 0 by { assert text[p + 0] == pat[0]; }
      assert p + |pat| - 1 != |text| - 1 by { assert text[p + (|pat| - 1)] == pat[|pat| - 1] == Quote; }
      forall i | 0 <= i < |pat|
        ensures inner[p - 1 + i] == pat[i]
      {
        assert text[p + i] == inner[p - 1 + i];
      }
      assert OccursAt(pat, inner, p - 1);
      JoinQuotedExact(tags, t, p - 1);
    }
    if t in tags {
      TagMatchesComplete(tags, t);
    }
  }

  /** The case the filter was written for: "x" does not match a note tagged only "xyz". */
  lemma NoMatchOnLongerTag()
    ensures !TagMatches(Some(["xyz"]), "x")
  {
    TagMatchesExact(["xyz"], "x");
  }

  /**
   * Where the filter is not exact: the tag "," passes every note with two or
   * more tags, because the text between two tags is `","`.
   */
  lemma CommaMatchesBetweenTags()
    ensures TagMatches(Some(["a", "b"]), ",") && "," !in ["a", "b"]
  {
    var text := TagsJson(["a", "b"]);
    assert text == "[\"a\",\"b\"]";
    assert OccursAt(Quoted(","), text, 3);
  }
}
