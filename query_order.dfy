/**
 * What SQLite does with `ORDER BY key [ASC|DESC] [LIMIT n]` and with the
 * output of a `DISTINCT` or a hash set: it picks, from the rows that passed
 * the WHERE clause, a sequence of distinct rows ordered by the key (rows with
 * equal keys in any order) and cut to the limit.  The stores call this model
 * wherever the source hands ordering to the database.
 */
module QueryOrder {
  import opened Wrappers

  /** No element occurs twice. */
  predicate Distinct<K(==)>(ks: seq<K>)
  {
    forall i, j :: 0 <= i < j < |ks| ==> ks[i] != ks[j]
  }

  /** `a` may come before `b` in the chosen direction. */
  predicate Precedes(a: int, b: int, descending: bool)
  {
    if descending then a >= b else a <= b
  }

  /** The keys of `ks` are ordered in the chosen direction. */
  ghost predicate Ordered<K>(ks: seq<K>, key: K -> int, descending: bool)
  {
    forall i, j :: 0 <= i < j < |ks| ==> Precedes(key(ks[i]), key(ks[j]), descending)
  }

  /** SQLite's LIMIT clause: a negative limit, like no limit, lets every row through. */
  function LimitOf(limit: Option<int>): (r: Option<nat>)
    ensures r.Some? <==> limit.Some? && limit.value >= 0
    ensures r.Some? ==> r.value == limit.value
  {
    if limit.Some? && limit.value >= 0 then Some(limit.value) else None
  }

  /** The ids of a list of result rows, in order. */
  function IdsOf<T>(rows: seq<T>, id: T -> int): (ids: seq<int>)
    ensures |ids| == |rows| && forall i :: 0 <= i < |rows| ==> ids[i] == id(rows[i])
  {
    seq(|rows|, i requires 0 <= i < |rows| => id(rows[i]))
  }

  /** Number of rows `LIMIT` lets through: all of them when there is no limit. */
  function Capped(n: nat, limit: Option<nat>): nat
  {
    if limit.Some? && limit.value < n then limit.value else n
  }

  /**
   * `ks` is a possible answer of `SELECT .. FROM pool ORDER BY key LIMIT limit`:
   * distinct rows of the pool, in order, as many as the limit allows, and no
   * row left out ranks before a row taken.
   */
  ghost predicate IsTop<K>(ks: seq<K>, pool: set<K>, key: K -> int, descending: bool, limit: Option<nat>)
  {
    && Distinct(ks)
    && (forall i :: 0 <= i < |ks| ==> ks[i] in pool)
    && |ks| == Capped(|pool|, limit)
    && Ordered(ks, key, descending)
    && (forall k, i :: k in pool && k !in ks && 0 <= i < |ks| ==> Precedes(key(ks[i]), key(k), descending))
  }

  /** A nonempty finite pool has a first element in the chosen order. */
  lemma {:induction false} FirstExists<K>(pool: set<K>, key: K -> int, descending: bool)
    requires pool != {}
    ensures exists m :: m in pool && forall k :: k in pool ==> Precedes(key(m), key(k), descending)
  {
    var x :| x in pool;
    if pool == {x} {
      assert forall k :: k in pool ==> k == x;
      assert Precedes(key(x), key(x), descending);
    } else {
      var others := pool - {x};
      FirstExists(others, key, descending);
      var m :| m in others && forall k :: k in others ==> Precedes(key(m), key(k), descending);
      if Precedes(key(m), key(x), descending) {
        assert forall k :: k in pool ==> k == x || k in others;
      } else {
        forall k | k in pool
          ensures Precedes(key(x), key(k), descending)
        {
          if k != x {
            assert k in others;
            assert Precedes(key(m), key(k), descending);
          }
        }
      }
    }
  }

  /** A subset is no larger than its superset. */
  lemma {:induction false} SubsetCard<K>(a: set<K>, b: set<K>)
    requires a <= b
    ensures |a| <= |b|
  {
    if a != {} {
      var x :| x in a;
      SubsetCard(a - {x}, b - {x});
    }
  }

  /** The elements of a distinct sequence form a set of the same size. */
  lemma {:induction false} DistinctCard<K>(ks: seq<K>)
    requires Distinct(ks)
    ensures |set i | 0 <= i < |ks| :: ks[i]| == |ks|
  {
    if ks != [] {
      var last := ks[|ks| - 1];
      var front := ks[..|ks| - 1];
      DistinctCard(front);
      var all := set i | 0 <= i < |ks| :: ks[i];
      var init := set i | 0 <= i < |front| :: front[i];
      assert all == init + {last};
      assert last !in init;
    }
  }

  /** Chooses rows one at a time, always a first one among those left, until the limit is reached. */
  method SelectTop<K(==)>(pool: set<K>, key: K -> int, descending: bool, limit: Option<nat>) returns (ks: seq<K>)
    ensures IsTop(ks, pool, key, descending, limit)
    ensures limit.None? ==> forall k :: k in pool <==> k in ks
  {
    ks := [];
    var rest := pool;
    while rest != {} && (limit.None? || |ks| < limit.value)
      invariant rest <= pool
      invariant |ks| + |rest| == |pool|
      invariant limit.Some? ==> |ks| <= limit.value
      invariant Distinct(ks)
      invariant forall i :: 0 <= i < |ks| ==> ks[i] in pool && ks[i] !in rest
      invariant forall k :: k in pool && k !in rest ==> k in ks
      invariant Ordered(ks, key, descending)
      invariant forall k, i :: k in rest && 0 <= i < |ks| ==> Precedes(key(ks[i]), key(k), descending)
      decreases |rest|
    {
      FirstExists(rest, key, descending);
      var m :| m in rest && forall k :: k in rest ==> Precedes(key(m), key(k), descending);
      ks := ks + [m];
      rest := rest - {m};
    }
  }

  /** The keys of a map, largest value first (`GROUP BY k ORDER BY v DESC`). */
  method KeysByValueDescending<K(==)>(m: map<K, int>) returns (ks: seq<K>)
    ensures Distinct(ks)
    ensures forall k :: k in m <==> k in ks
    ensures forall i, j :: 0 <= i < j < |ks| ==> ks[i] in m && ks[j] in m && m[ks[i]] >= m[ks[j]]
  {
    var key := (k: K) => if k in m then m[k] else 0;
    ks := SelectTop(m.Keys, key, true, None);
    forall i, j | 0 <= i < j < |ks|
      ensures m[ks[i]] >= m[ks[j]]
    {
      assert key(ks[i]) >= key(ks[j]);
    }
  }

  /** Lists a set in some order, each element once (a hash set's `into_iter().collect()`, Python's `list(s)`). */
  method SetToSeq<K(==)>(s: set<K>) returns (ks: seq<K>)
    ensures Distinct(ks)
    ensures forall k :: k in s <==> k in ks
    ensures |ks| == |s|
  {
    ks := [];
    var rest := s;
    while rest != {}
      invariant rest <= s
      invariant |ks| + |rest| == |s|
      invariant Distinct(ks)
      invariant forall i :: 0 <= i < |ks| ==> ks[i] in s && ks[i] !in rest
      invariant forall k :: k in s && k !in rest ==> k in ks
      decreases |rest|
    {
      var k :| k in rest;
      ks := ks + [k];
      rest := rest - {k};
    }
  }

  /**
   * A row is surely taken when at most `n` rows of the pool rank with it or
   * before it (`n` the limit).
   */
  lemma TopIncludes<K>(ks: seq<K>, pool: set<K>, key: K -> int, n: nat, x: K, ahead: set<K>)
    requires IsTop(ks, pool, key, true, Some(n))
    requires x in pool
    requires forall k :: k in ahead <==> k in pool && key(k) >= key(x)
    requires |ahead| <= n
    ensures x in ks
  {
    if x !in ks {
      var taken := set i | 0 <= i < |ks| :: ks[i];
      DistinctCard(ks);
      if |ks| < n {
        assert |ks| == |pool|;
        assert taken <= pool - {x};
        SubsetCard(taken, pool - {x});
      } else {
        assert taken <= ahead - {x};
        assert x in ahead;
        SubsetCard(taken, ahead - {x});
      }
    }
  }

  /** A row is surely left out when at least `n` rows of the pool rank strictly before it. */
  lemma TopExcludes<K>(ks: seq<K>, pool: set<K>, key: K -> int, n: nat, x: K, newer: set<K>)
    requires IsTop(ks, pool, key, true, Some(n))
    requires x in pool
    requires forall k :: k in newer <==> k in pool && key(k) > key(x)
    requires |newer| >= n
    ensures x !in ks
  {
    if x in ks {
      var taken := set i | 0 <= i < |ks| :: ks[i];
      DistinctCard(ks);
      assert newer + {x} <= taken;
      assert x !in newer;
      SubsetCard(newer + {x}, taken);
    }
  }
}
