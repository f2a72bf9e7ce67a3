/**
 * A `BTreeMap` as the sequence of its entries in ascending key order, which
 * is the order its iterators, `keys()` and `values()` visit them in.
 */
module OrderedMap {
  import opened Wrappers

  /** Keys strictly ascending: each key appears once. */
  predicate Ascending<T>(m: seq<(nat, T)>)
  {
    forall i, j :: 0 <= i < j < |m| ==> m[i].0 < m[j].0
  }

  /** Every key of `m` is below `k`. */
  predicate Below<T>(m: seq<(nat, T)>, k: nat)
  {
    forall i :: 0 <= i < |m| ==> m[i].0 < k
  }

  /** `BTreeMap::get`. */
  function Get<T>(m: seq<(nat, T)>, k: nat): (r: Option<T>)
    ensures r.Some? <==> exists i :: 0 <= i < |m| && m[i].0 == k
  {
    if |m| == 0 then None
    else if m[0].0 == k then Some(m[0].1)
    else
      var r := Get(m[1..], k);
      assert r.Some? ==> exists i :: 0 <= i < |m| && m[i].0 == k by {
        if r.Some? {
          var i :| 0 <= i < |m[1..]| && m[1..][i].0 == k;
          assert m[i + 1].0 == k;
        }
      }
      r
  }

  /**
   * `keys().position(|&key| key == k)`: the index of the first entry with
   * key `k`, if any.
   */
  function Position<T>(m: seq<(nat, T)>, k: nat): (r: Option<nat>)
    ensures r.Some? ==> r.value < |m| && m[r.value].0 == k
    ensures r.Some? ==> forall i :: 0 <= i < r.value ==> m[i].0 != k
    ensures r.None? ==> forall i :: 0 <= i < |m| ==> m[i].0 != k
  {
    if |m| == 0 then None
    else if m[0].0 == k then Some(0)
    else
      match Position(m[1..], k)
      case None => None
      case Some(i) => Some(i + 1)
  }

  /** In a map with ascending keys the entry with key `k` sits at the position of `k`. */
  lemma {:induction false} GetAtPosition<T>(m: seq<(nat, T)>, k: nat)
    ensures Get(m, k).Some? <==> Position(m, k).Some?
    ensures Position(m, k).Some? ==> Get(m, k) == Some(m[Position(m, k).value].1)
  {
    if |m| > 0 && m[0].0 != k {
      GetAtPosition(m[1..], k);
    }
  }

  /** `BTreeMap::insert`: `k` now maps to `v`, replacing any earlier value, and the keys stay in order. */
  function Insert<T>(m: seq<(nat, T)>, k: nat, v: T): (r: seq<(nat, T)>)
    requires Ascending(m)
    ensures Ascending(r)
    ensures forall i :: 0 <= i < |r| ==> r[i].0 == k || exists j :: 0 <= j < |m| && m[j].0 == r[i].0
  {
    if |m| == 0 then [(k, v)]
    else if m[0].0 == k then [(k, v)] + m[1..]
    else if k < m[0].0 then [(k, v)] + m
    else
      var rest := Insert(m[1..], k, v);
      var r := [m[0]] + rest;
      assert forall i :: 0 <= i < |rest| ==> m[0].0 < rest[i].0 by {
        forall i | 0 <= i < |rest|
          ensures m[0].0 < rest[i].0
        {
          if rest[i].0 != k {
            var j :| 0 <= j < |m[1..]| && m[1..][j].0 == rest[i].0;
            assert m[j + 1].0 == rest[i].0;
          }
        }
      }
      assert forall i :: 0 <= i < |r| ==> r[i].0 == k || exists j :: 0 <= j < |m| && m[j].0 == r[i].0 by {
        forall i | 0 <= i < |r| && r[i].0 != k
          ensures exists j :: 0 <= j < |m| && m[j].0 == r[i].0
        {
          if i == 0 {
            assert m[0].0 == r[i].0;
          } else {
            var j :| 0 <= j < |m[1..]| && m[1..][j].0 == r[i].0;
            assert m[j + 1].0 == r[i].0;
          }
        }
      }
      r
  }

  /** After `insert(k, v)`, `get(k)` is `v` and every other key keeps its value. */
  lemma {:induction false} GetInsert<T>(m: seq<(nat, T)>, k: nat, v: T, k': nat)
    requires Ascending(m)
    ensures Get(Insert(m, k, v), k') == if k' == k then Some(v) else Get(m, k')
  {
    if |m| > 0 && m[0].0 != k && k > m[0].0 {
      GetInsert(m[1..], k, v, k');
    } else if |m| > 0 && k < m[0].0 && k' != k {
      assert ([(k, v)] + m)[1..] == m;
    } else if |m| > 0 && m[0].0 == k && k' != k {
      assert ([(k, v)] + m[1..])[1..] == m[1..];
    }
  }

  /** Inserting a key above every key appends the entry. */
  lemma {:induction false} InsertAbove<T>(m: seq<(nat, T)>, k: nat, v: T)
    requires Ascending(m) && Below(m, k)
    ensures Insert(m, k, v) == m + [(k, v)]
  {
    if |m| > 0 {
      InsertAbove(m[1..], k, v);
      assert m == [m[0]] + m[1..];
    }
  }

  /** The entries inserted one after the other, as `from_buffer`'s loop inserts them. */
  function InsertAll<T>(m: seq<(nat, T)>, entries: seq<(nat, T)>): (r: seq<(nat, T)>)
    requires Ascending(m)
    ensures Ascending(r)
    decreases |entries|
  {
    if |entries| == 0 then m else InsertAll(Insert(m, entries[0].0, entries[0].1), entries[1..])
  }

  /** Inserting entries whose keys ascend past every key of `m` appends them. */
  lemma {:induction false} InsertAllAscending<T>(m: seq<(nat, T)>, entries: seq<(nat, T)>)
    requires Ascending(m) && Ascending(m + entries)
    ensures InsertAll(m, entries) == m + entries
    decreases |entries|
  {
    assert m == (m + entries)[..|m|];
    if |entries| > 0 {
      var e := entries[0];
      assert Below(m, e.0) by {
        forall i | 0 <= i < |m|
          ensures m[i].0 < e.0
        {
          assert (m + entries)[i] == m[i] && (m + entries)[|m|] == e;
        }
      }
      InsertAbove(m, e.0, e.1);
      assert m + [e] + entries[1..] == m + entries;
      assert Ascending(m + [e]) by {
        assert m + [e] == (m + entries)[..|m| + 1];
      }
      InsertAllAscending(m + [e], entries[1..]);
    }
  }
}
