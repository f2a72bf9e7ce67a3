/**
 * Per-table data built by pushes: `cross_table_lookup_data` of both engines
 * sends a sequence of (table, entry) pushes into one vector per table.
 */
module PerTable {
  /** The entries pushed to `table`, in push order. */
  function EntriesFor<D>(pushes: seq<(nat, D)>, table: nat): seq<D>
  {
    if |pushes| == 0 then []
    else
      var p := pushes[|pushes| - 1];
      EntriesFor(pushes[..|pushes| - 1], table) + if p.0 == table then [p.1] else []
  }

  lemma EntriesForSnoc<D>(pushes: seq<(nat, D)>, p: (nat, D), table: nat)
    ensures EntriesFor(pushes + [p], table) == EntriesFor(pushes, table) + if p.0 == table then [p.1] else []
  {
    assert (pushes + [p])[..|pushes|] == pushes;
  }

  lemma {:induction false} EntriesForAppend<D>(a: seq<(nat, D)>, b: seq<(nat, D)>, table: nat)
    ensures EntriesFor(a + b, table) == EntriesFor(a, table) + EntriesFor(b, table)
    decreases |b|
  {
    if |b| == 0 {
      assert a + b == a;
    } else {
      var n := |b| - 1;
      assert a + b == (a + b[..n]) + [b[n]];
      assert b == b[..n] + [b[n]];
      EntriesForAppend(a, b[..n], table);
      EntriesForSnoc(a + b[..n], b[n], table);
      EntriesForSnoc(b[..n], b[n], table);
    }
  }

  /** `data` holds, per table, exactly the entries `pushes` sends there. */
  ghost predicate Distributed<D>(data: seq<seq<D>>, pushes: seq<(nat, D)>, numTables: nat)
  {
    |data| == numTables && forall t :: 0 <= t < numTables ==> data[t] == EntriesFor(pushes, t)
  }

  /** How many of `pushes` go to `table`. */
  function PushCount<D>(pushes: seq<(nat, D)>, table: nat): nat
  {
    if |pushes| == 0 then 0
    else PushCount(pushes[..|pushes| - 1], table) + if pushes[|pushes| - 1].0 == table then 1 else 0
  }

  lemma {:induction false} PushCountIsLength<D>(pushes: seq<(nat, D)>, table: nat)
    ensures |EntriesFor(pushes, table)| == PushCount(pushes, table)
    decreases |pushes|
  {
    if |pushes| > 0 {
      PushCountIsLength(pushes[..|pushes| - 1], table);
    }
  }

  lemma PushCountSnoc<D>(pushes: seq<(nat, D)>, p: (nat, D), table: nat)
    ensures PushCount(pushes + [p], table) == PushCount(pushes, table) + if p.0 == table then 1 else 0
  {
    assert (pushes + [p])[..|pushes|] == pushes;
  }

  lemma {:induction false} PushCountAppend<D>(a: seq<(nat, D)>, b: seq<(nat, D)>, table: nat)
    ensures PushCount(a + b, table) == PushCount(a, table) + PushCount(b, table)
    decreases |b|
  {
    if |b| == 0 {
      assert a + b == a;
    } else {
      var n := |b| - 1;
      assert a + b == (a + b[..n]) + [b[n]];
      assert b == b[..n] + [b[n]];
      PushCountAppend(a, b[..n], table);
      PushCountSnoc(a + b[..n], b[n], table);
      PushCountSnoc(b[..n], b[n], table);
    }
  }

  lemma DistributedLength<D>(data: seq<seq<D>>, pushes: seq<(nat, D)>, numTables: nat, t: nat)
    requires Distributed(data, pushes, numTables) && t < numTables
    ensures |data[t]| == |EntriesFor(pushes, t)|
  {
  }

  /** `out` is `data` with the entries of `pushes` appended to their tables. */
  ghost predicate Appended<D>(out: seq<seq<D>>, data: seq<seq<D>>, pushes: seq<(nat, D)>)
  {
    |out| == |data| && forall t :: 0 <= t < |data| ==> out[t] == data[t] + EntriesFor(pushes, t)
  }

  lemma AppendedLength<D>(out: seq<seq<D>>, data: seq<seq<D>>, pushes: seq<(nat, D)>, t: nat)
    requires Appended(out, data, pushes) && t < |data|
    ensures |out[t]| == |data[t]| + PushCount(pushes, t)
  {
    PushCountIsLength(pushes, t);
  }

  lemma AppendedSnoc<D>(out: seq<seq<D>>, data: seq<seq<D>>, pushes: seq<(nat, D)>, p: (nat, D))
    requires Appended(out, data, pushes) && p.0 < |out|
    ensures Appended(out[p.0 := out[p.0] + [p.1]], data, pushes + [p])
  {
    forall t | 0 <= t < |data| ensures out[p.0 := out[p.0] + [p.1]][t] == data[t] + EntriesFor(pushes + [p], t) {
      EntriesForSnoc(pushes, p, t);
    }
  }

  lemma AppendedEmpty<D>(data: seq<seq<D>>)
    ensures Appended(data, data, [])
  {
  }

  lemma DistributedAppend<D>(data: seq<seq<D>>, out: seq<seq<D>>, pushes: seq<(nat, D)>,
                             more: seq<(nat, D)>, numTables: nat)
    requires Distributed(data, pushes, numTables) && Appended(out, data, more)
    ensures Distributed(out, pushes + more, numTables)
  {
    forall t | 0 <= t < numTables ensures out[t] == EntriesFor(pushes + more, t) {
      EntriesForAppend(pushes, more, t);
    }
  }

  lemma AppendedTrans<D>(a: seq<seq<D>>, b: seq<seq<D>>, c: seq<seq<D>>,
                         p: seq<(nat, D)>, q: seq<(nat, D)>)
    requires Appended(b, a, p) && Appended(c, b, q)
    ensures Appended(c, a, p + q)
  {
    forall t | 0 <= t < |a| ensures c[t] == a[t] + EntriesFor(p + q, t) {
      EntriesForAppend(p, q, t);
    }
  }
}
