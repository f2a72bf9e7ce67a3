/**
 * The table-level bookkeeping of the log-derivative lookup: how many helper
 * and Z columns each table carries (`num_ctl_helpers_zs_all`,
 * `num_ctl_helper_columns_by_table`), the consecutive grouping of looking
 * tables, and the distinct looking tables in first-appearance order.
 */
module LogUpTables {
  import opened MathUtil
  import opened LogUp

  /** The table of every entry. */
  function IdsOf(xs: seq<TableWithColumns>): (r: seq<nat>)
    ensures |r| == |xs| && forall k :: 0 <= k < |xs| ==> r[k] == xs[k].table
  {
    seq(|xs|, k requires 0 <= k < |xs| => xs[k].table)
  }

  /** How often `table` occurs in a lookup, looked table included. */
  function Appearances(ctl: CrossTableLookup, table: nat): nat
  {
    (if ctl.lookedTable.table == table then 1 else 0) + CountOf(ctl.lookingTables, table)
  }

  /** The number of entries naming `table`. */
  function CountOf(xs: seq<TableWithColumns>, table: nat): (r: nat)
    ensures r <= |xs|
  {
    if |xs| == 0 then 0 else CountOf(xs[..|xs| - 1], table) + (if xs[|xs| - 1].table == table then 1 else 0)
  }

  /** The count is the multiplicity of the table among the entries' tables. */
  lemma {:induction false} CountOfIsMultiplicity(xs: seq<TableWithColumns>, table: nat)
    ensures CountOf(xs, table) == multiset(IdsOf(xs))[table]
  {
    if |xs| > 0 {
      var n := |xs| - 1;
      CountOfIsMultiplicity(xs[..n], table);
      assert IdsOf(xs) == IdsOf(xs[..n]) + [xs[n].table];
    }
  }

  /** A table needs helper columns in a lookup only when it appears more than once. */
  function HelpersFor(appearances: nat, constraintDegree: nat): nat
    requires constraintDegree >= 2
  {
    if appearances > 1 then CeilDiv(appearances, constraintDegree - 1) else 0
  }

  /** The sum of the first `i` entries. */
  function SumTo(xs: seq<nat>, i: nat): nat
    requires i <= |xs|
  {
    if i == 0 then 0 else SumTo(xs, i - 1) + xs[i - 1]
  }

  /** The number of the first `i` lookups in which `table` appears at all. */
  function LookupsWith(ctls: seq<CrossTableLookup>, table: nat, i: nat): nat
    requires i <= |ctls|
  {
    if i == 0 then 0 else LookupsWith(ctls, table, i - 1) + (if Appearances(ctls[i - 1], table) > 0 then 1 else 0)
  }

  lemma {:induction false} SumToFrame(a: seq<nat>, b: seq<nat>, i: nat)
    requires i <= |a| && i <= |b| && forall k :: 0 <= k < i ==> a[k] == b[k]
    ensures SumTo(a, i) == SumTo(b, i)
  {
    if i > 0 {
      SumToFrame(a, b, i - 1);
    }
  }

  /**
   * `num_ctl_helpers_zs_all`: for one table, the helper columns it carries in
   * each lookup, and the totals of helper and Z columns over all lookups,
   * one set per challenge.
   */
  method NumCtlHelpersZsAll(ctls: seq<CrossTableLookup>, table: nat, numChallenges: nat, constraintDegree: nat)
    returns (numHelpers: nat, numZs: nat, byCtl: seq<nat>)
    requires constraintDegree >= 2
    ensures |byCtl| == |ctls|
    ensures forall i :: 0 <= i < |ctls| ==> byCtl[i] == HelpersFor(Appearances(ctls[i], table), constraintDegree)
    ensures numHelpers == SumTo(byCtl, |ctls|) * numChallenges
    ensures numZs == LookupsWith(ctls, table, |ctls|) * numChallenges
  {
    var helpers, zs;
    helpers, zs, byCtl := CountHelpersZs(ctls, table, constraintDegree);
    numHelpers := helpers * numChallenges;
    numZs := zs * numChallenges;
  }

  /** The loop of `num_ctl_helpers_zs_all`, before scaling by the number of challenges. */
  method CountHelpersZs(ctls: seq<CrossTableLookup>, table: nat, constraintDegree: nat)
    returns (helpers: nat, zs: nat, byCtl: seq<nat>)
    requires constraintDegree >= 2
    ensures |byCtl| == |ctls|
    ensures forall i :: 0 <= i < |ctls| ==> byCtl[i] == HelpersFor(Appearances(ctls[i], table), constraintDegree)
    ensures helpers == SumTo(byCtl, |ctls|)
    ensures zs == LookupsWith(ctls, table, |ctls|)
  {
    helpers, zs := 0, 0;
    byCtl := seq(|ctls|, _ => 0);
    for i := 0 to |ctls|
      invariant |byCtl| == |ctls|
      invariant forall k :: 0 <= k < i ==> byCtl[k] == HelpersFor(Appearances(ctls[k], table), constraintDegree)
      invariant forall k :: i <= k < |ctls| ==> byCtl[k] == 0
      invariant helpers == SumTo(byCtl, i)
      invariant zs == LookupsWith(ctls, table, i)
    {
      ghost var before := byCtl;
      var numAppearances := Appearances(ctls[i], table);
      if numAppearances > 1 {
        byCtl := byCtl[i := CeilDiv(numAppearances, constraintDegree - 1)];
        helpers := helpers + byCtl[i];
      }
      SumToFrame(before, byCtl, i);
      if numAppearances > 0 {
        zs := zs + 1;
      }
    }
  }

  // Consecutive grouping (`group_by`).

  function Flatten<T>(rs: seq<seq<T>>): seq<T>
  {
    if |rs| == 0 then [] else rs[0] + Flatten(rs[1..])
  }

  /** Every run is non-empty and all its entries name one table. */
  predicate IsRun(r: seq<TableWithColumns>)
  {
    |r| > 0 && forall m :: 0 <= m < |r| ==> r[m].table == r[0].table
  }

  /**
   * `group_by(|a| a.table)`: the maximal runs of consecutive entries naming
   * the same table.  A table whose entries are not adjacent forms several runs.
   */
  function Runs(xs: seq<TableWithColumns>): (r: seq<seq<TableWithColumns>>)
    ensures Flatten(r) == xs
    ensures forall j :: 0 <= j < |r| ==> |r[j]| > 0 && IsRun(r[j])
    ensures forall j :: 0 <= j < |r| - 1 ==> r[j][0].table != r[j + 1][0].table
    ensures |xs| > 0 ==> |r| > 0 && r[0][0] == xs[0]
  {
    if |xs| == 0 then []
    else
      var rest := Runs(xs[1..]);
      if |rest| > 0 && rest[0][0].table == xs[0].table then
        var r := [[xs[0]] + rest[0]] + rest[1..];
        assert r[1..] == rest[1..];
        assert Flatten(r) == [xs[0]] + rest[0] + Flatten(rest[1..]);
        r
      else
        [[xs[0]]] + rest
  }

  /** Each table's entries are consecutive, so it forms only one run. */
  predicate WellGrouped(xs: seq<TableWithColumns>)
  {
    var rs := Runs(xs);
    forall j, l :: 0 <= j < l < |rs| ==> rs[j][0].table != rs[l][0].table
  }

  /** The final value of `num_by_table` after processing the runs `rs` in order. */
  function ByTable(rs: seq<seq<TableWithColumns>>, numTables: nat, constraintDegree: nat): (r: seq<nat>)
    requires constraintDegree >= 2
    requires forall j :: 0 <= j < |rs| ==> |rs[j]| > 0 && rs[j][0].table < numTables
    ensures |r| == numTables
  {
    if |rs| == 0 then seq(numTables, _ => 0)
    else
      var before := ByTable(rs[..|rs| - 1], numTables, constraintDegree);
      var last := rs[|rs| - 1];
      if |last| > 1 then before[last[0].table := CeilDiv(|last|, constraintDegree - 1)] else before
  }

  predicate TablesBelow(xs: seq<TableWithColumns>, numTables: nat)
  {
    forall k :: 0 <= k < |xs| ==> xs[k].table < numTables
  }

  lemma RunsBelow(xs: seq<TableWithColumns>, numTables: nat)
    requires TablesBelow(xs, numTables)
    ensures forall j :: 0 <= j < |Runs(xs)| ==> |Runs(xs)[j]| > 0 && Runs(xs)[j][0].table < numTables
  {
    var rs: seq<seq<TableWithColumns>> := Runs(xs);
    forall j: int | 0 <= j < |rs| ensures rs[j][0].table < numTables {
      FlattenMember(rs, j, 0);
      FlattenIndex(xs, rs[j][0]);
    }
  }

  lemma FlattenIndex(xs: seq<TableWithColumns>, x: TableWithColumns)
    requires x in xs
    ensures exists k :: 0 <= k < |xs| && xs[k] == x
  {
  }

  lemma FlattenMember<T>(rs: seq<seq<T>>, j: nat, m: nat)
    requires j < |rs| && m < |rs[j]|
    ensures rs[j][m] in Flatten(rs)
  {
    if j > 0 {
      FlattenMember(rs[1..], j - 1, m);
    }
  }

  /**
   * `num_ctl_helper_columns_by_table`: for each lookup, the helper columns of
   * each table, from the consecutive groups of its looking tables.
   */
  method NumCtlHelperColumnsByTable(ctls: seq<CrossTableLookup>, constraintDegree: nat, numTables: nat)
    returns (res: seq<seq<nat>>)
    requires constraintDegree >= 2
    requires forall i :: 0 <= i < |ctls| ==> TablesBelow(ctls[i].lookingTables, numTables)
    ensures |res| == |ctls|
    ensures forall i :: 0 <= i < |ctls| ==>
      RunsFit(ctls[i].lookingTables, numTables)
      && res[i] == ByTable(Runs(ctls[i].lookingTables), numTables, constraintDegree)
  {
    res := seq(|ctls|, _ => seq(numTables, _ => 0));
    for i := 0 to |ctls|
      invariant |res| == |ctls|
      invariant forall k :: 0 <= k < i ==>
        RunsFit(ctls[k].lookingTables, numTables)
        && res[k] == ByTable(Runs(ctls[k].lookingTables), numTables, constraintDegree)
    {
      RunsBelow(ctls[i].lookingTables, numTables);
      var numByTable := CountRuns(Runs(ctls[i].lookingTables), numTables, constraintDegree);
      res := res[i := numByTable];
    }
  }

  /** The inner loop of `num_ctl_helper_columns_by_table`: one count per table, set by the table's last run of two or more. */
  method CountRuns(groups: seq<seq<TableWithColumns>>, numTables: nat, constraintDegree: nat) returns (numByTable: seq<nat>)
    requires constraintDegree >= 2
    requires forall j :: 0 <= j < |groups| ==> |groups[j]| > 0 && groups[j][0].table < numTables
    ensures numByTable == ByTable(groups, numTables, constraintDegree)
  {
    numByTable := seq(numTables, _ => 0);
    for g := 0 to |groups|
      invariant numByTable == ByTable(groups[..g], numTables, constraintDegree)
    {
      assert groups[..g + 1][..g] == groups[..g];
      var sum := |groups[g]|;
      if sum > 1 {
        numByTable := numByTable[groups[g][0].table := CeilDiv(sum, constraintDegree - 1)];
      }
    }
    assert groups[..|groups|] == groups;
  }

  predicate RunsFit(xs: seq<TableWithColumns>, numTables: nat)
  {
    forall j :: 0 <= j < |Runs(xs)| ==> |Runs(xs)[j]| > 0 && Runs(xs)[j][0].table < numTables
  }

  // The two counts agree on well-grouped lookups.

  /** The entries of all runs naming `table`. */
  function RunCount(rs: seq<seq<TableWithColumns>>, table: nat): nat
  {
    if |rs| == 0 then 0
    else RunCount(rs[..|rs| - 1], table) + (if |rs[|rs| - 1]| > 0 && rs[|rs| - 1][0].table == table then |rs[|rs| - 1]| else 0)
  }

  lemma {:induction false} FlattenSnoc<T>(rs: seq<seq<T>>, r: seq<T>)
    ensures Flatten(rs + [r]) == Flatten(rs) + r
  {
    if |rs| > 0 {
      assert (rs + [r])[1..] == rs[1..] + [r];
      FlattenSnoc(rs[1..], r);
    }
  }

  lemma {:induction false} CountOfAppend(xs: seq<TableWithColumns>, ys: seq<TableWithColumns>, table: nat)
    ensures CountOf(xs + ys, table) == CountOf(xs, table) + CountOf(ys, table)
  {
    if |ys| > 0 {
      var n := |ys| - 1;
      var zs := xs + ys;
      assert zs[..|zs| - 1] == xs + ys[..n];
      assert zs[|zs| - 1] == ys[n];
      CountOfAppend(xs, ys[..n], table);
      assert CountOf(zs, table) == CountOf(xs + ys[..n], table) + (if ys[n].table == table then 1 else 0);
    } else {
      assert xs + ys == xs;
    }
  }

  lemma {:induction false} CountOfRun(r: seq<TableWithColumns>, table: nat)
    requires IsRun(r)
    ensures CountOf(r, table) == if r[0].table == table then |r| else 0
  {
    if |r| > 1 {
      var n := |r| - 1;
      assert IsRun(r[..n]) && r[..n][0] == r[0];
      CountOfRun(r[..n], table);
    }
  }

  /** Counting over the runs counts over the entries they split. */
  lemma {:induction false} RunCountIsCount(rs: seq<seq<TableWithColumns>>, table: nat)
    requires forall j :: 0 <= j < |rs| ==> IsRun(rs[j])
    ensures RunCount(rs, table) == CountOf(Flatten(rs), table)
  {
    if |rs| > 0 {
      var n := |rs| - 1;
      RunCountIsCount(rs[..n], table);
      assert rs == rs[..n] + [rs[n]];
      FlattenSnoc(rs[..n], rs[n]);
      CountOfAppend(Flatten(rs[..n]), rs[n], table);
      CountOfRun(rs[n], table);
    }
  }

  lemma {:induction false} RunCountAbsent(rs: seq<seq<TableWithColumns>>, table: nat)
    requires forall j :: 0 <= j < |rs| ==> |rs[j]| > 0 && rs[j][0].table != table
    ensures RunCount(rs, table) == 0
  {
    if |rs| > 0 {
      RunCountAbsent(rs[..|rs| - 1], table);
    }
  }

  /** With one run per table, each table's final entry is its helper count. */
  lemma {:induction false} ByTableOfDistinctRuns(rs: seq<seq<TableWithColumns>>, numTables: nat, constraintDegree: nat, table: nat)
    requires constraintDegree >= 2 && table < numTables
    requires forall j :: 0 <= j < |rs| ==> |rs[j]| > 0 && rs[j][0].table < numTables
    requires forall j, l :: 0 <= j < l < |rs| ==> rs[j][0].table != rs[l][0].table
    ensures ByTable(rs, numTables, constraintDegree)[table] == HelpersFor(RunCount(rs, table), constraintDegree)
  {
    if |rs| > 0 {
      var n := |rs| - 1;
      ByTableOfDistinctRuns(rs[..n], numTables, constraintDegree, table);
      if rs[n][0].table == table {
        RunCountAbsent(rs[..n], table);
      }
    }
  }

  /**
   * When the looking tables are grouped by table and the looked table is not
   * among them, `num_ctl_helper_columns_by_table` gives every table exactly the
   * helper count `num_ctl_helpers_zs_all` gives it.
   */
  lemma ByTableAgrees(ctl: CrossTableLookup, numTables: nat, constraintDegree: nat, table: nat)
    requires constraintDegree >= 2 && table < numTables
    requires TablesBelow(ctl.lookingTables, numTables)
    requires WellGrouped(ctl.lookingTables)
    requires forall k :: 0 <= k < |ctl.lookingTables| ==> ctl.lookingTables[k].table != ctl.lookedTable.table
    ensures RunsFit(ctl.lookingTables, numTables)
    ensures ByTable(Runs(ctl.lookingTables), numTables, constraintDegree)[table]
         == HelpersFor(Appearances(ctl, table), constraintDegree)
  {
    var xs := ctl.lookingTables;
    var rs := Runs(xs);
    RunsBelow(xs, numTables);
    ByTableOfDistinctRuns(rs, numTables, constraintDegree, table);
    RunCountIsCount(rs, table);
    if ctl.lookedTable.table == table {
      CountOfAbsent(xs, table);
    }
  }

  lemma {:induction false} CountOfAbsent(xs: seq<TableWithColumns>, table: nat)
    requires forall k :: 0 <= k < |xs| ==> xs[k].table != table
    ensures CountOf(xs, table) == 0
  {
    if |xs| > 0 {
      CountOfAbsent(xs[..|xs| - 1], table);
    }
  }
}
