/**
 * `testutils::check_ctl` of the log-derivative engine: a direct oracle for a
 * cross-table lookup.  Every selected row of every looking table and of the
 * looked table is filed under its vector of column values; the lookup holds
 * when each vector is filed equally often on both sides.
 */
module CtlOracle {
  import opened Goldilocks
  import opened Wrappers
  import opened Columns
  import opened LogUp
  import opened LogUpData

  /** `(table, row index)`: where a row vector was found. */
  type Location = (nat, nat)

  /** The test's `MultiSet`: a map from a row vector to the places it was found. */
  type Locations = map<seq<Felt>, seq<Location>>

  datatype OracleError =
    | FilterNotBinary(table: nat, rowIndex: nat)
    | CountMismatch(values: seq<Felt>, looking: nat, looked: nat)

  /** `multiset.get(row).unwrap_or(empty)`. */
  function Located(m: Locations, row: seq<Felt>): seq<Location>
  {
    if row in m then m[row] else []
  }

  /** `entry(row).or_default()` only creates a key to push to it, so no key maps to nothing. */
  ghost predicate NoEmptyKey(m: Locations)
  {
    forall row :: row in m ==> |m[row]| > 0
  }

  /** The filter of `e` on every row of its table; an absent filter is 1. */
  function FilterColumn(traces: seq<Trace>, e: TableWithColumns): (r: seq<Felt>)
    requires EntryFits(traces, e)
    ensures |r| == Height(traces[e.table])
  {
    var t := traces[e.table];
    seq(Height(t), i requires 0 <= i < Height(t) => FilterAt(PairOf(e), t, i))
  }

  /** The columns of `e` evaluated on every row of its table. */
  function RowVectors(traces: seq<Trace>, e: TableWithColumns): (r: seq<seq<Felt>>)
    requires EntryFits(traces, e)
    ensures |r| == Height(traces[e.table])
  {
    var t := traces[e.table];
    seq(Height(t), i requires 0 <= i < Height(t) => EvalsAt(PairOf(e), t, i))
  }

  /** The rows below `n` whose filter is 1, with their row vectors, in row order. */
  function SelectedFrom(filters: seq<Felt>, rows: seq<seq<Felt>>, table: nat, n: nat): seq<(seq<Felt>, Location)>
    requires n <= |filters| && n <= |rows|
  {
    if n == 0 then []
    else SelectedFrom(filters, rows, table, n - 1) + if filters[n - 1] == 1 then [(rows[n - 1], (table, n - 1))] else []
  }

  /** The rows below `n` of `e`'s table whose filter is 1, with their row vectors, in row order. */
  function SelectionsBelow(traces: seq<Trace>, e: TableWithColumns, n: nat): seq<(seq<Felt>, Location)>
    requires EntryFits(traces, e) && n <= Height(traces[e.table])
  {
    if n == 0 then []
    else
      var t := traces[e.table];
      SelectionsBelow(traces, e, n - 1)
        + if FilterAt(PairOf(e), t, n - 1) == 1 then [(EvalsAt(PairOf(e), t, n - 1), (e.table, n - 1))] else []
  }

  /** The selected rows of `e`'s table. */
  function Selections(traces: seq<Trace>, e: TableWithColumns): seq<(seq<Felt>, Location)>
    requires EntryFits(traces, e)
  {
    SelectionsBelow(traces, e, Height(traces[e.table]))
  }

  lemma {:induction false} SelectedFromColumns(traces: seq<Trace>, e: TableWithColumns, n: nat)
    requires EntryFits(traces, e) && n <= Height(traces[e.table])
    ensures SelectedFrom(FilterColumn(traces, e), RowVectors(traces, e), e.table, n) == SelectionsBelow(traces, e, n)
  {
    if n > 0 {
      SelectedFromColumns(traces, e, n - 1);
    }
  }

  /** The selections of the first `k` tables of `xs`, one table after the other. */
  function SelectionsOf(traces: seq<Trace>, xs: seq<TableWithColumns>, k: nat): seq<(seq<Felt>, Location)>
    requires k <= |xs| && forall e :: e in xs ==> EntryFits(traces, e)
  {
    if k == 0 then []
    else
      assert xs[k - 1] in xs;
      SelectionsOf(traces, xs, k - 1) + Selections(traces, xs[k - 1])
  }

  /** How many selections carry the vector `row`. */
  function Occurrences(sel: seq<(seq<Felt>, Location)>, row: seq<Felt>): nat
  {
    if |sel| == 0 then 0
    else Occurrences(sel[..|sel| - 1], row) + if sel[|sel| - 1].0 == row then 1 else 0
  }

  /** The row vectors alone. */
  function Vectors(sel: seq<(seq<Felt>, Location)>): (r: seq<seq<Felt>>)
    ensures |r| == |sel| && forall k :: 0 <= k < |sel| ==> r[k] == sel[k].0
  {
    seq(|sel|, k requires 0 <= k < |sel| => sel[k].0)
  }

  lemma OccurrencesSnoc(sel: seq<(seq<Felt>, Location)>, s: (seq<Felt>, Location), row: seq<Felt>)
    ensures Occurrences(sel + [s], row) == Occurrences(sel, row) + if s.0 == row then 1 else 0
  {
    assert (sel + [s])[..|sel|] == sel;
  }

  lemma {:induction false} OccurrencesAppend(a: seq<(seq<Felt>, Location)>, b: seq<(seq<Felt>, Location)>, row: seq<Felt>)
    ensures Occurrences(a + b, row) == Occurrences(a, row) + Occurrences(b, row)
    decreases |b|
  {
    if |b| == 0 {
      assert a + b == a;
    } else {
      var b' := b[..|b| - 1];
      assert a + b == (a + b') + [b[|b| - 1]];
      assert b == b' + [b[|b| - 1]];
      OccurrencesAppend(a, b', row);
      OccurrencesSnoc(a + b', b[|b| - 1], row);
      OccurrencesSnoc(b', b[|b| - 1], row);
    }
  }

  /** Under every key, `cur` holds as many locations as `base` plus the selections `sel` with that vector. */
  ghost predicate Filed(cur: Locations, base: Locations, sel: seq<(seq<Felt>, Location)>)
  {
    forall row :: |Located(cur, row)| == |Located(base, row)| + Occurrences(sel, row)
  }

  /** One `push` after `entry(row).or_default()` files one more selection. */
  lemma FiledPush(cur: Locations, base: Locations, sel: seq<(seq<Felt>, Location)>, row: seq<Felt>, loc: Location)
    requires Filed(cur, base, sel) && NoEmptyKey(cur)
    ensures Filed(cur[row := Located(cur, row) + [loc]], base, sel + [(row, loc)])
    ensures NoEmptyKey(cur[row := Located(cur, row) + [loc]])
  {
    var next := cur[row := Located(cur, row) + [loc]];
    forall row' ensures |Located(next, row')| == |Located(base, row')| + Occurrences(sel + [(row, loc)], row') {
      OccurrencesSnoc(sel, (row, loc), row');
    }
  }

  /** Filing one selection list after another files their concatenation. */
  lemma FiledTrans(a: Locations, b: Locations, c: Locations, s: seq<(seq<Felt>, Location)>, u: seq<(seq<Felt>, Location)>)
    requires Filed(b, a, s) && Filed(c, b, u)
    ensures Filed(c, a, s + u)
  {
    forall row ensures |Located(c, row)| == |Located(a, row)| + Occurrences(s + u, row) {
      OccurrencesAppend(s, u, row);
    }
  }

  /** The number of places a vector was filed is its multiplicity among the selected vectors. */
  lemma {:induction false} OccurrencesCount(sel: seq<(seq<Felt>, Location)>, row: seq<Felt>)
    ensures Occurrences(sel, row) == multiset(Vectors(sel))[row]
  {
    if |sel| > 0 {
      var init := sel[..|sel| - 1];
      OccurrencesCount(init, row);
      assert Vectors(sel) == Vectors(init) + [sel[|sel| - 1].0];
    }
  }

  /** Both sides select every row vector equally often. */
  ghost predicate SameCounts(looking: seq<(seq<Felt>, Location)>, looked: seq<(seq<Felt>, Location)>)
  {
    forall row :: Occurrences(looking, row) == Occurrences(looked, row)
  }

  /** Equal counts for every vector is multiset equality of the selected vectors. */
  lemma SameCountsIffSameMultiset(looking: seq<(seq<Felt>, Location)>, looked: seq<(seq<Felt>, Location)>)
    ensures SameCounts(looking, looked) <==> multiset(Vectors(looking)) == multiset(Vectors(looked))
  {
    forall row ensures Occurrences(looking, row) == multiset(Vectors(looking))[row]
                    && Occurrences(looked, row) == multiset(Vectors(looked))[row] {
      OccurrencesCount(looking, row);
      OccurrencesCount(looked, row);
    }
  }

  /** The first `n` filter values are 0 or 1. */
  predicate BinaryBelow(filters: seq<Felt>, n: nat)
    requires n <= |filters|
  {
    forall i :: 0 <= i < n ==> IsBinary(filters[i])
  }

  /** Some row of `e`'s table has a filter other than 0 or 1. */
  predicate NonBinaryAt(traces: seq<Trace>, e: TableWithColumns, row: nat)
  {
    EntryFits(traces, e) && row < Height(traces[e.table]) && !IsBinary(FilterAt(PairOf(e), traces[e.table], row))
  }

  lemma EntryBinaryIff(traces: seq<Trace>, e: TableWithColumns)
    requires EntryFits(traces, e)
    ensures EntryBinary(traces, e) <==> BinaryBelow(FilterColumn(traces, e), Height(traces[e.table]))
  {
    var t := traces[e.table];
    if BinaryBelow(FilterColumn(traces, e), Height(t)) {
      forall p, d | p in [PairOf(e)] && 0 <= d < Height(t) ensures IsBinary(FilterAt(p, t, d)) {
        assert p == PairOf(e);
        assert FilterColumn(traces, e)[d] == FilterAt(p, t, d);
      }
    } else {
      var d :| 0 <= d < Height(t) && !IsBinary(FilterColumn(traces, e)[d]);
      assert PairOf(e) in [PairOf(e)];
    }
  }

  /**
   * The loop of `process_table` over the filter values and row vectors of
   * one table: a selected row is pushed under its vector, any filter other
   * than 0 or 1 stops with the row's index.
   */
  method FileRows(filters: seq<Felt>, rows: seq<seq<Felt>>, table: nat, m: Locations)
    returns (r: Result<Locations, nat>)
    requires |rows| == |filters| && NoEmptyKey(m)
    ensures r.Ok? <==> BinaryBelow(filters, |filters|)
    ensures r.Ok? ==> NoEmptyKey(r.value) && Filed(r.value, m, SelectedFrom(filters, rows, table, |filters|))
    ensures r.Err? ==> r.error < |filters| && !IsBinary(filters[r.error])
  {
    var cur: Locations := m;
    assert Filed(cur, m, []) by {
      forall row ensures |Located(cur, row)| == |Located(m, row)| + Occurrences([], row) { }
    }
    var i: nat := 0;
    while i < |filters|
      invariant i <= |filters|
      invariant BinaryBelow(filters, i)
      invariant NoEmptyKey(cur)
      invariant Filed(cur, m, SelectedFrom(filters, rows, table, i))
    {
      var filter := filters[i];
      if filter != 1 && filter != 0 {
        assert !IsBinary(filters[i]);
        return Err(i);
      }
      cur := FileRow(filters, rows, table, m, cur, i);
      i := i + 1;
    }
    return Ok(cur);
  }

  /** One row of that loop: the row's vector is pushed when its filter is 1. */
  method FileRow(filters: seq<Felt>, rows: seq<seq<Felt>>, table: nat, m: Locations, cur: Locations, i: nat)
    returns (next: Locations)
    requires |rows| == |filters| && i < |filters| && IsBinary(filters[i])
    requires NoEmptyKey(cur) && Filed(cur, m, SelectedFrom(filters, rows, table, i))
    ensures NoEmptyKey(next) && Filed(next, m, SelectedFrom(filters, rows, table, i + 1))
  {
    if filters[i] == 1 {
      var row := rows[i];
      var here: Location := (table, i);
      var locs: seq<Location> := if row in cur then cur[row] else [];
      assert locs == Located(cur, row);
      FiledPush(cur, m, SelectedFrom(filters, rows, table, i), row, here);
      assert SelectedFrom(filters, rows, table, i + 1) == SelectedFrom(filters, rows, table, i) + [(row, here)];
      next := cur[row := locs + [here]];
    } else {
      assert SelectedFrom(filters, rows, table, i + 1) == SelectedFrom(filters, rows, table, i) + [];
      assert SelectedFrom(filters, rows, table, i + 1) == SelectedFrom(filters, rows, table, i);
      next := cur;
    }
  }

  /**
   * `process_table`: files every selected row of `e`'s table into `m`.  A
   * filter other than 0 or 1 is the test's `Non-binary filter?` assertion.
   */
  method ProcessTable(traces: seq<Trace>, e: TableWithColumns, m: Locations) returns (r: Result<Locations, OracleError>)
    requires EntryFits(traces, e) && NoEmptyKey(m)
    ensures r.Ok? <==> EntryBinary(traces, e)
    ensures r.Ok? ==> NoEmptyKey(r.value)
    ensures r.Ok? ==> Filed(r.value, m, Selections(traces, e))
    ensures r.Err? ==> r.error.FilterNotBinary? && r.error.table == e.table && NonBinaryAt(traces, e, r.error.rowIndex)
  {
    EntryBinaryIff(traces, e);
    var filters := FilterColumn(traces, e);
    var filed := FileRows(filters, RowVectors(traces, e), e.table, m);
    SelectedFromColumns(traces, e, Height(traces[e.table]));
    if filed.Err? {
      assert filters[filed.error] == FilterAt(PairOf(e), traces[e.table], filed.error);
      return Err(FilterNotBinary(e.table, filed.error));
    }
    return Ok(filed.value);
  }

  /** Every looking table has filters that are 0 or 1. */
  predicate LookingBinaryBelow(traces: seq<Trace>, xs: seq<TableWithColumns>, k: nat)
    requires k <= |xs|
  {
    k == 0 || (LookingBinaryBelow(traces, xs, k - 1) && EntryBinary(traces, xs[k - 1]))
  }

  lemma {:induction false} LookingBinaryBelowIff(traces: seq<Trace>, xs: seq<TableWithColumns>, k: nat)
    requires k <= |xs|
    ensures LookingBinaryBelow(traces, xs, k) <==> forall j :: 0 <= j < k ==> EntryBinary(traces, xs[j])
  {
    if k > 0 {
      LookingBinaryBelowIff(traces, xs, k - 1);
    }
  }

  /** The `for table in looking_tables` loop: all looking tables filed into one map. */
  method ProcessLooking(traces: seq<Trace>, xs: seq<TableWithColumns>) returns (r: Result<Locations, OracleError>)
    requires forall e :: e in xs ==> EntryFits(traces, e)
    ensures r.Ok? <==> LookingBinaryBelow(traces, xs, |xs|)
    ensures r.Ok? ==> NoEmptyKey(r.value)
    ensures r.Ok? ==> Filed(r.value, map[], SelectionsOf(traces, xs, |xs|))
    ensures r.Err? ==> r.error.FilterNotBinary? && exists e :: e in xs && NonBinaryAt(traces, e, r.error.rowIndex)
  {
    var cur: Locations := map[];
    assert Filed(cur, map[], []) by {
      forall row ensures |Located(cur, row)| == |Located(map[], row)| + Occurrences([], row) { }
    }
    var k: nat := 0;
    while k < |xs|
      invariant k <= |xs|
      invariant LookingBinaryBelow(traces, xs, k)
      invariant NoEmptyKey(cur)
      invariant Filed(cur, map[], SelectionsOf(traces, xs, k))
    {
      assert xs[k] in xs;
      var step := ProcessTable(traces, xs[k], cur);
      if step.Err? {
        assert !EntryBinary(traces, xs[k]);
        LookingBinaryBelowIff(traces, xs, k + 1);
        LookingBinaryBelowIff(traces, xs, |xs|);
        return Err(step.error);
      }
      FiledTrans(map[], cur, step.value, SelectionsOf(traces, xs, k), Selections(traces, xs[k]));
      cur := step.value;
      k := k + 1;
    }
    return Ok(cur);
  }

  /** Some key of `a` whose count in `b` differs, if there is one; `HashMap` order is unspecified. */
  method FindMismatch(a: Locations, b: Locations) returns (r: Option<seq<Felt>>)
    ensures r.None? <==> forall row :: row in a ==> |Located(a, row)| == |Located(b, row)|
    ensures r.Some? ==> r.value in a && |Located(a, r.value)| != |Located(b, r.value)|
  {
    var keys := a.Keys;
    while keys != {}
      invariant keys <= a.Keys
      invariant forall row :: row in a && row !in keys ==> |Located(a, row)| == |Located(b, row)|
      decreases keys
    {
      var row :| row in keys;
      if |Located(a, row)| != |Located(b, row)| {
        return Some(row);
      }
      keys := keys - {row};
    }
    return None;
  }

  /** The selected rows of all looking tables and of the looked table. */
  function LookingSelections(traces: seq<Trace>, ctl: CrossTableLookup): seq<(seq<Felt>, Location)>
    requires LookupFits(traces, ctl)
  {
    SelectionsOf(traces, ctl.lookingTables, |ctl.lookingTables|)
  }

  function LookedSelections(traces: seq<Trace>, ctl: CrossTableLookup): seq<(seq<Felt>, Location)>
    requires LookupFits(traces, ctl)
  {
    Selections(traces, ctl.lookedTable)
  }

  /** What `check_ctl` accepts: binary filters, and each row vector selected equally often on both sides. */
  ghost predicate CtlHolds(traces: seq<Trace>, ctl: CrossTableLookup)
    requires LookupFits(traces, ctl)
  {
    LookupBinary(traces, ctl) && SameCounts(LookingSelections(traces, ctl), LookedSelections(traces, ctl))
  }

  /** The lookup holds exactly when both sides select the same multiset of row vectors. */
  lemma CtlHoldsIffSameMultiset(traces: seq<Trace>, ctl: CrossTableLookup)
    requires LookupFits(traces, ctl)
    ensures CtlHolds(traces, ctl)
        <==> LookupBinary(traces, ctl)
             && multiset(Vectors(LookingSelections(traces, ctl))) == multiset(Vectors(LookedSelections(traces, ctl)))
  {
    SameCountsIffSameMultiset(LookingSelections(traces, ctl), LookedSelections(traces, ctl));
  }

  lemma LookupBinaryIff(traces: seq<Trace>, ctl: CrossTableLookup)
    requires LookupFits(traces, ctl)
    ensures LookupBinary(traces, ctl)
        <==> LookingBinaryBelow(traces, ctl.lookingTables, |ctl.lookingTables|) && EntryBinary(traces, ctl.lookedTable)
  {
    LookingBinaryBelowIff(traces, ctl.lookingTables, |ctl.lookingTables|);
    if LookingBinaryBelow(traces, ctl.lookingTables, |ctl.lookingTables|) {
      forall e | e in ctl.lookingTables ensures EntryBinary(traces, e) {
        var j :| 0 <= j < |ctl.lookingTables| && ctl.lookingTables[j] == e;
      }
    }
  }

  /**
   * `check_ctl`: passes exactly when every filter is binary and each selected
   * row vector occurs as often among the looking tables as in the looked table.
   */
  method CheckCtl(traces: seq<Trace>, ctl: CrossTableLookup) returns (r: Result<(), OracleError>)
    requires LookupFits(traces, ctl)
    ensures r.Ok? <==> CtlHolds(traces, ctl)
    ensures r.Err? && r.error.CountMismatch? ==>
              LookupBinary(traces, ctl)
              && r.error.looking == Occurrences(LookingSelections(traces, ctl), r.error.values)
              && r.error.looked == Occurrences(LookedSelections(traces, ctl), r.error.values)
              && r.error.looking != r.error.looked
    ensures r.Err? && r.error.FilterNotBinary? ==> !LookupBinary(traces, ctl)
  {
    LookupBinaryIff(traces, ctl);
    var looking, looked := LookingSelections(traces, ctl), LookedSelections(traces, ctl);
    var lookingMap := ProcessLooking(traces, ctl.lookingTables);
    if lookingMap.Err? {
      return Err(lookingMap.error);
    }
    var lookedMap := ProcessTable(traces, ctl.lookedTable, map[]);
    if lookedMap.Err? {
      return Err(lookedMap.error);
    }
    var a, b := lookingMap.value, lookedMap.value;
    assert forall row :: |Located(a, row)| == Occurrences(looking, row) && |Located(b, row)| == Occurrences(looked, row) by {
      forall row ensures |Located(a, row)| == Occurrences(looking, row) && |Located(b, row)| == Occurrences(looked, row) {
        assert Located(map[], row) == [];
      }
    }
    var first := FindMismatch(a, b);
    if first.Some? {
      var row := first.value;
      return Err(CountMismatch(row, |Located(a, row)|, |Located(b, row)|));
    }
    var second := FindMismatch(b, a);
    if second.Some? {
      var row := second.value;
      return Err(CountMismatch(row, |Located(a, row)|, |Located(b, row)|));
    }
    assert SameCounts(looking, looked) by {
      forall row ensures Occurrences(looking, row) == Occurrences(looked, row) {
        if row !in a && row !in b {
          assert Located(a, row) == [] && Located(b, row) == [];
        }
      }
    }
    return Ok(());
  }

  /** `check_ctls`: every lookup in order; the first that fails is reported with its index. */
  method CheckCtls(traces: seq<Trace>, ctls: seq<CrossTableLookup>) returns (r: Result<(), (nat, OracleError)>)
    requires forall i :: 0 <= i < |ctls| ==> LookupFits(traces, ctls[i])
    ensures r.Ok? <==> forall i :: 0 <= i < |ctls| ==> CtlHolds(traces, ctls[i])
    ensures r.Err? ==> r.error.0 < |ctls| && !CtlHolds(traces, ctls[r.error.0])
                       && forall i :: 0 <= i < r.error.0 ==> CtlHolds(traces, ctls[i])
  {
    var i: nat := 0;
    while i < |ctls|
      invariant i <= |ctls|
      invariant forall k :: 0 <= k < i ==> CtlHolds(traces, ctls[k])
    {
      var one := CheckCtl(traces, ctls[i]);
      if one.Err? {
        return Err((i, one.error));
      }
      i := i + 1;
    }
    return Ok(());
  }
}
