/**
 * `testutils::check_ctl` of the grand-product engine.  The algorithm is the
 * one of the log-derivative engine's oracle; only a lookup side's filter
 * differs, an optional single column instead of a `Filter`.  A side is
 * carried over with its column as a one-column `Filter`, which evaluates to
 * the column on every row, and the oracle is run on the result.
 */
module GrandProductOracle {
  import opened Goldilocks
  import opened Wrappers
  import opened Columns
  import GP = GrandProduct
  import GPD = GrandProductData
  import L = LogUp
  import LD = LogUpData
  import O = CtlOracle

  /** A side of this engine as a side of the log-derivative engine. */
  function AsFiltered(e: GP.TableWithColumns): (r: L.TableWithColumns)
    ensures r.table == e.table && r.columns == e.columns
    ensures r.filter.None? <==> e.filterColumn.None?
  {
    L.TableWithColumns(e.table, e.columns, if e.filterColumn.Some? then Some(NewSimpleFilter(e.filterColumn.value)) else None)
  }

  function AsFilteredAll(xs: seq<GP.TableWithColumns>): (r: seq<L.TableWithColumns>)
    ensures |r| == |xs| && forall k :: 0 <= k < |xs| ==> r[k] == AsFiltered(xs[k])
  {
    seq(|xs|, k requires 0 <= k < |xs| => AsFiltered(xs[k]))
  }

  function AsFilteredLookup(ctl: GP.CrossTableLookup): L.CrossTableLookup
  {
    L.CrossTableLookup(AsFilteredAll(ctl.lookingTables), AsFiltered(ctl.lookedTable))
  }

  /** A one-column filter is that column, on every row of the table. */
  lemma SimpleFilterEvalTable(col: Column, t: Trace, row: nat)
    requires IsTrace(t) && row < Height(t) && Fits(col, |t|)
    ensures FilterFits(NewSimpleFilter(col), |t|)
    ensures FilterEvalTable(NewSimpleFilter(col), t, row) == EvalTable(col, t, row)
  {
    var e := EvalTable(col, t, row);
    assert seq(1, k requires 0 <= k < 1 => EvalTable(NewSimpleFilter(col).constants[k], t, row)) == [e];
    assert [e][..0] == [];
  }

  lemma SimpleFilterFits(col: Column, width: nat)
    requires Fits(col, width)
    ensures FilterFits(NewSimpleFilter(col), width)
  {
  }

  /** The carried-over side fits its table and has the same filter and row vectors on every row. */
  lemma SideAgrees(t: Trace, e: GP.TableWithColumns, row: nat)
    requires IsTrace(t) && row < Height(t) && GP.SideFits(e.columns, e.filterColumn, |t|)
    ensures L.PairFits(L.PairOf(AsFiltered(e)), |t|)
    ensures L.FilterAt(L.PairOf(AsFiltered(e)), t, row) == GP.FilterAt(t, e.filterColumn, row)
    ensures L.EvalsAt(L.PairOf(AsFiltered(e)), t, row) == GP.EvalsAt(t, e.columns, row)
  {
    if e.filterColumn.Some? {
      SimpleFilterEvalTable(e.filterColumn.value, t, row);
    }
  }

  lemma EntryFitsCarries(traces: seq<Trace>, e: GP.TableWithColumns)
    requires GPD.EntryFits(traces, e)
    ensures LD.EntryFits(traces, AsFiltered(e))
  {
    if e.filterColumn.Some? {
      SimpleFilterFits(e.filterColumn.value, |traces[e.table]|);
    }
  }

  lemma LookupFitsCarries(traces: seq<Trace>, ctl: GP.CrossTableLookup)
    requires GPD.LookupFits(traces, ctl)
    ensures LD.LookupFits(traces, AsFilteredLookup(ctl))
  {
    var c := AsFilteredLookup(ctl);
    forall e | e in c.lookingTables ensures LD.EntryFits(traces, e) {
      var k :| 0 <= k < |c.lookingTables| && c.lookingTables[k] == e;
      EntryFitsCarries(traces, ctl.lookingTables[k]);
    }
    EntryFitsCarries(traces, ctl.lookedTable);
  }

  // The selected rows, in this engine's terms.

  /** The rows below `n` of `e`'s table whose filter is 1, with their row vectors, in row order. */
  function SelectionsBelow(traces: seq<Trace>, e: GP.TableWithColumns, n: nat): seq<(seq<Felt>, O.Location)>
    requires GPD.EntryFits(traces, e) && n <= Height(traces[e.table])
  {
    if n == 0 then []
    else
      var t := traces[e.table];
      SelectionsBelow(traces, e, n - 1)
        + if GP.FilterAt(t, e.filterColumn, n - 1) == 1 then [(GP.EvalsAt(t, e.columns, n - 1), (e.table, n - 1))] else []
  }

  function Selections(traces: seq<Trace>, e: GP.TableWithColumns): seq<(seq<Felt>, O.Location)>
    requires GPD.EntryFits(traces, e)
  {
    SelectionsBelow(traces, e, Height(traces[e.table]))
  }

  /** The selections of the first `k` looking tables, one table after the other. */
  function SelectionsOf(traces: seq<Trace>, xs: seq<GP.TableWithColumns>, k: nat): seq<(seq<Felt>, O.Location)>
    requires k <= |xs| && forall j :: 0 <= j < |xs| ==> GPD.EntryFits(traces, xs[j])
  {
    if k == 0 then [] else SelectionsOf(traces, xs, k - 1) + Selections(traces, xs[k - 1])
  }

  function LookingSelections(traces: seq<Trace>, ctl: GP.CrossTableLookup): seq<(seq<Felt>, O.Location)>
    requires GPD.LookupFits(traces, ctl)
  {
    SelectionsOf(traces, ctl.lookingTables, |ctl.lookingTables|)
  }

  function LookedSelections(traces: seq<Trace>, ctl: GP.CrossTableLookup): seq<(seq<Felt>, O.Location)>
    requires GPD.LookupFits(traces, ctl)
  {
    Selections(traces, ctl.lookedTable)
  }

  /** What `check_ctl` accepts: binary filters, and each row vector selected equally often on both sides. */
  ghost predicate CtlHolds(traces: seq<Trace>, ctl: GP.CrossTableLookup)
    requires GPD.LookupFits(traces, ctl)
  {
    GPD.LookupBinary(traces, ctl) && O.SameCounts(LookingSelections(traces, ctl), LookedSelections(traces, ctl))
  }

  lemma CtlHoldsIffSameMultiset(traces: seq<Trace>, ctl: GP.CrossTableLookup)
    requires GPD.LookupFits(traces, ctl)
    ensures CtlHolds(traces, ctl)
        <==> GPD.LookupBinary(traces, ctl)
             && multiset(O.Vectors(LookingSelections(traces, ctl))) == multiset(O.Vectors(LookedSelections(traces, ctl)))
  {
    O.SameCountsIffSameMultiset(LookingSelections(traces, ctl), LookedSelections(traces, ctl));
  }

  // The carried-over lookup selects the same rows and has the same binary filters.

  lemma {:induction false} SelectionsBelowAgree(traces: seq<Trace>, e: GP.TableWithColumns, n: nat)
    requires GPD.EntryFits(traces, e) && n <= Height(traces[e.table])
    ensures LD.EntryFits(traces, AsFiltered(e))
    ensures O.SelectionsBelow(traces, AsFiltered(e), n) == SelectionsBelow(traces, e, n)
  {
    EntryFitsCarries(traces, e);
    if n > 0 {
      SelectionsBelowAgree(traces, e, n - 1);
      SideAgrees(traces[e.table], e, n - 1);
    }
  }

  lemma {:induction false} SelectionsOfAgree(traces: seq<Trace>, xs: seq<GP.TableWithColumns>, k: nat)
    requires k <= |xs| && forall j :: 0 <= j < |xs| ==> GPD.EntryFits(traces, xs[j])
    ensures forall e :: e in AsFilteredAll(xs) ==> LD.EntryFits(traces, e)
    ensures O.SelectionsOf(traces, AsFilteredAll(xs), k) == SelectionsOf(traces, xs, k)
  {
    forall e | e in AsFilteredAll(xs) ensures LD.EntryFits(traces, e) {
      var j :| 0 <= j < |xs| && AsFilteredAll(xs)[j] == e;
      EntryFitsCarries(traces, xs[j]);
    }
    if k > 0 {
      SelectionsOfAgree(traces, xs, k - 1);
      SelectionsBelowAgree(traces, xs[k - 1], Height(traces[xs[k - 1].table]));
    }
  }

  lemma EntryBinaryAgrees(traces: seq<Trace>, e: GP.TableWithColumns)
    requires GPD.EntryFits(traces, e)
    ensures LD.EntryFits(traces, AsFiltered(e))
    ensures LD.EntryBinary(traces, AsFiltered(e)) <==> GPD.EntryBinary(traces, e)
  {
    EntryFitsCarries(traces, e);
    var t := traces[e.table];
    var p := L.PairOf(AsFiltered(e));
    forall d | 0 <= d < Height(t) ensures L.FilterAt(p, t, d) == GP.FilterAt(t, e.filterColumn, d) {
      SideAgrees(t, e, d);
    }
    if GPD.EntryBinary(traces, e) {
      forall q, d | q in [p] && 0 <= d < Height(t) ensures L.IsBinary(L.FilterAt(q, t, d)) {
        assert q == p;
        assert GP.IsBinary(GP.FilterAt(t, e.filterColumn, d));
      }
    }
    if LD.EntryBinary(traces, AsFiltered(e)) {
      forall d | 0 <= d < Height(t) ensures GP.IsBinary(GP.FilterAt(t, e.filterColumn, d)) {
        assert p in [p];
        assert L.IsBinary(L.FilterAt(p, t, d));
      }
    }
  }

  lemma LookupBinaryAgrees(traces: seq<Trace>, ctl: GP.CrossTableLookup)
    requires GPD.LookupFits(traces, ctl)
    ensures LD.LookupFits(traces, AsFilteredLookup(ctl))
    ensures LD.LookupBinary(traces, AsFilteredLookup(ctl)) <==> GPD.LookupBinary(traces, ctl)
  {
    LookupFitsCarries(traces, ctl);
    var c := AsFilteredLookup(ctl);
    forall k | 0 <= k < |ctl.lookingTables|
      ensures LD.EntryBinary(traces, c.lookingTables[k]) <==> GPD.EntryBinary(traces, ctl.lookingTables[k]) {
      EntryBinaryAgrees(traces, ctl.lookingTables[k]);
    }
    EntryBinaryAgrees(traces, ctl.lookedTable);
    if GPD.LookupBinary(traces, ctl) {
      forall e | e in c.lookingTables ensures LD.EntryBinary(traces, e) {
        var k :| 0 <= k < |c.lookingTables| && c.lookingTables[k] == e;
      }
    }
  }

  lemma CtlHoldsAgrees(traces: seq<Trace>, ctl: GP.CrossTableLookup)
    requires GPD.LookupFits(traces, ctl)
    ensures LD.LookupFits(traces, AsFilteredLookup(ctl))
    ensures O.CtlHolds(traces, AsFilteredLookup(ctl)) <==> CtlHolds(traces, ctl)
    ensures O.LookingSelections(traces, AsFilteredLookup(ctl)) == LookingSelections(traces, ctl)
    ensures O.LookedSelections(traces, AsFilteredLookup(ctl)) == LookedSelections(traces, ctl)
  {
    LookupBinaryAgrees(traces, ctl);
    SelectionsOfAgree(traces, ctl.lookingTables, |ctl.lookingTables|);
    SelectionsBelowAgree(traces, ctl.lookedTable, Height(traces[ctl.lookedTable.table]));
  }

  /**
   * `check_ctl`: passes exactly when every filter is binary and each selected
   * row vector occurs as often among the looking tables as in the looked table.
   */
  method CheckCtl(traces: seq<Trace>, ctl: GP.CrossTableLookup) returns (r: Result<(), O.OracleError>)
    requires GPD.LookupFits(traces, ctl)
    ensures r.Ok? <==> CtlHolds(traces, ctl)
    ensures r.Err? && r.error.CountMismatch? ==>
              GPD.LookupBinary(traces, ctl)
              && r.error.looking == O.Occurrences(LookingSelections(traces, ctl), r.error.values)
              && r.error.looked == O.Occurrences(LookedSelections(traces, ctl), r.error.values)
              && r.error.looking != r.error.looked
    ensures r.Err? && r.error.FilterNotBinary? ==> !GPD.LookupBinary(traces, ctl)
  {
    CtlHoldsAgrees(traces, ctl);
    LookupBinaryAgrees(traces, ctl);
    r := O.CheckCtl(traces, AsFilteredLookup(ctl));
  }

  /** `check_ctls`: every lookup in order; the first that fails is reported with its index. */
  method CheckCtls(traces: seq<Trace>, ctls: seq<GP.CrossTableLookup>) returns (r: Result<(), (nat, O.OracleError)>)
    requires forall i :: 0 <= i < |ctls| ==> GPD.LookupFits(traces, ctls[i])
    ensures r.Ok? <==> forall i :: 0 <= i < |ctls| ==> CtlHolds(traces, ctls[i])
    ensures r.Err? ==> r.error.0 < |ctls| && !CtlHolds(traces, ctls[r.error.0])
                       && forall i :: 0 <= i < r.error.0 ==> CtlHolds(traces, ctls[i])
  {
    var i: nat := 0;
    while i < |ctls|
      invariant i <= |ctls|
      invariant forall k :: 0 <= k < i ==> CtlHolds(traces, ctls[k])
    {
      var one := CheckCtl(traces, ctls[i]);
      if one.Err? {
        return Err((i, one.error));
      }
      i := i + 1;
    }
    return Ok(());
  }
}
