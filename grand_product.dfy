/**
 * The older, grand-product cross-table lookup (`src/cross_table_lookup.rs`).
 * Each lookup side and challenge gets one column Z, the running product,
 * from the last row up, of the combined values of the selected rows, so Z
 * on the first row is the product over all selected rows.  The checker
 * folds the filter into a `select` factor instead of dividing; the lookup
 * holds when the looking products, times an extra public factor, equal the
 * looked product.  Filters are a single optional column here, and
 * `le_bytes` is base 32.
 */
module GrandProduct {
  import opened Goldilocks
  import opened Wrappers
  import opened MathUtil
  import opened Columns
  import ColumnFacts
  import LogUpChecker

  /** `le_bytes` of this engine: the columns weighted by the powers of 32. */
  function LeBytes(cs: seq<nat>): Column
    requires |cs| > 0 && Distinct(cs)
  {
    LinearCombination(Weighted(cs, 32))
  }

  /** `le_bytes` reads the selected cells as a little-endian base-32 number. */
  lemma LeBytesEvaluates(cs: seq<nat>, v: seq<Felt>, nv: seq<Felt>)
    requires |cs| > 0 && Distinct(cs) && |v| == |nv|
    requires forall k :: 0 <= k < |cs| ==> cs[k] < |v|
    ensures Fits(LeBytes(cs), |v|) && EvalWithNext(LeBytes(cs), v, nv) == PowerSum(Gather(v, cs), 32)
  {
    ColumnFacts.WeightedTerms(cs, 32, v);
    ColumnFacts.LinearCombinationEvaluates(Weighted(cs, 32), v, nv);
  }

  /** `TableWithColumns`: a table, the columns it contributes, an optional filter column. */
  datatype TableWithColumns = TableWithColumns(table: nat, columns: seq<Column>, filterColumn: Option<Column>)

  datatype CrossTableLookup = CrossTableLookup(lookingTables: seq<TableWithColumns>, lookedTable: TableWithColumns)

  /** Every looking side has as many columns as the looked side. */
  predicate SameArity(looking: seq<TableWithColumns>, looked: TableWithColumns)
  {
    forall k :: 0 <= k < |looking| ==> |looking[k].columns| == |looked.columns|
  }

  /** `CrossTableLookup::new`: the arity assertion is modelled as `None`. */
  function NewCrossTableLookup(looking: seq<TableWithColumns>, looked: TableWithColumns): (r: Option<CrossTableLookup>)
    ensures r.Some? <==> forall k :: 0 <= k < |looking| ==> |looking[k].columns| == |looked.columns|
    ensures r.Some? ==> r.value.lookingTables == looking && r.value.lookedTable == looked
  {
    if SameArity(looking, looked) then Some(CrossTableLookup(looking, looked)) else None
  }

  /** The columns and filter of a lookup side fit a table of `width` columns. */
  predicate SideFits(columns: seq<Column>, filter: Option<Column>, width: nat)
  {
    (forall k :: 0 <= k < |columns| ==> Fits(columns[k], width)) && (filter.Some? ==> Fits(filter.value, width))
  }

  /** The filter at row `i`: the filter column's value there, or 1 when there is none. */
  function FilterAt(t: Trace, filter: Option<Column>, i: nat): Felt
    requires IsTrace(t) && i < Height(t) && (filter.Some? ==> Fits(filter.value, |t|))
  {
    if filter.Some? then EvalTable(filter.value, t, i) else 1
  }

  /** The columns evaluated at row `i`. */
  function EvalsAt(t: Trace, columns: seq<Column>, i: nat): (r: seq<Felt>)
    requires IsTrace(t) && i < Height(t) && forall k :: 0 <= k < |columns| ==> Fits(columns[k], |t|)
    ensures |r| == |columns|
  {
    seq(|columns|, k requires 0 <= k < |columns| => EvalTable(columns[k], t, i))
  }

  predicate IsBinary(x: Felt)
  {
    x == 0 || x == 1
  }

  /** The filter is 0 or 1 on every row from `i` to the last. */
  predicate BinaryFrom(t: Trace, filter: Option<Column>, i: nat)
    requires IsTrace(t) && (filter.Some? ==> Fits(filter.value, |t|))
  {
    forall j :: i <= j < Height(t) ==> IsBinary(FilterAt(t, filter, j))
  }

  /** What row `i` multiplies into the running product: its combined value if selected, 1 if not. */
  function Factor(t: Trace, columns: seq<Column>, filter: Option<Column>, ch: Challenge, i: nat): Felt
    requires IsTrace(t) && i < Height(t) && SideFits(columns, filter, |t|)
  {
    if FilterAt(t, filter, i) == 1 then Combine(ch, EvalsAt(t, columns, i)) else 1
  }

  /** The running product once rows `i ..` have been multiplied in, from the last row up, starting at 1. */
  function ProductFrom(t: Trace, columns: seq<Column>, filter: Option<Column>, ch: Challenge, i: nat): Felt
    requires IsTrace(t) && i <= Height(t) && SideFits(columns, filter, |t|)
    decreases Height(t) - i
  {
    if i == Height(t) then 1 else Mul(ProductFrom(t, columns, filter, ch, i + 1), Factor(t, columns, filter, ch, i))
  }

  /** The reference value of `partial_products`: entry `i` is the running product from row `i` on. */
  function ProductColumn(t: Trace, columns: seq<Column>, filter: Option<Column>, ch: Challenge): (z: seq<Felt>)
    requires IsTrace(t) && SideFits(columns, filter, |t|)
    ensures |z| == Height(t)
  {
    ProductsFrom(t, columns, filter, ch, 0)
  }

  /** The running products of rows `i` to the last, one per row. */
  function ProductsFrom(t: Trace, columns: seq<Column>, filter: Option<Column>, ch: Challenge, i: nat): (z: seq<Felt>)
    requires IsTrace(t) && i <= Height(t) && SideFits(columns, filter, |t|)
    ensures |z| == Height(t) - i
    decreases Height(t) - i
  {
    if i == Height(t) then [] else [ProductFrom(t, columns, filter, ch, i)] + ProductsFrom(t, columns, filter, ch, i + 1)
  }

  lemma {:induction false} ProductsFromAt(t: Trace, columns: seq<Column>, filter: Option<Column>, ch: Challenge, i: nat, k: nat)
    requires IsTrace(t) && i <= k < Height(t) && SideFits(columns, filter, |t|)
    ensures ProductsFrom(t, columns, filter, ch, i)[k - i] == ProductFrom(t, columns, filter, ch, k)
    decreases k - i
  {
    if k > i {
      ProductsFromAt(t, columns, filter, ch, i + 1, k);
    }
  }

  /** Entry `k` of the reference column is the running product from row `k` on. */
  lemma ProductColumnAt(t: Trace, columns: seq<Column>, filter: Option<Column>, ch: Challenge)
    requires IsTrace(t) && SideFits(columns, filter, |t|)
    ensures forall k :: 0 <= k < Height(t) ==> ProductColumn(t, columns, filter, ch)[k] == ProductFrom(t, columns, filter, ch, k)
  {
    forall k | 0 <= k < Height(t) ensures ProductColumn(t, columns, filter, ch)[k] == ProductFrom(t, columns, filter, ch, k) {
      ProductsFromAt(t, columns, filter, ch, 0, k);
    }
  }

  datatype ProductError = NonBinaryFilter

  /**
   * `partial_products`: walks the rows from the last to the first, multiplies
   * the running product by the combined value of every selected row, records
   * it, and reverses the record.  A filter other than 0 or 1 is the source's
   * `Non-binary filter?` assertion.
   */
  method PartialProducts(t: Trace, columns: seq<Column>, filter: Option<Column>, ch: Challenge)
    returns (r: Result<seq<Felt>, ProductError>)
    requires IsTrace(t) && SideFits(columns, filter, |t|)
    ensures r.Ok? <==> BinaryFrom(t, filter, 0)
    ensures r.Ok? ==> r.value == ProductColumn(t, columns, filter, ch)
  {
    var partialProd: Felt := 1;
    var degree := Height(t);
    var res: seq<Felt> := [];
    var i: nat := degree;
    while i > 0
      invariant i <= degree && |res| == degree - i
      invariant partialProd == ProductFrom(t, columns, filter, ch, i)
      invariant forall k :: 0 <= k < |res| ==> res[k] == ProductFrom(t, columns, filter, ch, degree - 1 - k)
      invariant BinaryFrom(t, filter, i)
    {
      i := i - 1;
      var step := MultiplyRow(t, columns, filter, ch, i, partialProd);
      if step.Err? {
        return Err(step.error);
      }
      partialProd := step.value;
      res := res + [partialProd];
    }
    ProductColumnAt(t, columns, filter, ch);
    return Ok(Reverse(res));
  }

  /** One row of the `partial_products` loop: multiply in the row's combined value if its filter is 1. */
  method MultiplyRow(t: Trace, columns: seq<Column>, filter: Option<Column>, ch: Challenge, i: nat, partialProd: Felt)
    returns (r: Result<Felt, ProductError>)
    requires IsTrace(t) && i < Height(t) && SideFits(columns, filter, |t|)
    ensures r.Ok? <==> IsBinary(FilterAt(t, filter, i))
    ensures r.Ok? ==> r.value == Mul(partialProd, Factor(t, columns, filter, ch, i))
  {
    var f := FilterAt(t, filter, i);
    if f == 1 {
      var evals := EvalsAt(t, columns, i);
      return Ok(Mul(partialProd, Combine(ch, evals)));
    } else if f == 0 {
      Identities(partialProd);
      return Ok(partialProd);
    }
    return Err(NonBinaryFilter);
  }

  /** The combined values of the selected rows from the last row down to row `i`. */
  function SelectedCombines(t: Trace, columns: seq<Column>, filter: Option<Column>, ch: Challenge, i: nat): seq<Felt>
    requires IsTrace(t) && i <= Height(t) && SideFits(columns, filter, |t|)
    decreases Height(t) - i
  {
    if i == Height(t) then []
    else
      SelectedCombines(t, columns, filter, ch, i + 1)
        + if FilterAt(t, filter, i) == 1 then [Combine(ch, EvalsAt(t, columns, i))] else []
  }

  /**
   * With binary filters, entry `i` of `partial_products` is the product of the
   * combined values of the selected rows from `i` on; unselected rows leave it
   * unchanged.
   */
  lemma {:induction false} ProductFromIsProduct(t: Trace, columns: seq<Column>, filter: Option<Column>, ch: Challenge, i: nat)
    requires IsTrace(t) && i <= Height(t) && SideFits(columns, filter, |t|) && BinaryFrom(t, filter, i)
    ensures ProductFrom(t, columns, filter, ch, i) == Product(SelectedCombines(t, columns, filter, ch, i))
    decreases Height(t) - i
  {
    if i < Height(t) {
      ProductFromIsProduct(t, columns, filter, ch, i + 1);
      var before := SelectedCombines(t, columns, filter, ch, i + 1);
      if FilterAt(t, filter, i) == 1 {
        var c := Combine(ch, EvalsAt(t, columns, i));
        assert (before + [c])[..|before|] == before;
      } else {
        assert before + [] == before;
        Identities(ProductFrom(t, columns, filter, ch, i + 1));
      }
    }
  }

  /** An unselected row leaves the running product unchanged. */
  lemma UnselectedKeepsProduct(t: Trace, columns: seq<Column>, filter: Option<Column>, ch: Challenge, i: nat)
    requires IsTrace(t) && i < Height(t) && SideFits(columns, filter, |t|) && FilterAt(t, filter, i) == 0
    ensures ProductFrom(t, columns, filter, ch, i) == ProductFrom(t, columns, filter, ch, i + 1)
  {
    Identities(ProductFrom(t, columns, filter, ch, i + 1));
  }

  // The native constraint checker.

  /** `CtlCheckVars`: what one table checks at one row for one lookup side and challenge. */
  datatype CtlCheckVars = CtlCheckVars(
    localZ: Felt,
    nextZ: Felt,
    challenges: Challenge,
    columns: seq<Column>,
    filterColumn: Option<Column>)

  predicate VarsFit(v: CtlCheckVars, width: nat)
  {
    SideFits(v.columns, v.filterColumn, width)
  }

  /** `local_filter * combined + 1 - local_filter`. */
  function Select(filter: Felt, combined: Felt): Felt
  {
    Sub(Add(Mul(filter, combined), 1), filter)
  }

  /** On a binary filter, `select` is the combined value of a selected row and 1 otherwise. */
  lemma SelectOfBinary(filter: Felt, combined: Felt)
    requires IsBinary(filter)
    ensures Select(filter, combined) == if filter == 1 then combined else 1
  {
    Identities(combined);
    if filter == 1 {
      AddComm(combined, 1);
      AddSubCancel(1, combined);
    }
  }

  /** The `select` factor of a lookup side on an opening of the current and next rows. */
  function SelectAt(v: CtlCheckVars, local: seq<Felt>, next: seq<Felt>): Felt
    requires |local| == |next| && VarsFit(v, |local|)
  {
    var evals := seq(|v.columns|, k requires 0 <= k < |v.columns| => EvalWithNext(v.columns[k], local, next));
    var combined := Combine(v.challenges, evals);
    var localFilter := if v.filterColumn.Some? then EvalWithNext(v.filterColumn.value, local, next) else 1;
    Select(localFilter, combined)
  }

  /**
   * The two constraints of one lookup side: `Z - select` on the last row, and
   * `next_z·select - Z` on every other row.
   */
  function EvalCtlCheck(v: CtlCheckVars, local: seq<Felt>, next: seq<Felt>): (r: seq<LogUpChecker.Constraint>)
    requires |local| == |next| && VarsFit(v, |local|)
    ensures |r| == 2 && r[0].kind == LogUpChecker.LastRow && r[1].kind == LogUpChecker.Transition
  {
    var select := SelectAt(v, local, next);
    [LogUpChecker.Constraint(LogUpChecker.LastRow, Sub(v.localZ, select)),
     LogUpChecker.Constraint(LogUpChecker.Transition, Sub(Mul(v.nextZ, select), v.localZ))]
  }

  /** `eval_cross_table_lookup_checks`: the constraints of every lookup side, in order. */
  function EvalCrossTableLookupChecks(vars: seq<CtlCheckVars>, local: seq<Felt>, next: seq<Felt>): (r: seq<LogUpChecker.Constraint>)
    requires |local| == |next| && forall k :: 0 <= k < |vars| ==> VarsFit(vars[k], |local|)
    ensures |r| == 2 * |vars|
    ensures forall k :: 0 <= k < |vars| ==> r[2 * k..2 * k + 2] == EvalCtlCheck(vars[k], local, next)
  {
    if |vars| == 0 then []
    else
      var front := EvalCrossTableLookupChecks(vars[..|vars| - 1], local, next);
      var r := front + EvalCtlCheck(vars[|vars| - 1], local, next);
      assert forall k :: 0 <= k < |vars| - 1 ==> r[2 * k..2 * k + 2] == front[2 * k..2 * k + 2];
      r
  }

  /** The opening `local`/`next` shows the checker the column and filter values of row `i`. */
  predicate OpensAt(t: Trace, columns: seq<Column>, filter: Option<Column>, i: nat, local: seq<Felt>, next: seq<Felt>)
    requires IsTrace(t) && i < Height(t) && SideFits(columns, filter, |t|) && |local| == |t| && |next| == |t|
  {
    (forall k :: 0 <= k < |columns| ==> EvalWithNext(columns[k], local, next) == EvalTable(columns[k], t, i))
    && (filter.Some? ==> EvalWithNext(filter.value, local, next) == EvalTable(filter.value, t, i))
  }

  /** Opening row `i` and the next row (zero past the last row) is such an opening. */
  lemma OpensAtTraceRows(t: Trace, columns: seq<Column>, filter: Option<Column>, i: nat)
    requires IsTrace(t) && i < Height(t) && SideFits(columns, filter, |t|)
    ensures |NextRowAt(t, i)| == |t|
    ensures OpensAt(t, columns, filter, i, RowAt(t, i), NextRowAt(t, i))
  {
    forall k | 0 <= k < |columns| {
      ColumnFacts.EvalTableIsOpening(columns[k], t, i);
    }
    if filter.Some? {
      ColumnFacts.EvalTableIsOpening(filter.value, t, i);
    }
  }

  /** On such an opening, with a binary filter, `select` is the factor `partial_products` multiplies in. */
  lemma SelectIsFactor(t: Trace, v: CtlCheckVars, i: nat, local: seq<Felt>, next: seq<Felt>)
    requires IsTrace(t) && i < Height(t) && VarsFit(v, |t|) && |local| == |t| && |next| == |t|
    requires OpensAt(t, v.columns, v.filterColumn, i, local, next)
    requires IsBinary(FilterAt(t, v.filterColumn, i))
    ensures SelectAt(v, local, next) == Factor(t, v.columns, v.filterColumn, v.challenges, i)
  {
    var evals := seq(|v.columns|, k requires 0 <= k < |v.columns| => EvalWithNext(v.columns[k], local, next));
    assert evals == EvalsAt(t, v.columns, i);
    SelectOfBinary(FilterAt(t, v.filterColumn, i), Combine(v.challenges, evals));
  }

  /**
   * At one row, the checker's two constraints hold exactly when Z there is
   * the factor alone (last row) or `next_z` times the factor (other rows).
   */
  lemma RowChecksIff(t: Trace, v: CtlCheckVars, i: nat, local: seq<Felt>, next: seq<Felt>)
    requires IsTrace(t) && i < Height(t) && VarsFit(v, |t|) && |local| == |t| && |next| == |t|
    requires OpensAt(t, v.columns, v.filterColumn, i, local, next)
    requires IsBinary(FilterAt(t, v.filterColumn, i))
    ensures LogUpChecker.AllHoldAt(EvalCtlCheck(v, local, next), i, Height(t))
        <==> (i == Height(t) - 1 ==> v.localZ == Factor(t, v.columns, v.filterColumn, v.challenges, i))
             && (i < Height(t) - 1 ==> v.localZ == Mul(v.nextZ, Factor(t, v.columns, v.filterColumn, v.challenges, i)))
  {
    SelectIsFactor(t, v, i, local, next);
    var f := Factor(t, v.columns, v.filterColumn, v.challenges, i);
    SubZeroIff(v.localZ, f);
    SubZeroIff(Mul(v.nextZ, f), v.localZ);
    var cs := EvalCtlCheck(v, local, next);
    assert LogUpChecker.AllHoldAt(cs, i, Height(t))
        <==> LogUpChecker.HoldsAt(cs[0], i, Height(t)) && LogUpChecker.HoldsAt(cs[1], i, Height(t));
  }

  /** The checker's view of a Z column at row `i`: Z there and at the next row (cyclically). */
  function VarsAt(z: seq<Felt>, columns: seq<Column>, filter: Option<Column>, ch: Challenge, i: nat): CtlCheckVars
    requires i < |z|
  {
    CtlCheckVars(z[i], z[(i + 1) % |z|], ch, columns, filter)
  }

  /** The checker's constraints hold on every row for the column `z`. */
  predicate ChecksHold(t: Trace, columns: seq<Column>, filter: Option<Column>, ch: Challenge, z: seq<Felt>)
    requires IsTrace(t) && SideFits(columns, filter, |t|) && |z| == Height(t)
  {
    forall i :: 0 <= i < Height(t) ==>
      LogUpChecker.AllHoldAt(EvalCtlCheck(VarsAt(z, columns, filter, ch, i), RowAt(t, i), NextRowAt(t, i)), i, Height(t))
  }

  /** On an opening of row `i`, row `i`'s constraints on the column `z` are the recurrence of `ProductFrom` at `i`. */
  lemma ChecksAtRow(t: Trace, columns: seq<Column>, filter: Option<Column>, ch: Challenge, z: seq<Felt>, i: nat,
                    next: seq<Felt>)
    requires IsTrace(t) && SideFits(columns, filter, |t|) && |z| == Height(t) && i < Height(t)
    requires BinaryFrom(t, filter, 0)
    requires |next| == |t| && OpensAt(t, columns, filter, i, RowAt(t, i), next)
    ensures LogUpChecker.AllHoldAt(EvalCtlCheck(VarsAt(z, columns, filter, ch, i), RowAt(t, i), next), i, Height(t))
        <==> (i == Height(t) - 1 ==> z[i] == Factor(t, columns, filter, ch, i))
             && (i < Height(t) - 1 ==> z[i] == Mul(z[i + 1], Factor(t, columns, filter, ch, i)))
  {
    if i < Height(t) - 1 {
      ModOfSmall(i + 1, |z|);
    }
    RowChecksIff(t, VarsAt(z, columns, filter, ch, i), i, RowAt(t, i), next);
  }

  /** The recurrence the checker enforces at row `i`: the factor alone on the last row, `z[i + 1]` times it elsewhere. */
  predicate RowRecurrence(t: Trace, columns: seq<Column>, filter: Option<Column>, ch: Challenge, z: seq<Felt>, i: nat)
    requires IsTrace(t) && SideFits(columns, filter, |t|) && |z| == Height(t) && i < Height(t)
  {
    (i == Height(t) - 1 ==> z[i] == Factor(t, columns, filter, ch, i))
    && (i < Height(t) - 1 ==> z[i] == Mul(z[i + 1], Factor(t, columns, filter, ch, i)))
  }

  predicate Recurrence(t: Trace, columns: seq<Column>, filter: Option<Column>, ch: Challenge, z: seq<Felt>)
    requires IsTrace(t) && SideFits(columns, filter, |t|) && |z| == Height(t)
  {
    forall i :: 0 <= i < Height(t) ==> RowRecurrence(t, columns, filter, ch, z, i)
  }

  /** With binary filters, the checker's constraints hold on every row exactly when the recurrence does. */
  lemma ChecksHoldIffRecurrence(t: Trace, columns: seq<Column>, filter: Option<Column>, ch: Challenge, z: seq<Felt>)
    requires IsTrace(t) && SideFits(columns, filter, |t|) && |z| == Height(t)
    requires BinaryFrom(t, filter, 0)
    ensures ChecksHold(t, columns, filter, ch, z) <==> Recurrence(t, columns, filter, ch, z)
  {
    forall i | 0 <= i < Height(t)
      ensures LogUpChecker.AllHoldAt(EvalCtlCheck(VarsAt(z, columns, filter, ch, i), RowAt(t, i), NextRowAt(t, i)), i, Height(t))
          <==> RowRecurrence(t, columns, filter, ch, z, i)
    {
      OpensAtTraceRows(t, columns, filter, i);
      ChecksAtRow(t, columns, filter, ch, z, i, NextRowAt(t, i));
    }
  }

  /** The column of `partial_products` satisfies the recurrence. */
  lemma ProductColumnRecurs(t: Trace, columns: seq<Column>, filter: Option<Column>, ch: Challenge)
    requires IsTrace(t) && SideFits(columns, filter, |t|)
    ensures Recurrence(t, columns, filter, ch, ProductColumn(t, columns, filter, ch))
  {
    var z := ProductColumn(t, columns, filter, ch);
    ProductColumnAt(t, columns, filter, ch);
    forall i | 0 <= i < Height(t) ensures RowRecurrence(t, columns, filter, ch, z, i) {
      var f := Factor(t, columns, filter, ch, i);
      assert z[i] == Mul(ProductFrom(t, columns, filter, ch, i + 1), f);
      if i == Height(t) - 1 {
        assert ProductFrom(t, columns, filter, ch, i + 1) == 1;
        Identities(f);
      } else {
        assert z[i + 1] == ProductFrom(t, columns, filter, ch, i + 1);
      }
    }
  }

  /** A column satisfying the recurrence agrees with `partial_products` from row `i` to the last. */
  lemma {:induction false} RecurrenceFixesColumn(t: Trace, columns: seq<Column>, filter: Option<Column>, ch: Challenge,
                                                 z: seq<Felt>, i: nat)
    requires IsTrace(t) && SideFits(columns, filter, |t|) && |z| == Height(t) && i < Height(t)
    requires Recurrence(t, columns, filter, ch, z)
    ensures forall j :: i <= j < Height(t) ==> z[j] == ProductFrom(t, columns, filter, ch, j)
    decreases Height(t) - i
  {
    assert RowRecurrence(t, columns, filter, ch, z, i);
    if i == Height(t) - 1 {
      Identities(Factor(t, columns, filter, ch, i));
    } else {
      RecurrenceFixesColumn(t, columns, filter, ch, z, i + 1);
    }
  }

  /** Exactly one column satisfies the recurrence: the column `partial_products` computes. */
  lemma RecurrenceIffPartialProducts(t: Trace, columns: seq<Column>, filter: Option<Column>, ch: Challenge, z: seq<Felt>)
    requires IsTrace(t) && SideFits(columns, filter, |t|) && |z| == Height(t)
    ensures Recurrence(t, columns, filter, ch, z) <==> z == ProductColumn(t, columns, filter, ch)
  {
    ProductColumnRecurs(t, columns, filter, ch);
    if Recurrence(t, columns, filter, ch, z) {
      RecurrenceFixesColumn(t, columns, filter, ch, z, 0);
      ProductColumnAt(t, columns, filter, ch);
      assert z == ProductColumn(t, columns, filter, ch);
    }
  }

  /**
   * The round trip with the checker, both ways: with binary filters, a column
   * passes every constraint on every row exactly when it is the column
   * `partial_products` computes.
   */
  lemma ChecksHoldIffPartialProducts(t: Trace, columns: seq<Column>, filter: Option<Column>, ch: Challenge, z: seq<Felt>)
    requires IsTrace(t) && SideFits(columns, filter, |t|) && |z| == Height(t)
    requires BinaryFrom(t, filter, 0)
    ensures ChecksHold(t, columns, filter, ch, z) <==> z == ProductColumn(t, columns, filter, ch)
  {
    ChecksHoldIffRecurrence(t, columns, filter, ch, z);
    RecurrenceIffPartialProducts(t, columns, filter, ch, z);
  }

  /** The columns and the filter read nothing of the next row. */
  predicate SideReadsCurrentRowOnly(columns: seq<Column>, filter: Option<Column>)
  {
    (forall k :: 0 <= k < |columns| ==> CurrentRowOnly(columns[k])) && (filter.Some? ==> CurrentRowOnly(filter.value))
  }

  /**
   * At the last row, the STARK opening (the last row, then the first) shows
   * the checker the values the prover computed there with `eval_table`.
   */
  predicate LastRowOpensWrapped(t: Trace, columns: seq<Column>, filter: Option<Column>)
    requires IsTrace(t) && SideFits(columns, filter, |t|)
  {
    OpensAt(t, columns, filter, Height(t) - 1, RowAt(t, Height(t) - 1), RowAt(t, 0))
  }

  /** A side that reads only the current row opens at the last row whatever follows it. */
  lemma CurrentRowOnlyOpensWrapped(t: Trace, columns: seq<Column>, filter: Option<Column>)
    requires IsTrace(t) && SideFits(columns, filter, |t|) && SideReadsCurrentRowOnly(columns, filter)
    ensures LastRowOpensWrapped(t, columns, filter)
  {
    var i := Height(t) - 1;
    OpensAtTraceRows(t, columns, filter, i);
    forall k | 0 <= k < |columns| {
      ColumnFacts.CurrentRowOnlyIgnoresNext(columns[k], RowAt(t, i), NextRowAt(t, i), RowAt(t, 0));
    }
    if filter.Some? {
      ColumnFacts.CurrentRowOnlyIgnoresNext(filter.value, RowAt(t, i), NextRowAt(t, i), RowAt(t, 0));
    }
  }

  /** Row `i` and the next row of the STARK opening open the side, the last row under that condition. */
  lemma OpensAtStarkRows(t: Trace, columns: seq<Column>, filter: Option<Column>, i: nat)
    requires IsTrace(t) && i < Height(t) && SideFits(columns, filter, |t|)
    requires i + 1 < Height(t) || LastRowOpensWrapped(t, columns, filter)
    ensures OpensAt(t, columns, filter, i, RowAt(t, i), WrappedNextRow(t, i))
  {
    if i + 1 < Height(t) {
      OpensAtTraceRows(t, columns, filter, i);
      ColumnFacts.WrappedNextRowBeforeLast(t, i);
    } else {
      assert WrappedNextRow(t, i) == RowAt(t, 0);
    }
  }

  /** The checker's constraints hold on every row of the STARK opening, the first row following the last. */
  predicate StarkChecksHold(t: Trace, columns: seq<Column>, filter: Option<Column>, ch: Challenge, z: seq<Felt>)
    requires IsTrace(t) && SideFits(columns, filter, |t|) && |z| == Height(t)
  {
    forall i :: 0 <= i < Height(t) ==>
      LogUpChecker.AllHoldAt(EvalCtlCheck(VarsAt(z, columns, filter, ch, i), RowAt(t, i), WrappedNextRow(t, i)), i, Height(t))
  }

  /**
   * The same round trip on the opening the STARK checker sees, provided the
   * last row opens there as the prover computed it (as it does when the side
   * reads nothing of the next row, `CurrentRowOnlyOpensWrapped`).
   */
  lemma StarkChecksHoldIffPartialProducts(t: Trace, columns: seq<Column>, filter: Option<Column>, ch: Challenge,
                                          z: seq<Felt>)
    requires IsTrace(t) && SideFits(columns, filter, |t|) && |z| == Height(t)
    requires BinaryFrom(t, filter, 0) && LastRowOpensWrapped(t, columns, filter)
    ensures StarkChecksHold(t, columns, filter, ch, z) <==> z == ProductColumn(t, columns, filter, ch)
  {
    forall i | 0 <= i < Height(t)
      ensures LogUpChecker.AllHoldAt(EvalCtlCheck(VarsAt(z, columns, filter, ch, i), RowAt(t, i), WrappedNextRow(t, i)), i, Height(t))
          <==> RowRecurrence(t, columns, filter, ch, z, i)
    {
      OpensAtStarkRows(t, columns, filter, i);
      ChecksAtRow(t, columns, filter, ch, z, i, WrappedNextRow(t, i));
    }
    RecurrenceIffPartialProducts(t, columns, filter, ch, z);
  }
}
