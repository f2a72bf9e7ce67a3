/**
 * Linear combinations of trace cells (`Column`), filters built from them
 * (`Filter`), and the random linear combination `combine` that both
 * cross-table-lookup engines use to squeeze a row of column values into one
 * field element.  A trace is column-major: `t[c][r]` is column `c` at row `r`.
 */
module Columns {
  import opened Goldilocks

  type Trace = seq<seq<Felt>>

  /** A non-empty table whose columns all have the same, non-zero, height. */
  predicate IsTrace(t: Trace)
  {
    |t| > 0 && |t[0]| > 0 && forall c :: 0 <= c < |t| ==> |t[c]| == |t[0]|
  }

  function Height(t: Trace): nat
    requires |t| > 0
  {
    |t[0]|
  }

  /** The values of every column at row `r` (what a STARK opening at that row gives). */
  function RowAt(t: Trace, r: nat): (v: seq<Felt>)
    requires IsTrace(t) && r < Height(t)
    ensures |v| == |t| && forall c :: 0 <= c < |t| ==> v[c] == t[c][r]
  {
    seq(|t|, c requires 0 <= c < |t| => t[c][r])
  }

  function Zeros(w: nat): (v: seq<Felt>)
    ensures |v| == w && forall c :: 0 <= c < w ==> v[c] == 0
  {
    seq(w, _ => 0)
  }

  /** The next row, or zeros past the last row, which is how `eval_table` treats it. */
  function NextRowAt(t: Trace, r: nat): seq<Felt>
    requires IsTrace(t) && r < Height(t)
  {
    if r + 1 < Height(t) then RowAt(t, r + 1) else Zeros(|t|)
  }

  /**
   * The next row of a STARK opening: the trace lives on a cyclic group, so
   * the row after the last is the first.
   */
  function WrappedNextRow(t: Trace, r: nat): (v: seq<Felt>)
    requires IsTrace(t) && r < Height(t)
    ensures |v| == |t|
  {
    RowAt(t, (r + 1) % Height(t))
  }

  /** A linear combination of the current row, of the next row, plus a constant. */
  datatype Column = Column(
    linearCombination: seq<(nat, Felt)>,
    nextRowLinearCombination: seq<(nat, Felt)>,
    constant: Felt)

  /** Every referenced column index is below `width`. */
  predicate TermsFit(lc: seq<(nat, Felt)>, width: nat)
  {
    forall k :: 0 <= k < |lc| ==> lc[k].0 < width
  }

  predicate Fits(col: Column, width: nat)
  {
    TermsFit(col.linearCombination, width) && TermsFit(col.nextRowLinearCombination, width)
  }

  predicate DistinctColumns(lc: seq<(nat, Felt)>)
  {
    forall j, k :: 0 <= j < k < |lc| ==> lc[j].0 != lc[k].0
  }

  /** `Σ v[c]·f` over the pairs `(c, f)`. */
  function Terms(lc: seq<(nat, Felt)>, v: seq<Felt>): Felt
    requires TermsFit(lc, |v|)
  {
    Sum(seq(|lc|, k requires 0 <= k < |lc| => Mul(v[lc[k].0], lc[k].1)))
  }

  /** `Σ table[c][row]·f` over the pairs `(c, f)`. */
  function TableTerms(lc: seq<(nat, Felt)>, t: Trace, row: nat): Felt
    requires IsTrace(t) && row < Height(t) && TermsFit(lc, |t|)
  {
    Sum(seq(|lc|, k requires 0 <= k < |lc| => Mul(t[lc[k].0][row], lc[k].1)))
  }

  // Constructors.

  function Single(c: nat): Column
  {
    Column([(c, 1)], [], 0)
  }

  function SingleNextRow(c: nat): Column
  {
    Column([], [(c, 1)], 0)
  }

  function Constant(x: Felt): Column
  {
    Column([], [], x)
  }

  function ColumnZero(): Column { Constant(0) }

  function ColumnOne(): Column { Constant(1) }

  /** `linear_combination_with_constant`; the source asserts a non-empty list of distinct columns. */
  function LinearCombinationWithConstant(lc: seq<(nat, Felt)>, constant: Felt): Column
    requires |lc| > 0 && DistinctColumns(lc)
  {
    Column(lc, [], constant)
  }

  /** `linear_combination_and_next_row_with_constant`; at least one of the two lists is non-empty. */
  function LinearCombinationAndNextRowWithConstant(
    lc: seq<(nat, Felt)>, nextLc: seq<(nat, Felt)>, constant: Felt): Column
    requires |lc| > 0 || |nextLc| > 0
    requires DistinctColumns(lc) && DistinctColumns(nextLc)
  {
    Column(lc, nextLc, constant)
  }

  function LinearCombination(lc: seq<(nat, Felt)>): Column
    requires |lc| > 0 && DistinctColumns(lc)
  {
    LinearCombinationWithConstant(lc, 0)
  }

  predicate Distinct(cs: seq<nat>)
  {
    forall j, k :: 0 <= j < k < |cs| ==> cs[j] != cs[k]
  }

  /** The columns `cs` weighted by the successive powers of `base`. */
  function Weighted(cs: seq<nat>, base: Felt): (lc: seq<(nat, Felt)>)
    ensures |lc| == |cs| && forall k :: 0 <= k < |cs| ==> lc[k] == (cs[k], Pow(base, k))
  {
    seq(|cs|, k requires 0 <= k < |cs| => (cs[k], Pow(base, k)))
  }

  /** `le_bits`: the little-endian binary value of the columns `cs`. */
  function LeBits(cs: seq<nat>): Column
    requires |cs| > 0 && Distinct(cs)
  {
    LinearCombination(Weighted(cs, 2))
  }

  /** `le_bytes` of the log-derivative engine: base 256. */
  function LeBytes(cs: seq<nat>): Column
    requires |cs| > 0 && Distinct(cs)
  {
    LinearCombination(Weighted(cs, 256))
  }

  /** `sum`: every column with coefficient one. */
  function SumOf(cs: seq<nat>): Column
    requires |cs| > 0 && Distinct(cs)
  {
    LinearCombination(seq(|cs|, k requires 0 <= k < |cs| => (cs[k], 1)))
  }

  // Evaluation.

  /** `eval`: the current-row part and the constant. */
  function Eval(col: Column, v: seq<Felt>): Felt
    requires TermsFit(col.linearCombination, |v|)
  {
    Add(Terms(col.linearCombination, v), col.constant)
  }

  /** `eval_with_next`: current-row terms, next-row terms, constant. */
  function EvalWithNext(col: Column, v: seq<Felt>, nv: seq<Felt>): Felt
    requires |v| == |nv| && Fits(col, |v|)
  {
    Add(Add(Terms(col.linearCombination, v), Terms(col.nextRowLinearCombination, nv)), col.constant)
  }

  /**
   * `eval_table`: row `row` of a column-major table.  Next-row terms are only
   * added when there are some and `row` is not the last row.
   */
  function EvalTable(col: Column, t: Trace, row: nat): Felt
    requires IsTrace(t) && row < Height(t) && Fits(col, |t|)
  {
    var res := Add(TableTerms(col.linearCombination, t, row), col.constant);
    if |col.nextRowLinearCombination| > 0 && row < Height(t) - 1 then
      Add(res, TableTerms(col.nextRowLinearCombination, t, row + 1))
    else
      res
  }

  /** `eval_all_rows`. */
  function EvalAllRows(col: Column, t: Trace): (r: seq<Felt>)
    requires IsTrace(t) && Fits(col, |t|)
    ensures |r| == Height(t) && forall row :: 0 <= row < Height(t) ==> r[row] == EvalTable(col, t, row)
  {
    seq(Height(t), row requires 0 <= row < Height(t) => EvalTable(col, t, row))
  }

  /** A sum of column products plus a sum of columns. */
  datatype Filter = Filter(products: seq<(Column, Column)>, constants: seq<Column>)

  predicate FilterFits(f: Filter, width: nat)
  {
    (forall k :: 0 <= k < |f.products| ==> Fits(f.products[k].0, width) && Fits(f.products[k].1, width))
    && (forall k :: 0 <= k < |f.constants| ==> Fits(f.constants[k], width))
  }

  /** A column that reads nothing of the next row. */
  predicate CurrentRowOnly(col: Column)
  {
    |col.nextRowLinearCombination| == 0
  }

  predicate FilterCurrentRowOnly(f: Filter)
  {
    (forall k :: 0 <= k < |f.products| ==> CurrentRowOnly(f.products[k].0) && CurrentRowOnly(f.products[k].1))
    && (forall k :: 0 <= k < |f.constants| ==> CurrentRowOnly(f.constants[k]))
  }

  function NewSimpleFilter(col: Column): Filter
  {
    Filter([], [col])
  }

  /** `eval_filter`: the filter on an opening of the current and next rows. */
  function EvalFilter(f: Filter, v: seq<Felt>, nv: seq<Felt>): Felt
    requires |v| == |nv| && FilterFits(f, |v|)
  {
    Add(
      Sum(seq(|f.products|, k requires 0 <= k < |f.products| =>
        Mul(EvalWithNext(f.products[k].0, v, nv), EvalWithNext(f.products[k].1, v, nv)))),
      Sum(seq(|f.constants|, k requires 0 <= k < |f.constants| => EvalWithNext(f.constants[k], v, nv))))
  }

  /** `Filter::eval_table`. */
  function FilterEvalTable(f: Filter, t: Trace, row: nat): Felt
    requires IsTrace(t) && row < Height(t) && FilterFits(f, |t|)
  {
    Add(
      Sum(seq(|f.products|, k requires 0 <= k < |f.products| =>
        Mul(EvalTable(f.products[k].0, t, row), EvalTable(f.products[k].1, t, row)))),
      Sum(seq(|f.constants|, k requires 0 <= k < |f.constants| => EvalTable(f.constants[k], t, row))))
  }

  // Combining a row of values.

  /** The `(β, γ)` of one instance of the lookup argument. */
  datatype Challenge = Challenge(beta: Felt, gamma: Felt)

  /** plonky2's `reduce_with_powers`: Horner's rule over the reversed terms. */
  function ReduceWithPowers(terms: seq<Felt>, alpha: Felt): Felt
  {
    if |terms| == 0 then 0 else Add(Mul(ReduceWithPowers(terms[1..], alpha), alpha), terms[0])
  }

  /** `combine`: `reduce_with_powers(terms, β) + γ`. */
  function Combine(ch: Challenge, terms: seq<Felt>): Felt
  {
    Add(ReduceWithPowers(terms, ch.beta), ch.gamma)
  }

  /** The reference meaning of `reduce_with_powers`: `Σ terms[i]·alpha^i`. */
  function PowerSum(terms: seq<Felt>, alpha: Felt): Felt
  {
    Sum(seq(|terms|, i requires 0 <= i < |terms| => Mul(terms[i], Pow(alpha, i))))
  }

  /** The values of cells `cs` of a row. */
  function Gather(v: seq<Felt>, cs: seq<nat>): (g: seq<Felt>)
    requires forall k :: 0 <= k < |cs| ==> cs[k] < |v|
    ensures |g| == |cs| && forall k :: 0 <= k < |cs| ==> g[k] == v[cs[k]]
  {
    seq(|cs|, k requires 0 <= k < |cs| => v[cs[k]])
  }
}
