/**
 * The log-derivative ("logUp") cross-table lookup, prover side.  Each lookup
 * side is a list of (columns, filter) pairs on one table.  On every row whose
 * filter is 1 the columns are combined into one value `c`, and the argument
 * accumulates `1/c`.  Pairs are bundled in chunks of `constraint_degree - 1`;
 * each chunk gets a helper column holding the sum of its inverses, and the
 * running-sum column Z holds, upside down, the sum of the helper values from
 * its row to the last: Z[0] is the total.
 */
module LogUp {
  import opened Goldilocks
  import opened Wrappers
  import opened MathUtil
  import opened Columns

  /** `TableWithColumns`: a table, the columns it contributes, an optional filter. */
  datatype TableWithColumns = TableWithColumns(table: nat, columns: seq<Column>, filter: Option<Filter>)

  /** Several looking tables whose selected rows must match those of one looked table. */
  datatype CrossTableLookup = CrossTableLookup(lookingTables: seq<TableWithColumns>, lookedTable: TableWithColumns)

  predicate SameArity(looking: seq<TableWithColumns>, looked: TableWithColumns)
  {
    forall k :: 0 <= k < |looking| ==> |looking[k].columns| == |looked.columns|
  }

  /** `CrossTableLookup::new`: the arity assertion is modelled as `None`. */
  function NewCrossTableLookup(looking: seq<TableWithColumns>, looked: TableWithColumns): (r: Option<CrossTableLookup>)
    ensures r.Some? <==> SameArity(looking, looked)
    ensures r.Some? ==> r.value.lookingTables == looking && r.value.lookedTable == looked
  {
    if SameArity(looking, looked) then Some(CrossTableLookup(looking, looked)) else None
  }

  /** One lookup side on one table: the columns to combine and the row filter. */
  datatype ColumnFilter = ColumnFilter(columns: seq<Column>, filter: Option<Filter>)

  function PairOf(twc: TableWithColumns): ColumnFilter
  {
    ColumnFilter(twc.columns, twc.filter)
  }

  datatype CtlError = NonBinaryFilter

  predicate PairFits(p: ColumnFilter, width: nat)
  {
    (forall k :: 0 <= k < |p.columns| ==> Fits(p.columns[k], width))
    && (p.filter.Some? ==> FilterFits(p.filter.value, width))
  }

  predicate PairsFit(ps: seq<ColumnFilter>, width: nat)
  {
    forall p :: p in ps ==> PairFits(p, width)
  }

  /** The filter of a pair at row `d`; an absent filter selects every row. */
  function FilterAt(p: ColumnFilter, t: Trace, d: nat): Felt
    requires IsTrace(t) && d < Height(t) && PairFits(p, |t|)
  {
    if p.filter.None? then 1 else FilterEvalTable(p.filter.value, t, d)
  }

  /** The columns of a pair evaluated at row `d`. */
  function EvalsAt(p: ColumnFilter, t: Trace, d: nat): (r: seq<Felt>)
    requires IsTrace(t) && d < Height(t) && PairFits(p, |t|)
    ensures |r| == |p.columns|
  {
    seq(|p.columns|, k requires 0 <= k < |p.columns| => EvalTable(p.columns[k], t, d))
  }

  predicate IsBinary(x: Felt)
  {
    x == 0 || x == 1
  }

  /** Every filter of every pair is 0 or 1 on the first `degree` rows. */
  predicate BinaryFilters(t: Trace, degree: nat, pairs: seq<ColumnFilter>)
    requires IsTrace(t) && degree <= Height(t) && PairsFit(pairs, |t|)
  {
    forall p, d :: p in pairs && 0 <= d < degree ==> IsBinary(FilterAt(p, t, d))
  }

  /** The contract of `batch_multiplicative_inverse`, element by element. */
  predicate IsInverter(inv: Felt -> Felt)
  {
    forall x: Felt :: x != 0 ==> Mul(x, inv(x)) == 1
  }

  /** What pair `p` contributes at row `d`: the inverse of its combined row if selected, else 0. */
  function InverseTerm(p: ColumnFilter, t: Trace, d: nat, ch: Challenge, inv: Felt -> Felt): Felt
    requires IsTrace(t) && d < Height(t) && PairFits(p, |t|)
  {
    if FilterAt(p, t, d) == 1 then inv(Combine(ch, EvalsAt(p, t, d))) else 0
  }

  /** The helper value of one chunk at row `d`: the sum of its pairs' contributions. */
  function ChunkEntry(chunk: seq<ColumnFilter>, t: Trace, d: nat, ch: Challenge, inv: Felt -> Felt): Felt
    requires IsTrace(t) && d < Height(t) && PairsFit(chunk, |t|)
  {
    Sum(seq(|chunk|, q requires 0 <= q < |chunk| => InverseTerm(chunk[q], t, d, ch, inv)))
  }

  lemma ChunkFits(pairs: seq<ColumnFilter>, size: nat, start: nat, width: nat)
    requires start < |pairs| && PairsFit(pairs, width)
    ensures PairsFit(ChunkAt(pairs, size, start), width)
  {
    forall p | p in ChunkAt(pairs, size, start) ensures PairFits(p, width) {
      var q :| 0 <= q < |ChunkAt(pairs, size, start)| && ChunkAt(pairs, size, start)[q] == p;
      assert p == pairs[start + q];
    }
  }

  /** The helper column of one chunk. */
  function ChunkColumn(chunk: seq<ColumnFilter>, t: Trace, degree: nat, ch: Challenge, inv: Felt -> Felt): (r: seq<Felt>)
    requires IsTrace(t) && degree <= Height(t) && PairsFit(chunk, |t|)
    ensures |r| == degree
  {
    seq(degree, d requires 0 <= d < degree => ChunkEntry(chunk, t, d, ch, inv))
  }

  /**
   * The reference value of `get_helper_cols`, from pair `start` on: one
   * column per chunk of `size` consecutive pairs, so `ceil(k / size)` of them.
   */
  function HelperColumnsFrom(t: Trace, degree: nat, pairs: seq<ColumnFilter>, ch: Challenge, size: nat,
                             inv: Felt -> Felt, start: nat): (r: seq<seq<Felt>>)
    requires IsTrace(t) && degree <= Height(t) && PairsFit(pairs, |t|) && size > 0
    ensures forall j :: 0 <= j < |r| ==> |r[j]| == degree
    ensures |r| == CeilDiv(if start < |pairs| then |pairs| - start else 0, size)
    decreases |pairs| - start
  {
    if start >= |pairs| then
      CeilDivZero(size);
      []
    else
      CeilDivStep(|pairs| - start, size);
      ChunkFits(pairs, size, start, |t|);
      [ChunkColumn(ChunkAt(pairs, size, start), t, degree, ch, inv)]
        + HelperColumnsFrom(t, degree, pairs, ch, size, inv, start + size)
  }

  function HelperColumns(t: Trace, degree: nat, pairs: seq<ColumnFilter>, ch: Challenge, size: nat,
                         inv: Felt -> Felt): (r: seq<seq<Felt>>)
    requires IsTrace(t) && degree <= Height(t) && PairsFit(pairs, |t|) && size > 0
    ensures forall j :: 0 <= j < |r| ==> |r[j]| == degree
    ensures |r| == CeilDiv(|pairs|, size)
  {
    HelperColumnsFrom(t, degree, pairs, ch, size, inv, 0)
  }

  /**
   * Entry `d` of helper column `j` is the chunk entry of the `j`-th chunk,
   * the pairs `size·j .. size·j + size` (fewer for the last chunk).
   */
  lemma HelperColumnEntry(t: Trace, degree: nat, pairs: seq<ColumnFilter>, ch: Challenge,
                          size: nat, inv: Felt -> Felt, j: nat, d: nat)
    requires IsTrace(t) && degree <= Height(t) && PairsFit(pairs, |t|) && size > 0
    requires j < |HelperColumns(t, degree, pairs, ch, size, inv)| && d < degree
    ensures size * j < |pairs| && PairsFit(ChunkAt(pairs, size, size * j), |t|)
    ensures HelperColumns(t, degree, pairs, ch, size, inv)[j][d]
         == ChunkEntry(ChunkAt(pairs, size, size * j), t, d, ch, inv)
  {
    HelperColumnFrom(t, degree, pairs, ch, size, inv, 0, j);
    TimesIsProduct(j, size);
  }

  /** Column `j` from pair `start` on, with the chunk's start counted by repeated addition. */
  lemma {:induction false} HelperColumnFrom(t: Trace, degree: nat, pairs: seq<ColumnFilter>, ch: Challenge,
                                            size: nat, inv: Felt -> Felt, start: nat, j: nat)
    requires IsTrace(t) && degree <= Height(t) && PairsFit(pairs, |t|) && size > 0
    requires j < |HelperColumnsFrom(t, degree, pairs, ch, size, inv, start)|
    ensures start + Times(j, size) < |pairs| && PairsFit(ChunkAt(pairs, size, start + Times(j, size)), |t|)
    ensures HelperColumnsFrom(t, degree, pairs, ch, size, inv, start)[j]
         == ChunkColumn(ChunkAt(pairs, size, start + Times(j, size)), t, degree, ch, inv)
    decreases j
  {
    HelperColumnsFromCons(t, degree, pairs, ch, size, inv, start);
    if j > 0 {
      HelperColumnFrom(t, degree, pairs, ch, size, inv, start + size, j - 1);
      TimesShift(j, size);
    }
  }

  /** A non-empty list of helper columns is the first chunk's column followed by the rest. */
  lemma HelperColumnsFromCons(t: Trace, degree: nat, pairs: seq<ColumnFilter>, ch: Challenge, size: nat,
                              inv: Felt -> Felt, start: nat)
    requires IsTrace(t) && degree <= Height(t) && PairsFit(pairs, |t|) && size > 0
    requires |HelperColumnsFrom(t, degree, pairs, ch, size, inv, start)| > 0
    ensures start < |pairs| && PairsFit(ChunkAt(pairs, size, start), |t|)
    ensures HelperColumnsFrom(t, degree, pairs, ch, size, inv, start)
         == [ChunkColumn(ChunkAt(pairs, size, start), t, degree, ch, inv)]
            + HelperColumnsFrom(t, degree, pairs, ch, size, inv, start + size)
  {
    ChunkFits(pairs, size, start, |t|);
  }

  /** A row on which no pair of a chunk is selected holds 0 in that chunk's helper column. */
  lemma UnselectedRowIsZero(chunk: seq<ColumnFilter>, t: Trace, d: nat, ch: Challenge, inv: Felt -> Felt)
    requires IsTrace(t) && d < Height(t) && PairsFit(chunk, |t|)
    requires forall p :: p in chunk ==> FilterAt(p, t, d) == 0
    ensures ChunkEntry(chunk, t, d, ch, inv) == 0
  {
    var xs := seq(|chunk|, q requires 0 <= q < |chunk| => InverseTerm(chunk[q], t, d, ch, inv));
    forall q | 0 <= q < |chunk| ensures xs[q] == 0 {
      assert chunk[q] in chunk;
    }
    SumZeros(xs);
  }

  /** `batch_multiplicative_inverse`, given by its element-wise contract. */
  function BatchInverse(xs: seq<Felt>, inv: Felt -> Felt): (r: seq<Felt>)
    ensures |r| == |xs| && forall k :: 0 <= k < |xs| ==> r[k] == inv(xs[k])
  {
    seq(|xs|, k requires 0 <= k < |xs| => inv(xs[k]))
  }

  /** `batch_add_inplace`: element-wise addition. */
  function BatchAdd(a: seq<Felt>, b: seq<Felt>): (r: seq<Felt>)
    requires |a| == |b|
    ensures |r| == |a| && forall k :: 0 <= k < |a| ==> r[k] == Add(a[k], b[k])
  {
    seq(|a|, k requires 0 <= k < |a| => Add(a[k], b[k]))
  }

  /**
   * The inner step of `get_helper_cols` for one pair: record the filter of
   * each row, combine the selected rows (a dummy 1 elsewhere), invert, and
   * zero the unselected rows.  A filter value other than 0 or 1 is the
   * source's "Non-binary filter?" assertion.
   */
  method InvertedColumn(t: Trace, degree: nat, p: ColumnFilter, ch: Challenge, inv: Felt -> Felt)
    returns (r: Result<seq<Felt>, CtlError>)
    requires IsTrace(t) && degree <= Height(t) && PairFits(p, |t|)
    ensures r.Ok? <==> forall d :: 0 <= d < degree ==> IsBinary(FilterAt(p, t, d))
    ensures r.Ok? ==> r.value == seq(degree, d requires 0 <= d < degree => InverseTerm(p, t, d, ch, inv))
  {
    var combined, filterCol := FilterAndCombine(t, degree, p, ch);
    if combined.Err? {
      return Err(combined.error);
    }
    var acc := BatchInverse(combined.value, inv);
    acc := ZeroUnselected(acc, filterCol);
    return Ok(acc);
  }

  /**
   * The first pass of `InvertedColumn`: the filter column, and the combined
   * evaluations on selected rows with 1 on the others; a non-binary filter
   * value stops it.
   */
  method FilterAndCombine(t: Trace, degree: nat, p: ColumnFilter, ch: Challenge)
    returns (r: Result<seq<Felt>, CtlError>, filterCol: seq<Felt>)
    requires IsTrace(t) && degree <= Height(t) && PairFits(p, |t|)
    ensures r.Ok? <==> forall d :: 0 <= d < degree ==> IsBinary(FilterAt(p, t, d))
    ensures r.Ok? ==> |filterCol| == degree && |r.value| == degree
    ensures r.Ok? ==> forall e :: 0 <= e < degree ==>
      filterCol[e] == FilterAt(p, t, e)
      && r.value[e] == if FilterAt(p, t, e) == 1 then Combine(ch, EvalsAt(p, t, e)) else 1
  {
    filterCol := [];
    var combined: seq<Felt> := [];
    for d := 0 to degree
      invariant |filterCol| == d && |combined| == d
      invariant forall e :: 0 <= e < d ==> filterCol[e] == FilterAt(p, t, e) && IsBinary(filterCol[e])
      invariant forall e :: 0 <= e < d ==>
        combined[e] == if filterCol[e] == 1 then Combine(ch, EvalsAt(p, t, e)) else 1
    {
      var f := FilterAt(p, t, d);
      filterCol := filterCol + [f];
      if f == 1 {
        combined := combined + [Combine(ch, EvalsAt(p, t, d))];
      } else if f == 0 {
        combined := combined + [1];
      } else {
        assert !IsBinary(FilterAt(p, t, d));
        return Err(NonBinaryFilter), filterCol;
      }
    }
    return Ok(combined), filterCol;
  }

  /** The second pass of `InvertedColumn`: zero the entries of unselected rows. */
  method ZeroUnselected(acc: seq<Felt>, filterCol: seq<Felt>) returns (out: seq<Felt>)
    requires |filterCol| == |acc|
    ensures |out| == |acc|
    ensures forall e :: 0 <= e < |acc| ==> out[e] == if filterCol[e] == 0 then 0 else acc[e]
  {
    out := acc;
    for d := 0 to |acc|
      invariant |out| == |acc|
      invariant forall e :: 0 <= e < d ==> out[e] == if filterCol[e] == 0 then 0 else acc[e]
      invariant forall e :: d <= e < |acc| ==> out[e] == acc[e]
    {
      if filterCol[d] == 0 {
        out := out[d := 0];
      }
    }
  }

  lemma ChunkEntryStep(chunk: seq<ColumnFilter>, q: nat, t: Trace, d: nat, ch: Challenge, inv: Felt -> Felt)
    requires IsTrace(t) && d < Height(t) && PairsFit(chunk, |t|) && q < |chunk|
    ensures PairsFit(chunk[..q], |t|) && PairsFit(chunk[..q + 1], |t|)
    ensures ChunkEntry(chunk[..q + 1], t, d, ch, inv)
         == Add(ChunkEntry(chunk[..q], t, d, ch, inv), InverseTerm(chunk[q], t, d, ch, inv))
  {
    var c := chunk[..q + 1];
    assert c[..q] == chunk[..q];
    assert seq(|c|, k requires 0 <= k < |c| => InverseTerm(c[k], t, d, ch, inv))[..q]
        == seq(q, k requires 0 <= k < q => InverseTerm(chunk[..q][k], t, d, ch, inv));
  }

  /**
   * The body of `get_helper_cols` for one chunk: invert the first pair's
   * column, then add in the inverted columns of the others.
   */
  method ChunkHelperColumn(t: Trace, degree: nat, chunk: seq<ColumnFilter>, ch: Challenge, inv: Felt -> Felt)
    returns (r: Result<seq<Felt>, CtlError>)
    requires IsTrace(t) && degree <= Height(t) && PairsFit(chunk, |t|) && |chunk| > 0
    ensures r.Ok? <==> BinaryFilters(t, degree, chunk)
    ensures r.Ok? ==> r.value == ChunkColumn(chunk, t, degree, ch, inv)
  {
    var first := InvertedColumn(t, degree, chunk[0], ch, inv);
    if first.Err? {
      return Err(first.error);
    }
    var acc := first.value;
    ChunkEntryStepBase(chunk[..1], t, degree, ch, inv);
    var q := 1;
    while q < |chunk|
      invariant 1 <= q <= |chunk|
      invariant acc == ChunkColumn(chunk[..q], t, degree, ch, inv)
      invariant forall p, d :: p in chunk[..q] && 0 <= d < degree ==> IsBinary(FilterAt(p, t, d))
    {
      var next := InvertedColumn(t, degree, chunk[q], ch, inv);
      if next.Err? {
        return Err(next.error);
      }
      forall d | 0 <= d < degree
        ensures Add(acc[d], next.value[d]) == ChunkEntry(chunk[..q + 1], t, d, ch, inv)
      {
        ChunkEntryStep(chunk, q, t, d, ch, inv);
      }
      acc := BatchAdd(acc, next.value);
      assert chunk[..q + 1] == chunk[..q] + [chunk[q]];
      q := q + 1;
    }
    assert chunk[..q] == chunk;
    return Ok(acc);
  }

  /**
   * `get_helper_cols`: one helper column per chunk of `constraint_degree - 1`
   * pairs, whose row `d` is the sum over the chunk of the inverses of the
   * selected combined rows.  It fails exactly when some filter is not binary.
   */
  method GetHelperCols(t: Trace, degree: nat, pairs: seq<ColumnFilter>, ch: Challenge,
                       constraintDegree: nat, inv: Felt -> Felt)
    returns (r: Result<seq<seq<Felt>>, CtlError>)
    requires IsTrace(t) && degree <= Height(t) && PairsFit(pairs, |t|) && constraintDegree >= 2
    ensures r.Ok? <==> BinaryFilters(t, degree, pairs)
    ensures r.Ok? ==> r.value == HelperColumns(t, degree, pairs, ch, constraintDegree - 1, inv)
    ensures r.Ok? ==> |r.value| == CeilDiv(|pairs|, constraintDegree - 1)
  {
    var size := constraintDegree - 1;
    var helperColumns: seq<seq<Felt>> := [];
    var start := 0;
    while start < |pairs|
      invariant helperColumns + HelperColumnsFrom(t, degree, pairs, ch, size, inv, start)
             == HelperColumns(t, degree, pairs, ch, size, inv)
      invariant BinaryBefore(t, degree, pairs, Min(start, |pairs|))
      decreases |pairs| - start
    {
      var end := Min(start + size, |pairs|);
      ChunkFits(pairs, size, start, |t|);
      var col := ChunkHelperColumn(t, degree, pairs[start..end], ch, inv);
      if col.Err? {
        NotBinaryInChunk(t, degree, pairs, start, end);
        return Err(col.error);
      }
      helperColumns := helperColumns + [col.value];
      BinaryBeforeGrows(t, degree, pairs, start, end);
      start := start + size;
    }
    BinaryBeforeAll(t, degree, pairs);
    return Ok(helperColumns);
  }

  /** The filters of the pairs before `end` are binary on the rows below `degree`. */
  predicate BinaryBefore(t: Trace, degree: nat, pairs: seq<ColumnFilter>, end: nat)
    requires IsTrace(t) && degree <= Height(t) && PairsFit(pairs, |t|) && end <= |pairs|
  {
    forall q, d :: 0 <= q < end && 0 <= d < degree ==> IsBinary(FilterAt(pairs[q], t, d))
  }

  lemma BinaryBeforeGrows(t: Trace, degree: nat, pairs: seq<ColumnFilter>, start: nat, end: nat)
    requires IsTrace(t) && degree <= Height(t) && PairsFit(pairs, |t|) && start <= end <= |pairs|
    requires PairsFit(pairs[start..end], |t|)
    requires BinaryBefore(t, degree, pairs, start) && BinaryFilters(t, degree, pairs[start..end])
    ensures BinaryBefore(t, degree, pairs, end)
  {
    forall q, d | start <= q < end && 0 <= d < degree ensures IsBinary(FilterAt(pairs[q], t, d)) {
      assert pairs[q] == pairs[start..end][q - start];
    }
  }

  lemma BinaryBeforeAll(t: Trace, degree: nat, pairs: seq<ColumnFilter>)
    requires IsTrace(t) && degree <= Height(t) && PairsFit(pairs, |t|)
    ensures BinaryBefore(t, degree, pairs, |pairs|) <==> BinaryFilters(t, degree, pairs)
  {
  }

  lemma NotBinaryInChunk(t: Trace, degree: nat, pairs: seq<ColumnFilter>, start: nat, end: nat)
    requires IsTrace(t) && degree <= Height(t) && PairsFit(pairs, |t|) && start <= end <= |pairs|
    requires PairsFit(pairs[start..end], |t|)
    ensures BinaryFilters(t, degree, pairs) ==> BinaryFilters(t, degree, pairs[start..end])
  {
  }

  lemma ChunkEntryStepBase(one: seq<ColumnFilter>, t: Trace, degree: nat, ch: Challenge, inv: Felt -> Felt)
    requires IsTrace(t) && degree <= Height(t) && PairsFit(one, |t|) && |one| == 1
    ensures ChunkColumn(one, t, degree, ch, inv)
         == seq(degree, d requires 0 <= d < degree => InverseTerm(one[0], t, d, ch, inv))
  {
    forall d | 0 <= d < degree ensures ChunkEntry(one, t, d, ch, inv) == InverseTerm(one[0], t, d, ch, inv) {
      assert seq(1, q requires 0 <= q < 1 => InverseTerm(one[q], t, d, ch, inv)) == [InverseTerm(one[0], t, d, ch, inv)];
      SumSingleton(InverseTerm(one[0], t, d, ch, inv));
    }
  }

  /** All columns have exactly `n` rows. */
  predicate HasRows(h: seq<seq<Felt>>, n: nat)
  {
    forall j :: 0 <= j < |h| ==> |h[j]| == n
  }

  /** The sum of row `i` across the helper columns. */
  function RowSum(h: seq<seq<Felt>>, n: nat, i: nat): Felt
    requires HasRows(h, n) && i < n
  {
    Sum(seq(|h|, j requires 0 <= j < |h| => h[j][i]))
  }

  /** The reference value of Z at row `i`: Z at `n - 1` is the last row sum, Z at `i` adds row `i` to Z at `i + 1`. */
  function SuffixSum(h: seq<seq<Felt>>, n: nat, i: nat): Felt
    requires HasRows(h, n) && i < n
    decreases n - i
  {
    if i == n - 1 then RowSum(h, n, n - 1) else Add(SuffixSum(h, n, i + 1), RowSum(h, n, i))
  }

  function ZColumn(h: seq<seq<Felt>>, n: nat): (z: seq<Felt>)
    requires HasRows(h, n)
    ensures |z| == n
  {
    seq(n, i requires 0 <= i < n => SuffixSum(h, n, i))
  }

  /** The reference value of `partial_sums`: the helpers followed by Z, or Z alone for a single pair. */
  function PartialSumsSpec(t: Trace, pairs: seq<ColumnFilter>, ch: Challenge, size: nat, inv: Felt -> Felt): (r: seq<seq<Felt>>)
    requires IsTrace(t) && PairsFit(pairs, |t|) && size > 0
    ensures |r| > 0 && HasRows(r, Height(t))
  {
    var h := HelperColumns(t, Height(t), pairs, ch, size, inv);
    var z := ZColumn(h, Height(t));
    if |pairs| > 1 then h + [z] else [z]
  }

  /**
   * `partial_sums`: the helper columns of `get_helper_cols` and the
   * upside-down running sum Z, built by a reverse loop and a final reversal.
   */
  method PartialSums(t: Trace, pairs: seq<ColumnFilter>, ch: Challenge, constraintDegree: nat, inv: Felt -> Felt)
    returns (r: Result<seq<seq<Felt>>, CtlError>)
    requires IsTrace(t) && PairsFit(pairs, |t|) && constraintDegree >= 2
    ensures r.Ok? <==> BinaryFilters(t, Height(t), pairs)
    ensures r.Ok? ==> r.value == PartialSumsSpec(t, pairs, ch, constraintDegree - 1, inv)
  {
    var degree := Height(t);
    var hs := GetHelperCols(t, degree, pairs, ch, constraintDegree, inv);
    if hs.Err? {
      return Err(hs.error);
    }
    var helperColumns := hs.value;
    var z := ZFromHelpers(helperColumns, degree);
    if |pairs| > 1 {
      helperColumns := helperColumns + [z];
    } else {
      helperColumns := [z];
    }
    return Ok(helperColumns);
  }

  /** The Z column of `partial_sums`: running sums of the row sums, accumulated from the last row up. */
  method ZFromHelpers(h: seq<seq<Felt>>, n: nat) returns (z: seq<Felt>)
    requires HasRows(h, n) && n > 0
    ensures z == ZColumn(h, n)
  {
    var acc: seq<Felt> := [RowSum(h, n, n - 1)];
    var i: nat := n - 1;
    while i > 0
      invariant i <= n - 1
      invariant |acc| == n - i
      invariant forall k :: 0 <= k < |acc| ==> acc[k] == SuffixSum(h, n, n - 1 - k)
    {
      i := i - 1;
      var x := RowSum(h, n, i);
      assert Add(acc[|acc| - 1], x) == SuffixSum(h, n, i);
      acc := acc + [Add(acc[|acc| - 1], x)];
    }
    z := Reverse(acc);
  }

  /** The row sums from row `i` to the last. */
  function RowSumsFrom(h: seq<seq<Felt>>, n: nat, i: nat): (r: seq<Felt>)
    requires HasRows(h, n) && i <= n
    ensures |r| == n - i
    decreases n - i
  {
    if i == n then [] else [RowSum(h, n, i)] + RowSumsFrom(h, n, i + 1)
  }

  /** Z at row `i` is the sum of the row sums from `i` to the last row. */
  lemma {:induction false} SuffixSumIsSum(h: seq<seq<Felt>>, n: nat, i: nat)
    requires HasRows(h, n) && i < n
    ensures SuffixSum(h, n, i) == Sum(RowSumsFrom(h, n, i))
    decreases n - i
  {
    var rows := RowSumsFrom(h, n, i);
    if i == n - 1 {
      SumSingleton(RowSum(h, n, n - 1));
    } else {
      SuffixSumIsSum(h, n, i + 1);
      assert rows[1..] == RowSumsFrom(h, n, i + 1);
      SumFront(rows);
      AddComm(SuffixSum(h, n, i + 1), RowSum(h, n, i));
    }
  }

  /** The total of the lookup side: Z[0] is the sum of all helper values over all rows. */
  lemma ZFirstIsTotal(h: seq<seq<Felt>>, n: nat)
    requires HasRows(h, n) && n > 0
    ensures ZColumn(h, n)[0] == Sum(RowSumsFrom(h, n, 0))
  {
    SuffixSumIsSum(h, n, 0);
  }
}
