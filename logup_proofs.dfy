/**
 * The round trip of the log-derivative lookup: the helper columns and Z that
 * `partial_sums` produces make every constraint the checker emits vanish, on
 * every row, whenever the filters are binary and no selected row combines
 * to zero.
 */
module LogUpProofs {
  import opened Goldilocks
  import opened Wrappers
  import opened MathUtil
  import opened Columns
  import opened ColumnFacts
  import opened LogUp
  import opened LogUpChecker

  /** The opened values of every helper column at row `i`. */
  function Openings(h: seq<seq<Felt>>, n: nat, i: nat): (r: seq<Felt>)
    requires HasRows(h, n) && i < n
    ensures |r| == |h| && forall j :: 0 <= j < |h| ==> r[j] == h[j][i]
  {
    seq(|h|, j requires 0 <= j < |h| => h[j][i])
  }

  function ColumnsOf(pairs: seq<ColumnFilter>): (r: seq<seq<Column>>)
    ensures |r| == |pairs| && forall k :: 0 <= k < |pairs| ==> r[k] == pairs[k].columns
  {
    seq(|pairs|, k requires 0 <= k < |pairs| => pairs[k].columns)
  }

  function FiltersOf(pairs: seq<ColumnFilter>): (r: seq<Option<Filter>>)
    ensures |r| == |pairs| && forall k :: 0 <= k < |pairs| ==> r[k] == pairs[k].filter
  {
    seq(|pairs|, k requires 0 <= k < |pairs| => pairs[k].filter)
  }

  /**
   * The opening `local`/`next` shows the checker the same column and filter
   * values that the prover computed on row `i` of the trace.
   */
  predicate OpensAt(t: Trace, pairs: seq<ColumnFilter>, i: nat, local: seq<Felt>, next: seq<Felt>)
    requires IsTrace(t) && i < Height(t) && PairsFit(pairs, |t|) && |local| == |t| && |next| == |t|
  {
    forall p :: p in pairs ==>
      (forall m :: 0 <= m < |p.columns| ==> EvalWithNext(p.columns[m], local, next) == EvalTable(p.columns[m], t, i))
      && (p.filter.Some? ==> EvalFilter(p.filter.value, local, next) == FilterEvalTable(p.filter.value, t, i))
  }

  /** Opening row `i` and the next row (zero past the last row) is such an opening. */
  lemma OpensAtTraceRows(t: Trace, pairs: seq<ColumnFilter>, i: nat)
    requires IsTrace(t) && i < Height(t) && PairsFit(pairs, |t|)
    ensures |NextRowAt(t, i)| == |t|
    ensures OpensAt(t, pairs, i, RowAt(t, i), NextRowAt(t, i))
  {
    forall p | p in pairs
      ensures forall m :: 0 <= m < |p.columns| ==>
        EvalWithNext(p.columns[m], RowAt(t, i), NextRowAt(t, i)) == EvalTable(p.columns[m], t, i)
      ensures p.filter.Some? ==>
        EvalFilter(p.filter.value, RowAt(t, i), NextRowAt(t, i)) == FilterEvalTable(p.filter.value, t, i)
    {
      forall m | 0 <= m < |p.columns| {
        EvalTableIsOpening(p.columns[m], t, i);
      }
      if p.filter.Some? {
        FilterEvalTableIsOpening(p.filter.value, t, i);
      }
    }
  }

  /** No column and no filter of any pair reads the next row. */
  predicate PairsReadCurrentRowOnly(pairs: seq<ColumnFilter>)
  {
    forall p :: p in pairs ==>
      (forall m :: 0 <= m < |p.columns| ==> CurrentRowOnly(p.columns[m]))
      && (p.filter.Some? ==> FilterCurrentRowOnly(p.filter.value))
  }

  /**
   * At the last row, the STARK opening (the last row, then the first) shows
   * the checker the values the prover computed there with `eval_table`,
   * which reads nothing past the last row.
   */
  predicate LastRowOpensWrapped(t: Trace, pairs: seq<ColumnFilter>)
    requires IsTrace(t) && PairsFit(pairs, |t|)
  {
    OpensAt(t, pairs, Height(t) - 1, RowAt(t, Height(t) - 1), RowAt(t, 0))
  }

  /** Pairs that read only the current row open at the last row whatever follows it. */
  lemma CurrentRowOnlyOpensWrapped(t: Trace, pairs: seq<ColumnFilter>)
    requires IsTrace(t) && PairsFit(pairs, |t|) && PairsReadCurrentRowOnly(pairs)
    ensures LastRowOpensWrapped(t, pairs)
  {
    var i := Height(t) - 1;
    var v, nv, nv' := RowAt(t, i), NextRowAt(t, i), RowAt(t, 0);
    OpensAtTraceRows(t, pairs, i);
    forall p | p in pairs
      ensures forall m :: 0 <= m < |p.columns| ==> EvalWithNext(p.columns[m], v, nv') == EvalTable(p.columns[m], t, i)
      ensures p.filter.Some? ==> EvalFilter(p.filter.value, v, nv') == FilterEvalTable(p.filter.value, t, i)
    {
      forall m | 0 <= m < |p.columns| {
        ColumnFacts.CurrentRowOnlyIgnoresNext(p.columns[m], v, nv, nv');
      }
      if p.filter.Some? {
        ColumnFacts.FilterCurrentRowOnlyIgnoresNext(p.filter.value, v, nv, nv');
      }
    }
  }

  /** Row `i` and the next row of the STARK opening open the pairs, the last row under that condition. */
  lemma OpensAtStarkRows(t: Trace, pairs: seq<ColumnFilter>, i: nat)
    requires IsTrace(t) && i < Height(t) && PairsFit(pairs, |t|)
    requires i + 1 < Height(t) || LastRowOpensWrapped(t, pairs)
    ensures OpensAt(t, pairs, i, RowAt(t, i), WrappedNextRow(t, i))
  {
    if i + 1 < Height(t) {
      OpensAtTraceRows(t, pairs, i);
      ColumnFacts.WrappedNextRowBeforeLast(t, i);
    } else {
      assert WrappedNextRow(t, i) == RowAt(t, 0);
    }
  }

  /** Every selected row combines to a nonzero value (the prover can invert it). */
  predicate SelectedCombinesNonzero(t: Trace, pairs: seq<ColumnFilter>, ch: Challenge)
    requires IsTrace(t) && PairsFit(pairs, |t|)
  {
    forall p, d :: p in pairs && 0 <= d < Height(t) && FilterAt(p, t, d) == 1 ==> Combine(ch, EvalsAt(p, t, d)) != 0
  }

  /** A pair's combined row times its contribution is its filter value. */
  lemma CombineTimesTerm(p: ColumnFilter, t: Trace, d: nat, ch: Challenge, inv: Felt -> Felt)
    requires IsTrace(t) && d < Height(t) && PairFits(p, |t|) && IsInverter(inv)
    requires IsBinary(FilterAt(p, t, d))
    requires FilterAt(p, t, d) == 1 ==> Combine(ch, EvalsAt(p, t, d)) != 0
    ensures Mul(Combine(ch, EvalsAt(p, t, d)), InverseTerm(p, t, d, ch, inv)) == FilterAt(p, t, d)
  {
  }

  /** At row `i`, every pair's combined row times its contribution is its filter value. */
  predicate RowInvertible(t: Trace, pairs: seq<ColumnFilter>, ch: Challenge, inv: Felt -> Felt, i: nat)
    requires IsTrace(t) && i < Height(t) && PairsFit(pairs, |t|)
  {
    forall p :: p in pairs ==> Mul(Combine(ch, EvalsAt(p, t, i)), InverseTerm(p, t, i, ch, inv)) == FilterAt(p, t, i)
  }

  lemma RowsInvertible(t: Trace, pairs: seq<ColumnFilter>, ch: Challenge, inv: Felt -> Felt, i: nat)
    requires IsTrace(t) && i < Height(t) && PairsFit(pairs, |t|) && IsInverter(inv)
    requires BinaryFilters(t, Height(t), pairs) && SelectedCombinesNonzero(t, pairs, ch)
    ensures RowInvertible(t, pairs, ch, inv, i)
  {
    forall p | p in pairs
      ensures Mul(Combine(ch, EvalsAt(p, t, i)), InverseTerm(p, t, i, ch, inv)) == FilterAt(p, t, i)
    {
      CombineTimesTerm(p, t, i, ch, inv);
    }
  }

  /** The checker can evaluate the columns and filters of pairs that fit the trace. */
  lemma PairsOpenFit(pairs: seq<ColumnFilter>, width: nat)
    requires PairsFit(pairs, width)
    ensures forall k, m :: 0 <= k < |ColumnsOf(pairs)| && 0 <= m < |ColumnsOf(pairs)[k]| ==>
      Fits(ColumnsOf(pairs)[k][m], width)
    ensures FiltersFit(FiltersOf(pairs), width)
  {
    assert forall k :: 0 <= k < |pairs| ==> pairs[k] in pairs;
  }

  /** What the checker sees of pair `k` is what the prover computed. */
  lemma OpenedPair(t: Trace, pairs: seq<ColumnFilter>, i: nat, local: seq<Felt>, next: seq<Felt>, k: nat)
    requires IsTrace(t) && i < Height(t) && PairsFit(pairs, |t|) && |local| == |t| && |next| == |t|
    requires OpensAt(t, pairs, i, local, next) && k < |pairs|
    ensures forall k', m :: 0 <= k' < |ColumnsOf(pairs)| && 0 <= m < |ColumnsOf(pairs)[k']| ==>
      Fits(ColumnsOf(pairs)[k'][m], |local|)
    ensures FiltersFit(FiltersOf(pairs), |local|)
    ensures EvalColumns(ColumnsOf(pairs), local, next)[k] == EvalsAt(pairs[k], t, i)
    ensures FilterValue(FiltersOf(pairs)[k], local, next) == FilterAt(pairs[k], t, i)
  {
    PairsOpenFit(pairs, |t|);
    assert pairs[k] in pairs;
  }

  lemma ChunkEntryOfOne(chunk: seq<ColumnFilter>, t: Trace, d: nat, ch: Challenge, inv: Felt -> Felt)
    requires IsTrace(t) && d < Height(t) && PairsFit(chunk, |t|) && |chunk| == 1
    ensures ChunkEntry(chunk, t, d, ch, inv) == InverseTerm(chunk[0], t, d, ch, inv)
  {
    var x := InverseTerm(chunk[0], t, d, ch, inv);
    assert seq(1, q requires 0 <= q < 1 => InverseTerm(chunk[q], t, d, ch, inv)) == [x];
    SumSingleton(x);
  }

  lemma ChunkEntryOfTwo(chunk: seq<ColumnFilter>, t: Trace, d: nat, ch: Challenge, inv: Felt -> Felt)
    requires IsTrace(t) && d < Height(t) && PairsFit(chunk, |t|) && |chunk| == 2
    ensures ChunkEntry(chunk, t, d, ch, inv)
         == Add(InverseTerm(chunk[0], t, d, ch, inv), InverseTerm(chunk[1], t, d, ch, inv))
  {
    var x := InverseTerm(chunk[0], t, d, ch, inv);
    var y := InverseTerm(chunk[1], t, d, ch, inv);
    assert seq(2, q requires 0 <= q < 2 => InverseTerm(chunk[q], t, d, ch, inv)) == [x, y];
    assert [x, y][..1] == [x];
    SumSingleton(x);
  }

  /** The constraint of the chunk at `start` vanishes on the helper value the prover computed. */
  lemma ChunkVanishes(t: Trace, pairs: seq<ColumnFilter>, ch: Challenge, size: nat,
                      inv: Felt -> Felt, i: nat, local: seq<Felt>, next: seq<Felt>, start: nat, h: Felt)
    requires IsTrace(t) && PairsFit(pairs, |t|) && 1 <= size <= 2 && i < Height(t)
    requires RowInvertible(t, pairs, ch, inv, i)
    requires |local| == |t| && |next| == |t| && OpensAt(t, pairs, i, local, next)
    requires start < |pairs| && PairsFit(ChunkAt(pairs, size, start), |t|)
    requires h == ChunkEntry(ChunkAt(pairs, size, start), t, i, ch, inv)
    ensures FiltersFit(FiltersOf(pairs), |local|)
      && (forall k, m :: 0 <= k < |ColumnsOf(pairs)| && 0 <= m < |ColumnsOf(pairs)[k]| ==>
            Fits(ColumnsOf(pairs)[k][m], |local|))
      && ChunkConstraint(ChunkAt(FiltersOf(pairs), size, start),
                         ChunkAt(EvalColumns(ColumnsOf(pairs), local, next), size, start), local, next, h, ch)
         == Ok(Constraint(EveryRow, 0))
  {
    PairsOpenFit(pairs, |t|);
    ChunkFits(pairs, size, start, |t|);
    var end := Min(start + size, |pairs|);
    var chunk := pairs[start..end];
    var fs := ChunkAt(FiltersOf(pairs), size, start);
    var evs := ChunkAt(EvalColumns(ColumnsOf(pairs), local, next), size, start);
    OpenedPair(t, pairs, i, local, next, start);
    assert pairs[start] in pairs;
    var t0 := InverseTerm(pairs[start], t, i, ch, inv);
    assert evs[0] == EvalsAt(pairs[start], t, i) && FilterValue(fs[0], local, next) == FilterAt(pairs[start], t, i);
    if end - start == 2 {
      OpenedPair(t, pairs, i, local, next, start + 1);
      assert pairs[start + 1] in pairs;
      ChunkEntryOfTwo(chunk, t, i, ch, inv);
      var t1 := InverseTerm(pairs[start + 1], t, i, ch, inv);
      assert evs[1] == EvalsAt(pairs[start + 1], t, i) && FilterValue(fs[1], local, next) == FilterAt(pairs[start + 1], t, i);
      ChunkConstraintVanishes(fs, evs, local, next, h, ch, t0, t1);
    } else {
      ChunkEntryOfOne(chunk, t, i, ch, inv);
      ChunkConstraintVanishes(fs, evs, local, next, h, ch, t0, 0);
    }
  }

  /**
   * A chunk's constraint vanishes when each of its combined rows times its
   * term is its filter and the helper value is the sum of the terms.
   */
  lemma ChunkConstraintVanishes(fs: seq<Option<Filter>>, chunk: seq<seq<Felt>>, local: seq<Felt>, next: seq<Felt>,
                                h: Felt, ch: Challenge, t0: Felt, t1: Felt)
    requires |fs| == |chunk| && |local| == |next| && FiltersFit(fs, |local|) && 1 <= |chunk| <= 2
    requires Mul(Combine(ch, chunk[0]), t0) == FilterValue(fs[0], local, next)
    requires |chunk| == 2 ==> Mul(Combine(ch, chunk[1]), t1) == FilterValue(fs[1], local, next) && h == Add(t0, t1)
    requires |chunk| == 1 ==> h == t0
    ensures ChunkConstraint(fs, chunk, local, next, h, ch) == Ok(Constraint(EveryRow, 0))
  {
    var c0 := Combine(ch, chunk[0]);
    var f0 := FilterValue(fs[0], local, next);
    if |chunk| == 2 {
      var c1 := Combine(ch, chunk[1]);
      var f1 := FilterValue(fs[1], local, next);
      MulComm(c1, c0);
      PairIdentity(c0, c1, t0, t1, f0, f1);
    } else {
      assert Sub(Mul(c0, h), f0) == 0;
    }
  }

  /** Every chunk constraint from column set `start` on vanishes on its helper value in `hs`. */
  predicate ChunksVanishFrom(filter: seq<Option<Filter>>, evals: seq<seq<Felt>>, local: seq<Felt>, next: seq<Felt>,
                             hs: seq<Felt>, size: nat, ch: Challenge, start: nat)
    requires |filter| == |evals| && |local| == |next| && FiltersFit(filter, |local|) && size > 0
    decreases |evals| - start
  {
    start >= |evals|
    || (|hs| > 0
        && ChunkConstraint(ChunkAt(filter, size, start), ChunkAt(evals, size, start), local, next, hs[0], ch)
           == Ok(Constraint(EveryRow, 0))
        && ChunksVanishFrom(filter, evals, local, next, hs[1..], size, ch, start + size))
  }

  /** When every chunk constraint vanishes, the checker's chunk constraints all hold. */
  lemma {:induction false} ChunksVanishHold(filter: seq<Option<Filter>>, evals: seq<seq<Felt>>, local: seq<Felt>,
                                            next: seq<Felt>, hs: seq<Felt>, size: nat, ch: Challenge, start: nat,
                                            i: nat, n: nat)
    requires |filter| == |evals| && |local| == |next| && FiltersFit(filter, |local|) && size > 0
    requires |hs| >= CeilDiv(if start < |evals| then |evals| - start else 0, size)
    requires ChunksVanishFrom(filter, evals, local, next, hs, size, ch, start)
    ensures var r := HelperChunks(filter, evals, local, next, hs, size, ch, start);
            r.Ok? && AllHoldAt(r.value, i, n)
    decreases |evals| - start
  {
    if start < |evals| {
      ChunksVanishTail(filter, evals, local, next, hs, size, ch, start);
      ChunksVanishHold(filter, evals, local, next, hs[1..], size, ch, start + size, i, n);
      HelperChunksCons(filter, evals, local, next, hs, size, ch, start, i, n);
    }
  }

  /** Unfolding `ChunksVanishFrom` once: the first chunk vanishes, and so do the later ones on the later values. */
  lemma ChunksVanishTail(filter: seq<Option<Filter>>, evals: seq<seq<Felt>>, local: seq<Felt>, next: seq<Felt>,
                         hs: seq<Felt>, size: nat, ch: Challenge, start: nat)
    requires |filter| == |evals| && |local| == |next| && FiltersFit(filter, |local|) && size > 0 && start < |evals|
    requires |hs| >= CeilDiv(|evals| - start, size)
    requires ChunksVanishFrom(filter, evals, local, next, hs, size, ch, start)
    ensures |hs| > 0
    ensures |hs| - 1 >= CeilDiv(if start + size < |evals| then |evals| - (start + size) else 0, size)
    ensures ChunkConstraint(ChunkAt(filter, size, start), ChunkAt(evals, size, start), local, next, hs[0], ch)
         == Ok(Constraint(EveryRow, 0))
    ensures ChunksVanishFrom(filter, evals, local, next, hs[1..], size, ch, start + size)
  {
    CeilDivStep(|evals| - start, size);
  }

  /** The chunk constraints from `start` on hold when the first one vanishes and the later ones hold. */
  lemma HelperChunksCons(filter: seq<Option<Filter>>, evals: seq<seq<Felt>>, local: seq<Felt>, next: seq<Felt>,
                         hs: seq<Felt>, size: nat, ch: Challenge, start: nat, i: nat, n: nat)
    requires |filter| == |evals| && |local| == |next| && FiltersFit(filter, |local|) && size > 0
    requires start < |evals| && |hs| > 0
    requires |hs| - 1 >= CeilDiv(if start + size < |evals| then |evals| - (start + size) else 0, size)
    requires ChunkConstraint(ChunkAt(filter, size, start), ChunkAt(evals, size, start),
                             local, next, hs[0], ch) == Ok(Constraint(EveryRow, 0))
    requires var later := HelperChunks(filter, evals, local, next, hs[1..], size, ch, start + size);
             later.Ok? && AllHoldAt(later.value, i, n)
    ensures |hs| >= CeilDiv(|evals| - start, size)
    ensures var r := HelperChunks(filter, evals, local, next, hs, size, ch, start);
            r.Ok? && AllHoldAt(r.value, i, n)
  {
    CeilDivStep(|evals| - start, size);
  }

  /**
   * The chunk constraints from pair `start` on vanish at row `i` when the
   * helper values are those `get_helper_cols` computed.
   */
  lemma {:induction false} HelperChunksVanish(t: Trace, pairs: seq<ColumnFilter>, ch: Challenge, size: nat,
                                              inv: Felt -> Felt, i: nat, local: seq<Felt>, next: seq<Felt>, start: nat)
    requires IsTrace(t) && PairsFit(pairs, |t|) && 1 <= size <= 2 && i < Height(t)
    requires RowInvertible(t, pairs, ch, inv, i)
    requires |local| == |t| && |next| == |t| && OpensAt(t, pairs, i, local, next)
    ensures FiltersFit(FiltersOf(pairs), |local|)
    ensures ChunksVanishFrom(FiltersOf(pairs), EvalColumns(ColumnsOf(pairs), local, next), local, next,
                             Openings(HelperColumnsFrom(t, Height(t), pairs, ch, size, inv, start), Height(t), i),
                             size, ch, start)
    decreases |pairs| - start
  {
    var n := Height(t);
    PairsOpenFit(pairs, |t|);
    if start < |pairs| {
      var hs := Openings(HelperColumnsFrom(t, n, pairs, ch, size, inv, start), n, i);
      OpeningsCons(t, pairs, ch, size, inv, start, i);
      HelperChunksVanish(t, pairs, ch, size, inv, i, local, next, start + size);
      ChunkVanishes(t, pairs, ch, size, inv, i, local, next, start, hs[0]);
    }
  }

  /** The first helper opening is the first chunk's entry; the rest are the later chunks' openings. */
  lemma OpeningsCons(t: Trace, pairs: seq<ColumnFilter>, ch: Challenge, size: nat, inv: Felt -> Felt, start: nat, i: nat)
    requires IsTrace(t) && PairsFit(pairs, |t|) && size > 0 && i < Height(t) && start < |pairs|
    ensures PairsFit(ChunkAt(pairs, size, start), |t|)
    ensures var hs := Openings(HelperColumnsFrom(t, Height(t), pairs, ch, size, inv, start), Height(t), i);
            |hs| > 0
            && hs[0] == ChunkEntry(ChunkAt(pairs, size, start), t, i, ch, inv)
            && hs[1..] == Openings(HelperColumnsFrom(t, Height(t), pairs, ch, size, inv, start + size), Height(t), i)
  {
    var n := Height(t);
    ChunkFits(pairs, size, start, |t|);
    var hcf := HelperColumnsFrom(t, n, pairs, ch, size, inv, start);
    var rest := HelperColumnsFrom(t, n, pairs, ch, size, inv, start + size);
    assert hcf == [ChunkColumn(ChunkAt(pairs, size, start), t, n, ch, inv)] + rest;
    assert Openings(hcf, n, i)[1..] == Openings(rest, n, i);
  }

  /**
   * The checker variables of one lookup side at row `i`, as the openings of
   * `partial_sums`' output give them: the helper values at row `i` (none
   * for a single pair), and Z at row `i` and at the next row, cyclically.
   */
  function VarsAt(out: seq<seq<Felt>>, pairs: seq<ColumnFilter>, ch: Challenge, n: nat, i: nat): CtlCheckVars
    requires |out| > 0 && HasRows(out, n) && i < n
  {
    var z := out[|out| - 1];
    var helpers := if |pairs| > 1 then Openings(out[..|out| - 1], n, i) else [];
    CtlCheckVars(helpers, z[i], z[(i + 1) % n], ch, ColumnsOf(pairs), FiltersOf(pairs))
  }

  lemma AllHoldAppend(a: seq<Constraint>, b: seq<Constraint>, i: nat, n: nat)
    requires AllHoldAt(a, i, n) && AllHoldAt(b, i, n)
    ensures AllHoldAt(a + b, i, n)
  {
  }

  lemma RowSumIsOpeningSum(h: seq<seq<Felt>>, n: nat, i: nat)
    requires HasRows(h, n) && i < n
    ensures RowSum(h, n, i) == Sum(Openings(h, n, i))
  {
    assert seq(|h|, j requires 0 <= j < |h| => h[j][i]) == Openings(h, n, i);
  }

  /** The Z constraints with helper columns: `Z − Σh` on the last row, `Z − Z_next − Σh` elsewhere. */
  lemma ZConstraintsVanish(h: seq<seq<Felt>>, n: nat, i: nat)
    requires HasRows(h, n) && i < n
    ensures var z := ZColumn(h, n);
            var hSum := Sum(Openings(h, n, i));
            (i == n - 1 ==> Sub(z[i], hSum) == 0)
            && (i < n - 1 ==> Sub(Sub(z[i], z[(i + 1) % n]), hSum) == 0)
  {
    var z := ZColumn(h, n);
    RowSumIsOpeningSum(h, n, i);
    var x := RowSum(h, n, i);
    Identities(x);
    if i < n - 1 {
      ModOfSmall(i + 1, n);
      assert z[i] == Add(z[i + 1], x);
      AddSubCancel(z[i + 1], x);
    }
  }

  /** Round trip for a lookup side with several pairs: helpers and Z satisfy every constraint. */
  lemma ManyPairsPass(t: Trace, pairs: seq<ColumnFilter>, ch: Challenge, constraintDegree: nat,
                      inv: Felt -> Felt, i: nat, local: seq<Felt>, next: seq<Felt>)
    requires IsTrace(t) && PairsFit(pairs, |t|) && |pairs| > 1 && 2 <= constraintDegree <= 3 && i < Height(t)
    requires RowInvertible(t, pairs, ch, inv, i)
    requires |local| == |t| && |next| == |t| && OpensAt(t, pairs, i, local, next)
    ensures var vars := VarsAt(PartialSumsSpec(t, pairs, ch, constraintDegree - 1, inv), pairs, ch, Height(t), i);
            VarsFit(vars, |local|, constraintDegree)
            && var r := EvalCtlCheck(vars, local, next, constraintDegree);
               r.Ok? && AllHoldAt(r.value, i, Height(t))
  {
    var n := Height(t);
    var size := constraintDegree - 1;
    var h := HelperColumns(t, n, pairs, ch, size, inv);
    var out := PartialSumsSpec(t, pairs, ch, size, inv);
    var z := ZColumn(h, n);
    assert out == h + [z];
    assert out[..|out| - 1] == h;
    CeilDivStep(|pairs|, size);
    PairsOpenFit(pairs, |t|);
    var vars := VarsAt(out, pairs, ch, n, i);
    assert vars.helperColumns == Openings(h, n, i);
    assert vars.localZ == z[i] && vars.nextZ == z[(i + 1) % n];
    HelperChunksVanish(t, pairs, ch, size, inv, i, local, next, 0);
    ZConstraintsVanish(h, n, i);
    WithHelpersHold(vars, local, next, constraintDegree, i, n);
  }

  /**
   * With helper columns the checker's constraints hold when every chunk
   * constraint vanishes and Z steps by the sum of the helper values.
   */
  lemma WithHelpersHold(v: CtlCheckVars, local: seq<Felt>, next: seq<Felt>, constraintDegree: nat, i: nat, n: nat)
    requires |local| == |next| && VarsFit(v, |local|, constraintDegree) && |v.helperColumns| > 0
    requires ChunksVanishFrom(v.filter, EvalColumns(v.columns, local, next), local, next, v.helperColumns,
                              constraintDegree - 1, v.challenge, 0)
    requires i == n - 1 ==> Sub(v.localZ, Sum(v.helperColumns)) == 0
    requires i < n - 1 ==> Sub(Sub(v.localZ, v.nextZ), Sum(v.helperColumns)) == 0
    ensures var r := EvalCtlCheck(v, local, next, constraintDegree);
            r.Ok? && AllHoldAt(r.value, i, n)
  {
    var evals := EvalColumns(v.columns, local, next);
    var size := constraintDegree - 1;
    ChunksVanishHold(v.filter, evals, local, next, v.helperColumns, size, v.challenge, 0, i, n);
    var hc := HelperChunks(v.filter, evals, local, next, v.helperColumns, size, v.challenge, 0);
    var hSum := Sum(v.helperColumns);
    var zs := [Constraint(LastRow, Sub(v.localZ, hSum)), Constraint(Transition, Sub(Sub(v.localZ, v.nextZ), hSum))];
    WithHelpersShape(v, local, next, constraintDegree);
    AllHoldAppend(hc.value, zs, i, n);
  }

  /** With helper columns the checker emits the chunk constraints, then Z's last-row and transition constraints. */
  lemma WithHelpersShape(v: CtlCheckVars, local: seq<Felt>, next: seq<Felt>, constraintDegree: nat)
    requires |local| == |next| && VarsFit(v, |local|, constraintDegree) && |v.helperColumns| > 0
    ensures var hc := HelperChunks(v.filter, EvalColumns(v.columns, local, next), local, next, v.helperColumns,
                                   constraintDegree - 1, v.challenge, 0);
            var hSum := Sum(v.helperColumns);
            hc.Ok? ==> EvalCtlCheck(v, local, next, constraintDegree)
                       == Ok(hc.value + [Constraint(LastRow, Sub(v.localZ, hSum)),
                                         Constraint(Transition, Sub(Sub(v.localZ, v.nextZ), hSum))])
  {
  }

  /** With a single pair there is one helper column, and its entries are that pair's contributions. */
  lemma SinglePairRowSum(t: Trace, pairs: seq<ColumnFilter>, ch: Challenge, size: nat, inv: Felt -> Felt, d: nat)
    requires IsTrace(t) && PairsFit(pairs, |t|) && |pairs| == 1 && size > 0 && d < Height(t)
    ensures pairs[0] in pairs
    ensures RowSum(HelperColumns(t, Height(t), pairs, ch, size, inv), Height(t), d) == InverseTerm(pairs[0], t, d, ch, inv)
  {
    var n := Height(t);
    var h := HelperColumns(t, n, pairs, ch, size, inv);
    CeilDivStep(1, size);
    CeilDivZero(size);
    ChunkFits(pairs, size, 0, |t|);
    assert ChunkAt(pairs, size, 0) == pairs;
    assert h == [ChunkColumn(pairs, t, n, ch, inv)] + HelperColumnsFrom(t, n, pairs, ch, size, inv, size);
    ChunkEntryOfOne(pairs, t, d, ch, inv);
    assert seq(|h|, j requires 0 <= j < |h| => h[j][d]) == [h[0][d]];
    SumSingleton(h[0][d]);
  }

  /**
   * The checker's constraints for a single column set without helpers vanish
   * when `c·x = f`, Z at the last row is `x`, and Z elsewhere is `Z_next + x`.
   */
  lemma SingleSetVanishes(v: CtlCheckVars, local: seq<Felt>, next: seq<Felt>, constraintDegree: nat, x: Felt, i: nat, n: nat)
    requires |local| == |next| && VarsFit(v, |local|, constraintDegree)
    requires |v.helperColumns| == 0 && |v.columns| == 1
    requires Mul(Combine(v.challenge, EvalColumns(v.columns, local, next)[0]), x) == FilterValue(v.filter[0], local, next)
    requires i == n - 1 ==> v.localZ == x
    requires i < n - 1 ==> v.localZ == Add(v.nextZ, x)
    ensures var r := EvalCtlCheck(v, local, next, constraintDegree);
            r.Ok? && AllHoldAt(r.value, i, n)
  {
    Identities(FilterValue(v.filter[0], local, next));
    AddSubCancel(v.nextZ, x);
  }

  /** Round trip for a lookup side with one pair: `c·Z − f` on the last row, `c·(Z − Z_next) − f` elsewhere. */
  lemma SinglePairPasses(t: Trace, pairs: seq<ColumnFilter>, ch: Challenge, constraintDegree: nat,
                         inv: Felt -> Felt, i: nat, local: seq<Felt>, next: seq<Felt>)
    requires IsTrace(t) && PairsFit(pairs, |t|) && |pairs| == 1 && constraintDegree >= 2 && i < Height(t)
    requires RowInvertible(t, pairs, ch, inv, i)
    requires |local| == |t| && |next| == |t| && OpensAt(t, pairs, i, local, next)
    ensures var vars := VarsAt(PartialSumsSpec(t, pairs, ch, constraintDegree - 1, inv), pairs, ch, Height(t), i);
            VarsFit(vars, |local|, constraintDegree)
            && var r := EvalCtlCheck(vars, local, next, constraintDegree);
               r.Ok? && AllHoldAt(r.value, i, Height(t))
  {
    var n := Height(t);
    var size := constraintDegree - 1;
    var h := HelperColumns(t, n, pairs, ch, size, inv);
    var z := ZColumn(h, n);
    var out := PartialSumsSpec(t, pairs, ch, size, inv);
    assert out == [z];
    PairsOpenFit(pairs, |t|);
    OpenedPair(t, pairs, i, local, next, 0);
    SinglePairRowSum(t, pairs, ch, size, inv, i);
    var vars := VarsAt(out, pairs, ch, n, i);
    var x := InverseTerm(pairs[0], t, i, ch, inv);
    assert vars.columns == ColumnsOf(pairs) && vars.filter == FiltersOf(pairs) && vars.helperColumns == [];
    assert vars.localZ == SuffixSum(h, n, i);
    assert Mul(Combine(ch, EvalsAt(pairs[0], t, i)), x) == FilterAt(pairs[0], t, i);
    if i < n - 1 {
      ModOfSmall(i + 1, n);
      assert vars.nextZ == SuffixSum(h, n, i + 1);
      assert vars.localZ == Add(vars.nextZ, x);
    } else {
      assert vars.localZ == x;
    }
    SingleSetVanishes(vars, local, next, constraintDegree, x, i, n);
  }

  /**
   * The round trip of the log-derivative lookup: on every row, the helper
   * columns and Z that `partial_sums` produces for a lookup side satisfy every
   * constraint the checker emits for it, provided the filters are binary, no
   * selected row combines to zero, inversion is correct, and the checker sees
   * the prover's column values.
   */
  lemma PartialSumsPassChecker(t: Trace, pairs: seq<ColumnFilter>, ch: Challenge, constraintDegree: nat,
                               inv: Felt -> Felt, i: nat, local: seq<Felt>, next: seq<Felt>)
    requires IsTrace(t) && PairsFit(pairs, |t|) && |pairs| > 0 && 2 <= constraintDegree <= 3 && i < Height(t)
    requires IsInverter(inv) && BinaryFilters(t, Height(t), pairs) && SelectedCombinesNonzero(t, pairs, ch)
    requires |local| == |t| && |next| == |t| && OpensAt(t, pairs, i, local, next)
    ensures var vars := VarsAt(PartialSumsSpec(t, pairs, ch, constraintDegree - 1, inv), pairs, ch, Height(t), i);
            VarsFit(vars, |local|, constraintDegree)
            && var r := EvalCtlCheck(vars, local, next, constraintDegree);
               r.Ok? && AllHoldAt(r.value, i, Height(t))
  {
    RowsInvertible(t, pairs, ch, inv, i);
    if |pairs| > 1 {
      ManyPairsPass(t, pairs, ch, constraintDegree, inv, i, local, next);
    } else {
      SinglePairPasses(t, pairs, ch, constraintDegree, inv, i, local, next);
    }
  }

  /** The same holds on the prover's own rows: row `i` and the next row, zero past the last. */
  lemma PartialSumsPassCheckerOnTrace(t: Trace, pairs: seq<ColumnFilter>, ch: Challenge, constraintDegree: nat,
                                      inv: Felt -> Felt, i: nat)
    requires IsTrace(t) && PairsFit(pairs, |t|) && |pairs| > 0 && 2 <= constraintDegree <= 3 && i < Height(t)
    requires IsInverter(inv) && BinaryFilters(t, Height(t), pairs) && SelectedCombinesNonzero(t, pairs, ch)
    ensures |NextRowAt(t, i)| == |t|
    ensures var vars := VarsAt(PartialSumsSpec(t, pairs, ch, constraintDegree - 1, inv), pairs, ch, Height(t), i);
            VarsFit(vars, |t|, constraintDegree)
            && var r := EvalCtlCheck(vars, RowAt(t, i), NextRowAt(t, i), constraintDegree);
               r.Ok? && AllHoldAt(r.value, i, Height(t))
  {
    OpensAtTraceRows(t, pairs, i);
    PartialSumsPassChecker(t, pairs, ch, constraintDegree, inv, i, RowAt(t, i), NextRowAt(t, i));
  }

  /**
   * The same on the opening the STARK checker sees: row `i` and the row after
   * it, the first row after the last.  At the last row the checker must see
   * there what the prover computed, as it does when no column or filter
   * reads the next row (`CurrentRowOnlyOpensWrapped`).
   */
  lemma PartialSumsPassCheckerOnStarkRows(t: Trace, pairs: seq<ColumnFilter>, ch: Challenge, constraintDegree: nat,
                                          inv: Felt -> Felt, i: nat)
    requires IsTrace(t) && PairsFit(pairs, |t|) && |pairs| > 0 && 2 <= constraintDegree <= 3 && i < Height(t)
    requires IsInverter(inv) && BinaryFilters(t, Height(t), pairs) && SelectedCombinesNonzero(t, pairs, ch)
    requires i + 1 < Height(t) || LastRowOpensWrapped(t, pairs)
    ensures var vars := VarsAt(PartialSumsSpec(t, pairs, ch, constraintDegree - 1, inv), pairs, ch, Height(t), i);
            VarsFit(vars, |t|, constraintDegree)
            && var r := EvalCtlCheck(vars, RowAt(t, i), WrappedNextRow(t, i), constraintDegree);
               r.Ok? && AllHoldAt(r.value, i, Height(t))
  {
    OpensAtStarkRows(t, pairs, i);
    PartialSumsPassChecker(t, pairs, ch, constraintDegree, inv, i, RowAt(t, i), WrappedNextRow(t, i));
  }

  /**
   * The checker's constraints for two column sets without helpers vanish when
   * `c0·x0 = f0`, `c1·x1 = f1`, Z at the last row is `x0 + x1`, and Z
   * elsewhere is `Z_next + x0 + x1`.
   */
  lemma TwoSetsVanish(v: CtlCheckVars, local: seq<Felt>, next: seq<Felt>, constraintDegree: nat,
                      x0: Felt, x1: Felt, i: nat, n: nat)
    requires |local| == |next| && VarsFit(v, |local|, constraintDegree)
    requires |v.helperColumns| == 0 && |v.columns| == 2
    requires Mul(Combine(v.challenge, EvalColumns(v.columns, local, next)[0]), x0) == FilterValue(v.filter[0], local, next)
    requires Mul(Combine(v.challenge, EvalColumns(v.columns, local, next)[1]), x1) == FilterValue(v.filter[1], local, next)
    requires i == n - 1 ==> v.localZ == Add(x0, x1)
    requires i < n - 1 ==> v.localZ == Add(v.nextZ, Add(x0, x1))
    ensures var r := EvalCtlCheck(v, local, next, constraintDegree);
            r.Ok? && AllHoldAt(r.value, i, n)
  {
    var evals := EvalColumns(v.columns, local, next);
    var c0 := Combine(v.challenge, evals[0]);
    var c1 := Combine(v.challenge, evals[1]);
    var f0 := FilterValue(v.filter[0], local, next);
    var f1 := FilterValue(v.filter[1], local, next);
    PairIdentity(c0, c1, x0, x1, f0, f1);
    AddSubCancel(v.nextZ, Add(x0, x1));
  }

  /**
   * The checker's branch for two column sets without helper columns accepts
   * the Z that sums, row by row, the two pairs' contributions.  No output of
   * `partial_sums` has this shape: for more than one pair it always returns
   * helper columns before Z (`PartialSumsSpec`), so the branch is checked
   * here against that Z on its own.
   */
  lemma TwoPairsWithoutHelpersPass(t: Trace, pairs: seq<ColumnFilter>, ch: Challenge, constraintDegree: nat,
                                   inv: Felt -> Felt, i: nat, local: seq<Felt>, next: seq<Felt>)
    requires IsTrace(t) && PairsFit(pairs, |t|) && |pairs| == 2 && constraintDegree >= 2 && i < Height(t)
    requires IsInverter(inv) && BinaryFilters(t, Height(t), pairs) && SelectedCombinesNonzero(t, pairs, ch)
    requires |local| == |t| && |next| == |t| && OpensAt(t, pairs, i, local, next)
    ensures var n := Height(t);
            var z := ZColumn(HelperColumns(t, n, pairs, ch, 1, inv), n);
            var vars := CtlCheckVars([], z[i], z[(i + 1) % n], ch, ColumnsOf(pairs), FiltersOf(pairs));
            VarsFit(vars, |local|, constraintDegree)
            && var r := EvalCtlCheck(vars, local, next, constraintDegree);
               r.Ok? && AllHoldAt(r.value, i, n)
  {
    var n := Height(t);
    var h := HelperColumns(t, n, pairs, ch, 1, inv);
    var z := ZColumn(h, n);
    var vars := CtlCheckVars([], z[i], z[(i + 1) % n], ch, ColumnsOf(pairs), FiltersOf(pairs));
    RowsInvertible(t, pairs, ch, inv, i);
    PairsOpenFit(pairs, |t|);
    OpenedPair(t, pairs, i, local, next, 0);
    OpenedPair(t, pairs, i, local, next, 1);
    TwoPairsRowSum(t, pairs, ch, inv, i);
    var x0 := InverseTerm(pairs[0], t, i, ch, inv);
    var x1 := InverseTerm(pairs[1], t, i, ch, inv);
    if i < n - 1 {
      ModOfSmall(i + 1, n);
    }
    TwoSetsVanish(vars, local, next, constraintDegree, x0, x1, i, n);
  }

  /** With one pair per helper column, the row sum of two pairs is the sum of their contributions. */
  lemma TwoPairsRowSum(t: Trace, pairs: seq<ColumnFilter>, ch: Challenge, inv: Felt -> Felt, d: nat)
    requires IsTrace(t) && PairsFit(pairs, |t|) && |pairs| == 2 && d < Height(t)
    ensures pairs[0] in pairs && pairs[1] in pairs
    ensures RowSum(HelperColumns(t, Height(t), pairs, ch, 1, inv), Height(t), d)
         == Add(InverseTerm(pairs[0], t, d, ch, inv), InverseTerm(pairs[1], t, d, ch, inv))
  {
    var n := Height(t);
    var h := HelperColumns(t, n, pairs, ch, 1, inv);
    ChunkFits(pairs, 1, 0, |t|);
    ChunkFits(pairs, 1, 1, |t|);
    assert ChunkAt(pairs, 1, 0) == [pairs[0]];
    assert ChunkAt(pairs, 1, 1) == [pairs[1]];
    var rest := HelperColumnsFrom(t, n, pairs, ch, 1, inv, 1);
    assert rest == [ChunkColumn([pairs[1]], t, n, ch, inv)] + HelperColumnsFrom(t, n, pairs, ch, 1, inv, 2);
    assert h == [ChunkColumn([pairs[0]], t, n, ch, inv)] + rest;
    ChunkEntryOfOne([pairs[0]], t, d, ch, inv);
    ChunkEntryOfOne([pairs[1]], t, d, ch, inv);
    assert seq(|h|, j requires 0 <= j < |h| => h[j][d]) == [h[0][d], h[1][d]];
    assert [h[0][d], h[1][d]][..1] == [h[0][d]];
    SumSingleton(h[0][d]);
  }
}
