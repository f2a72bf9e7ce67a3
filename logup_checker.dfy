/**
 * The native constraint checker of the log-derivative lookup
 * (`eval_helper_columns`, `eval_cross_table_lookup_checks`).  At one row it
 * sees the opened current and next rows, the opened helper values, and the
 * opened Z at this row and the next.  It states the prover's relations
 * between them without division; each constraint applies to every row, to
 * the last row only, or to every row but the last.
 */
module LogUpChecker {
  import opened Goldilocks
  import opened Wrappers
  import opened MathUtil
  import opened Columns

  datatype ConstraintKind = EveryRow | LastRow | Transition

  /** A constraint value, which must be zero on the rows its kind names. */
  datatype Constraint = Constraint(kind: ConstraintKind, value: Felt)

  /** The constraint is satisfied at row `i` of a trace of `n` rows. */
  predicate HoldsAt(c: Constraint, i: nat, n: nat)
  {
    match c.kind
    case EveryRow => c.value == 0
    case LastRow => i == n - 1 ==> c.value == 0
    case Transition => i < n - 1 ==> c.value == 0
  }

  predicate AllHoldAt(cs: seq<Constraint>, i: nat, n: nat)
  {
    forall k :: 0 <= k < |cs| ==> HoldsAt(cs[k], i, n)
  }

  /** `CtlCheckVars`: what one table checks at one row for one lookup side and challenge. */
  datatype CtlCheckVars = CtlCheckVars(
    helperColumns: seq<Felt>,
    localZ: Felt,
    nextZ: Felt,
    challenge: Challenge,
    columns: seq<seq<Column>>,
    filter: seq<Option<Filter>>)

  /** Only chunks of one or two column sets have a constraint (`todo!` otherwise). */
  datatype CheckError = UnsupportedChunkSize

  predicate FiltersFit(fs: seq<Option<Filter>>, width: nat)
  {
    forall k :: 0 <= k < |fs| ==> fs[k].Some? ==> FilterFits(fs[k].value, width)
  }

  /** The value of an optional filter on an opening; an absent filter is one. */
  function FilterValue(f: Option<Filter>, local: seq<Felt>, next: seq<Felt>): Felt
    requires |local| == |next| && (f.Some? ==> FilterFits(f.value, |local|))
  {
    if f.None? then 1 else EvalFilter(f.value, local, next)
  }

  /** The constraint of one chunk of one or two column sets `chunk`, with filters `fs` and helper value `h`. */
  function ChunkConstraint(fs: seq<Option<Filter>>, chunk: seq<seq<Felt>>, local: seq<Felt>, next: seq<Felt>,
                           h: Felt, ch: Challenge): (r: Result<Constraint, CheckError>)
    requires |fs| == |chunk| && |local| == |next| && FiltersFit(fs, |local|)
    ensures r.Ok? <==> 1 <= |chunk| <= 2
    ensures r.Ok? ==> r.value.kind == EveryRow
  {
    if |chunk| == 2 then
      var combin0 := Combine(ch, chunk[0]);
      var combin1 := Combine(ch, chunk[1]);
      var f0 := FilterValue(fs[0], local, next);
      var f1 := FilterValue(fs[1], local, next);
      Ok(Constraint(EveryRow, Sub(Sub(Mul(Mul(combin1, combin0), h), Mul(f0, combin1)), Mul(f1, combin0))))
    else if |chunk| == 1 then
      var combin := Combine(ch, chunk[0]);
      var f0 := FilterValue(fs[0], local, next);
      Ok(Constraint(EveryRow, Sub(Mul(combin, h), f0)))
    else
      Err(UnsupportedChunkSize)
  }

  /**
   * The constraints of the chunks from column set `start` on, where `hs` are
   * the helper values not yet used, one per chunk.
   */
  function HelperChunks(filter: seq<Option<Filter>>, evals: seq<seq<Felt>>, local: seq<Felt>, next: seq<Felt>,
                        hs: seq<Felt>, size: nat, ch: Challenge, start: nat): (r: Result<seq<Constraint>, CheckError>)
    requires |filter| == |evals| && |local| == |next| && FiltersFit(filter, |local|) && size > 0
    requires |hs| >= CeilDiv(if start < |evals| then |evals| - start else 0, size)
    ensures r.Ok? ==> forall k :: 0 <= k < |r.value| ==> r.value[k].kind == EveryRow
    decreases |evals| - start
  {
    if start >= |evals| then Ok([])
    else
      CeilDivStep(|evals| - start, size);
      var c := ChunkConstraint(ChunkAt(filter, size, start), ChunkAt(evals, size, start), local, next, hs[0], ch);
      if c.Err? then Err(c.error)
      else
        var rest := HelperChunks(filter, evals, local, next, hs[1..], size, ch, start + size);
        if rest.Err? then rest else Ok([c.value] + rest.value)
  }

  /** `eval_helper_columns`: nothing when there are no helper columns. */
  function EvalHelperColumns(filter: seq<Option<Filter>>, evals: seq<seq<Felt>>, local: seq<Felt>, next: seq<Felt>,
                             helpers: seq<Felt>, constraintDegree: nat, ch: Challenge): Result<seq<Constraint>, CheckError>
    requires |filter| == |evals| && |local| == |next| && FiltersFit(filter, |local|) && constraintDegree >= 2
    requires |helpers| > 0 ==> |helpers| >= CeilDiv(|evals|, constraintDegree - 1)
  {
    if |helpers| == 0 then Ok([])
    else HelperChunks(filter, evals, local, next, helpers, constraintDegree - 1, ch, 0)
  }

  /** What the checker needs of one set of variables to evaluate it without a panic. */
  predicate VarsFit(v: CtlCheckVars, width: nat, constraintDegree: nat)
  {
    constraintDegree >= 2
    && |v.columns| == |v.filter| && |v.columns| > 0
    && (forall k, m :: 0 <= k < |v.columns| && 0 <= m < |v.columns[k]| ==> Fits(v.columns[k][m], width))
    && FiltersFit(v.filter, width)
    && (|v.helperColumns| > 0 ==> |v.helperColumns| >= CeilDiv(|v.columns|, constraintDegree - 1))
  }

  /** Every column of every column set evaluated on the opening. */
  function EvalColumns(columns: seq<seq<Column>>, local: seq<Felt>, next: seq<Felt>): (r: seq<seq<Felt>>)
    requires |local| == |next|
    requires forall k, m :: 0 <= k < |columns| && 0 <= m < |columns[k]| ==> Fits(columns[k][m], |local|)
    ensures |r| == |columns| && forall k :: 0 <= k < |columns| ==> |r[k]| == |columns[k]|
  {
    seq(|columns|, k requires 0 <= k < |columns| =>
      seq(|columns[k]|, m requires 0 <= m < |columns[k]| => EvalWithNext(columns[k][m], local, next)))
  }

  /** The constraints one set of lookup variables emits at one row. */
  function EvalCtlCheck(v: CtlCheckVars, local: seq<Felt>, next: seq<Felt>, constraintDegree: nat): (r: Result<seq<Constraint>, CheckError>)
    requires |local| == |next| && VarsFit(v, |local|, constraintDegree)
  {
    var evals := EvalColumns(v.columns, local, next);
    var helperConstraints :=
      EvalHelperColumns(v.filter, evals, local, next, v.helperColumns, constraintDegree, v.challenge);
    if helperConstraints.Err? then helperConstraints
    else if |v.helperColumns| > 0 then
      var hSum := Sum(v.helperColumns);
      Ok(helperConstraints.value + [
        Constraint(LastRow, Sub(v.localZ, hSum)),
        Constraint(Transition, Sub(Sub(v.localZ, v.nextZ), hSum))])
    else if |v.columns| > 1 then
      var combin0 := Combine(v.challenge, evals[0]);
      var combin1 := Combine(v.challenge, evals[1]);
      var f0 := FilterValue(v.filter[0], local, next);
      var f1 := FilterValue(v.filter[1], local, next);
      Ok(helperConstraints.value + [
        Constraint(LastRow, Sub(Sub(Mul(Mul(combin0, combin1), v.localZ), Mul(f0, combin1)), Mul(f1, combin0))),
        Constraint(Transition,
          Sub(Sub(Mul(Mul(combin0, combin1), Sub(v.localZ, v.nextZ)), Mul(f0, combin1)), Mul(f1, combin0)))])
    else
      var combin0 := Combine(v.challenge, evals[0]);
      var f0 := FilterValue(v.filter[0], local, next);
      Ok(helperConstraints.value + [
        Constraint(LastRow, Sub(Mul(combin0, v.localZ), f0)),
        Constraint(Transition, Sub(Mul(combin0, Sub(v.localZ, v.nextZ)), f0))])
  }

  /** `eval_cross_table_lookup_checks`: the constraints of every set of variables of a table, in order. */
  function EvalCrossTableLookupChecks(vars: seq<CtlCheckVars>, local: seq<Felt>, next: seq<Felt>,
                                      constraintDegree: nat): (r: Result<seq<Constraint>, CheckError>)
    requires |local| == |next| && forall k :: 0 <= k < |vars| ==> VarsFit(vars[k], |local|, constraintDegree)
  {
    if |vars| == 0 then Ok([])
    else
      var first := EvalCtlCheck(vars[0], local, next, constraintDegree);
      var rest := EvalCrossTableLookupChecks(vars[1..], local, next, constraintDegree);
      if first.Err? then first
      else if rest.Err? then rest
      else Ok(first.value + rest.value)
  }
}
