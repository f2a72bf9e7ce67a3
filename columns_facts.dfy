/** What columns, filters and `combine` evaluate to. */
module ColumnFacts {
  import opened Goldilocks
  import opened Columns

  lemma TableTermsAreRowTerms(lc: seq<(nat, Felt)>, t: Trace, row: nat)
    requires IsTrace(t) && row < Height(t) && TermsFit(lc, |t|)
    ensures TableTerms(lc, t, row) == Terms(lc, RowAt(t, row))
  {
    var v := RowAt(t, row);
    assert seq(|lc|, k requires 0 <= k < |lc| => Mul(t[lc[k].0][row], lc[k].1))
        == seq(|lc|, k requires 0 <= k < |lc| => Mul(v[lc[k].0], lc[k].1));
  }

  lemma TermsOfZeros(lc: seq<(nat, Felt)>, w: nat)
    requires TermsFit(lc, w)
    ensures Terms(lc, Zeros(w)) == 0
  {
    var z := Zeros(w);
    var xs := seq(|lc|, k requires 0 <= k < |lc| => Mul(z[lc[k].0], lc[k].1));
    forall k | 0 <= k < |lc| ensures xs[k] == 0 {
      Identities(lc[k].1);
    }
    SumZeros(xs);
  }

  /**
   * Evaluating a column on a table is evaluating it on the opening of row
   * `row` and the next row, with the next row read as all zeros past the
   * last row: at the last row next-row terms contribute nothing.
   */
  lemma EvalTableIsOpening(col: Column, t: Trace, row: nat)
    requires IsTrace(t) && row < Height(t) && Fits(col, |t|)
    ensures EvalTable(col, t, row) == EvalWithNext(col, RowAt(t, row), NextRowAt(t, row))
    ensures row == Height(t) - 1 ==> EvalTable(col, t, row) == Eval(col, RowAt(t, row))
  {
    var lc, nlc, c := col.linearCombination, col.nextRowLinearCombination, col.constant;
    TableTermsAreRowTerms(lc, t, row);
    var a := TableTerms(lc, t, row);
    var b := Terms(nlc, NextRowAt(t, row));
    if row + 1 < Height(t) {
      TableTermsAreRowTerms(nlc, t, row + 1);
    } else {
      TermsOfZeros(nlc, |t|);
    }
    if |nlc| > 0 && row < Height(t) - 1 {
      AddAssoc(a, c, b);
      AddComm(c, b);
      AddAssoc(a, b, c);
    } else {
      assert b == 0;
      Identities(a);
    }
  }

  /** The same for a filter. */
  lemma FilterEvalTableIsOpening(f: Filter, t: Trace, row: nat)
    requires IsTrace(t) && row < Height(t) && FilterFits(f, |t|)
    ensures FilterEvalTable(f, t, row) == EvalFilter(f, RowAt(t, row), NextRowAt(t, row))
  {
    var v, nv := RowAt(t, row), NextRowAt(t, row);
    forall k | 0 <= k < |f.products|
      ensures EvalTable(f.products[k].0, t, row) == EvalWithNext(f.products[k].0, v, nv)
      ensures EvalTable(f.products[k].1, t, row) == EvalWithNext(f.products[k].1, v, nv)
    {
      EvalTableIsOpening(f.products[k].0, t, row);
      EvalTableIsOpening(f.products[k].1, t, row);
    }
    forall k | 0 <= k < |f.constants|
      ensures EvalTable(f.constants[k], t, row) == EvalWithNext(f.constants[k], v, nv)
    {
      EvalTableIsOpening(f.constants[k], t, row);
    }
    assert seq(|f.products|, k requires 0 <= k < |f.products| =>
             Mul(EvalTable(f.products[k].0, t, row), EvalTable(f.products[k].1, t, row)))
        == seq(|f.products|, k requires 0 <= k < |f.products| =>
             Mul(EvalWithNext(f.products[k].0, v, nv), EvalWithNext(f.products[k].1, v, nv)));
    assert seq(|f.constants|, k requires 0 <= k < |f.constants| => EvalTable(f.constants[k], t, row))
        == seq(|f.constants|, k requires 0 <= k < |f.constants| => EvalWithNext(f.constants[k], v, nv));
  }

  /** The next row is all the STARK opening and `eval_table` disagree on, and only at the last row. */
  lemma WrappedNextRowBeforeLast(t: Trace, row: nat)
    requires IsTrace(t) && row + 1 < Height(t)
    ensures WrappedNextRow(t, row) == NextRowAt(t, row)
  {
    assert (row + 1) % Height(t) == row + 1;
  }

  /** A column that reads only the current row evaluates the same whatever the next row holds. */
  lemma CurrentRowOnlyIgnoresNext(col: Column, v: seq<Felt>, nv: seq<Felt>, nv': seq<Felt>)
    requires |v| == |nv| == |nv'| && Fits(col, |v|) && CurrentRowOnly(col)
    ensures EvalWithNext(col, v, nv) == EvalWithNext(col, v, nv')
  {
    assert Terms(col.nextRowLinearCombination, nv) == 0 == Terms(col.nextRowLinearCombination, nv');
  }

  lemma FilterCurrentRowOnlyIgnoresNext(f: Filter, v: seq<Felt>, nv: seq<Felt>, nv': seq<Felt>)
    requires |v| == |nv| == |nv'| && FilterFits(f, |v|) && FilterCurrentRowOnly(f)
    ensures EvalFilter(f, v, nv) == EvalFilter(f, v, nv')
  {
    forall k | 0 <= k < |f.products|
      ensures EvalWithNext(f.products[k].0, v, nv) == EvalWithNext(f.products[k].0, v, nv')
      ensures EvalWithNext(f.products[k].1, v, nv) == EvalWithNext(f.products[k].1, v, nv')
    {
      CurrentRowOnlyIgnoresNext(f.products[k].0, v, nv, nv');
      CurrentRowOnlyIgnoresNext(f.products[k].1, v, nv, nv');
    }
    forall k | 0 <= k < |f.constants|
      ensures EvalWithNext(f.constants[k], v, nv) == EvalWithNext(f.constants[k], v, nv')
    {
      CurrentRowOnlyIgnoresNext(f.constants[k], v, nv, nv');
    }
    assert seq(|f.products|, k requires 0 <= k < |f.products| =>
             Mul(EvalWithNext(f.products[k].0, v, nv), EvalWithNext(f.products[k].1, v, nv)))
        == seq(|f.products|, k requires 0 <= k < |f.products| =>
             Mul(EvalWithNext(f.products[k].0, v, nv'), EvalWithNext(f.products[k].1, v, nv')));
    assert seq(|f.constants|, k requires 0 <= k < |f.constants| => EvalWithNext(f.constants[k], v, nv))
        == seq(|f.constants|, k requires 0 <= k < |f.constants| => EvalWithNext(f.constants[k], v, nv'));
  }

  /** A filter of one column evaluates to that column. */
  lemma NewSimpleFilterEvaluates(col: Column, v: seq<Felt>, nv: seq<Felt>)
    requires |v| == |nv| && Fits(col, |v|)
    ensures FilterFits(NewSimpleFilter(col), |v|)
    ensures EvalFilter(NewSimpleFilter(col), v, nv) == EvalWithNext(col, v, nv)
  {
    var e := EvalWithNext(col, v, nv);
    assert seq(1, k requires 0 <= k < 1 => EvalWithNext(NewSimpleFilter(col).constants[k], v, nv)) == [e];
    assert [e][..0] == [];
  }

  lemma SingletonTerms(c: nat, f: Felt, v: seq<Felt>)
    requires c < |v|
    ensures TermsFit([(c, f)], |v|) && Terms([(c, f)], v) == Mul(v[c], f)
  {
    var xs := seq(1, k requires 0 <= k < 1 => Mul(v[[(c, f)][k].0], [(c, f)][k].1));
    assert xs == [Mul(v[c], f)];
    SumSingleton(Mul(v[c], f));
  }

  /** `single`, `single_next_row` and `constant` select one current cell, one next cell, or a constant. */
  lemma ConstructorsEvaluate(c: nat, x: Felt, v: seq<Felt>, nv: seq<Felt>)
    requires |v| == |nv| && c < |v|
    ensures Fits(Single(c), |v|) && EvalWithNext(Single(c), v, nv) == v[c]
    ensures Fits(SingleNextRow(c), |v|) && EvalWithNext(SingleNextRow(c), v, nv) == nv[c]
    ensures Fits(Constant(x), |v|) && EvalWithNext(Constant(x), v, nv) == x
    ensures EvalWithNext(ColumnZero(), v, nv) == 0 && EvalWithNext(ColumnOne(), v, nv) == 1
  {
    SingletonTerms(c, 1, v);
    SingletonTerms(c, 1, nv);
    Identities(v[c]);
    Identities(nv[c]);
  }

  /** The current-row terms of the columns `cs` with coefficients `base^k` are a power sum. */
  lemma WeightedTerms(cs: seq<nat>, base: Felt, v: seq<Felt>)
    requires forall k :: 0 <= k < |cs| ==> cs[k] < |v|
    ensures TermsFit(Weighted(cs, base), |v|)
    ensures Terms(Weighted(cs, base), v) == PowerSum(Gather(v, cs), base)
  {
    var lc := Weighted(cs, base);
    var g := Gather(v, cs);
    assert seq(|lc|, k requires 0 <= k < |lc| => Mul(v[lc[k].0], lc[k].1))
        == seq(|g|, i requires 0 <= i < |g| => Mul(g[i], Pow(base, i)));
  }

  lemma LinearCombinationEvaluates(lc: seq<(nat, Felt)>, v: seq<Felt>, nv: seq<Felt>)
    requires |lc| > 0 && DistinctColumns(lc) && |v| == |nv| && TermsFit(lc, |v|)
    ensures Fits(LinearCombination(lc), |v|)
    ensures EvalWithNext(LinearCombination(lc), v, nv) == Terms(lc, v)
  {
    assert Terms([], nv) == 0;
    Identities(Terms(lc, v));
  }

  /** `le_bits` reads the selected cells as a little-endian base-2 number. */
  lemma LeBitsEvaluates(cs: seq<nat>, v: seq<Felt>, nv: seq<Felt>)
    requires |cs| > 0 && Distinct(cs) && |v| == |nv|
    requires forall k :: 0 <= k < |cs| ==> cs[k] < |v|
    ensures Fits(LeBits(cs), |v|) && EvalWithNext(LeBits(cs), v, nv) == PowerSum(Gather(v, cs), 2)
  {
    WeightedTerms(cs, 2, v);
    LinearCombinationEvaluates(Weighted(cs, 2), v, nv);
  }

  /** `le_bytes` of the log-derivative engine reads them as a little-endian base-256 number. */
  lemma LeBytesEvaluates(cs: seq<nat>, v: seq<Felt>, nv: seq<Felt>)
    requires |cs| > 0 && Distinct(cs) && |v| == |nv|
    requires forall k :: 0 <= k < |cs| ==> cs[k] < |v|
    ensures Fits(LeBytes(cs), |v|) && EvalWithNext(LeBytes(cs), v, nv) == PowerSum(Gather(v, cs), 256)
  {
    WeightedTerms(cs, 256, v);
    LinearCombinationEvaluates(Weighted(cs, 256), v, nv);
  }

  /** `sum` adds the selected cells. */
  lemma SumOfEvaluates(cs: seq<nat>, v: seq<Felt>, nv: seq<Felt>)
    requires |cs| > 0 && Distinct(cs) && |v| == |nv|
    requires forall k :: 0 <= k < |cs| ==> cs[k] < |v|
    ensures Fits(SumOf(cs), |v|) && EvalWithNext(SumOf(cs), v, nv) == Sum(Gather(v, cs))
  {
    var ones := seq(|cs|, k requires 0 <= k < |cs| => (cs[k], 1 as Felt));
    LinearCombinationEvaluates(ones, v, nv);
    var g := Gather(v, cs);
    forall k | 0 <= k < |cs| ensures Mul(v[ones[k].0], ones[k].1) == g[k] {
      Identities(g[k]);
    }
    assert seq(|ones|, k requires 0 <= k < |ones| => Mul(v[ones[k].0], ones[k].1)) == g;
    assert Terms(ones, v) == Sum(g);
    assert SumOf(cs) == LinearCombination(ones);
  }

  /** `reduce_with_powers` computes `Σ terms[i]·alpha^i`. */
  lemma {:induction false} ReduceIsPowerSum(terms: seq<Felt>, alpha: Felt)
    ensures ReduceWithPowers(terms, alpha) == PowerSum(terms, alpha)
    decreases |terms|
  {
    if |terms| > 0 {
      var rest := terms[1..];
      ReduceIsPowerSum(rest, alpha);
      var xs := seq(|terms|, i requires 0 <= i < |terms| => Mul(terms[i], Pow(alpha, i)));
      var w := seq(|rest|, j requires 0 <= j < |rest| => Mul(rest[j], Pow(alpha, j)));
      forall j | 0 <= j < |rest| ensures xs[1..][j] == Mul(w[j], alpha) {
        MulAssoc(rest[j], Pow(alpha, j), alpha);
      }
      assert xs[1..] == seq(|w|, j requires 0 <= j < |w| => Mul(w[j], alpha));
      SumScale(w, alpha);
      SumFront(xs);
      Identities(terms[0]);
      AddComm(terms[0], Mul(PowerSum(rest, alpha), alpha));
    }
  }

  /** `combine(v) = Σ βⁱ·vᵢ + γ`. */
  lemma CombineIsPowerSum(ch: Challenge, terms: seq<Felt>)
    ensures Combine(ch, terms) == Add(PowerSum(terms, ch.beta), ch.gamma)
  {
    ReduceIsPowerSum(terms, ch.beta);
  }
}
