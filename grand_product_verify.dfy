/**
 * The table-level side of the grand-product lookup: `num_ctl_zs`, which
 * counts the Z columns a table carries, and `verify_cross_table_lookups`,
 * which per lookup and challenge reads the next first-row Z value of every
 * looking table and of the looked table and checks that the looking values,
 * times the extra looking product, multiply to the looked one.
 */
module GrandProductVerify {
  import opened Goldilocks
  import opened Wrappers
  import opened MathUtil
  import opened GrandProduct
  import LogUpVerify

  /** The table of every entry. */
  function IdsOf(xs: seq<TableWithColumns>): (r: seq<nat>)
    ensures |r| == |xs| && forall k :: 0 <= k < |xs| ==> r[k] == xs[k].table
  {
    seq(|xs|, k requires 0 <= k < |xs| => xs[k].table)
  }

  /** How many entries of `ids` are `table`. */
  function Count(ids: seq<nat>, table: nat): nat
  {
    if |ids| == 0 then 0 else Count(ids[..|ids| - 1], table) + if ids[|ids| - 1] == table then 1 else 0
  }

  /** The count is the multiplicity of the table among the ids. */
  lemma {:induction false} CountIsMultiplicity(ids: seq<nat>, table: nat)
    ensures Count(ids, table) == multiset(ids)[table]
  {
    if |ids| > 0 {
      var n := |ids| - 1;
      CountIsMultiplicity(ids[..n], table);
      assert ids == ids[..n] + [ids[n]];
    }
  }

  /** A prefix holds no more copies of a table than the whole. */
  lemma CountPrefix(ids: seq<nat>, m: nat, table: nat)
    requires m < |ids|
    ensures Count(ids[..m + 1], table) == Count(ids[..m], table) + (if ids[m] == table then 1 else 0)
    ensures Count(ids[..m + 1], table) <= Count(ids, table)
  {
    assert ids[..m + 1][..m] == ids[..m];
    CountIsMultiplicity(ids[..m + 1], table);
    CountIsMultiplicity(ids, table);
    assert ids == ids[..m + 1] + ids[m + 1..];
  }

  /** The tables of a lookup, looked table first, as `num_ctl_zs` chains them. */
  function AllIds(ctl: CrossTableLookup): seq<nat>
  {
    [ctl.lookedTable.table] + IdsOf(ctl.lookingTables)
  }

  /** How many Z columns of `table` one challenge of `ctl` needs: its entries naming `table`. */
  function Mentions(ctl: CrossTableLookup, table: nat): nat
  {
    (if ctl.lookedTable.table == table then 1 else 0) + Count(IdsOf(ctl.lookingTables), table)
  }

  /** The mentions of a table are its multiplicity among all the tables of the lookup. */
  lemma MentionsIsMultiplicity(ctl: CrossTableLookup, table: nat)
    ensures Mentions(ctl, table) == multiset(AllIds(ctl))[table]
  {
    CountIsMultiplicity(IdsOf(ctl.lookingTables), table);
  }

  /** The mentions of `table` in the first `i` lookups. */
  function MentionsBefore(ctls: seq<CrossTableLookup>, i: nat, table: nat): nat
    requires i <= |ctls|
  {
    if i == 0 then 0 else MentionsBefore(ctls, i - 1, table) + Mentions(ctls[i - 1], table)
  }

  lemma {:induction false} MentionsBeforeMonotone(ctls: seq<CrossTableLookup>, i: nat, j: nat, table: nat)
    requires i <= j <= |ctls|
    ensures MentionsBefore(ctls, i, table) <= MentionsBefore(ctls, j, table)
    decreases j - i
  {
    if i < j {
      MentionsBeforeMonotone(ctls, i, j - 1, table);
    }
  }

  /** `MentionsBefore` scaled by the number of challenges, adding one lookup at a time. */
  function ScaledMentionsBefore(ctls: seq<CrossTableLookup>, numChallenges: nat, i: nat, table: nat): nat
    requires i <= |ctls|
  {
    if i == 0 then 0
    else ScaledMentionsBefore(ctls, numChallenges, i - 1, table) + Times(numChallenges, Mentions(ctls[i - 1], table))
  }

  lemma {:induction false} ScaledMentionsBeforeIsProduct(ctls: seq<CrossTableLookup>, numChallenges: nat, i: nat,
                                                         table: nat)
    requires i <= |ctls|
    ensures ScaledMentionsBefore(ctls, numChallenges, i, table) == numChallenges * MentionsBefore(ctls, i, table)
  {
    if i > 0 {
      ScaledMentionsBeforeIsProduct(ctls, numChallenges, i - 1, table);
      TimesIsProduct(numChallenges, Mentions(ctls[i - 1], table));
      MulAddRight(numChallenges, MentionsBefore(ctls, i - 1, table), Mentions(ctls[i - 1], table));
    }
  }

  /** The `filter(..).count()` over the looked table and then the looking tables of one lookup. */
  method CountMentions(ctl: CrossTableLookup, table: nat) returns (count: nat)
    ensures count == Mentions(ctl, table)
  {
    count := if ctl.lookedTable.table == table then 1 else 0;
    ghost var ids := IdsOf(ctl.lookingTables);
    for k := 0 to |ctl.lookingTables|
      invariant count == (if ctl.lookedTable.table == table then 1 else 0) + Count(ids[..k], table)
    {
      CountPrefix(ids, k, table);
      if ctl.lookingTables[k].table == table {
        count := count + 1;
      }
    }
    assert ids[..|ctl.lookingTables|] == ids;
  }

  /** `num_ctl_zs`: the Z columns of `table` over all lookups and challenges. */
  method NumCtlZs(ctls: seq<CrossTableLookup>, table: nat, numChallenges: nat) returns (n: nat)
    ensures n == numChallenges * MentionsBefore(ctls, |ctls|, table)
  {
    var numCtls := 0;
    for i := 0 to |ctls|
      invariant numCtls == MentionsBefore(ctls, i, table)
    {
      var count := CountMentions(ctls[i], table);
      numCtls := numCtls + count;
    }
    n := numCtls * numChallenges;
  }

  /** The position of `table`'s iterator when challenge `c` of lookup `i` begins. */
  function Offset(ctls: seq<CrossTableLookup>, numChallenges: nat, i: nat, c: nat, table: nat): nat
    requires i < |ctls|
  {
    numChallenges * MentionsBefore(ctls, i, table) + c * Mentions(ctls[i], table)
  }

  /** Every table's iterator position when challenge `c` of lookup `i` begins. */
  function CursorsAt(ctls: seq<CrossTableLookup>, numChallenges: nat, i: nat, c: nat, numTables: nat): (r: seq<nat>)
    requires i < |ctls|
    ensures |r| == numTables && forall t :: 0 <= t < numTables ==> r[t] == Offset(ctls, numChallenges, i, c, t)
  {
    seq(numTables, t requires 0 <= t < numTables => Offset(ctls, numChallenges, i, c, t))
  }

  /**
   * The product from the left of the openings the first `m` looking entries
   * read: entry `k` reads its table's iterator after the earlier entries of
   * the same table have advanced it.
   */
  function ProductAt(zs: seq<seq<Felt>>, ids: seq<nat>, cursors: seq<nat>, m: nat): Felt
    requires m <= |ids|
  {
    if m == 0 then 1
    else
      var t := ids[m - 1];
      Mul(ProductAt(zs, ids, cursors, m - 1), LogUpVerify.Opening(zs, t, LogUpVerify.At(cursors, t) + Count(ids[..m - 1], t)))
  }

  /**
   * The equation `verify_cross_table_lookups` checks for challenge `c` of
   * lookup `i`: the looking openings times the looked table's extra product
   * `c` equal the looked table's opening, read after its own looking openings.
   */
  predicate Balanced(ctls: seq<CrossTableLookup>, zs: seq<seq<Felt>>, extra: seq<seq<Felt>>, numChallenges: nat, i: nat, c: nat)
    requires i < |ctls|
  {
    var cursors := CursorsAt(ctls, numChallenges, i, c, |zs|);
    var ids := IdsOf(ctls[i].lookingTables);
    var l := ctls[i].lookedTable.table;
    Mul(ProductAt(zs, ids, cursors, |ids|), LogUpVerify.Opening(extra, l, c))
      == LogUpVerify.Opening(zs, l, LogUpVerify.At(cursors, l) + Count(ids, l))
  }

  /** Every table a lookup names has openings, and every looked table has an extra product per challenge. */
  predicate TablesFit(ctls: seq<CrossTableLookup>, numTables: nat, extra: seq<seq<Felt>>, numChallenges: nat)
  {
    forall i :: 0 <= i < |ctls| ==>
      (forall k :: 0 <= k < |ctls[i].lookingTables| ==> ctls[i].lookingTables[k].table < numTables)
      && ctls[i].lookedTable.table < numTables && ctls[i].lookedTable.table < |extra|
      && numChallenges <= |extra[ctls[i].lookedTable.table]|
  }

  /** Each table has at least the openings the lookups read from it. */
  predicate EnoughOpenings(ctls: seq<CrossTableLookup>, zs: seq<seq<Felt>>, numChallenges: nat)
  {
    forall t :: 0 <= t < |zs| ==> numChallenges * MentionsBefore(ctls, |ctls|, t) <= |zs[t]|
  }

  /** "Cross-table lookup {index} verification failed." */
  datatype VerifyError = Mismatch(index: nat)

  lemma OffsetStep(ctls: seq<CrossTableLookup>, numChallenges: nat, i: nat, c: nat, table: nat)
    requires i < |ctls|
    ensures Offset(ctls, numChallenges, i, c + 1, table) == Offset(ctls, numChallenges, i, c, table) + Mentions(ctls[i], table)
  {
    MulSucc(c, Mentions(ctls[i], table));
  }

  /** After all challenges of lookup `i` every iterator sits where lookup `i + 1` starts. */
  lemma OffsetAfterLookup(ctls: seq<CrossTableLookup>, numChallenges: nat, i: nat, table: nat)
    requires i < |ctls|
    ensures Offset(ctls, numChallenges, i, numChallenges, table) == numChallenges * MentionsBefore(ctls, i + 1, table)
  {
    MulAddRight(numChallenges, MentionsBefore(ctls, i, table), Mentions(ctls[i], table));
  }

  /** All openings read during challenge `c` of lookup `i` lie below the final iterator position. */
  lemma OffsetBound(ctls: seq<CrossTableLookup>, numChallenges: nat, i: nat, c: nat, table: nat)
    requires i < |ctls| && c < numChallenges
    ensures Offset(ctls, numChallenges, i, c, table) + Mentions(ctls[i], table) <= numChallenges * MentionsBefore(ctls, |ctls|, table)
  {
    OffsetStep(ctls, numChallenges, i, c, table);
    MulMonotone(c + 1, numChallenges, Mentions(ctls[i], table));
    OffsetAfterLookup(ctls, numChallenges, i, table);
    MentionsBeforeMonotone(ctls, i + 1, |ctls|, table);
    MulMonotone(MentionsBefore(ctls, i + 1, table), MentionsBefore(ctls, |ctls|, table), numChallenges);
  }

  /** Reading challenge `c` of lookup `i` moves the iterators to where challenge `c + 1` starts. */
  lemma CursorsStep(ctls: seq<CrossTableLookup>, numChallenges: nat, i: nat, c: nat, numTables: nat, next: seq<nat>)
    requires i < |ctls| && |next| == numTables
    requires forall t :: 0 <= t < numTables ==> next[t] == CursorsAt(ctls, numChallenges, i, c, numTables)[t] + Mentions(ctls[i], t)
    ensures next == CursorsAt(ctls, numChallenges, i, c + 1, numTables)
  {
    forall t | 0 <= t < numTables ensures next[t] == Offset(ctls, numChallenges, i, c + 1, t) {
      OffsetStep(ctls, numChallenges, i, c, t);
    }
  }

  /**
   * `verify_cross_table_lookups`: per lookup and challenge, the product of the
   * next opening of every looking table, times the extra product, must equal
   * the looked table's next opening.  `consumed` is how far each table's
   * iterator advanced; when it succeeds every iterator has read exactly the
   * openings `num_ctl_zs` counts.
   */
  method VerifyCrossTableLookups(ctls: seq<CrossTableLookup>, zs: seq<seq<Felt>>, extra: seq<seq<Felt>>, numChallenges: nat)
    returns (r: Result<(), VerifyError>, consumed: seq<nat>)
    requires TablesFit(ctls, |zs|, extra, numChallenges) && EnoughOpenings(ctls, zs, numChallenges)
    ensures r.Ok? <==> forall i, c :: 0 <= i < |ctls| && 0 <= c < numChallenges ==> Balanced(ctls, zs, extra, numChallenges, i, c)
    ensures r.Err? ==>
      r.error.index < |ctls|
      && (forall k, c :: 0 <= k < r.error.index && 0 <= c < numChallenges ==> Balanced(ctls, zs, extra, numChallenges, k, c))
      && exists c :: 0 <= c < numChallenges && !Balanced(ctls, zs, extra, numChallenges, r.error.index, c)
    ensures r.Ok? ==> |consumed| == |zs| && forall t :: 0 <= t < |zs| ==> consumed[t] == numChallenges * MentionsBefore(ctls, |ctls|, t)
  {
    consumed := seq(|zs|, _ => 0);
    for i := 0 to |ctls|
      invariant |consumed| == |zs|
      invariant forall t :: 0 <= t < |zs| ==> consumed[t] == numChallenges * MentionsBefore(ctls, i, t)
      invariant forall k, c :: 0 <= k < i && 0 <= c < numChallenges ==> Balanced(ctls, zs, extra, numChallenges, k, c)
    {
      assert consumed == CursorsAt(ctls, numChallenges, i, 0, |zs|);
      r, consumed := VerifyLookup(ctls, zs, extra, numChallenges, i, consumed);
      if r.Err? {
        return;
      }
    }
    r := Ok(());
  }

  /** The body of the lookup loop: every challenge of lookup `i` in turn. */
  method VerifyLookup(ctls: seq<CrossTableLookup>, zs: seq<seq<Felt>>, extra: seq<seq<Felt>>, numChallenges: nat,
                      i: nat, cursors: seq<nat>)
    returns (r: Result<(), VerifyError>, next: seq<nat>)
    requires TablesFit(ctls, |zs|, extra, numChallenges) && EnoughOpenings(ctls, zs, numChallenges)
    requires i < |ctls| && cursors == CursorsAt(ctls, numChallenges, i, 0, |zs|)
    ensures r.Ok? <==> forall c :: 0 <= c < numChallenges ==> Balanced(ctls, zs, extra, numChallenges, i, c)
    ensures r.Err? ==> r.error == Mismatch(i)
    ensures |next| == |zs|
    ensures r.Ok? ==> forall t :: 0 <= t < |zs| ==> next[t] == numChallenges * MentionsBefore(ctls, i + 1, t)
  {
    next := cursors;
    var c := 0;
    while c < numChallenges
      invariant c <= numChallenges
      invariant next == CursorsAt(ctls, numChallenges, i, c, |zs|)
      invariant forall c' :: 0 <= c' < c ==> Balanced(ctls, zs, extra, numChallenges, i, c')
    {
      r, next := VerifyChallenge(ctls, zs, extra, numChallenges, i, c, next);
      if r.Err? {
        return;
      }
      c := c + 1;
    }
    forall t | 0 <= t < |zs| ensures next[t] == numChallenges * MentionsBefore(ctls, i + 1, t) {
      OffsetAfterLookup(ctls, numChallenges, i, t);
    }
    r := Ok(());
  }

  /** The body of the challenge loop: read and advance the iterators, then compare. */
  method VerifyChallenge(ctls: seq<CrossTableLookup>, zs: seq<seq<Felt>>, extra: seq<seq<Felt>>, numChallenges: nat,
                         i: nat, c: nat, cursors: seq<nat>)
    returns (r: Result<(), VerifyError>, next: seq<nat>)
    requires TablesFit(ctls, |zs|, extra, numChallenges) && EnoughOpenings(ctls, zs, numChallenges)
    requires i < |ctls| && c < numChallenges && cursors == CursorsAt(ctls, numChallenges, i, c, |zs|)
    ensures r.Ok? <==> Balanced(ctls, zs, extra, numChallenges, i, c)
    ensures r.Err? ==> r.error == Mismatch(i)
    ensures next == CursorsAt(ctls, numChallenges, i, c + 1, |zs|)
  {
    var ids := IdsOf(ctls[i].lookingTables);
    forall t | t in ids ensures t < |zs| && cursors[t] + Count(ids, t) <= |zs[t]| {
      OffsetBound(ctls, numChallenges, i, c, t);
    }
    var prod;
    prod, next := ProductLooking(zs, ids, cursors);
    var l := ctls[i].lookedTable.table;
    OffsetBound(ctls, numChallenges, i, c, l);
    var lookingZsProd := Mul(prod, extra[l][c]);
    var lookedZ := zs[l][next[l]];
    next := next[l := next[l] + 1];
    CursorsStep(ctls, numChallenges, i, c, |zs|, next);
    if lookingZsProd != lookedZ {
      return Err(Mismatch(i)), next;
    }
    r := Ok(());
  }

  /** The `map(next).product()` over the looking tables, which advances each table's iterator once per entry. */
  method ProductLooking(zs: seq<seq<Felt>>, ids: seq<nat>, cursors: seq<nat>)
    returns (prod: Felt, next: seq<nat>)
    requires |cursors| == |zs| && forall t :: t in ids ==> t < |zs| && cursors[t] + Count(ids, t) <= |zs[t]|
    ensures prod == ProductAt(zs, ids, cursors, |ids|)
    ensures |next| == |zs| && forall t :: 0 <= t < |zs| ==> next[t] == cursors[t] + Count(ids, t)
  {
    next := cursors;
    prod := 1;
    for m := 0 to |ids|
      invariant |next| == |zs|
      invariant forall t :: 0 <= t < |zs| ==> next[t] == cursors[t] + Count(ids[..m], t)
      invariant prod == ProductAt(zs, ids, cursors, m)
    {
      var t := ids[m];
      forall u | 0 <= u < |zs| ensures Count(ids[..m + 1], u) == Count(ids[..m], u) + (if t == u then 1 else 0) {
        CountPrefix(ids, m, u);
      }
      CountPrefix(ids, m, t);
      prod := Mul(prod, zs[t][next[t]]);
      next := next[t := next[t] + 1];
    }
    assert ids[..|ids|] == ids;
  }
}
