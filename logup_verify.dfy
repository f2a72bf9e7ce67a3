/**
 * The verifier's side of the table-level lookup argument
 * (`verify_cross_table_lookups`): every lookup and challenge reads the next
 * first-row Z value of each distinct looking table and of the looked table,
 * and the looking values must add up to the looked one.
 */
module LogUpVerify {
  import opened Goldilocks
  import opened Wrappers
  import opened LogUp
  import opened LogUpTables
  import opened MathUtil

  /** The distinct tables of `ids`, each once, in order of first appearance. */
  function FirstAppearances(ids: seq<nat>): (r: seq<nat>)
    ensures forall x :: x in r <==> x in ids
    ensures forall j, l :: 0 <= j < l < |r| ==> r[j] != r[l]
  {
    if |ids| == 0 then []
    else
      var n := |ids| - 1;
      assert ids == ids[..n] + [ids[n]];
      var p := FirstAppearances(ids[..n]);
      if ids[n] in p then p else p + [ids[n]]
  }

  /** The loop building `filtered_looking_tables`. */
  method DistinctTables(looking: seq<TableWithColumns>) returns (filtered: seq<nat>)
    ensures filtered == FirstAppearances(IdsOf(looking))
  {
    filtered := [];
    ghost var ids := IdsOf(looking);
    for k := 0 to |looking|
      invariant filtered == FirstAppearances(ids[..k])
    {
      assert ids[..k + 1][..k] == ids[..k];
      if !(looking[k].table in filtered) {
        filtered := filtered + [looking[k].table];
      }
    }
    assert ids[..|looking|] == ids;
  }

  /** The distinct looking tables of a lookup. */
  function LookingTables(ctl: CrossTableLookup): seq<nat>
  {
    FirstAppearances(IdsOf(ctl.lookingTables))
  }

  /** How many openings of `table` the verifier reads per challenge of `ctl`. */
  function Uses(ctl: CrossTableLookup, table: nat): nat
  {
    (if table in LookingTables(ctl) then 1 else 0) + (if ctl.lookedTable.table == table then 1 else 0)
  }

  /** Openings of `table` used per challenge by the first `i` lookups. */
  function UsesBefore(ctls: seq<CrossTableLookup>, i: nat, table: nat): nat
    requires i <= |ctls|
  {
    if i == 0 then 0 else UsesBefore(ctls, i - 1, table) + Uses(ctls[i - 1], table)
  }

  /** `UsesBefore` scaled by the number of challenges, adding one lookup at a time. */
  function ScaledUsesBefore(ctls: seq<CrossTableLookup>, numChallenges: nat, i: nat, table: nat): nat
    requires i <= |ctls|
  {
    if i == 0 then 0
    else ScaledUsesBefore(ctls, numChallenges, i - 1, table) + Times(numChallenges, Uses(ctls[i - 1], table))
  }

  lemma {:induction false} ScaledUsesBeforeIsProduct(ctls: seq<CrossTableLookup>, numChallenges: nat, i: nat, table: nat)
    requires i <= |ctls|
    ensures ScaledUsesBefore(ctls, numChallenges, i, table) == numChallenges * UsesBefore(ctls, i, table)
  {
    if i > 0 {
      ScaledUsesBeforeIsProduct(ctls, numChallenges, i - 1, table);
      TimesIsProduct(numChallenges, Uses(ctls[i - 1], table));
      MulAddRight(numChallenges, UsesBefore(ctls, i - 1, table), Uses(ctls[i - 1], table));
    }
  }

  /** The position of `table`'s iterator when challenge `c` of lookup `i` begins. */
  function Offset(ctls: seq<CrossTableLookup>, numChallenges: nat, i: nat, c: nat, table: nat): nat
    requires i < |ctls|
  {
    numChallenges * UsesBefore(ctls, i, table) + c * Uses(ctls[i], table)
  }

  /** Every table's iterator position when challenge `c` of lookup `i` begins. */
  function CursorsAt(ctls: seq<CrossTableLookup>, numChallenges: nat, i: nat, c: nat, numTables: nat): (r: seq<nat>)
    requires i < |ctls|
    ensures |r| == numTables && forall t :: 0 <= t < numTables ==> r[t] == Offset(ctls, numChallenges, i, c, t)
  {
    seq(numTables, t requires 0 <= t < numTables => Offset(ctls, numChallenges, i, c, t))
  }

  /** Entry `t` of a cursor vector, or 0 past its end. */
  function At(cursors: seq<nat>, t: nat): nat
  {
    if t < |cursors| then cursors[t] else 0
  }

  /** Opening `k` of `table`, or 0 when there is none. */
  function Opening(zs: seq<seq<Felt>>, table: nat, k: nat): Felt
  {
    if table < |zs| && k < |zs[table]| then zs[table][k] else 0
  }

  /** The sum, from the left, of the openings the first `m` tables of `tables` point at. */
  function SumAt(zs: seq<seq<Felt>>, tables: seq<nat>, cursors: seq<nat>, m: nat): Felt
    requires m <= |tables|
  {
    if m == 0 then 0
    else Add(SumAt(zs, tables, cursors, m - 1), Opening(zs, tables[m - 1], At(cursors, tables[m - 1])))
  }

  /**
   * The equation `verify_cross_table_lookups` checks for challenge `c` of
   * lookup `i`: the distinct looking tables' openings add up to the looked
   * table's opening, read after its own looking opening if it has one.
   */
  predicate Balanced(ctls: seq<CrossTableLookup>, zs: seq<seq<Felt>>, numChallenges: nat, i: nat, c: nat)
    requires i < |ctls|
  {
    var cursors := CursorsAt(ctls, numChallenges, i, c, |zs|);
    var tables := LookingTables(ctls[i]);
    var l := ctls[i].lookedTable.table;
    SumAt(zs, tables, cursors, |tables|) == Opening(zs, l, At(cursors, l) + if l in tables then 1 else 0)
  }

  predicate TablesFit(ctls: seq<CrossTableLookup>, numTables: nat)
  {
    forall i :: 0 <= i < |ctls| ==> TablesBelow(ctls[i].lookingTables, numTables) && ctls[i].lookedTable.table < numTables
  }

  datatype VerifyError = Mismatch(index: nat)

  lemma {:induction false} UsesBeforeMonotone(ctls: seq<CrossTableLookup>, i: nat, j: nat, table: nat)
    requires i <= j <= |ctls|
    ensures UsesBefore(ctls, i, table) <= UsesBefore(ctls, j, table)
    decreases j - i
  {
    if i < j {
      UsesBeforeMonotone(ctls, i, j - 1, table);
    }
  }

  /** One more challenge of lookup `i` advances every iterator by that table's uses. */
  lemma OffsetStep(ctls: seq<CrossTableLookup>, numChallenges: nat, i: nat, c: nat, table: nat)
    requires i < |ctls|
    ensures Offset(ctls, numChallenges, i, c + 1, table) == Offset(ctls, numChallenges, i, c, table) + Uses(ctls[i], table)
  {
    MulSucc(c, Uses(ctls[i], table));
  }

  /** After all challenges of lookup `i` every iterator sits where lookup `i + 1` starts. */
  lemma OffsetAfterLookup(ctls: seq<CrossTableLookup>, numChallenges: nat, i: nat, table: nat)
    requires i < |ctls|
    ensures Offset(ctls, numChallenges, i, numChallenges, table) == numChallenges * UsesBefore(ctls, i + 1, table)
  {
    MulAddRight(numChallenges, UsesBefore(ctls, i, table), Uses(ctls[i], table));
  }

  /** All openings read during challenge `c` of lookup `i` lie below the final iterator position. */
  lemma OffsetBound(ctls: seq<CrossTableLookup>, numChallenges: nat, i: nat, c: nat, table: nat)
    requires i < |ctls| && c < numChallenges
    ensures Offset(ctls, numChallenges, i, c, table) + Uses(ctls[i], table) <= numChallenges * UsesBefore(ctls, |ctls|, table)
  {
    OffsetStep(ctls, numChallenges, i, c, table);
    var u := Uses(ctls[i], table);
    var b := UsesBefore(ctls, i, table);
    MulMonotone(c + 1, numChallenges, u);
    OffsetAfterLookup(ctls, numChallenges, i, table);
    UsesBeforeMonotone(ctls, i + 1, |ctls|, table);
    MulMonotone(UsesBefore(ctls, i + 1, table), UsesBefore(ctls, |ctls|, table), numChallenges);
  }

  /** Reading challenge `c` of lookup `i` moves the iterators to where challenge `c + 1` starts. */
  lemma CursorsStep(ctls: seq<CrossTableLookup>, numChallenges: nat, i: nat, c: nat, numTables: nat, next: seq<nat>)
    requires i < |ctls| && |next| == numTables
    requires forall t :: 0 <= t < numTables ==> next[t] == CursorsAt(ctls, numChallenges, i, c, numTables)[t] + Uses(ctls[i], t)
    ensures next == CursorsAt(ctls, numChallenges, i, c + 1, numTables)
  {
    forall t | 0 <= t < numTables ensures next[t] == Offset(ctls, numChallenges, i, c + 1, t) {
      OffsetStep(ctls, numChallenges, i, c, t);
    }
  }

  /**
   * `verify_cross_table_lookups`: per lookup and challenge, the sum of the next
   * opening of each distinct looking table must equal the looked table's next
   * opening.  `consumed` is how far each table's iterator advanced.
   */
  method VerifyCrossTableLookups(ctls: seq<CrossTableLookup>, zs: seq<seq<Felt>>, numChallenges: nat)
    returns (r: Result<(), VerifyError>, consumed: seq<nat>)
    requires TablesFit(ctls, |zs|)
    requires forall t :: 0 <= t < |zs| ==> numChallenges * UsesBefore(ctls, |ctls|, t) <= |zs[t]|
    ensures r.Ok? <==> forall i, c :: 0 <= i < |ctls| && 0 <= c < numChallenges ==> Balanced(ctls, zs, numChallenges, i, c)
    ensures r.Err? ==>
      r.error.index < |ctls|
      && (forall k, c :: 0 <= k < r.error.index && 0 <= c < numChallenges ==> Balanced(ctls, zs, numChallenges, k, c))
      && exists c :: 0 <= c < numChallenges && !Balanced(ctls, zs, numChallenges, r.error.index, c)
    ensures r.Ok? ==> |consumed| == |zs| && forall t :: 0 <= t < |zs| ==> consumed[t] == numChallenges * UsesBefore(ctls, |ctls|, t)
  {
    consumed := seq(|zs|, _ => 0);
    for i := 0 to |ctls|
      invariant |consumed| == |zs|
      invariant forall t :: 0 <= t < |zs| ==> consumed[t] == numChallenges * UsesBefore(ctls, i, t)
      invariant forall k, c :: 0 <= k < i && 0 <= c < numChallenges ==> Balanced(ctls, zs, numChallenges, k, c)
    {
      assert consumed == CursorsAt(ctls, numChallenges, i, 0, |zs|);
      r, consumed := VerifyLookup(ctls, zs, numChallenges, i, consumed);
      if r.Err? {
        return;
      }
    }
    r := Ok(());
  }

  /** The body of the lookup loop: every challenge of lookup `i` in turn. */
  method VerifyLookup(ctls: seq<CrossTableLookup>, zs: seq<seq<Felt>>, numChallenges: nat, i: nat, cursors: seq<nat>)
    returns (r: Result<(), VerifyError>, next: seq<nat>)
    requires TablesFit(ctls, |zs|)
    requires forall t :: 0 <= t < |zs| ==> numChallenges * UsesBefore(ctls, |ctls|, t) <= |zs[t]|
    requires i < |ctls| && cursors == CursorsAt(ctls, numChallenges, i, 0, |zs|)
    ensures r.Ok? <==> forall c :: 0 <= c < numChallenges ==> Balanced(ctls, zs, numChallenges, i, c)
    ensures r.Err? ==> r.error == Mismatch(i)
    ensures |next| == |zs|
    ensures r.Ok? ==> forall t :: 0 <= t < |zs| ==> next[t] == numChallenges * UsesBefore(ctls, i + 1, t)
  {
    var filtered := DistinctTables(ctls[i].lookingTables);
    next := cursors;
    var c := 0;
    while c < numChallenges
      invariant c <= numChallenges
      invariant next == CursorsAt(ctls, numChallenges, i, c, |zs|)
      invariant forall c' :: 0 <= c' < c ==> Balanced(ctls, zs, numChallenges, i, c')
    {
      r, next := VerifyChallenge(ctls, zs, numChallenges, i, c, filtered, next);
      if r.Err? {
        return;
      }
      c := c + 1;
    }
    forall t | 0 <= t < |zs| ensures next[t] == numChallenges * UsesBefore(ctls, i + 1, t) {
      OffsetAfterLookup(ctls, numChallenges, i, t);
    }
    r := Ok(());
  }

  /** The body of the challenge loop: read and advance the iterators, then compare. */
  method VerifyChallenge(ctls: seq<CrossTableLookup>, zs: seq<seq<Felt>>, numChallenges: nat, i: nat, c: nat,
                         filtered: seq<nat>, cursors: seq<nat>)
    returns (r: Result<(), VerifyError>, next: seq<nat>)
    requires TablesFit(ctls, |zs|)
    requires forall t :: 0 <= t < |zs| ==> numChallenges * UsesBefore(ctls, |ctls|, t) <= |zs[t]|
    requires i < |ctls| && c < numChallenges && filtered == LookingTables(ctls[i])
    requires cursors == CursorsAt(ctls, numChallenges, i, c, |zs|)
    ensures r.Ok? <==> Balanced(ctls, zs, numChallenges, i, c)
    ensures r.Err? ==> r.error == Mismatch(i)
    ensures next == CursorsAt(ctls, numChallenges, i, c + 1, |zs|)
  {
    FilteredBelow(ctls[i], |zs|);
    forall t | t in filtered ensures cursors[t] < |zs[t]| {
      OffsetBound(ctls, numChallenges, i, c, t);
    }
    var sum;
    sum, next := SumLooking(zs, filtered, cursors);
    var l := ctls[i].lookedTable.table;
    OffsetBound(ctls, numChallenges, i, c, l);
    var lookedZ := zs[l][next[l]];
    next := next[l := next[l] + 1];
    CursorsStep(ctls, numChallenges, i, c, |zs|, next);
    if sum != lookedZ {
      return Err(Mismatch(i)), next;
    }
    r := Ok(());
  }

  /** The `map(next).sum()` over the distinct looking tables, which advances each of their iterators once. */
  method SumLooking(zs: seq<seq<Felt>>, filtered: seq<nat>, cursors: seq<nat>)
    returns (sum: Felt, next: seq<nat>)
    requires forall j, l :: 0 <= j < l < |filtered| ==> filtered[j] != filtered[l]
    requires |cursors| == |zs| && forall t :: t in filtered ==> t < |zs| && cursors[t] < |zs[t]|
    ensures sum == SumAt(zs, filtered, cursors, |filtered|)
    ensures |next| == |zs| && forall t :: 0 <= t < |zs| ==> next[t] == cursors[t] + if t in filtered then 1 else 0
  {
    next := cursors;
    sum := 0;
    for m := 0 to |filtered|
      invariant |next| == |zs|
      invariant forall t :: 0 <= t < |zs| ==> next[t] == cursors[t] + if t in filtered[..m] then 1 else 0
      invariant sum == SumAt(zs, filtered, cursors, m)
    {
      var t := filtered[m];
      assert t !in filtered[..m];
      assert filtered[..m + 1] == filtered[..m] + [t];
      assert next[t] == cursors[t] < |zs[t]|;
      sum := Add(sum, zs[t][next[t]]);
      next := next[t := next[t] + 1];
    }
    assert filtered[..|filtered|] == filtered;
  }

  lemma FilteredBelow(ctl: CrossTableLookup, numTables: nat)
    requires TablesBelow(ctl.lookingTables, numTables)
    ensures forall m :: 0 <= m < |LookingTables(ctl)| ==> LookingTables(ctl)[m] < numTables
  {
    forall m | 0 <= m < |LookingTables(ctl)| ensures LookingTables(ctl)[m] < numTables {
      var t := LookingTables(ctl)[m];
      assert t in IdsOf(ctl.lookingTables);
    }
  }
}
