/**
 * `cross_table_lookup_data` of the grand-product engine: for every lookup and
 * challenge the prover runs `partial_products` for every looking table and
 * for the looked table, and appends one `CtlZData` per looking table, in
 * order, and then one for the looked table to the data of the table concerned.
 */
module GrandProductData {
  import opened Goldilocks
  import opened Wrappers
  import opened MathUtil
  import opened Columns
  import opened GrandProduct
  import opened GrandProductVerify
  import opened PerTable

  /** `CtlZData`: a Z column, its challenge, and the lookup side it covers. */
  datatype CtlZData = CtlZData(z: seq<Felt>, challenge: Challenge, columns: seq<Column>, filterColumn: Option<Column>)

  /** A lookup side names a table that exists and whose width its columns and filter fit. */
  predicate EntryFits(traces: seq<Trace>, e: TableWithColumns)
  {
    e.table < |traces| && IsTrace(traces[e.table]) && SideFits(e.columns, e.filterColumn, |traces[e.table]|)
  }

  predicate LookupFits(traces: seq<Trace>, ctl: CrossTableLookup)
  {
    (forall k :: 0 <= k < |ctl.lookingTables| ==> EntryFits(traces, ctl.lookingTables[k])) && EntryFits(traces, ctl.lookedTable)
  }

  predicate LookupsFit(traces: seq<Trace>, ctls: seq<CrossTableLookup>)
  {
    forall i :: 0 <= i < |ctls| ==> LookupFits(traces, ctls[i])
  }

  /** The filter of a lookup side is 0 or 1 on every row of its table. */
  predicate EntryBinary(traces: seq<Trace>, e: TableWithColumns)
  {
    EntryFits(traces, e) && BinaryFrom(traces[e.table], e.filterColumn, 0)
  }

  /** The first `k` looking tables have binary filters. */
  predicate LookingBinaryBelow(traces: seq<Trace>, ctl: CrossTableLookup, k: nat)
    requires k <= |ctl.lookingTables|
  {
    k == 0 || (LookingBinaryBelow(traces, ctl, k - 1) && EntryBinary(traces, ctl.lookingTables[k - 1]))
  }

  predicate LookupBinary(traces: seq<Trace>, ctl: CrossTableLookup)
  {
    (forall k :: 0 <= k < |ctl.lookingTables| ==> EntryBinary(traces, ctl.lookingTables[k]))
    && EntryBinary(traces, ctl.lookedTable)
  }

  lemma {:induction false} LookingBinaryBelowIff(traces: seq<Trace>, ctl: CrossTableLookup, k: nat)
    requires k <= |ctl.lookingTables|
    ensures LookingBinaryBelow(traces, ctl, k) <==> forall j :: 0 <= j < k ==> EntryBinary(traces, ctl.lookingTables[j])
  {
    if k > 0 {
      LookingBinaryBelowIff(traces, ctl, k - 1);
    }
  }

  /**
   * The entry `partial_products` gives a lookup side for one challenge (a
   * side that does not fit its table, which the prover never meets, gets an
   * empty column).
   */
  function ZDataOf(traces: seq<Trace>, e: TableWithColumns, ch: Challenge): CtlZData
  {
    var z := if EntryFits(traces, e) then ProductColumn(traces[e.table], e.columns, e.filterColumn, ch) else [];
    CtlZData(z, ch, e.columns, e.filterColumn)
  }

  /** The (table, entry) pushes of the first `k` looking tables for one challenge. */
  function LookingPushes(traces: seq<Trace>, ctl: CrossTableLookup, ch: Challenge, k: nat): (r: seq<(nat, CtlZData)>)
    requires k <= |ctl.lookingTables|
    ensures |r| == k
  {
    if k == 0 then []
    else
      var e := ctl.lookingTables[k - 1];
      LookingPushes(traces, ctl, ch, k - 1) + [(e.table, ZDataOf(traces, e, ch))]
  }

  /** One challenge: every looking table, then the looked table. */
  function ChallengePushes(traces: seq<Trace>, ctl: CrossTableLookup, ch: Challenge): seq<(nat, CtlZData)>
  {
    LookingPushes(traces, ctl, ch, |ctl.lookingTables|) + [(ctl.lookedTable.table, ZDataOf(traces, ctl.lookedTable, ch))]
  }

  /** The first `c` challenges of one lookup. */
  function LookupPushes(traces: seq<Trace>, ctl: CrossTableLookup, chs: seq<Challenge>, c: nat): seq<(nat, CtlZData)>
    requires c <= |chs|
  {
    if c == 0 then [] else LookupPushes(traces, ctl, chs, c - 1) + ChallengePushes(traces, ctl, chs[c - 1])
  }

  /** The first `i` lookups, every challenge of each. */
  function AllPushes(traces: seq<Trace>, ctls: seq<CrossTableLookup>, chs: seq<Challenge>, i: nat): seq<(nat, CtlZData)>
    requires i <= |ctls|
  {
    if i == 0 then [] else AllPushes(traces, ctls, chs, i - 1) + LookupPushes(traces, ctls[i - 1], chs, |chs|)
  }

  /**
   * The body of the challenge loop.  The looked table's `partial_products`
   * runs first, since the looking ones are computed lazily as they are
   * pushed; a non-binary filter, which the source asserts against, is an
   * error whichever side it is on.
   */
  method PushChallenge(traces: seq<Trace>, ctl: CrossTableLookup, ch: Challenge, data: seq<seq<CtlZData>>)
    returns (r: Result<seq<seq<CtlZData>>, ProductError>)
    requires LookupFits(traces, ctl) && |data| == |traces|
    ensures r.Ok? <==> LookupBinary(traces, ctl)
    ensures r.Ok? ==> Appended(r.value, data, ChallengePushes(traces, ctl, ch))
  {
    LookingBinaryBelowIff(traces, ctl, |ctl.lookingTables|);
    var looked := ctl.lookedTable;
    var zLooked := PartialProducts(traces[looked.table], looked.columns, looked.filterColumn, ch);
    if zLooked.Err? {
      return Err(zLooked.error);
    }
    var looking := PushLooking(traces, ctl, ch, data);
    if looking.Err? {
      return Err(looking.error);
    }
    var out := looking.value;
    var entry := CtlZData(zLooked.value, ch, looked.columns, looked.filterColumn);
    AppendedSnoc(out, data, LookingPushes(traces, ctl, ch, |ctl.lookingTables|), (looked.table, entry));
    out := out[looked.table := out[looked.table] + [entry]];
    r := Ok(out);
  }

  /** The zip of the looking tables with their lazily computed Z columns. */
  method PushLooking(traces: seq<Trace>, ctl: CrossTableLookup, ch: Challenge, data: seq<seq<CtlZData>>)
    returns (r: Result<seq<seq<CtlZData>>, ProductError>)
    requires LookupFits(traces, ctl) && |data| == |traces|
    ensures r.Ok? <==> LookingBinaryBelow(traces, ctl, |ctl.lookingTables|)
    ensures r.Ok? ==> Appended(r.value, data, LookingPushes(traces, ctl, ch, |ctl.lookingTables|))
  {
    var out := data;
    AppendedEmpty(data);
    for k := 0 to |ctl.lookingTables|
      invariant Appended(out, data, LookingPushes(traces, ctl, ch, k))
      invariant LookingBinaryBelow(traces, ctl, k)
    {
      var e := ctl.lookingTables[k];
      var z := PartialProducts(traces[e.table], e.columns, e.filterColumn, ch);
      if z.Err? {
        LookingBinaryBelowIff(traces, ctl, |ctl.lookingTables|);
        return Err(z.error);
      }
      var entry := CtlZData(z.value, ch, e.columns, e.filterColumn);
      AppendedSnoc(out, data, LookingPushes(traces, ctl, ch, k), (e.table, entry));
      out := out[e.table := out[e.table] + [entry]];
    }
    r := Ok(out);
  }

  /**
   * `cross_table_lookup_data`: every lookup, every challenge, the pushes in
   * order; a non-binary filter anywhere is an error (only reached when there
   * is at least one challenge).
   */
  method CrossTableLookupData(traces: seq<Trace>, ctls: seq<CrossTableLookup>, chs: seq<Challenge>)
    returns (r: Result<seq<seq<CtlZData>>, ProductError>)
    requires LookupsFit(traces, ctls)
    ensures r.Ok? <==> |chs| == 0 || forall i :: 0 <= i < |ctls| ==> LookupBinary(traces, ctls[i])
    ensures r.Ok? ==> Distributed(r.value, AllPushes(traces, ctls, chs, |ctls|), |traces|)
  {
    r := PushAll(traces, ctls, chs);
    LookupsBinaryIff(traces, ctls, |ctls|);
  }

  /** The first `i` lookups have binary filters throughout. */
  predicate LookupsBinary(traces: seq<Trace>, ctls: seq<CrossTableLookup>, i: nat)
    requires i <= |ctls|
  {
    i == 0 || (LookupsBinary(traces, ctls, i - 1) && LookupBinary(traces, ctls[i - 1]))
  }

  lemma {:induction false} LookupsBinaryIff(traces: seq<Trace>, ctls: seq<CrossTableLookup>, i: nat)
    requires i <= |ctls|
    ensures LookupsBinary(traces, ctls, i) <==> forall k :: 0 <= k < i ==> LookupBinary(traces, ctls[k])
  {
    if i > 0 {
      LookupsBinaryIff(traces, ctls, i - 1);
    }
  }

  /** The two loops of `cross_table_lookup_data`. */
  method PushAll(traces: seq<Trace>, ctls: seq<CrossTableLookup>, chs: seq<Challenge>)
    returns (r: Result<seq<seq<CtlZData>>, ProductError>)
    requires LookupsFit(traces, ctls)
    ensures r.Ok? <==> |chs| == 0 || LookupsBinary(traces, ctls, |ctls|)
    ensures r.Ok? ==> Distributed(r.value, AllPushes(traces, ctls, chs, |ctls|), |traces|)
  {
    var data: seq<seq<CtlZData>> := seq(|traces|, _ => []);
    ghost var pushed: seq<(nat, CtlZData)> := [];
    for i := 0 to |ctls|
      invariant pushed == AllPushes(traces, ctls, chs, i)
      invariant Distributed(data, pushed, |traces|)
      invariant |chs| > 0 ==> LookupsBinary(traces, ctls, i)
    {
      var res := PushLookup(traces, ctls[i], chs, data);
      if res.Err? {
        assert !LookupsBinary(traces, ctls, |ctls|) by {
          LookupsBinaryIff(traces, ctls, |ctls|);
        }
        return Err(res.error);
      }
      ghost var more := LookupPushes(traces, ctls[i], chs, |chs|);
      DistributedAppend(data, res.value, pushed, more, |traces|);
      data := res.value;
      pushed := pushed + more;
    }
    r := Ok(data);
  }

  /** The challenge loop of `cross_table_lookup_data` for one lookup. */
  method PushLookup(traces: seq<Trace>, ctl: CrossTableLookup, chs: seq<Challenge>, data: seq<seq<CtlZData>>)
    returns (r: Result<seq<seq<CtlZData>>, ProductError>)
    requires LookupFits(traces, ctl) && |data| == |traces|
    ensures r.Ok? <==> |chs| == 0 || LookupBinary(traces, ctl)
    ensures r.Ok? ==> Appended(r.value, data, LookupPushes(traces, ctl, chs, |chs|))
    ensures r.Ok? ==> forall t :: 0 <= t < |data| ==> |r.value[t]| == |data[t]| + Times(|chs|, Mentions(ctl, t))
  {
    var out := data;
    AppendedEmpty(data);
    for c := 0 to |chs|
      invariant Appended(out, data, LookupPushes(traces, ctl, chs, c))
      invariant c > 0 ==> LookupBinary(traces, ctl)
    {
      var res := PushChallenge(traces, ctl, chs[c], out);
      if res.Err? {
        return Err(res.error);
      }
      AppendedTrans(data, out, res.value, LookupPushes(traces, ctl, chs, c), ChallengePushes(traces, ctl, chs[c]));
      out := res.value;
    }
    forall t | 0 <= t < |data| ensures |out[t]| == |data[t]| + Times(|chs|, Mentions(ctl, t)) {
      AppendedLength(out, data, LookupPushes(traces, ctl, chs, |chs|), t);
      LookupPushesCount(traces, ctl, chs, |chs|, t);
    }
    r := Ok(out);
  }

  // How many entries each table receives, against `num_ctl_zs`.

  lemma {:induction false} LookingPushesCount(traces: seq<Trace>, ctl: CrossTableLookup, ch: Challenge, k: nat, t: nat)
    requires k <= |ctl.lookingTables|
    ensures PushCount(LookingPushes(traces, ctl, ch, k), t) == Count(IdsOf(ctl.lookingTables)[..k], t)
  {
    if k > 0 {
      var e := ctl.lookingTables[k - 1];
      LookingPushesCount(traces, ctl, ch, k - 1, t);
      PushCountSnoc(LookingPushes(traces, ctl, ch, k - 1), (e.table, ZDataOf(traces, e, ch)), t);
      CountPrefix(IdsOf(ctl.lookingTables), k - 1, t);
    }
  }

  /** One challenge sends each table one entry per mention. */
  lemma ChallengePushesCount(traces: seq<Trace>, ctl: CrossTableLookup, ch: Challenge, t: nat)
    ensures PushCount(ChallengePushes(traces, ctl, ch), t) == Mentions(ctl, t)
  {
    var n := |ctl.lookingTables|;
    LookingPushesCount(traces, ctl, ch, n, t);
    assert IdsOf(ctl.lookingTables)[..n] == IdsOf(ctl.lookingTables);
    PushCountSnoc(LookingPushes(traces, ctl, ch, n), (ctl.lookedTable.table, ZDataOf(traces, ctl.lookedTable, ch)), t);
  }

  lemma {:induction false} LookupPushesCount(traces: seq<Trace>, ctl: CrossTableLookup, chs: seq<Challenge>, c: nat, t: nat)
    requires c <= |chs|
    ensures PushCount(LookupPushes(traces, ctl, chs, c), t) == Times(c, Mentions(ctl, t))
  {
    if c > 0 {
      LookupPushesCount(traces, ctl, chs, c - 1, t);
      PushCountAppend(LookupPushes(traces, ctl, chs, c - 1), ChallengePushes(traces, ctl, chs[c - 1]), t);
      ChallengePushesCount(traces, ctl, chs[c - 1], t);
    }
  }

  /** One lookup sends each table one entry per challenge and mention. */
  lemma LookupEntriesCount(traces: seq<Trace>, ctl: CrossTableLookup, chs: seq<Challenge>, t: nat)
    ensures |EntriesFor(LookupPushes(traces, ctl, chs, |chs|), t)| == Times(|chs|, Mentions(ctl, t))
  {
    PushCountIsLength(LookupPushes(traces, ctl, chs, |chs|), t);
    LookupPushesCount(traces, ctl, chs, |chs|, t);
  }

  /** Lookup `i` adds its entries to those of the lookups before it. */
  lemma AllPushesStep(traces: seq<Trace>, ctls: seq<CrossTableLookup>, chs: seq<Challenge>, i: nat, t: nat)
    requires i < |ctls|
    requires |EntriesFor(AllPushes(traces, ctls, chs, i), t)| == ScaledMentionsBefore(ctls, |chs|, i, t)
    ensures |EntriesFor(AllPushes(traces, ctls, chs, i + 1), t)| == ScaledMentionsBefore(ctls, |chs|, i + 1, t)
  {
    EntriesForAppend(AllPushes(traces, ctls, chs, i), LookupPushes(traces, ctls[i], chs, |chs|), t);
    LookupEntriesCount(traces, ctls[i], chs, t);
  }

  /** The first `i` lookups send each table one entry per challenge and mention. */
  lemma {:induction false} AllPushesCount(traces: seq<Trace>, ctls: seq<CrossTableLookup>, chs: seq<Challenge>,
                                          i: nat, t: nat)
    requires i <= |ctls|
    ensures |EntriesFor(AllPushes(traces, ctls, chs, i), t)| == ScaledMentionsBefore(ctls, |chs|, i, t)
    decreases i
  {
    if i > 0 {
      var j := i - 1;
      AllPushesCount(traces, ctls, chs, j, t);
      AllPushesStep(traces, ctls, chs, j, t);
      assert j + 1 == i;
    }
  }

  /** One table's entries from every lookup, counted as `num_ctl_zs` counts them. */
  lemma TableMatchesVerifier(traces: seq<Trace>, ctls: seq<CrossTableLookup>, chs: seq<Challenge>, t: nat)
    ensures |EntriesFor(AllPushes(traces, ctls, chs, |ctls|), t)| == |chs| * MentionsBefore(ctls, |ctls|, t)
  {
    AllPushesCount(traces, ctls, chs, |ctls|, t);
    ScaledMentionsBeforeIsProduct(ctls, |chs|, |ctls|, t);
  }

  /**
   * What `cross_table_lookup_data` gives table `t` is exactly as long as the
   * verifier's `num_ctl_zs` for it: challenges times the table's mentions
   * over all lookups.
   */
  lemma DataMatchesVerifier(traces: seq<Trace>, ctls: seq<CrossTableLookup>, chs: seq<Challenge>,
                            data: seq<seq<CtlZData>>, t: nat)
    requires Distributed(data, AllPushes(traces, ctls, chs, |ctls|), |traces|) && t < |traces|
    ensures |data[t]| == |chs| * MentionsBefore(ctls, |ctls|, t)
  {
    DistributedLength(data, AllPushes(traces, ctls, chs, |ctls|), |traces|, t);
    TableMatchesVerifier(traces, ctls, chs, t);
  }
}
