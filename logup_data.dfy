/**
 * `cross_table_lookup_data`: for every lookup and challenge, the prover runs
 * `partial_sums` once per consecutive group of looking tables and once for
 * the looked table, and appends one `CtlZData` per group and then one for the
 * looked table to the data of the table concerned.
 */
module LogUpData {
  import opened Goldilocks
  import opened Wrappers
  import opened MathUtil
  import opened Columns
  import opened LogUp
  import opened LogUpTables
  import opened LogUpVerify
  import opened PerTable

  /** `CtlZData`: a Z column, its helper columns, the challenge, and the lookup sides it covers. */
  datatype CtlZData = CtlZData(helperColumns: seq<seq<Felt>>, z: seq<Felt>, challenge: Challenge,
                               columns: seq<seq<Column>>, filter: seq<Option<Filter>>)

  /** A lookup side names a table that exists and whose width its columns and filter fit. */
  predicate EntryFits(traces: seq<Trace>, e: TableWithColumns)
  {
    e.table < |traces| && IsTrace(traces[e.table]) && PairFits(PairOf(e), |traces[e.table]|)
  }

  predicate LookupFits(traces: seq<Trace>, ctl: CrossTableLookup)
  {
    (forall e :: e in ctl.lookingTables ==> EntryFits(traces, e)) && EntryFits(traces, ctl.lookedTable)
  }

  /** The filter of a lookup side is 0 or 1 on every row of its table. */
  predicate EntryBinary(traces: seq<Trace>, e: TableWithColumns)
  {
    EntryFits(traces, e) && var t := traces[e.table]; BinaryFilters(t, Height(t), [PairOf(e)])
  }

  predicate LookupBinary(traces: seq<Trace>, ctl: CrossTableLookup)
  {
    (forall e :: e in ctl.lookingTables ==> EntryBinary(traces, e)) && EntryBinary(traces, ctl.lookedTable)
  }

  function PairsOf(xs: seq<TableWithColumns>): (r: seq<ColumnFilter>)
    ensures |r| == |xs| && forall k :: 0 <= k < |xs| ==> r[k] == PairOf(xs[k])
  {
    seq(|xs|, k requires 0 <= k < |xs| => PairOf(xs[k]))
  }

  /** A group's entries all name its table, so their pairs fit that table. */
  lemma GroupFits(traces: seq<Trace>, run: seq<TableWithColumns>)
    requires RunFits(traces, run)
    ensures EntryFits(traces, run[0])
    ensures PairsFit(PairsOf(run), |traces[run[0].table]|)
  {
    assert run[0] in run;
    forall p | p in PairsOf(run) ensures PairFits(p, |traces[run[0].table]|) {
      var m :| 0 <= m < |run| && PairsOf(run)[m] == p;
      assert EntryFits(traces, run[m]);
    }
  }

  /** The groups of a lookup's looking tables consist of its looking tables. */
  lemma RunsOfLookupFit(traces: seq<Trace>, ctl: CrossTableLookup)
    requires LookupFits(traces, ctl)
    ensures forall g :: 0 <= g < |Runs(ctl.lookingTables)| ==> RunFits(traces, Runs(ctl.lookingTables)[g])
  {
    var rs := Runs(ctl.lookingTables);
    forall g | 0 <= g < |rs| ensures RunFits(traces, rs[g]) {
      forall e | e in rs[g] ensures EntryFits(traces, e) {
        var m :| 0 <= m < |rs[g]| && rs[g][m] == e;
        FlattenMember(rs, g, m);
      }
    }
  }

  /** The columns of the looking entries naming `table`, in order (the `filter_map`). */
  function ColumnsWith(looking: seq<TableWithColumns>, table: nat): seq<seq<Column>>
  {
    if |looking| == 0 then []
    else
      var e := looking[|looking| - 1];
      ColumnsWith(looking[..|looking| - 1], table) + if e.table == table then [e.columns] else []
  }

  function FiltersWith(looking: seq<TableWithColumns>, table: nat): seq<Option<Filter>>
  {
    if |looking| == 0 then []
    else
      var e := looking[|looking| - 1];
      FiltersWith(looking[..|looking| - 1], table) + if e.table == table then [e.filter] else []
  }

  /** `partial_sums` of group `g` of a lookup's looking tables. */
  function GroupSums(traces: seq<Trace>, ctl: CrossTableLookup, ch: Challenge, constraintDegree: nat,
                     inv: Felt -> Felt, g: nat): (r: seq<seq<Felt>>)
    requires constraintDegree >= 2 && LookupFits(traces, ctl) && g < |Runs(ctl.lookingTables)|
    ensures |r| > 0
  {
    RunsOfLookupFit(traces, ctl);
    RunSums(traces, Runs(ctl.lookingTables)[g], ch, constraintDegree, inv)
  }

  predicate RunFits(traces: seq<Trace>, run: seq<TableWithColumns>)
  {
    |run| > 0 && IsRun(run) && forall e :: e in run ==> EntryFits(traces, e)
  }

  /** `partial_sums` of one group. */
  function RunSums(traces: seq<Trace>, run: seq<TableWithColumns>, ch: Challenge, constraintDegree: nat,
                   inv: Felt -> Felt): (r: seq<seq<Felt>>)
    requires constraintDegree >= 2 && RunFits(traces, run)
    ensures |r| > 0
  {
    GroupFits(traces, run);
    PartialSumsSpec(traces[run[0].table], PairsOf(run), ch, constraintDegree - 1, inv)
  }

  /** The table of group `g`. */
  function GroupTable(ctl: CrossTableLookup, g: nat): nat
    requires g < |Runs(ctl.lookingTables)|
  {
    Runs(ctl.lookingTables)[g][0].table
  }

  /** The entry group `g` contributes: its `partial_sums` split into helpers and Z. */
  function GroupZData(traces: seq<Trace>, ctl: CrossTableLookup, ch: Challenge, constraintDegree: nat,
                      inv: Felt -> Felt, g: nat): CtlZData
    requires constraintDegree >= 2 && LookupFits(traces, ctl) && g < |Runs(ctl.lookingTables)|
  {
    var ps := GroupSums(traces, ctl, ch, constraintDegree, inv, g);
    var table := GroupTable(ctl, g);
    CtlZData(ps[..|ps| - 1], ps[|ps| - 1], ch, ColumnsWith(ctl.lookingTables, table), FiltersWith(ctl.lookingTables, table))
  }

  /** The looked table's entry: no helpers, and the Z of its one pair. */
  function LookedZData(traces: seq<Trace>, looked: TableWithColumns, ch: Challenge, constraintDegree: nat,
                       inv: Felt -> Felt): CtlZData
    requires constraintDegree >= 2 && EntryFits(traces, looked)
  {
    var ps := PartialSumsSpec(traces[looked.table], [PairOf(looked)], ch, constraintDegree - 1, inv);
    CtlZData([], ps[0], ch, [looked.columns], [looked.filter])
  }

  /** The (table, entry) pushes of the first `g` groups for one challenge. */
  function GroupPushes(traces: seq<Trace>, ctl: CrossTableLookup, ch: Challenge, constraintDegree: nat,
                       inv: Felt -> Felt, g: nat): (r: seq<(nat, CtlZData)>)
    requires constraintDegree >= 2 && LookupFits(traces, ctl) && g <= |Runs(ctl.lookingTables)|
    ensures |r| == g
  {
    if g == 0 then []
    else
      GroupPushes(traces, ctl, ch, constraintDegree, inv, g - 1)
        + [(GroupTable(ctl, g - 1), GroupZData(traces, ctl, ch, constraintDegree, inv, g - 1))]
  }

  /** The pushes for one challenge: every group, then the looked table. */
  function ChallengePushes(traces: seq<Trace>, ctl: CrossTableLookup, ch: Challenge, constraintDegree: nat,
                           inv: Felt -> Felt): seq<(nat, CtlZData)>
    requires constraintDegree >= 2 && LookupFits(traces, ctl)
  {
    GroupPushes(traces, ctl, ch, constraintDegree, inv, |Runs(ctl.lookingTables)|)
      + [(ctl.lookedTable.table, LookedZData(traces, ctl.lookedTable, ch, constraintDegree, inv))]
  }

  /** The pushes of the first `c` challenges of one lookup. */
  function LookupPushes(traces: seq<Trace>, ctl: CrossTableLookup, chs: seq<Challenge>, constraintDegree: nat,
                        inv: Felt -> Felt, c: nat): seq<(nat, CtlZData)>
    requires constraintDegree >= 2 && LookupFits(traces, ctl) && c <= |chs|
  {
    if c == 0 then []
    else LookupPushes(traces, ctl, chs, constraintDegree, inv, c - 1) + ChallengePushes(traces, ctl, chs[c - 1], constraintDegree, inv)
  }

  predicate LookupsFit(traces: seq<Trace>, ctls: seq<CrossTableLookup>)
  {
    forall i :: 0 <= i < |ctls| ==> LookupFits(traces, ctls[i])
  }

  /** The pushes of the first `i` lookups. */
  function AllPushes(traces: seq<Trace>, ctls: seq<CrossTableLookup>, chs: seq<Challenge>, constraintDegree: nat,
                     inv: Felt -> Felt, i: nat): seq<(nat, CtlZData)>
    requires constraintDegree >= 2 && LookupsFit(traces, ctls) && i <= |ctls|
  {
    if i == 0 then []
    else AllPushes(traces, ctls, chs, constraintDegree, inv, i - 1) + LookupPushes(traces, ctls[i - 1], chs, constraintDegree, inv, |chs|)
  }

  /** The loop building the `columns` and `filter` vectors of a group's entry. */
  method ColumnsFiltersWith(looking: seq<TableWithColumns>, table: nat)
    returns (columns: seq<seq<Column>>, filter: seq<Option<Filter>>)
    ensures columns == ColumnsWith(looking, table) && filter == FiltersWith(looking, table)
  {
    columns, filter := [], [];
    for k := 0 to |looking|
      invariant columns == ColumnsWith(looking[..k], table) && filter == FiltersWith(looking[..k], table)
    {
      assert looking[..k + 1][..k] == looking[..k];
      if looking[k].table == table {
        columns := columns + [looking[k].columns];
        filter := filter + [looking[k].filter];
      }
    }
    assert looking[..|looking|] == looking;
  }

  /**
   * `ctl_helper_zs_cols`: `partial_sums` of every consecutive group of looking
   * tables, tagged with the group's table.
   */
  method CtlHelperZsCols(traces: seq<Trace>, ctl: CrossTableLookup, ch: Challenge, constraintDegree: nat, inv: Felt -> Felt)
    returns (r: Result<seq<(nat, seq<seq<Felt>>)>, CtlError>)
    requires constraintDegree >= 2 && LookupFits(traces, ctl)
    ensures r.Ok? <==> forall e :: e in ctl.lookingTables ==> EntryBinary(traces, e)
    ensures r.Ok? ==>
      |r.value| == |Runs(ctl.lookingTables)|
      && forall g :: 0 <= g < |r.value| ==>
           r.value[g] == (GroupTable(ctl, g), GroupSums(traces, ctl, ch, constraintDegree, inv, g))
  {
    var groups := Runs(ctl.lookingTables);
    RunsOfLookupFit(traces, ctl);
    r := GroupsSums(traces, groups, ch, constraintDegree, inv);
    LookingBinaryIff(traces, ctl);
  }

  predicate RunBinary(traces: seq<Trace>, run: seq<TableWithColumns>)
  {
    forall e :: e in run ==> EntryBinary(traces, e)
  }

  predicate GroupsBinary(traces: seq<Trace>, groups: seq<seq<TableWithColumns>>)
  {
    forall g :: 0 <= g < |groups| ==> RunBinary(traces, groups[g])
  }

  method GroupsSums(traces: seq<Trace>, groups: seq<seq<TableWithColumns>>, ch: Challenge, constraintDegree: nat, inv: Felt -> Felt)
    returns (r: Result<seq<(nat, seq<seq<Felt>>)>, CtlError>)
    requires constraintDegree >= 2 && forall g :: 0 <= g < |groups| ==> |groups[g]| > 0 && RunFits(traces, groups[g])
    ensures r.Ok? <==> GroupsBinary(traces, groups)
    ensures r.Ok? ==>
      |r.value| == |groups|
      && forall g :: 0 <= g < |groups| ==> r.value[g] == (groups[g][0].table, RunSums(traces, groups[g], ch, constraintDegree, inv))
  {
    var out: seq<(nat, seq<seq<Felt>>)> := [];
    for g := 0 to |groups|
      invariant |out| == g
      invariant RunsBinaryBelow(traces, groups, g)
      invariant forall j :: 0 <= j < g ==> out[j] == (groups[j][0].table, RunSums(traces, groups[j], ch, constraintDegree, inv))
    {
      var run := groups[g];
      var ps := RunPartialSums(traces, run, ch, constraintDegree, inv);
      if ps.Err? {
        assert !RunBinary(traces, groups[g]);
        return Err(ps.error);
      }
      out := out + [(run[0].table, ps.value)];
      assert out[g] == (groups[g][0].table, RunSums(traces, groups[g], ch, constraintDegree, inv));
    }
    RunsBinaryBelowIff(traces, groups, |groups|);
    return Ok(out);
  }

  /** The first `g` runs have binary filters. */
  predicate RunsBinaryBelow(traces: seq<Trace>, groups: seq<seq<TableWithColumns>>, g: nat)
    requires g <= |groups|
  {
    g == 0 || (RunsBinaryBelow(traces, groups, g - 1) && RunBinary(traces, groups[g - 1]))
  }

  lemma {:induction false} RunsBinaryBelowIff(traces: seq<Trace>, groups: seq<seq<TableWithColumns>>, g: nat)
    requires g <= |groups|
    ensures RunsBinaryBelow(traces, groups, g) <==> forall j :: 0 <= j < g ==> RunBinary(traces, groups[j])
  {
    if g > 0 {
      RunsBinaryBelowIff(traces, groups, g - 1);
    }
  }

  method RunPartialSums(traces: seq<Trace>, run: seq<TableWithColumns>, ch: Challenge, constraintDegree: nat, inv: Felt -> Felt)
    returns (r: Result<seq<seq<Felt>>, CtlError>)
    requires constraintDegree >= 2 && RunFits(traces, run)
    ensures r.Ok? <==> RunBinary(traces, run)
    ensures r.Ok? ==> r.value == RunSums(traces, run, ch, constraintDegree, inv)
  {
    GroupBinaryIff(traces, run);
    r := PartialSums(traces[run[0].table], PairsOf(run), ch, constraintDegree, inv);
  }

  /** A group's filters are all binary exactly when each of its entries' filters is. */
  lemma GroupBinaryIff(traces: seq<Trace>, run: seq<TableWithColumns>)
    requires RunFits(traces, run)
    ensures EntryFits(traces, run[0]) && PairsFit(PairsOf(run), |traces[run[0].table]|)
    ensures
      var t := traces[run[0].table];
      BinaryFilters(t, Height(t), PairsOf(run)) <==> forall e :: e in run ==> EntryBinary(traces, e)
  {
    GroupFits(traces, run);
    var t := traces[run[0].table];
    if BinaryFilters(t, Height(t), PairsOf(run)) {
      forall e | e in run ensures EntryBinary(traces, e) {
        var m :| 0 <= m < |run| && run[m] == e;
        assert PairOf(e) == PairsOf(run)[m];
      }
    }
    if forall e :: e in run ==> EntryBinary(traces, e) {
      forall p, d | p in PairsOf(run) && 0 <= d < Height(t) ensures IsBinary(FilterAt(p, t, d)) {
        var m :| 0 <= m < |run| && PairsOf(run)[m] == p;
        assert EntryBinary(traces, run[m]);
        assert PairOf(run[m]) in [PairOf(run[m])];
      }
    }
  }

  /** Every looking entry is binary exactly when every group is. */
  lemma LookingBinaryIff(traces: seq<Trace>, ctl: CrossTableLookup)
    ensures (forall e :: e in ctl.lookingTables ==> EntryBinary(traces, e)) <==> GroupsBinary(traces, Runs(ctl.lookingTables))
  {
    var rs := Runs(ctl.lookingTables);
    if GroupsBinary(traces, rs) {
      forall e | e in ctl.lookingTables ensures EntryBinary(traces, e) {
        FlattenMemberInv(rs, e);
      }
    }
    if forall e :: e in ctl.lookingTables ==> EntryBinary(traces, e) {
      forall g, e | 0 <= g < |rs| && e in rs[g] ensures EntryBinary(traces, e) {
        var m :| 0 <= m < |rs[g]| && rs[g][m] == e;
        FlattenMember(rs, g, m);
      }
    }
  }

  lemma {:induction false} FlattenMemberInv<T>(rs: seq<seq<T>>, x: T)
    requires x in Flatten(rs)
    ensures exists j :: 0 <= j < |rs| && x in rs[j]
  {
    if x !in rs[0] {
      FlattenMemberInv(rs[1..], x);
      var j :| 0 <= j < |rs[1..]| && x in rs[1..][j];
      assert x in rs[j + 1];
    }
  }

  lemma GroupTableFits(traces: seq<Trace>, ctl: CrossTableLookup, g: nat)
    requires LookupFits(traces, ctl) && g < |Runs(ctl.lookingTables)|
    ensures EntryFits(traces, Runs(ctl.lookingTables)[g][0]) && GroupTable(ctl, g) < |traces|
  {
    RunsOfLookupFit(traces, ctl);
    GroupFits(traces, Runs(ctl.lookingTables)[g]);
  }

  /**
   * One challenge of one lookup in `cross_table_lookup_data`: the groups'
   * entries, then the looked table's, appended to the tables' data.
   */
  method PushChallenge(traces: seq<Trace>, ctl: CrossTableLookup, ch: Challenge, constraintDegree: nat,
                       inv: Felt -> Felt, data: seq<seq<CtlZData>>)
    returns (r: Result<seq<seq<CtlZData>>, CtlError>)
    requires constraintDegree >= 2 && LookupFits(traces, ctl) && |data| == |traces|
    ensures r.Ok? <==> LookupBinary(traces, ctl)
    ensures r.Ok? ==> Appended(r.value, data, ChallengePushes(traces, ctl, ch, constraintDegree, inv))
  {
    var helperZsLooking := CtlHelperZsCols(traces, ctl, ch, constraintDegree, inv);
    if helperZsLooking.Err? {
      return Err(helperZsLooking.error);
    }
    var looked := ctl.lookedTable;
    var zLooked := PartialSums(traces[looked.table], [PairOf(looked)], ch, constraintDegree, inv);
    if zLooked.Err? {
      return Err(zLooked.error);
    }
    var groups := helperZsLooking.value;
    var out := data;
    AppendedEmpty(data);
    for g := 0 to |groups|
      invariant Appended(out, data, GroupPushes(traces, ctl, ch, constraintDegree, inv, g))
    {
      var (table, helpersZs) := groups[g];
      GroupTableFits(traces, ctl, g);
      var numHelpers := |helpersZs| - 1;
      var columns, filter := ColumnsFiltersWith(ctl.lookingTables, table);
      var entry := CtlZData(helpersZs[..numHelpers], helpersZs[numHelpers], ch, columns, filter);
      assert entry == GroupZData(traces, ctl, ch, constraintDegree, inv, g);
      AppendedSnoc(out, data, GroupPushes(traces, ctl, ch, constraintDegree, inv, g), (table, entry));
      out := out[table := out[table] + [entry]];
    }
    var entry := CtlZData([], zLooked.value[0], ch, [looked.columns], [looked.filter]);
    AppendedSnoc(out, data, GroupPushes(traces, ctl, ch, constraintDegree, inv, |groups|), (looked.table, entry));
    out := out[looked.table := out[looked.table] + [entry]];
    r := Ok(out);
  }

  /**
   * `cross_table_lookup_data`: every lookup, every challenge, the pushes in
   * order; a non-binary filter anywhere, which the source asserts against,
   * is an error (only reached when there is at least one challenge).
   */
  method CrossTableLookupData(traces: seq<Trace>, ctls: seq<CrossTableLookup>, chs: seq<Challenge>,
                              constraintDegree: nat, inv: Felt -> Felt)
    returns (r: Result<seq<seq<CtlZData>>, CtlError>)
    requires constraintDegree >= 2 && LookupsFit(traces, ctls)
    ensures r.Ok? <==> |chs| == 0 || forall i :: 0 <= i < |ctls| ==> LookupBinary(traces, ctls[i])
    ensures r.Ok? ==> Distributed(r.value, AllPushes(traces, ctls, chs, constraintDegree, inv, |ctls|), |traces|)
  {
    r := PushAll(traces, ctls, chs, constraintDegree, inv);
    LookupsBinaryIff(traces, ctls, |ctls|);
  }

  /** The first `i` lookups have binary filters throughout. */
  predicate LookupsBinary(traces: seq<Trace>, ctls: seq<CrossTableLookup>, i: nat)
    requires i <= |ctls|
  {
    i == 0 || (LookupsBinary(traces, ctls, i - 1) && LookupBinary(traces, ctls[i - 1]))
  }

  lemma {:induction false} LookupsBinaryIff(traces: seq<Trace>, ctls: seq<CrossTableLookup>, i: nat)
    requires i <= |ctls|
    ensures LookupsBinary(traces, ctls, i) <==> forall k :: 0 <= k < i ==> LookupBinary(traces, ctls[k])
  {
    if i > 0 {
      LookupsBinaryIff(traces, ctls, i - 1);
    }
  }

  /** The two loops of `cross_table_lookup_data`. */
  method PushAll(traces: seq<Trace>, ctls: seq<CrossTableLookup>, chs: seq<Challenge>,
                 constraintDegree: nat, inv: Felt -> Felt)
    returns (r: Result<seq<seq<CtlZData>>, CtlError>)
    requires constraintDegree >= 2 && LookupsFit(traces, ctls)
    ensures r.Ok? <==> |chs| == 0 || LookupsBinary(traces, ctls, |ctls|)
    ensures r.Ok? ==> Distributed(r.value, AllPushes(traces, ctls, chs, constraintDegree, inv, |ctls|), |traces|)
  {
    var data: seq<seq<CtlZData>> := seq(|traces|, _ => []);
    ghost var pushed: seq<(nat, CtlZData)> := [];
    for i := 0 to |ctls|
      invariant pushed == AllPushes(traces, ctls, chs, constraintDegree, inv, i)
      invariant Distributed(data, pushed, |traces|)
      invariant |chs| > 0 ==> LookupsBinary(traces, ctls, i)
    {
      var res := PushLookup(traces, ctls[i], chs, constraintDegree, inv, data);
      if res.Err? {
        assert !LookupsBinary(traces, ctls, |ctls|) by {
          LookupsBinaryIff(traces, ctls, |ctls|);
        }
        return Err(res.error);
      }
      ghost var more := LookupPushes(traces, ctls[i], chs, constraintDegree, inv, |chs|);
      DistributedAppend(data, res.value, pushed, more, |traces|);
      data := res.value;
      pushed := pushed + more;
    }
    r := Ok(data);
  }

  /** The challenge loop of `cross_table_lookup_data` for one lookup. */
  method PushLookup(traces: seq<Trace>, ctl: CrossTableLookup, chs: seq<Challenge>, constraintDegree: nat,
                    inv: Felt -> Felt, data: seq<seq<CtlZData>>)
    returns (r: Result<seq<seq<CtlZData>>, CtlError>)
    requires constraintDegree >= 2 && LookupFits(traces, ctl) && |data| == |traces|
    ensures r.Ok? <==> |chs| == 0 || LookupBinary(traces, ctl)
    ensures r.Ok? ==> Appended(r.value, data, LookupPushes(traces, ctl, chs, constraintDegree, inv, |chs|))
  {
    var out := data;
    AppendedEmpty(data);
    for c := 0 to |chs|
      invariant Appended(out, data, LookupPushes(traces, ctl, chs, constraintDegree, inv, c))
      invariant c > 0 ==> LookupBinary(traces, ctl)
    {
      var res := PushChallenge(traces, ctl, chs[c], constraintDegree, inv, out);
      if res.Err? {
        return Err(res.error);
      }
      AppendedTrans(data, out, res.value, LookupPushes(traces, ctl, chs, constraintDegree, inv, c),
                    ChallengePushes(traces, ctl, chs[c], constraintDegree, inv));
      out := res.value;
    }
    r := Ok(out);
  }

  // How many entries each table receives, against what the verifier reads.

  /** A table is among the looking tables exactly when one of the groups names it. */
  lemma InLookingIffGroup(ctl: CrossTableLookup, t: nat)
    ensures t in IdsOf(ctl.lookingTables) <==> exists j :: 0 <= j < |Runs(ctl.lookingTables)| && GroupTable(ctl, j) == t
  {
    var xs := ctl.lookingTables;
    var rs := Runs(xs);
    if t in IdsOf(xs) {
      var k :| 0 <= k < |xs| && IdsOf(xs)[k] == t;
      assert xs[k] in Flatten(rs);
      FlattenMemberInv(rs, xs[k]);
      var j :| 0 <= j < |rs| && xs[k] in rs[j];
      var m :| 0 <= m < |rs[j]| && rs[j][m] == xs[k];
      assert GroupTable(ctl, j) == t;
    }
    if exists j :: 0 <= j < |rs| && GroupTable(ctl, j) == t {
      var j :| 0 <= j < |rs| && GroupTable(ctl, j) == t;
      FlattenMember(rs, j, 0);
      var k :| 0 <= k < |xs| && xs[k] == rs[j][0];
      assert IdsOf(xs)[k] == t;
    }
  }

  /** Some group below `g` is a run of table `t`. */
  predicate HasGroupBelow(ctl: CrossTableLookup, g: nat, t: nat)
    requires g <= |Runs(ctl.lookingTables)|
  {
    g > 0 && (HasGroupBelow(ctl, g - 1, t) || GroupTable(ctl, g - 1) == t)
  }

  lemma {:induction false} HasGroupBelowIff(ctl: CrossTableLookup, g: nat, t: nat)
    requires g <= |Runs(ctl.lookingTables)|
    ensures HasGroupBelow(ctl, g, t) <==> exists j :: 0 <= j < g && GroupTable(ctl, j) == t
  {
    if g > 0 {
      HasGroupBelowIff(ctl, g - 1, t);
      if GroupTable(ctl, g - 1) == t {
        assert 0 <= g - 1 < g && GroupTable(ctl, g - 1) == t;
      }
    }
  }

  /** In well-grouped looking tables the group after a run of `t` below `g` is not a run of `t`. */
  lemma GroupsDistinct(ctl: CrossTableLookup, g: nat, t: nat)
    requires WellGrouped(ctl.lookingTables) && 0 < g <= |Runs(ctl.lookingTables)| && GroupTable(ctl, g - 1) == t
    ensures !HasGroupBelow(ctl, g - 1, t)
  {
    HasGroupBelowIff(ctl, g - 1, t);
    var rs: seq<seq<TableWithColumns>> := Runs(ctl.lookingTables);
    forall j | 0 <= j < g - 1 ensures GroupTable(ctl, j) != t {
      assert rs[j][0].table != rs[g - 1][0].table;
    }
  }

  /** With one group per table, the first `g` groups send a table at most one entry per challenge. */
  lemma {:induction false} GroupPushesCount(traces: seq<Trace>, ctl: CrossTableLookup, ch: Challenge, constraintDegree: nat,
                                            inv: Felt -> Felt, g: nat, t: nat)
    requires constraintDegree >= 2 && LookupFits(traces, ctl) && g <= |Runs(ctl.lookingTables)|
    requires WellGrouped(ctl.lookingTables)
    ensures |EntriesFor(GroupPushes(traces, ctl, ch, constraintDegree, inv, g), t)| == if HasGroupBelow(ctl, g, t) then 1 else 0
  {
    if g > 0 {
      var prev := GroupPushes(traces, ctl, ch, constraintDegree, inv, g - 1);
      var p := (GroupTable(ctl, g - 1), GroupZData(traces, ctl, ch, constraintDegree, inv, g - 1));
      GroupPushesCount(traces, ctl, ch, constraintDegree, inv, g - 1, t);
      EntriesForSnoc(prev, p, t);
      if GroupTable(ctl, g - 1) == t {
        GroupsDistinct(ctl, g, t);
      }
    }
  }

  /** One challenge sends each table exactly as many entries as the verifier reads from it. */
  lemma ChallengePushesCount(traces: seq<Trace>, ctl: CrossTableLookup, ch: Challenge, constraintDegree: nat,
                             inv: Felt -> Felt, t: nat)
    requires constraintDegree >= 2 && LookupFits(traces, ctl) && WellGrouped(ctl.lookingTables)
    ensures |EntriesFor(ChallengePushes(traces, ctl, ch, constraintDegree, inv), t)| == Uses(ctl, t)
  {
    var n := |Runs(ctl.lookingTables)|;
    GroupPushesCount(traces, ctl, ch, constraintDegree, inv, n, t);
    HasGroupBelowIff(ctl, n, t);
    EntriesForSnoc(GroupPushes(traces, ctl, ch, constraintDegree, inv, n),
                   (ctl.lookedTable.table, LookedZData(traces, ctl.lookedTable, ch, constraintDegree, inv)), t);
    InLookingIffGroup(ctl, t);
  }

  lemma {:induction false} LookupPushesCount(traces: seq<Trace>, ctl: CrossTableLookup, chs: seq<Challenge>,
                                             constraintDegree: nat, inv: Felt -> Felt, c: nat, t: nat)
    requires constraintDegree >= 2 && LookupFits(traces, ctl) && WellGrouped(ctl.lookingTables) && c <= |chs|
    ensures |EntriesFor(LookupPushes(traces, ctl, chs, constraintDegree, inv, c), t)| == Times(c, Uses(ctl, t))
  {
    if c > 0 {
      LookupPushesCount(traces, ctl, chs, constraintDegree, inv, c - 1, t);
      LookupPushesStep(traces, ctl, chs, constraintDegree, inv, c, t);
      ChallengePushesCount(traces, ctl, chs[c - 1], constraintDegree, inv, t);
    }
  }

  /** The first `i` lookups each have their looking tables grouped by table. */
  predicate GroupedBefore(ctls: seq<CrossTableLookup>, i: nat)
    requires i <= |ctls|
  {
    i == 0 || (GroupedBefore(ctls, i - 1) && WellGrouped(ctls[i - 1].lookingTables))
  }

  lemma {:induction false} GroupedBeforeIff(ctls: seq<CrossTableLookup>, i: nat)
    requires i <= |ctls|
    ensures GroupedBefore(ctls, i) <==> forall k :: 0 <= k < i ==> WellGrouped(ctls[k].lookingTables)
  {
    if i > 0 {
      GroupedBeforeIff(ctls, i - 1);
    }
  }

  lemma {:induction false} AllPushesCount(traces: seq<Trace>, ctls: seq<CrossTableLookup>, chs: seq<Challenge>,
                                          constraintDegree: nat, inv: Felt -> Felt, i: nat, t: nat)
    requires constraintDegree >= 2 && LookupsFit(traces, ctls) && i <= |ctls| && GroupedBefore(ctls, i)
    ensures |EntriesFor(AllPushes(traces, ctls, chs, constraintDegree, inv, i), t)| == ScaledUsesBefore(ctls, |chs|, i, t)
  {
    if i > 0 {
      AllPushesCount(traces, ctls, chs, constraintDegree, inv, i - 1, t);
      AllPushesStep(traces, ctls, chs, constraintDegree, inv, i, t);
      LookupPushesCount(traces, ctls[i - 1], chs, constraintDegree, inv, |chs|, t);
    }
  }

  lemma AllPushesStep(traces: seq<Trace>, ctls: seq<CrossTableLookup>, chs: seq<Challenge>,
                      constraintDegree: nat, inv: Felt -> Felt, i: nat, t: nat)
    requires constraintDegree >= 2 && LookupsFit(traces, ctls) && 0 < i <= |ctls|
    ensures |EntriesFor(AllPushes(traces, ctls, chs, constraintDegree, inv, i), t)|
         == |EntriesFor(AllPushes(traces, ctls, chs, constraintDegree, inv, i - 1), t)|
          + |EntriesFor(LookupPushes(traces, ctls[i - 1], chs, constraintDegree, inv, |chs|), t)|
  {
    EntriesForAppend(AllPushes(traces, ctls, chs, constraintDegree, inv, i - 1),
                     LookupPushes(traces, ctls[i - 1], chs, constraintDegree, inv, |chs|), t);
  }

  lemma LookupPushesStep(traces: seq<Trace>, ctl: CrossTableLookup, chs: seq<Challenge>,
                         constraintDegree: nat, inv: Felt -> Felt, c: nat, t: nat)
    requires constraintDegree >= 2 && LookupFits(traces, ctl) && 0 < c <= |chs|
    ensures |EntriesFor(LookupPushes(traces, ctl, chs, constraintDegree, inv, c), t)|
         == |EntriesFor(LookupPushes(traces, ctl, chs, constraintDegree, inv, c - 1), t)|
          + |EntriesFor(ChallengePushes(traces, ctl, chs[c - 1], constraintDegree, inv), t)|
  {
    EntriesForAppend(LookupPushes(traces, ctl, chs, constraintDegree, inv, c - 1),
                     ChallengePushes(traces, ctl, chs[c - 1], constraintDegree, inv), t);
  }

  /**
   * When each lookup's looking tables are grouped by table, the data the
   * prover builds gives every table exactly as many Z entries as
   * `verify_cross_table_lookups` reads from it: its iterators end exhausted.
   */
  lemma DataMatchesVerifier(traces: seq<Trace>, ctls: seq<CrossTableLookup>, chs: seq<Challenge>,
                            constraintDegree: nat, inv: Felt -> Felt, data: seq<seq<CtlZData>>)
    requires constraintDegree >= 2 && LookupsFit(traces, ctls)
    requires forall k :: 0 <= k < |ctls| ==> WellGrouped(ctls[k].lookingTables)
    requires Distributed(data, AllPushes(traces, ctls, chs, constraintDegree, inv, |ctls|), |traces|)
    ensures forall t :: 0 <= t < |traces| ==> |data[t]| == |chs| * UsesBefore(ctls, |ctls|, t)
  {
    GroupedBeforeIff(ctls, |ctls|);
    forall t | 0 <= t < |traces| ensures |data[t]| == |chs| * UsesBefore(ctls, |ctls|, t) {
      AllPushesCount(traces, ctls, chs, constraintDegree, inv, |ctls|, t);
      ScaledUsesBeforeIsProduct(ctls, |chs|, |ctls|, t);
    }
  }
}
