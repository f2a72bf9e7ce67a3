/**
 * The bookkeeping around the recursive circuits of the prover: the chain of
 * shrinking wrappers for one table and one initial size, the per-size map of
 * those chains, the padded list of final verifier keys the root circuit picks
 * from, the index a proof's size selects, and the public values, claims and
 * assumptions a receipt carries through aggregation and the block circuit.
 * Circuits, proofs and verifier keys are values of type parameters; building,
 * proving and verifying them belongs to plonky2 and is left out.
 */
module RecursiveCircuits {
  import opened Wrappers
  import opened Goldilocks
  import opened MathUtil
  import opened OrderedMap
  import opened Serialization
  import Columns

  /** The recursion threshold: a shrinking chain ends at circuits of 2^13 rows. */
  const THRESHOLD_DEGREE_BITS: nat := 13

  const NUM_TABLES: nat := 12

  /** The environment variable that sets the size range of each table. */
  const RANGE_TABLES: seq<string> := [
    "ARITHMETIC", "CPU", "POSEIDON", "POSEIDON_SPONGE", "KECCAK", "KECCAK_SPONGE",
    "SHA_EXTEND", "SHA_EXTEND_SPONGE", "SHA_COMPRESS", "SHA_COMPRESS_SPONGE", "LOGIC", "MEMORY"]

  // ----- the shrinking chain of one table size -----

  /** The two `assert!`s of the shrinking loop. */
  datatype ShrinkPanic =
    | BelowThreshold(degreeBits: nat)
    | Stalled(threshold: nat, degreeBits: nat)

  /** `shrinking_wrappers.last()`, or the initial wrapper when there is none. */
  function LastOr<C>(initial: C, wrappers: seq<C>): (c: C)
    ensures c == initial || c in wrappers
  {
    if |wrappers| == 0 then initial else wrappers[|wrappers| - 1]
  }

  /**
   * The wrappers that follow `last`: none once its degree is the threshold,
   * otherwise one more wrapper, which must be smaller, and the wrappers that
   * follow it.  `wrap` builds the circuit that verifies a proof of its
   * argument; `degreeBits` is `common.degree_bits()`.
   */
  function ShrinkFrom<C>(last: C, degreeBits: C -> nat, wrap: C -> C): Result<seq<C>, ShrinkPanic>
    decreases degreeBits(last)
  {
    var d := degreeBits(last);
    if d < THRESHOLD_DEGREE_BITS then Err(BelowThreshold(d))
    else if d == THRESHOLD_DEGREE_BITS then Ok([])
    else
      var next := wrap(last);
      if degreeBits(next) >= d then Err(Stalled(THRESHOLD_DEGREE_BITS, degreeBits(next)))
      else Then(next, ShrinkFrom(next, degreeBits, wrap))
  }

  /** `c` followed by the wrappers of `r`, or the panic of `r`. */
  function Then<C>(c: C, r: Result<seq<C>, ShrinkPanic>): Result<seq<C>, ShrinkPanic>
  {
    match r
    case Err(e) => Err(e)
    case Ok(rest) => Ok([c] + rest)
  }

  /** `wrappers` followed by the wrappers of `r`, or the panic of `r`. */
  function ThenAll<C>(wrappers: seq<C>, r: Result<seq<C>, ShrinkPanic>): Result<seq<C>, ShrinkPanic>
  {
    match r
    case Err(e) => Err(e)
    case Ok(rest) => Ok(wrappers + rest)
  }

  /** The shrinking loop of `RecursiveCircuitsForTableSize::new`, a panic being an error. */
  method ShrinkingWrappers<C>(initial: C, degreeBits: C -> nat, wrap: C -> C) returns (r: Result<seq<C>, ShrinkPanic>)
    ensures r == ShrinkFrom(initial, degreeBits, wrap)
  {
    var wrappers: seq<C> := [];
    ThenNothing(ShrinkFrom(initial, degreeBits, wrap));
    while true
      invariant ShrinkFrom(initial, degreeBits, wrap) == ThenAll(wrappers, ShrinkFrom(LastOr(initial, wrappers), degreeBits, wrap))
      decreases degreeBits(LastOr(initial, wrappers))
    {
      var last := LastOr(initial, wrappers);
      var lastDegreeBits := degreeBits(last);
      if lastDegreeBits < THRESHOLD_DEGREE_BITS {
        return Err(BelowThreshold(lastDegreeBits));
      }
      if lastDegreeBits == THRESHOLD_DEGREE_BITS {
        break;
      }
      var circuit := wrap(last);
      if degreeBits(circuit) >= lastDegreeBits {
        return Err(Stalled(THRESHOLD_DEGREE_BITS, degreeBits(circuit)));
      }
      ThenAllStep(wrappers, circuit, ShrinkFrom(circuit, degreeBits, wrap));
      wrappers := wrappers + [circuit];
    }
    assert wrappers + [] == wrappers;
    return Ok(wrappers);
  }

  lemma ThenNothing<C>(r: Result<seq<C>, ShrinkPanic>)
    ensures ThenAll([], r) == r
  {
    if r.Ok? {
      assert [] + r.value == r.value;
    }
  }

  lemma ThenAllStep<C>(wrappers: seq<C>, c: C, r: Result<seq<C>, ShrinkPanic>)
    ensures ThenAll(wrappers, Then(c, r)) == ThenAll(wrappers + [c], r)
  {
    if r.Ok? {
      assert wrappers + ([c] + r.value) == (wrappers + [c]) + r.value;
    }
  }

  /** A chain that the loop accepts ends exactly at the threshold. */
  lemma {:induction false} ShrunkChainEnds<C>(last: C, degreeBits: C -> nat, wrap: C -> C)
    requires ShrinkFrom(last, degreeBits, wrap).Ok?
    ensures degreeBits(LastOr(last, ShrinkFrom(last, degreeBits, wrap).value)) == THRESHOLD_DEGREE_BITS
    decreases degreeBits(last)
  {
    var ws := ShrinkFrom(last, degreeBits, wrap).value;
    if |ws| > 0 {
      var next := wrap(last);
      ShrunkChainEnds(next, degreeBits, wrap);
      assert ws == [next] + ShrinkFrom(next, degreeBits, wrap).value;
    }
  }

  /** The circuit before wrapper `i` of `[next] + rest`, where `next` wraps `last`. */
  lemma LastOrCons<C>(last: C, next: C, rest: seq<C>, i: nat)
    requires 0 < i <= |rest| + 1
    ensures LastOr(last, ([next] + rest)[..i]) == LastOr(next, rest[..i - 1])
  {
    assert ([next] + rest)[..i] == [next] + rest[..i - 1];
  }

  /**
   * In a chain that the loop accepts each wrapper verifies the circuit before
   * it, is smaller than it, and follows a circuit above the threshold.
   */
  lemma {:induction false} ShrunkChainSteps<C>(last: C, degreeBits: C -> nat, wrap: C -> C, i: nat)
    requires ShrinkFrom(last, degreeBits, wrap).Ok? && i < |ShrinkFrom(last, degreeBits, wrap).value|
    ensures var ws := ShrinkFrom(last, degreeBits, wrap).value;
      ws[i] == wrap(LastOr(last, ws[..i]))
      && degreeBits(ws[i]) < degreeBits(LastOr(last, ws[..i]))
      && degreeBits(LastOr(last, ws[..i])) > THRESHOLD_DEGREE_BITS
    decreases degreeBits(last)
  {
    var ws := ShrinkFrom(last, degreeBits, wrap).value;
    var next := wrap(last);
    var rest := ShrinkFrom(next, degreeBits, wrap).value;
    assert ws == [next] + rest;
    if i > 0 {
      ShrunkChainSteps(next, degreeBits, wrap, i - 1);
      LastOrCons(last, next, rest, i);
    }
  }

  /**
   * The loop ends without a panic when the first circuit is at or above the
   * threshold and every wrapper of a circuit above it is smaller but not below it.
   */
  lemma {:induction false} ShrinkSucceeds<C>(last: C, degreeBits: C -> nat, wrap: C -> C)
    requires degreeBits(last) >= THRESHOLD_DEGREE_BITS
    requires forall c :: degreeBits(c) > THRESHOLD_DEGREE_BITS ==>
      THRESHOLD_DEGREE_BITS <= degreeBits(wrap(c)) < degreeBits(c)
    ensures ShrinkFrom(last, degreeBits, wrap).Ok?
    decreases degreeBits(last)
  {
    if degreeBits(last) > THRESHOLD_DEGREE_BITS {
      ShrinkSucceeds(wrap(last), degreeBits, wrap);
    }
  }

  /** `RecursiveCircuitsForTableSize`: the initial wrapper and the shrinking wrappers after it. */
  datatype SizeChain<C> = SizeChain(initialWrapper: C, shrinkingWrappers: seq<C>)

  /** `RecursiveCircuitsForTableSize::new` from its initial wrapper. */
  function NewSizeChain<C>(initial: C, degreeBits: C -> nat, wrap: C -> C): Result<SizeChain<C>, ShrinkPanic>
  {
    match ShrinkFrom(initial, degreeBits, wrap)
    case Err(e) => Err(e)
    case Ok(ws) => Ok(SizeChain(initial, ws))
  }

  /** The circuit at the end of a chain. */
  function FinalCircuit<C>(chain: SizeChain<C>): C
  {
    LastOr(chain.initialWrapper, chain.shrinkingWrappers)
  }

  // ----- the per-size map of one table -----

  /**
   * `RecursiveCircuitsForTable::new`: a chain for every size of the range
   * `lo..hi`, keyed by the size; the first panic, in range order, when a
   * chain cannot be built.  `initialFor` is `recursive_stark_circuit`.
   */
  function NewTable<C>(lo: nat, hi: nat, initialFor: nat -> C, degreeBits: C -> nat, wrap: C -> C)
    : (r: Result<seq<(nat, SizeChain<C>)>, ShrinkPanic>)
    ensures r.Ok? <==> forall d :: lo <= d < hi ==> NewSizeChain(initialFor(d), degreeBits, wrap).Ok?
    ensures r.Ok? ==> Ascending(r.value) && |r.value| == (if lo <= hi then hi - lo else 0)
    ensures r.Ok? ==> forall i :: 0 <= i < |r.value| ==>
      r.value[i].0 == lo + i && NewSizeChain(initialFor(lo + i), degreeBits, wrap) == Ok(r.value[i].1)
    decreases hi - lo
  {
    if lo >= hi then Ok([])
    else
      match NewSizeChain(initialFor(lo), degreeBits, wrap)
      case Err(e) => Err(e)
      case Ok(chain) =>
        match NewTable(lo + 1, hi, initialFor, degreeBits, wrap)
        case Err(e) => Err(e)
        case Ok(rest) =>
          var m := [(lo, chain)] + rest;
          assert forall i :: 0 < i < |m| ==> m[i] == rest[i - 1];
          Ok(m)
  }

  /** `final_circuits`: the last circuit of every chain, in ascending key order. */
  function FinalCircuits<C>(m: seq<(nat, SizeChain<C>)>): (r: seq<C>)
    ensures |r| == |m|
  {
    if |m| == 0 then [] else [FinalCircuit(m[0].1)] + FinalCircuits(m[1..])
  }

  lemma {:induction false} FinalCircuitsAt<C>(m: seq<(nat, SizeChain<C>)>, i: nat)
    requires i < |m|
    ensures FinalCircuits(m)[i] == FinalCircuit(m[i].1)
  {
    if i > 0 {
      FinalCircuitsAt(m[1..], i - 1);
    }
  }

  /** Every final circuit of a table built without a panic is at the threshold. */
  lemma FinalCircuitsAtThreshold<C>(lo: nat, hi: nat, initialFor: nat -> C, degreeBits: C -> nat, wrap: C -> C)
    requires NewTable(lo, hi, initialFor, degreeBits, wrap).Ok?
    ensures var finals := FinalCircuits(NewTable(lo, hi, initialFor, degreeBits, wrap).value);
      |finals| == (if lo <= hi then hi - lo else 0)
      && forall i :: 0 <= i < |finals| ==> degreeBits(finals[i]) == THRESHOLD_DEGREE_BITS
  {
    var m := NewTable(lo, hi, initialFor, degreeBits, wrap).value;
    forall i | 0 <= i < |m|
      ensures degreeBits(FinalCircuits(m)[i]) == THRESHOLD_DEGREE_BITS
    {
      FinalCircuitsAt(m, i);
      assert NewSizeChain(initialFor(lo + i), degreeBits, wrap) == Ok(m[i].1);
      ShrunkChainEnds(initialFor(lo + i), degreeBits, wrap);
    }
  }

  // ----- the root circuit -----

  /**
   * The verifier keys of the final circuits, with copies of the first
   * appended until their number is a power of two, as the root circuit's
   * `random_access_verifier_data` expects.
   */
  method PadVerifierKeys<V>(vks: seq<V>) returns (padded: seq<V>)
    requires |vks| > 0
    ensures |padded| == NextPowerOfTwo(|vks|)
    ensures padded[..|vks|] == vks
    ensures forall i :: |vks| <= i < |padded| ==> padded[i] == vks[0]
  {
    padded := vks;
    while !IsPowerOfTwo(|padded|)
      invariant |vks| <= |padded| <= NextPowerOfTwo(|vks|)
      invariant padded[..|vks|] == vks
      invariant forall i :: |vks| <= i < |padded| ==> padded[i] == vks[0]
      decreases NextPowerOfTwo(|vks|) - |padded|
    {
      padded := padded + [padded[0]];
    }
  }

  /** The error of `prove_root` for a size with no chain: the table, the size, and the range to set. */
  datatype MissingCircuits = MissingCircuits(table: nat, size: nat, rangeVar: string, rangeStart: nat, rangeEnd: nat)

  /**
   * The index `prove_root` sets for a table whose proof has `size` degree
   * bits: the position of `size` among the keys of the table's map.
   */
  function RootIndex<T>(table: nat, bySize: seq<(nat, T)>, size: nat): (r: Result<nat, MissingCircuits>)
    requires table < NUM_TABLES
    ensures r.Ok? <==> exists i :: 0 <= i < |bySize| && bySize[i].0 == size
    ensures r.Ok? ==> r.value < |bySize| && bySize[r.value].0 == size && Get(bySize, size) == Some(bySize[r.value].1)
    ensures r.Err? ==> r.error == MissingCircuits(table, size, RANGE_TABLES[table], size, size + 1)
  {
    GetAtPosition(bySize, size);
    match Get(bySize, size)
    case None => Err(MissingCircuits(table, size, RANGE_TABLES[table], size, size + 1))
    case Some(_) => Ok(Position(bySize, size).value)
  }

  /**
   * The index picks the chain that shrinks the proof: with ascending keys
   * it is the only entry for the size, and the padded verifier keys hold
   * that chain's final circuit there.
   */
  lemma RootIndexSelectsChain<C>(table: nat, bySize: seq<(nat, SizeChain<C>)>, size: nat, padded: seq<C>)
    requires table < NUM_TABLES && Ascending(bySize) && RootIndex(table, bySize, size).Ok?
    requires |bySize| <= |padded| && padded[..|bySize|] == FinalCircuits(bySize)
    ensures var i := RootIndex(table, bySize, size).value;
      (forall j :: 0 <= j < |bySize| && bySize[j].0 == size ==> j == i)
      && padded[i] == FinalCircuit(Get(bySize, size).value)
  {
    var i := RootIndex(table, bySize, size).value;
    FinalCircuitsAt(bySize, i);
    assert padded[i] == padded[..|bySize|][i];
  }

  /**
   * The loop of `prove_root` over the tables: the index of every table's
   * size, or the error of the first table without a chain for its size.
   */
  method ProveRootIndices<T>(byTable: seq<seq<(nat, T)>>, sizes: seq<nat>) returns (r: Result<seq<nat>, MissingCircuits>)
    requires |byTable| == NUM_TABLES && |sizes| == NUM_TABLES
    ensures r.Ok? <==> forall t :: 0 <= t < NUM_TABLES ==> RootIndex(t, byTable[t], sizes[t]).Ok?
    ensures r.Ok? ==> |r.value| == NUM_TABLES
    ensures r.Ok? ==> forall t :: 0 <= t < NUM_TABLES ==> RootIndex(t, byTable[t], sizes[t]) == Ok(r.value[t])
    ensures r.Err? ==> exists t :: (0 <= t < NUM_TABLES && RootIndex(t, byTable[t], sizes[t]) == Err(r.error)
                                    && forall u :: 0 <= u < t ==> RootIndex(u, byTable[u], sizes[u]).Ok?)
  {
    var indices: seq<nat> := [];
    for table := 0 to NUM_TABLES
      invariant |indices| == table
      invariant forall t :: 0 <= t < table ==> RootIndex(t, byTable[t], sizes[t]) == Ok(indices[t])
    {
      var index := RootIndex(table, byTable[table], sizes[table]);
      if index.Err? {
        return Err(index.error);
      }
      indices := indices + [index.value];
    }
    return Ok(indices);
  }

  /** The public inputs of one table's shrunk proof that the root circuit connects. */
  datatype TablePis = TablePis(ctlChallenges: seq<Columns.Challenge>, challengerStateBefore: seq<Felt>, challengerStateAfter: seq<Felt>)

  /**
   * The root circuit's wiring: every table used the root's first
   * `numChallenges` CTL challenges, the first table's challenger started
   * from the root's state, and each later one from where the one before it
   * stopped.
   */
  predicate RootConnected(challenges: seq<Columns.Challenge>, state: seq<Felt>, pis: seq<TablePis>, numChallenges: nat)
  {
    |pis| == NUM_TABLES && numChallenges <= |challenges|
    && (forall t :: 0 <= t < |pis| ==> numChallenges <= |pis[t].ctlChallenges|)
    && (forall t, i :: 0 <= t < |pis| && 0 <= i < numChallenges ==> pis[t].ctlChallenges[i] == challenges[i])
    && state == pis[0].challengerStateBefore
    && forall t :: 1 <= t < |pis| ==> pis[t].challengerStateBefore == pis[t - 1].challengerStateAfter
  }

  /** In a connected root every two tables drew the same challenges. */
  lemma RootSameChallenges(challenges: seq<Columns.Challenge>, state: seq<Felt>, pis: seq<TablePis>, numChallenges: nat, t: nat, u: nat)
    requires RootConnected(challenges, state, pis, numChallenges) && t < NUM_TABLES && u < NUM_TABLES
    ensures pis[t].ctlChallenges[..numChallenges] == pis[u].ctlChallenges[..numChallenges] == challenges[..numChallenges]
  {
    forall v | v == t || v == u
      ensures pis[v].ctlChallenges[..numChallenges] == challenges[..numChallenges]
    {
      forall i | 0 <= i < numChallenges
        ensures pis[v].ctlChallenges[..numChallenges][i] == challenges[..numChallenges][i]
      {
        assert pis[v].ctlChallenges[i] == challenges[i];
      }
    }
  }

  // ----- receipts -----

  /** `MemRootsTarget` values: the eight words of a memory root. */
  datatype MemRoots = MemRoots(root: seq<nat>)

  datatype PublicValues = PublicValues(rootsBefore: MemRoots, rootsAfter: MemRoots, userdata: seq<Byte>)

  datatype ReceiptClaim = ReceiptClaim(elfId: seq<Byte>, commit: seq<Byte>)

  datatype InnerReceipt<Pf> = InnerReceipt(proof: Pf, values: PublicValues, claim: ReceiptClaim)

  /** A receipt with no assumptions, or one that carries the assumptions it used. */
  datatype Receipt<Pf, A> =
    | Segments(inner: InnerReceipt<Pf>)
    | Composite(programReceipt: InnerReceipt<Pf>, assumptionUsed: seq<A>)

  function Inner<Pf, A>(r: Receipt<Pf, A>): InnerReceipt<Pf>
  {
    match r
    case Segments(inner) => inner
    case Composite(inner, _) => inner
  }

  /** `Receipt::assumptions`: none for a `Segments` receipt. */
  function Assumptions<Pf, A>(r: Receipt<Pf, A>): seq<A>
  {
    match r
    case Segments(_) => []
    case Composite(_, assumptions) => assumptions
  }

  /** The public values of an aggregate: where the left one starts, where the right one ends, and the right one's user data. */
  function AggregateValues(lhs: PublicValues, rhs: PublicValues): PublicValues
  {
    PublicValues(lhs.rootsBefore, rhs.rootsAfter, rhs.userdata)
  }

  /** The claim of an aggregate: the left one's program, the right one's output. */
  function AggregateClaim(lhs: ReceiptClaim, rhs: ReceiptClaim): ReceiptClaim
  {
    ReceiptClaim(lhs.elfId, rhs.commit)
  }

  /**
   * The aggregation circuit's wiring: the aggregate starts where the left
   * child starts and ends where the right child ends, the left child ends
   * where the right child starts, and all three carry the same user data.
   */
  predicate AggregationConnected(agg: PublicValues, lhs: PublicValues, rhs: PublicValues)
  {
    agg.rootsBefore == lhs.rootsBefore && agg.rootsAfter == rhs.rootsAfter
    && lhs.rootsAfter == rhs.rootsBefore
    && agg.userdata == lhs.userdata && agg.userdata == rhs.userdata
  }

  /** The values `prove_aggregation` sets meet the circuit's wiring exactly when the children are adjacent and agree on user data. */
  lemma AggregateConnected(lhs: PublicValues, rhs: PublicValues)
    ensures AggregationConnected(AggregateValues(lhs, rhs), lhs, rhs)
        <==> lhs.rootsAfter == rhs.rootsBefore && lhs.userdata == rhs.userdata
  {
  }

  /** The values of segments aggregated from left to right. */
  function AggregateAll(vs: seq<PublicValues>): PublicValues
    requires |vs| > 0
  {
    if |vs| == 1 then vs[0] else AggregateValues(AggregateAll(vs[..|vs| - 1]), vs[|vs| - 1])
  }

  /** Adjacent segments: each starts where the one before it ends, and all carry the same user data. */
  predicate Adjacent(vs: seq<PublicValues>)
  {
    forall i :: 0 < i < |vs| ==> vs[i - 1].rootsAfter == vs[i].rootsBefore && vs[i - 1].userdata == vs[i].userdata
  }

  /** Aggregating adjacent segments spans from the first segment's start to the last one's end. */
  lemma {:induction false} AggregateAllSpans(vs: seq<PublicValues>)
    requires |vs| > 0 && Adjacent(vs)
    ensures AggregateAll(vs) == PublicValues(vs[0].rootsBefore, vs[|vs| - 1].rootsAfter, vs[|vs| - 1].userdata)
  {
    if |vs| > 1 {
      var n := |vs| - 1;
      assert Adjacent(vs[..n]);
      AggregateAllSpans(vs[..n]);
    }
  }

  /** Aggregating adjacent segments one by one meets the circuit's wiring at every step. */
  lemma AggregateAllConnected(vs: seq<PublicValues>, k: nat)
    requires Adjacent(vs) && 1 <= k < |vs|
    ensures AggregationConnected(AggregateAll(vs[..k + 1]), AggregateAll(vs[..k]), vs[k])
  {
    assert Adjacent(vs[..k]);
    AggregateAllSpans(vs[..k]);
    assert vs[..k + 1][..k] == vs[..k];
  }

  /** The assumption list of `prove_aggregation`: the left receipt's list with each right assumption inserted at the front in turn. */
  method MergeAssumptions<A>(lhs: seq<A>, rhs: seq<A>) returns (merged: seq<A>)
    ensures merged == Reverse(rhs) + lhs
  {
    merged := lhs;
    for k := 0 to |rhs|
      invariant merged == Reverse(rhs[..k]) + lhs
    {
      assert Reverse(rhs[..k + 1]) == [rhs[k]] + Reverse(rhs[..k]);
      merged := [rhs[k]] + merged;
    }
    assert rhs[..|rhs|] == rhs;
  }

  /** No assumption is lost or duplicated by the merge. */
  lemma MergedContents<A>(lhs: seq<A>, rhs: seq<A>)
    ensures multiset(Reverse(rhs) + lhs) == multiset(lhs) + multiset(rhs)
  {
    ReverseContents(rhs);
  }

  lemma {:induction false} ReverseContents<A>(s: seq<A>)
    ensures multiset(Reverse(s)) == multiset(s)
  {
    if |s| > 0 {
      var n := |s| - 1;
      ReverseContents(s[..n]);
      assert Reverse(s) == [s[n]] + Reverse(s[..n]);
      assert s == s[..n] + [s[n]];
    }
  }

  /**
   * `prove_aggregation` given the aggregation proof: the aggregate values
   * and claim, and the merged assumptions, in a `Segments` receipt exactly
   * when there are none.
   */
  method ProveAggregation<Pf, A>(lhs: Receipt<Pf, A>, rhs: Receipt<Pf, A>, proof: Pf) returns (r: Receipt<Pf, A>)
    ensures Inner(r) == InnerReceipt(proof, AggregateValues(Inner(lhs).values, Inner(rhs).values),
                                     AggregateClaim(Inner(lhs).claim, Inner(rhs).claim))
    ensures Assumptions(r) == Reverse(Assumptions(rhs)) + Assumptions(lhs)
    ensures r.Segments? <==> |Assumptions(lhs)| + |Assumptions(rhs)| == 0
  {
    var publicValues := AggregateValues(Inner(lhs).values, Inner(rhs).values);
    var inner := InnerReceipt(proof, publicValues, AggregateClaim(Inner(lhs).claim, Inner(rhs).claim));
    var assumptions := MergeAssumptions(Assumptions(lhs), Assumptions(rhs));
    if |assumptions| == 0 {
      r := Segments(inner);
    } else {
      r := Composite(inner, assumptions);
    }
  }

  // ----- the block circuit -----

  /**
   * The nonzero public inputs of the base-case proof `prove_block` builds
   * when there is no parent block: the state root before at keys 0..8, the
   * same root as the state root after at keys 8..16, and the user data from
   * key 16 on.
   */
  method BasePublicInputs(values: PublicValues) returns (pis: map<nat, Felt>)
    requires |values.rootsBefore.root| == 8
    requires forall k :: 0 <= k < 8 ==> values.rootsBefore.root[k] < 0x1_0000_0000
    ensures forall k: nat :: k in pis <==> k < 16 + |values.userdata|
    ensures forall k :: 0 <= k < 8 ==> pis[k] == values.rootsBefore.root[k] && pis[k + 8] == values.rootsBefore.root[k]
    ensures forall k :: 0 <= k < |values.userdata| ==> pis[16 + k] == values.userdata[k]
  {
    var root := values.rootsBefore.root;
    var userdata := values.userdata;
    pis := map[];
    for key := 0 to 8
      invariant forall k: nat :: k in pis <==> k < key
      invariant forall k :: 0 <= k < key ==> pis[k] == root[k]
    {
      pis := pis[key := root[key] as Felt];
    }
    for key := 8 to 16
      invariant forall k: nat :: k in pis <==> k < key
      invariant forall k :: 0 <= k < 8 ==> pis[k] == root[k]
      invariant forall k :: 8 <= k < key ==> pis[k] == root[k - 8]
    {
      pis := pis[key := root[key - 8] as Felt];
    }
    for key := 16 to 16 + |userdata|
      invariant forall k: nat :: k in pis <==> k < key
      invariant forall k :: 0 <= k < 8 ==> pis[k] == root[k] && pis[k + 8] == root[k]
      invariant forall k :: 16 <= k < key ==> pis[k] == userdata[k - 16]
    {
      pis := pis[key := userdata[key - 16] as Felt];
    }
  }

  /** The receipt of `prove_block` given the block proof: the aggregate root receipt's values, claim and assumptions. */
  function BlockReceipt<Pf, A>(aggRoot: Receipt<Pf, A>, proof: Pf): (r: Receipt<Pf, A>)
    ensures Inner(r).proof == proof
    ensures Inner(r).values == Inner(aggRoot).values && Inner(r).claim == Inner(aggRoot).claim
    ensures Assumptions(r) == Assumptions(aggRoot) && (r.Composite? <==> aggRoot.Composite?)
  {
    var inner := InnerReceipt(proof, Inner(aggRoot).values, Inner(aggRoot).claim);
    match aggRoot
    case Segments(_) => Segments(inner)
    case Composite(_, assumptions) => Composite(inner, assumptions)
  }
}
