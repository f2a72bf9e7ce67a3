/**
 * The SHA-256 message-schedule extension table: one row per extension step
 * `W[i] = σ1(W[i-2]) + W[i-7] + σ0(W[i-15]) + W[i-16]`, with the four input
 * words and the result held as bit columns, a one-hot round flag, and the
 * memory addresses the words are read from and written to.  The row builder
 * and the padded trace are modelled together with the table's constraints,
 * each constraint written as the list of its degree-one factors.
 */
module ShaExtendSponge {
  import opened Goldilocks
  import opened MathUtil
  import opened ShaWords
  import Columns

  const NUM_ROUNDS: nat := 48
  const NUM_EXTEND_INPUT: nat := 4
  /** `Segment::Code as usize`, the first memory segment. */
  const CODE_SEGMENT: nat := 0

  datatype MemoryAddress = MemoryAddress(context: nat, segment: nat, virt: nat)

  /**
   * One extension step: the addresses of `W[i-15]`, `W[i-2]`, `W[i-16]`,
   * `W[i-7]`, their bits (32 per word), the round `i - 16` and the address
   * of `W[i]`.
   */
  datatype ShaExtendSpongeOp = ShaExtendSpongeOp(
    baseAddress: seq<MemoryAddress>,
    timestamp: nat,
    input: seq<nat>,
    i: nat,
    outputAddress: MemoryAddress)

  /** `ShaExtendSpongeColumnsView`. */
  datatype Row = Row(
    wiMinus15: seq<Felt>,
    wiMinus2: seq<Felt>,
    wiMinus16: seq<Felt>,
    wiMinus7: seq<Felt>,
    wi: seq<Felt>,
    round: seq<Felt>,
    timestamp: Felt,
    context: Felt,
    segment: Felt,
    inputVirt: seq<Felt>,
    outputVirt: Felt)

  predicate Shaped(r: Row)
  {
    |r.wiMinus15| == WORD_BITS && |r.wiMinus2| == WORD_BITS && |r.wiMinus16| == WORD_BITS
    && |r.wiMinus7| == WORD_BITS && |r.wi| == WORD_BITS
    && |r.round| == NUM_ROUNDS && |r.inputVirt| == NUM_EXTEND_INPUT
  }

  /** The four input words are bit columns. */
  predicate InputBits(r: Row)
  {
    IsBits(r.wiMinus15) && IsBits(r.wiMinus2) && IsBits(r.wiMinus16) && IsBits(r.wiMinus7)
  }

  /** `ShaExtendSpongeColumnsView::default()`, the padding row. */
  function DefaultRow(): (r: Row)
    ensures Shaped(r) && InputBits(r) && IsBits(r.wi)
  {
    var z := Columns.Zeros(WORD_BITS);
    Row(z, z, z, z, z, Columns.Zeros(NUM_ROUNDS), 0, 0, 0, Columns.Zeros(NUM_EXTEND_INPUT), 0)
  }

  /**
   * What `generate_rows_for_op` needs of an operation not to panic: a round
   * index below 48, exactly four input words (`try_into` of the collected
   * addresses into `[usize; 4]`), an address for each of them, and input
   * cells that are bits for the word conversions.
   */
  predicate OpFits(op: ShaExtendSpongeOp)
  {
    op.i < NUM_ROUNDS
    && |op.input| / WORD_BITS == NUM_EXTEND_INPUT
    && NUM_EXTEND_INPUT <= |op.baseAddress|
    && forall k :: 0 <= k < NUM_EXTEND_INPUT * WORD_BITS ==> op.input[k] <= 1
  }

  /** Input word `n` as cells: `op.input[get_input_range(n)]`, each `from_canonical_u32`. */
  function InputWord(op: ShaExtendSpongeOp, n: nat): (w: seq<Felt>)
    requires OpFits(op) && n < NUM_EXTEND_INPUT
    ensures |w| == WORD_BITS && IsBits(w)
  {
    var chunk := op.input[WORD_BITS * n .. WORD_BITS * (n + 1)];
    assert forall j :: 0 <= j < WORD_BITS ==> chunk[j] == op.input[WORD_BITS * n + j];
    seq(WORD_BITS, j requires 0 <= j < WORD_BITS => FromNat(chunk[j]))
  }

  /** `compute_w_i`: the schedule word of the four input words, as bits. */
  function ComputeWi(wiMinus15: seq<Felt>, wiMinus2: seq<Felt>, wiMinus16: seq<Felt>, wiMinus7: seq<Felt>): (w: seq<Felt>)
    requires |wiMinus15| == WORD_BITS && IsBits(wiMinus15) && |wiMinus2| == WORD_BITS && IsBits(wiMinus2)
    requires |wiMinus16| == WORD_BITS && IsBits(wiMinus16) && |wiMinus7| == WORD_BITS && IsBits(wiMinus7)
    ensures |w| == WORD_BITS && IsBits(w)
    ensures ToWord(w) == ComputeWord(ToWord(wiMinus15), ToWord(wiMinus2), ToWord(wiMinus16), ToWord(wiMinus7))
  {
    var word := ComputeWord(ToWord(wiMinus15), ToWord(wiMinus2), ToWord(wiMinus16), ToWord(wiMinus7));
    ToWordFromWord(word);
    FromWord(word)
  }

  /** The addresses of the input words: `op.base_address[i].virt` for the `input.len() / 32` words. */
  function InputVirt(op: ShaExtendSpongeOp): (v: seq<Felt>)
    requires OpFits(op)
    ensures |v| == NUM_EXTEND_INPUT
  {
    var virt := seq(|op.input| / WORD_BITS, k requires 0 <= k < |op.input| / WORD_BITS => op.baseAddress[k].virt);
    seq(NUM_EXTEND_INPUT, k requires 0 <= k < NUM_EXTEND_INPUT => FromNat(virt[k]))
  }

  /**
   * `generate_rows_for_op`: every field of the default row set from the
   * operation, the round flags to zero but for round `op.i`.
   */
  function RowForOp(op: ShaExtendSpongeOp): (r: Row)
    requires OpFits(op)
    ensures Shaped(r)
  {
    Row(InputWord(op, 0), InputWord(op, 1), InputWord(op, 2), InputWord(op, 3),
        ComputeWi(InputWord(op, 0), InputWord(op, 1), InputWord(op, 2), InputWord(op, 3)),
        Columns.Zeros(NUM_ROUNDS)[op.i := 1],
        FromNat(op.timestamp), FromNat(op.baseAddress[0].context),
        FromNat(op.baseAddress[CODE_SEGMENT].segment), InputVirt(op),
        FromNat(op.outputAddress.virt))
  }

  /** `generate_rows_for_op`, field by field from the default row. */
  method GenerateRowsForOp(op: ShaExtendSpongeOp) returns (row: Row)
    requires OpFits(op)
    ensures row == RowForOp(op)
  {
    row := DefaultRow();
    row := row.(timestamp := FromNat(op.timestamp));
    row := row.(round := Columns.Zeros(NUM_ROUNDS));
    row := row.(round := row.round[op.i := 1]);
    row := row.(context := FromNat(op.baseAddress[0].context));
    row := row.(segment := FromNat(op.baseAddress[CODE_SEGMENT].segment));
    row := row.(inputVirt := InputVirt(op));
    row := row.(outputVirt := FromNat(op.outputAddress.virt));
    row := row.(wiMinus15 := InputWord(op, 0));
    row := row.(wiMinus2 := InputWord(op, 1));
    row := row.(wiMinus16 := InputWord(op, 2));
    row := row.(wiMinus7 := InputWord(op, 3));
    row := row.(wi := ComputeWi(row.wiMinus15, row.wiMinus2, row.wiMinus16, row.wiMinus7));
  }

  /** The row of an operation is one-hot in its round. */
  lemma RowForOpRound(op: ShaExtendSpongeOp)
    requires OpFits(op)
    ensures forall k :: 0 <= k < NUM_ROUNDS ==> RowForOp(op).round[k] == if k == op.i then 1 else 0
  {
  }

  /** The row of an operation holds its timestamp and the addresses of its words. */
  lemma RowForOpAddresses(op: ShaExtendSpongeOp)
    requires OpFits(op)
    ensures var r := RowForOp(op);
      && r.timestamp == FromNat(op.timestamp) && r.outputVirt == FromNat(op.outputAddress.virt)
      && r.context == FromNat(op.baseAddress[0].context)
      && r.segment == FromNat(op.baseAddress[CODE_SEGMENT].segment)
      && forall k :: 0 <= k < NUM_EXTEND_INPUT ==> r.inputVirt[k] == FromNat(op.baseAddress[k].virt)
  {
  }

  /**
   * The row of an operation holds its input words as bits, and the bits of
   * the schedule word of those words.
   */
  lemma RowForOpWords(op: ShaExtendSpongeOp)
    requires OpFits(op)
    ensures var r := RowForOp(op);
      && InputBits(r) && IsBits(r.wi)
      && r.wiMinus15 == InputWord(op, 0) && r.wiMinus2 == InputWord(op, 1)
      && r.wiMinus16 == InputWord(op, 2) && r.wiMinus7 == InputWord(op, 3)
      && ToWord(r.wi) == ComputeWord(ToWord(r.wiMinus15), ToWord(r.wiMinus2),
                                     ToWord(r.wiMinus16), ToWord(r.wiMinus7))
      && r.wi == FromWord(ComputeWord(ToWord(r.wiMinus15), ToWord(r.wiMinus2),
                                      ToWord(r.wiMinus16), ToWord(r.wiMinus7)))
  {
  }

  /** The rows of the operations, in order. */
  function RowsOf(ops: seq<ShaExtendSpongeOp>): (rows: seq<Row>)
    requires forall k :: 0 <= k < |ops| ==> OpFits(ops[k])
    ensures |rows| == |ops| && forall k :: 0 <= k < |rows| ==> Shaped(rows[k])
  {
    if |ops| == 0 then [] else RowsOf(ops[..|ops| - 1]) + [RowForOp(ops[|ops| - 1])]
  }

  lemma {:induction false} RowsOfIndex(ops: seq<ShaExtendSpongeOp>, k: nat)
    requires forall j :: 0 <= j < |ops| ==> OpFits(ops[j])
    requires k < |ops|
    ensures RowsOf(ops)[k] == RowForOp(ops[k])
  {
    if k < |ops| - 1 {
      RowsOfIndex(ops[..|ops| - 1], k);
    }
  }

  lemma RowsOfPush(ops: seq<ShaExtendSpongeOp>, k: nat)
    requires forall j :: 0 <= j < |ops| ==> OpFits(ops[j])
    requires k < |ops|
    ensures RowsOf(ops[..k + 1]) == RowsOf(ops[..k]) + [RowForOp(ops[k])]
  {
    assert ops[..k + 1][..k] == ops[..k];
  }

  lemma PaddingPush(m: nat)
    ensures Padding(m) + [DefaultRow()] == Padding(m + 1)
  {
  }

  /** `m` padding rows. */
  function Padding(m: nat): (rows: seq<Row>)
    ensures |rows| == m
  {
    seq(m, _ => DefaultRow())
  }

  /** The trace of `ops` over `n` rows: their rows in order, then padding rows. */
  function TraceRows(ops: seq<ShaExtendSpongeOp>, n: nat): (rows: seq<Row>)
    requires forall k :: 0 <= k < |ops| ==> OpFits(ops[k])
    requires |ops| <= n
    ensures |rows| == n && forall k :: 0 <= k < n ==> Shaped(rows[k])
  {
    RowsOf(ops) + Padding(n - |ops|)
  }

  /** Row `k` of a trace is the row of operation `k`, or padding past the operations. */
  lemma TraceRowsIndex(ops: seq<ShaExtendSpongeOp>, n: nat, k: nat)
    requires forall j :: 0 <= j < |ops| ==> OpFits(ops[j])
    requires |ops| <= n && k < n
    ensures TraceRows(ops, n)[k] == if k < |ops| then RowForOp(ops[k]) else DefaultRow()
  {
    if k < |ops| {
      RowsOfIndex(ops, k);
    }
  }

  /**
   * `generate_trace_rows`: one row per operation, then default rows up to
   * the next power of two of at least `minRows` rows.
   */
  method GenerateTraceRows(ops: seq<ShaExtendSpongeOp>, minRows: nat) returns (rows: seq<Row>)
    requires forall k :: 0 <= k < |ops| ==> OpFits(ops[k])
    ensures |ops| <= |rows| == NextPowerOfTwo(Max(|ops|, minRows))
    ensures rows == TraceRows(ops, |rows|)
  {
    rows := [];
    for k := 0 to |ops|
      invariant rows == RowsOf(ops[..k])
    {
      RowsOfPush(ops, k);
      var row := GenerateRowsForOp(ops[k]);
      rows := rows + [row];
    }
    assert ops[..|ops|] == ops;
    var paddedRows := NextPowerOfTwo(Max(|rows|, minRows));
    for k := |rows| to paddedRows
      invariant rows == RowsOf(ops) + Padding(k - |ops|)
    {
      PaddingPush(k - |ops|);
      rows := rows + [DefaultRow()];
    }
  }

  // ----- constraints -----

  /** The degree `constraint_degree` declares. */
  const CONSTRAINT_DEGREE: nat := 3

  /** `x * (x - 1)`, as its two factors. */
  function Binary(x: Felt): seq<Felt>
  {
    [x, Sub(x, 1)]
  }

  /** Bit column `c` of the row: `w_i_minus_15`, `w_i_minus_2`, `w_i_minus_16`, `w_i_minus_7`, `w_i`. */
  function BitColumn(r: Row, c: nat): (col: seq<Felt>)
    requires Shaped(r) && c < 5
    ensures |col| == WORD_BITS
  {
    match c
    case 0 => r.wiMinus15
    case 1 => r.wiMinus2
    case 2 => r.wiMinus16
    case 3 => r.wiMinus7
    case _ => r.wi
  }

  /** The five bit checks of each bit position, position by position. */
  function BitConstraints(l: Row): (cs: seq<seq<Felt>>)
    requires Shaped(l)
    ensures |cs| == 5 * WORD_BITS
  {
    seq(5 * WORD_BITS, j requires 0 <= j < 5 * WORD_BITS => Binary(BitColumn(l, j % 5)[j / 5]))
  }

  /** Every round flag is a bit, and so is the final one (`is_final`). */
  function RoundConstraints(l: Row): (cs: seq<seq<Felt>>)
    requires Shaped(l)
    ensures |cs| == NUM_ROUNDS + 1
  {
    seq(NUM_ROUNDS, i requires 0 <= i < NUM_ROUNDS => Binary(l.round[i])) + [Binary(l.round[NUM_ROUNDS - 1])]
  }

  /** `sum_round_flags`: 1 on a row of an operation, 0 on padding. */
  function SumRoundFlags(r: Row): Felt
    requires Shaped(r)
  {
    Sum(r.round)
  }

  /** The flags weighted by their positions. */
  function Weighted(flags: seq<Felt>): (w: seq<Felt>)
    ensures |w| == |flags|
  {
    seq(|flags|, k requires 0 <= k < |flags| => Mul(flags[k], FromNat(k)))
  }

  /** `local_round_index` / `next_round_index`. */
  function RoundIndex(r: Row): Felt
    requires Shaped(r)
  {
    Sum(Weighted(r.round))
  }

  /** Each difference behind the same gate factors: the constraints `g1 * .. * gk * d`. */
  function Gated(gates: seq<Felt>, diffs: seq<Felt>): (cs: seq<seq<Felt>>)
    ensures |cs| == |diffs|
  {
    seq(|diffs|, j requires 0 <= j < |diffs| => gates + [diffs[j]])
  }

  /**
   * What a step carries to the next row: the same timestamp, the next
   * round, and every address 4 further on.
   */
  function TransitionDiffs(l: Row, n: Row): (d: seq<Felt>)
    requires Shaped(l) && Shaped(n)
    ensures |d| == 3 + NUM_EXTEND_INPUT
  {
    [Sub(n.timestamp, l.timestamp),
     Sub(Sub(RoundIndex(n), RoundIndex(l)), 1),
     Sub(Sub(n.inputVirt[0], l.inputVirt[0]), 4),
     Sub(Sub(n.inputVirt[1], l.inputVirt[1]), 4),
     Sub(Sub(n.inputVirt[2], l.inputVirt[2]), 4),
     Sub(Sub(n.inputVirt[3], l.inputVirt[3]), 4),
     Sub(Sub(n.outputVirt, l.outputVirt), 4)]
  }

  /** The transitions, gated by `sum_round_flags * not_final`: off on padding and on the final round. */
  function TransitionConstraints(l: Row, n: Row): (cs: seq<seq<Felt>>)
    requires Shaped(l) && Shaped(n)
    ensures |cs| == 3 + NUM_EXTEND_INPUT
  {
    Gated([SumRoundFlags(l), Sub(1, l.round[NUM_ROUNDS - 1])], TransitionDiffs(l, n))
  }

  /** `W[i-15]`, `W[i-2]`, `W[i-7]` and `W[i]` sit 4, 56, 36 and 64 past `W[i-16]`. */
  function AddressDiffs(l: Row): (d: seq<Felt>)
    requires Shaped(l)
    ensures |d| == 4
  {
    [Sub(Sub(l.inputVirt[0], l.inputVirt[2]), 4),
     Sub(Sub(l.inputVirt[1], l.inputVirt[2]), 56),
     Sub(Sub(l.inputVirt[3], l.inputVirt[2]), 36),
     Sub(Sub(l.outputVirt, l.inputVirt[2]), 64)]
  }

  /** The address layout, gated by `sum_round_flags`: off on padding. */
  function AddressConstraints(l: Row): (cs: seq<seq<Felt>>)
    requires Shaped(l)
    ensures |cs| == 4
  {
    Gated([SumRoundFlags(l)], AddressDiffs(l))
  }

  /**
   * `eval_packed_generic`, in its order: each constraint as the factors
   * whose product must vanish.  Every factor is of degree one in the cells,
   * so a constraint's degree is its number of factors.
   */
  function Constraints(l: Row, n: Row): (cs: seq<seq<Felt>>)
    requires Shaped(l) && Shaped(n)
  {
    BitConstraints(l) + RoundConstraints(l) + TransitionConstraints(l, n) + AddressConstraints(l)
  }

  /** `constraint_degree`: no constraint has more than three factors. */
  lemma ConstraintDegree(l: Row, n: Row)
    requires Shaped(l) && Shaped(n)
    ensures forall k :: 0 <= k < |Constraints(l, n)| ==> 2 <= |Constraints(l, n)[k]| <= CONSTRAINT_DEGREE
  {
    var b, r, t, a := BitConstraints(l), RoundConstraints(l), TransitionConstraints(l, n), AddressConstraints(l);
    var cs := Constraints(l, n);
    forall k | 0 <= k < |cs| ensures 2 <= |cs[k]| <= CONSTRAINT_DEGREE {
      if k < |b| {
        assert cs[k] == b[k];
      } else if k < |b| + |r| {
        assert cs[k] == r[k - |b|];
      } else if k < |b| + |r| + |t| {
        assert cs[k] == t[k - |b| - |r|];
      } else {
        assert cs[k] == a[k - |b| - |r| - |t|];
      }
    }
  }

  predicate Vanishes(cs: seq<seq<Felt>>)
  {
    forall k :: 0 <= k < |cs| ==> Product(cs[k]) == 0
  }

  /** Every constraint holds on the pair of rows, group by group. */
  predicate Holds(l: Row, n: Row)
    requires Shaped(l) && Shaped(n)
  {
    Vanishes(BitConstraints(l)) && Vanishes(RoundConstraints(l))
    && Vanishes(TransitionConstraints(l, n)) && Vanishes(AddressConstraints(l))
  }

  // ----- facts about products and flags -----

  lemma ProductLast(xs: seq<Felt>, d: Felt)
    ensures Product(xs + [d]) == Mul(Product(xs), d)
  {
    assert (xs + [d])[..|xs|] == xs;
  }

  lemma {:induction false} ProductOfOnes(xs: seq<Felt>)
    requires forall k :: 0 <= k < |xs| ==> xs[k] == 1
    ensures Product(xs) == 1
  {
    if |xs| > 0 {
      ProductOfOnes(xs[..|xs| - 1]);
    }
  }

  /** A product with a zero factor is zero. */
  lemma {:induction false} ZeroFactor(xs: seq<Felt>, k: nat)
    requires k < |xs| && xs[k] == 0
    ensures Product(xs) == 0
  {
    if k < |xs| - 1 {
      ZeroFactor(xs[..|xs| - 1], k);
    }
  }

  lemma BinaryVanishes(x: Felt)
    requires x == 0 || x == 1
    ensures Product(Binary(x)) == 0
  {
    if x == 0 {
      ZeroFactor(Binary(x), 0);
    } else {
      ZeroFactor(Binary(x), 1);
    }
  }

  /** A gate factor that is zero switches all its constraints off. */
  lemma GatedByZero(gates: seq<Felt>, diffs: seq<Felt>, g: nat)
    requires g < |gates| && gates[g] == 0
    ensures Vanishes(Gated(gates, diffs))
  {
    var cs := Gated(gates, diffs);
    forall j | 0 <= j < |cs| ensures Product(cs[j]) == 0 {
      ZeroFactor(gates + [diffs[j]], g);
    }
  }

  /** Differences that are all zero satisfy their constraints, whatever the gates. */
  lemma GatedZeroDiffs(gates: seq<Felt>, diffs: seq<Felt>)
    requires forall j :: 0 <= j < |diffs| ==> diffs[j] == 0
    ensures Vanishes(Gated(gates, diffs))
  {
    var cs := Gated(gates, diffs);
    forall j | 0 <= j < |cs| ensures Product(cs[j]) == 0 {
      ZeroFactor(gates + [diffs[j]], |gates|);
    }
  }

  /** Gates that are all one leave constraints that hold exactly when every difference is zero. */
  lemma GatedOpen(gates: seq<Felt>, diffs: seq<Felt>)
    requires forall k :: 0 <= k < |gates| ==> gates[k] == 1
    ensures Vanishes(Gated(gates, diffs)) <==> forall j :: 0 <= j < |diffs| ==> diffs[j] == 0
  {
    ProductOfOnes(gates);
    var cs := Gated(gates, diffs);
    forall j | 0 <= j < |cs| ensures Product(cs[j]) == diffs[j] {
      ProductLast(gates, diffs[j]);
      Identities(diffs[j]);
    }
  }

  lemma VanishesAppend(a: seq<seq<Felt>>, b: seq<seq<Felt>>)
    ensures Vanishes(a + b) <==> Vanishes(a) && Vanishes(b)
  {
    if Vanishes(a) && Vanishes(b) {
      forall k | 0 <= k < |a + b| ensures Product((a + b)[k]) == 0 {
        if k >= |a| {
          assert (a + b)[k] == b[k - |a|];
        }
      }
    }
    if Vanishes(a + b) {
      forall k | 0 <= k < |a| ensures Product(a[k]) == 0 {
        assert (a + b)[k] == a[k];
      }
      forall k | 0 <= k < |b| ensures Product(b[k]) == 0 {
        assert (a + b)[|a| + k] == b[k];
      }
    }
  }

  /** The groups hold exactly when the constraints in their order all vanish. */
  lemma HoldsIsConstraints(l: Row, n: Row)
    requires Shaped(l) && Shaped(n)
    ensures Holds(l, n) <==> Vanishes(Constraints(l, n))
  {
    var b, r, t, a := BitConstraints(l), RoundConstraints(l), TransitionConstraints(l, n), AddressConstraints(l);
    VanishesAppend(b, r);
    VanishesAppend(b + r, t);
    VanishesAppend(b + r + t, a);
  }

  /** A sequence that is `v` at position `i` and zero elsewhere sums to `v`, if `i` is in range. */
  lemma {:induction false} SingleSum(xs: seq<Felt>, i: nat, v: Felt)
    requires forall k :: 0 <= k < |xs| ==> xs[k] == if k == i then v else 0
    ensures Sum(xs) == if i < |xs| then v else 0
  {
    if |xs| > 0 {
      SingleSum(xs[..|xs| - 1], i, v);
    }
  }

  /** Flags one exactly at round `i` sum to one and index to `i`. */
  lemma OneHotSums(flags: seq<Felt>, i: nat)
    requires |flags| == NUM_ROUNDS && i < NUM_ROUNDS
    requires forall k :: 0 <= k < NUM_ROUNDS ==> flags[k] == if k == i then 1 else 0
    ensures Sum(flags) == 1 && Sum(Weighted(flags)) == i
  {
    SingleSum(flags, i, 1);
    var w := Weighted(flags);
    forall k | 0 <= k < NUM_ROUNDS ensures w[k] == if k == i then i else 0 {
      SmallNat(k);
      Identities(k);
    }
    SingleSum(w, i, i);
  }

  /** Flags that are all zero. */
  lemma ZeroFlagSums(flags: seq<Felt>)
    requires forall k :: 0 <= k < |flags| ==> flags[k] == 0
    ensures Sum(flags) == 0 && Sum(Weighted(flags)) == 0
  {
    SumZeros(flags);
    var w := Weighted(flags);
    forall k | 0 <= k < |w| ensures w[k] == 0 {
      Identities(FromNat(k));
    }
    SumZeros(w);
  }

  /** Nested differences that vanish are a sum. */
  lemma SubSubZero(a: Felt, b: Felt, c: Felt)
    ensures Sub(Sub(a, b), c) == 0 <==> a == Add(b, c)
  {
    SubZeroIff(Sub(a, b), c);
    if a >= b {
      assert Sub(a, b) == a - b;
    } else {
      assert Sub(a, b) == a - b + P;
    }
    if b + c < P {
      assert Add(b, c) == b + c;
    } else {
      assert Add(b, c) == b + c - P;
    }
  }

  lemma DifferenceOfSmall(u: nat, d: nat)
    requires u + d < P
    ensures Sub(Sub(FromNat(u + d), FromNat(u)), FromNat(d)) == 0
  {
    SmallNat(u + d);
    SmallNat(u);
    SmallNat(d);
    SmallDifference(u + d, u, d);
  }

  lemma SmallNat(u: nat)
    requires u < P
    ensures FromNat(u) == u
  {
  }

  lemma SmallDifference(a: Felt, b: Felt, c: Felt)
    requires a == b + c
    ensures Sub(Sub(a, b), c) == 0
  {
  }

  lemma SmallAdd(a: Felt, b: Felt)
    requires a + b < P
    ensures Add(a, b) == a + b
  {
  }

  // ----- the rows the table generates satisfy its constraints -----


  /** A row whose bit columns and round flags are bits satisfies the bit and round constraints. */
  lemma BitsVanish(l: Row)
    requires Shaped(l) && InputBits(l) && IsBits(l.wi) && IsBits(l.round)
    ensures Vanishes(BitConstraints(l)) && Vanishes(RoundConstraints(l))
  {
    forall j | 0 <= j < 5 * WORD_BITS ensures Product(BitConstraints(l)[j]) == 0 {
      BinaryVanishes(BitColumn(l, j % 5)[j / 5]);
    }
    forall j | 0 <= j < NUM_ROUNDS + 1 ensures Product(RoundConstraints(l)[j]) == 0 {
      if j < NUM_ROUNDS {
        BinaryVanishes(l.round[j]);
      } else {
        BinaryVanishes(l.round[NUM_ROUNDS - 1]);
      }
    }
  }

  /** The padding row satisfies every constraint, whatever row follows it. */
  lemma PaddingRowHolds(n: Row)
    requires Shaped(n)
    ensures Holds(DefaultRow(), n)
  {
    var l := DefaultRow();
    ZeroFlagSums(l.round);
    BitsVanish(l);
    GatedByZero([SumRoundFlags(l), Sub(1, l.round[NUM_ROUNDS - 1])], TransitionDiffs(l, n), 0);
    GatedByZero([SumRoundFlags(l)], AddressDiffs(l), 0);
  }

  /** The row of the final round switches the transition constraints off. */
  lemma FinalRowTransitions(l: Row, n: Row)
    requires Shaped(l) && Shaped(n) && l.round[NUM_ROUNDS - 1] == 1
    ensures Vanishes(TransitionConstraints(l, n))
  {
    GatedByZero([SumRoundFlags(l), Sub(1, l.round[NUM_ROUNDS - 1])], TransitionDiffs(l, n), 1);
  }

  /** The addresses of a step computing `W[i]` from words at `W[i-16]` + 4, 56, 0, 36, written 64 past it. */
  predicate Aligned(op: ShaExtendSpongeOp)
    requires OpFits(op)
  {
    var v := op.baseAddress[2].virt;
    op.baseAddress[0].virt == v + 4 && op.baseAddress[1].virt == v + 56
    && op.baseAddress[3].virt == v + 36 && op.outputAddress.virt == v + 64
    && op.outputAddress.virt < P
  }

  /** The row of an operation satisfies the constraints on that row alone. */
  lemma OpRowLocal(op: ShaExtendSpongeOp)
    requires OpFits(op) && Aligned(op)
    ensures Vanishes(BitConstraints(RowForOp(op)))
    ensures Vanishes(RoundConstraints(RowForOp(op)))
    ensures Vanishes(AddressConstraints(RowForOp(op)))
  {
    OpRowBits(op);
    OpRowAddresses(op);
  }

  lemma OpRowBits(op: ShaExtendSpongeOp)
    requires OpFits(op)
    ensures Vanishes(BitConstraints(RowForOp(op)))
    ensures Vanishes(RoundConstraints(RowForOp(op)))
  {
    RowForOpRound(op);
    RowForOpWords(op);
    BitsVanish(RowForOp(op));
  }

  lemma OpRowAddresses(op: ShaExtendSpongeOp)
    requires OpFits(op) && Aligned(op)
    ensures Vanishes(AddressConstraints(RowForOp(op)))
  {
    var l := RowForOp(op);
    RowForOpRound(op);
    RowForOpAddresses(op);
    var v := op.baseAddress[2].virt;
    SmallNat(v);
    SmallAdd(v, 4);
    SmallAdd(v, 56);
    SmallAdd(v, 36);
    SmallAdd(v, 64);
    SmallNat(v + 4);
    SmallNat(v + 56);
    SmallNat(v + 36);
    SmallNat(v + 64);
    AddressesIff(l, op.i);
  }

  /** `next` is the step after `op`: same timestamp, next round, every address 4 further on. */
  predicate Successor(op: ShaExtendSpongeOp, next: ShaExtendSpongeOp)
    requires OpFits(op) && OpFits(next)
  {
    next.timestamp == op.timestamp && next.i == op.i + 1
    && (forall k :: 0 <= k < NUM_EXTEND_INPUT ==> next.baseAddress[k].virt == op.baseAddress[k].virt + 4)
    && next.outputAddress.virt == op.outputAddress.virt + 4
  }

  /** An address carried 4 further on is the field sum of the old address and 4. */
  lemma CarriedAddress(v: nat, w: nat)
    requires w == v + 4 && w < P
    ensures FromNat(w) == Add(FromNat(v), 4)
  {
    SmallNat(v);
    SmallNat(w);
    SmallAdd(v, 4);
  }

  /** A row followed by the row of the next step satisfies the transition constraints. */
  lemma SuccessorTransitions(op: ShaExtendSpongeOp, next: ShaExtendSpongeOp)
    requires OpFits(op) && OpFits(next) && Aligned(next) && Successor(op, next)
    ensures Vanishes(TransitionConstraints(RowForOp(op), RowForOp(next)))
  {
    var l, n := RowForOp(op), RowForOp(next);
    RowForOpRound(op);
    RowForOpRound(next);
    RowForOpAddresses(op);
    RowForOpAddresses(next);
    OneHotSums(n.round, next.i);
    CarriedAddress(op.baseAddress[0].virt, next.baseAddress[0].virt);
    CarriedAddress(op.baseAddress[1].virt, next.baseAddress[1].virt);
    CarriedAddress(op.baseAddress[2].virt, next.baseAddress[2].virt);
    CarriedAddress(op.baseAddress[3].virt, next.baseAddress[3].virt);
    CarriedAddress(op.outputAddress.virt, next.outputAddress.virt);
    TransitionsIff(l, n, op.i);
  }

  /**
   * The operations form whole runs of steps: each fits, has aligned
   * addresses, and is followed by its successor unless it is the final round.
   */
  predicate Chain(ops: seq<ShaExtendSpongeOp>)
  {
    (forall k :: 0 <= k < |ops| ==> OpFits(ops[k]) && Aligned(ops[k]))
    && forall k :: 0 <= k < |ops| - 1 && ops[k].i + 1 < NUM_ROUNDS ==> Successor(ops[k], ops[k + 1])
  }

  /** The last operation of a chain computes the final round. */
  predicate ChainEndsFinal(ops: seq<ShaExtendSpongeOp>)
  {
    |ops| > 0 ==> ops[|ops| - 1].i + 1 == NUM_ROUNDS
  }

  /**
   * The trace of a chain of steps, over any number of rows that holds it,
   * satisfies every constraint on every pair of consecutive rows, the last
   * row being followed by the first.
   */
  lemma TraceHolds(ops: seq<ShaExtendSpongeOp>, n: nat)
    requires Chain(ops) && ChainEndsFinal(ops) && |ops| <= n && 0 < n
    ensures forall k :: 0 <= k < n ==>
      Shaped(TraceRows(ops, n)[k]) && Holds(TraceRows(ops, n)[k], TraceRows(ops, n)[(k + 1) % n])
  {
    var rows := TraceRows(ops, n);
    forall k | 0 <= k < n ensures Shaped(rows[k]) && Holds(rows[k], rows[(k + 1) % n]) {
      StepHolds(ops, n, k);
    }
  }

  lemma StepHolds(ops: seq<ShaExtendSpongeOp>, n: nat, k: nat)
    requires Chain(ops) && ChainEndsFinal(ops) && |ops| <= n && k < n
    ensures Shaped(TraceRows(ops, n)[k]) && Holds(TraceRows(ops, n)[k], TraceRows(ops, n)[(k + 1) % n])
  {
    var rows := TraceRows(ops, n);
    var k' := (k + 1) % n;
    TraceRowsIndex(ops, n, k);
    if k < |ops| {
      if ops[k].i + 1 == NUM_ROUNDS {
        FinalOpHolds(ops[k], rows[k']);
      } else {
        assert k + 1 < |ops|;
        ModOfSmall(k + 1, n);
        TraceRowsIndex(ops, n, k + 1);
        MidOpHolds(ops[k], ops[k + 1]);
      }
    } else {
      PaddingRowHolds(rows[k']);
    }
  }

  /** The row of a final-round step satisfies the constraints whatever row follows it. */
  lemma FinalOpHolds(op: ShaExtendSpongeOp, n: Row)
    requires OpFits(op) && Aligned(op) && op.i + 1 == NUM_ROUNDS && Shaped(n)
    ensures Holds(RowForOp(op), n)
  {
    OpRowLocal(op);
    RowForOpRound(op);
    FinalRowTransitions(RowForOp(op), n);
  }

  /** The row of an earlier step followed by the row of its successor satisfies the constraints. */
  lemma MidOpHolds(op: ShaExtendSpongeOp, next: ShaExtendSpongeOp)
    requires OpFits(op) && Aligned(op) && OpFits(next) && Aligned(next) && Successor(op, next)
    ensures Holds(RowForOp(op), RowForOp(next))
  {
    OpRowLocal(op);
    SuccessorTransitions(op, next);
  }

  // ----- what the constraints force on a row of an operation -----

  /** A row one-hot in a round before the final one. */
  predicate InRound(r: Row, i: nat)
    requires Shaped(r)
  {
    i + 1 < NUM_ROUNDS && forall k :: 0 <= k < NUM_ROUNDS ==> r.round[k] == if k == i then 1 else 0
  }

  /** The next row carries on the step of round `i`: same timestamp, next round, every address 4 further on. */
  predicate Carried(l: Row, n: Row, i: nat)
    requires Shaped(l) && Shaped(n)
  {
    n.timestamp == l.timestamp && RoundIndex(n) == i + 1
    && n.inputVirt[0] == Add(l.inputVirt[0], 4) && n.inputVirt[1] == Add(l.inputVirt[1], 4)
    && n.inputVirt[2] == Add(l.inputVirt[2], 4) && n.inputVirt[3] == Add(l.inputVirt[3], 4)
    && n.outputVirt == Add(l.outputVirt, 4)
  }

  /**
   * On a row of a step before the final round, the transition constraints
   * hold exactly when the next row carries the step on.
   */
  lemma TransitionsIff(l: Row, n: Row, i: nat)
    requires Shaped(l) && Shaped(n) && InRound(l, i)
    ensures Vanishes(TransitionConstraints(l, n)) <==> Carried(l, n, i)
  {
    OneHotSums(l.round, i);
    var d := TransitionDiffs(l, n);
    GatedOpen([SumRoundFlags(l), Sub(1, l.round[NUM_ROUNDS - 1])], d);
    SubZeroIff(n.timestamp, l.timestamp);
    SubSubZero(RoundIndex(n), RoundIndex(l), 1);
    SmallAdd(i, 1);
    SubSubZero(n.inputVirt[0], l.inputVirt[0], 4);
    SubSubZero(n.inputVirt[1], l.inputVirt[1], 4);
    SubSubZero(n.inputVirt[2], l.inputVirt[2], 4);
    SubSubZero(n.inputVirt[3], l.inputVirt[3], 4);
    SubSubZero(n.outputVirt, l.outputVirt, 4);
    assert (forall j :: 0 <= j < |d| ==> d[j] == 0) <==> d[0] == 0 && d[1] == 0 && d[2] == 0 && d[3] == 0 && d[4] == 0 && d[5] == 0 && d[6] == 0;
  }

  /** `W[i-15]`, `W[i-2]`, `W[i-7]` and `W[i]` sit 4, 56, 36 and 64 past `W[i-16]`. */
  predicate Layout(l: Row)
    requires Shaped(l)
  {
    l.inputVirt[0] == Add(l.inputVirt[2], 4) && l.inputVirt[1] == Add(l.inputVirt[2], 56)
    && l.inputVirt[3] == Add(l.inputVirt[2], 36) && l.outputVirt == Add(l.inputVirt[2], 64)
  }

  /** On a row of a step, the address constraints hold exactly when the addresses are laid out. */
  lemma AddressesIff(l: Row, i: nat)
    requires Shaped(l) && i < NUM_ROUNDS
    requires forall k :: 0 <= k < NUM_ROUNDS ==> l.round[k] == if k == i then 1 else 0
    ensures Vanishes(AddressConstraints(l)) <==> Layout(l)
  {
    OneHotSums(l.round, i);
    var d := AddressDiffs(l);
    GatedOpen([SumRoundFlags(l)], d);
    SubSubZero(l.inputVirt[0], l.inputVirt[2], 4);
    SubSubZero(l.inputVirt[1], l.inputVirt[2], 56);
    SubSubZero(l.inputVirt[3], l.inputVirt[2], 36);
    SubSubZero(l.outputVirt, l.inputVirt[2], 64);
    assert (forall j :: 0 <= j < |d| ==> d[j] == 0) <==> d[0] == 0 && d[1] == 0 && d[2] == 0 && d[3] == 0;
  }
}
