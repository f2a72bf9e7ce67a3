/**
 * The operations the table's tests build: the single step of
 * `test_correction`, and the 48 steps of a whole message schedule that
 * `get_random_input` builds from a block, its words at addresses `4 t`.
 */
module ShaExtendSpongeTests {
  import opened Goldilocks
  import opened MathUtil
  import opened ShaWords
  import opened ShaExtendSponge

  /** Cell `i` of `to_be_bits(x)`: `(x >> i) & 1`. */
  function Cell(x: nat, i: nat): (c: nat)
    ensures c <= 1
  {
    Pow2Positive(i);
    (x / Pow2(i)) % 2
  }

  /** `to_be_bits`: the 32 cells of a word, bit `i` in cell `i`. */
  function WordCells(v: bv32): (b: seq<nat>)
    ensures |b| == WORD_BITS
  {
    seq(WORD_BITS, i requires 0 <= i < WORD_BITS => Cell(v as nat, i))
  }

  /** The input cells of an operation that reads the words `ws`, one after the other. */
  function InputCells(ws: seq<bv32>): (input: seq<nat>)
    requires |ws| == NUM_EXTEND_INPUT
    ensures |input| == NUM_EXTEND_INPUT * WORD_BITS
  {
    WordCells(ws[0]) + WordCells(ws[1]) + WordCells(ws[2]) + WordCells(ws[3])
  }

  /** Cell `j` of part `n` of four 32-cell parts sits at index `32 n + j` of their concatenation. */
  lemma ConcatAt(parts: seq<seq<nat>>, n: nat, j: nat)
    requires |parts| == NUM_EXTEND_INPUT && n < NUM_EXTEND_INPUT && j < WORD_BITS
    requires forall m :: 0 <= m < NUM_EXTEND_INPUT ==> |parts[m]| == WORD_BITS
    ensures (parts[0] + parts[1] + parts[2] + parts[3])[WORD_BITS * n + j] == parts[n][j]
  {
  }

  /** Cell `j` of word `n` sits at index `32 n + j` of the input. */
  lemma InputCellsAt(ws: seq<bv32>, n: nat, j: nat)
    requires |ws| == NUM_EXTEND_INPUT && n < NUM_EXTEND_INPUT && j < WORD_BITS
    ensures InputCells(ws)[WORD_BITS * n + j] == WordCells(ws[n])[j]
  {
    ConcatAt([WordCells(ws[0]), WordCells(ws[1]), WordCells(ws[2]), WordCells(ws[3])], n, j);
  }

  /** Every input cell is a bit, so an operation reading four words fits the table. */
  lemma InputCellsFit(op: ShaExtendSpongeOp, ws: seq<bv32>)
    requires |ws| == NUM_EXTEND_INPUT && op.input == InputCells(ws)
    requires op.i < NUM_ROUNDS && NUM_EXTEND_INPUT <= |op.baseAddress|
    ensures OpFits(op)
  {
    forall k | 0 <= k < NUM_EXTEND_INPUT * WORD_BITS
      ensures op.input[k] <= 1
    {
      InputCellsAt(ws, k / WORD_BITS, k % WORD_BITS);
    }
  }

  /** Input word `n` of an operation reading the words `ws` is the bits of `ws[n]`. */
  lemma InputCellsWord(op: ShaExtendSpongeOp, ws: seq<bv32>, n: nat)
    requires |ws| == NUM_EXTEND_INPUT && op.input == InputCells(ws) && n < NUM_EXTEND_INPUT
    requires OpFits(op)
    ensures InputWord(op, n) == FromWord(ws[n])
  {
    forall j | 0 <= j < WORD_BITS
      ensures InputWord(op, n)[j] == FromWord(ws[n])[j]
    {
      InputCellsAt(ws, n, j);
      BitsOfIsShift(ws[n] as nat, WORD_BITS, j);
      ModOfSmall(Cell(ws[n] as nat, j), P);
    }
  }

  /**
   * The row of an operation reading the words `ws` holds
   * `compute_w_i` of those words.
   */
  lemma InputCellsRow(op: ShaExtendSpongeOp, ws: seq<bv32>)
    requires |ws| == NUM_EXTEND_INPUT && op.input == InputCells(ws) && OpFits(op)
    ensures RowForOp(op).wi == FromWord(ComputeWord(ws[0], ws[1], ws[2], ws[3]))
  {
    InputCellsWord(op, ws, 0);
    InputCellsWord(op, ws, 1);
    InputCellsWord(op, ws, 2);
    InputCellsWord(op, ws, 3);
    RowForOpWords(op);
    ToWordFromWord(ws[0]);
    ToWordFromWord(ws[1]);
    ToWordFromWord(ws[2]);
    ToWordFromWord(ws[3]);
  }

  /** The address of word `t` of the schedule. */
  function WordAddress(t: nat): MemoryAddress
  {
    MemoryAddress(0, CODE_SEGMENT, 4 * t)
  }

  /** The words that the step for word `t` reads: `w[t-15]`, `w[t-2]`, `w[t-16]`, `w[t-7]`. */
  function ScheduleInputs(w: seq<bv32>, t: nat): (ws: seq<bv32>)
    requires 16 <= t < |w|
    ensures |ws| == NUM_EXTEND_INPUT
  {
    [w[t - 15], w[t - 2], w[t - 16], w[t - 7]]
  }

  /** The operation that extends the schedule `w` by word `t`, as `get_random_input` builds it. */
  function ScheduleOp(w: seq<bv32>, t: nat): ShaExtendSpongeOp
    requires 16 <= t < |w|
  {
    ShaExtendSpongeOp(
      [WordAddress(t - 15), WordAddress(t - 2), WordAddress(t - 16), WordAddress(t - 7)],
      0,
      InputCells(ScheduleInputs(w, t)),
      t - 16,
      WordAddress(t))
  }

  lemma ScheduleOpFits(w: seq<bv32>, t: nat)
    requires 16 <= t < |w| <= 64
    ensures OpFits(ScheduleOp(w, t)) && Aligned(ScheduleOp(w, t))
  {
    InputCellsFit(ScheduleOp(w, t), ScheduleInputs(w, t));
  }

  /** The row of the operation for word `t` holds that word of the schedule. */
  lemma ScheduleRowWord(block: seq<bv32>, t: nat)
    requires |block| == 16 && 16 <= t < 64
    ensures OpFits(ScheduleOp(Schedule(block, 64), t))
    ensures RowForOp(ScheduleOp(Schedule(block, 64), t)).wi == FromWord(Schedule(block, 64)[t])
  {
    var w := Schedule(block, 64);
    ScheduleOpFits(w, t);
    InputCellsRow(ScheduleOp(w, t), ScheduleInputs(w, t));
    ComputeWordIsScheduleWord(w[t - 15], w[t - 2], w[t - 16], w[t - 7]);
    ScheduleRecurrence(block, 64, t);
  }

  /** `get_random_input` for a block: one operation for each of the words 16 to 63. */
  function ScheduleOps(block: seq<bv32>): (ops: seq<ShaExtendSpongeOp>)
    requires |block| == 16
    ensures |ops| == NUM_ROUNDS
    ensures forall k :: 0 <= k < NUM_ROUNDS ==> ops[k] == ScheduleOp(Schedule(block, 64), k + 16)
  {
    var w := Schedule(block, 64);
    seq(NUM_ROUNDS, k requires 0 <= k < NUM_ROUNDS => ScheduleOp(w, k + 16))
  }

  /** The step for word `t + 1` follows the step for word `t`. */
  lemma ScheduleSuccessor(w: seq<bv32>, t: nat)
    requires 16 <= t && t + 1 < |w| <= 64
    ensures OpFits(ScheduleOp(w, t)) && OpFits(ScheduleOp(w, t + 1))
    ensures Successor(ScheduleOp(w, t), ScheduleOp(w, t + 1))
  {
    ScheduleOpFits(w, t);
    ScheduleOpFits(w, t + 1);
  }

  /** The operations of a schedule form one chain of steps that ends at the final round. */
  lemma ScheduleOpsChain(block: seq<bv32>)
    requires |block| == 16
    ensures Chain(ScheduleOps(block)) && ChainEndsFinal(ScheduleOps(block))
  {
    var ops := ScheduleOps(block);
    var w := Schedule(block, 64);
    forall k | 0 <= k < |ops|
      ensures OpFits(ops[k]) && Aligned(ops[k])
    {
      ScheduleOpFits(w, k + 16);
    }
    forall k | 0 <= k < |ops| - 1 && ops[k].i + 1 < NUM_ROUNDS
      ensures Successor(ops[k], ops[k + 1])
    {
      ScheduleSuccessor(w, k + 16);
    }
    assert ops[NUM_ROUNDS - 1].i == NUM_ROUNDS - 1;
  }

  /**
   * The trace of a whole schedule, over any number of rows that holds
   * it, satisfies the table's constraints on every pair of adjacent rows.
   */
  lemma ScheduleTraceHolds(block: seq<bv32>, n: nat)
    requires |block| == 16 && NUM_ROUNDS <= n
    ensures forall k :: 0 <= k < NUM_ROUNDS ==> OpFits(ScheduleOps(block)[k])
    ensures forall k :: 0 <= k < n ==>
      Shaped(TraceRows(ScheduleOps(block), n)[k])
      && Holds(TraceRows(ScheduleOps(block), n)[k], TraceRows(ScheduleOps(block), n)[(k + 1) % n])
  {
    ScheduleOpsChain(block);
    TraceHolds(ScheduleOps(block), n);
  }

  /** Row `k` of the trace of a whole schedule holds word `k + 16` of the schedule. */
  lemma ScheduleTraceWords(block: seq<bv32>, n: nat)
    requires |block| == 16 && NUM_ROUNDS <= n
    ensures forall k :: 0 <= k < NUM_ROUNDS ==> OpFits(ScheduleOps(block)[k])
    ensures forall k :: 0 <= k < NUM_ROUNDS ==>
      TraceRows(ScheduleOps(block), n)[k].wi == FromWord(Schedule(block, 64)[k + 16])
  {
    ScheduleOpsChain(block);
    forall k | 0 <= k < NUM_ROUNDS
      ensures TraceRows(ScheduleOps(block), n)[k].wi == FromWord(Schedule(block, 64)[k + 16])
    {
      ScheduleTraceWord(block, n, k);
    }
  }

  lemma ScheduleTraceWord(block: seq<bv32>, n: nat, k: nat)
    requires |block| == 16 && NUM_ROUNDS <= n && k < NUM_ROUNDS
    requires forall j :: 0 <= j < NUM_ROUNDS ==> OpFits(ScheduleOps(block)[j])
    ensures TraceRows(ScheduleOps(block), n)[k].wi == FromWord(Schedule(block, 64)[k + 16])
  {
    ScheduleRowWord(block, k + 16);
    TraceRowsIndex(ScheduleOps(block), n, k);
  }

  /** The operation of `test_correction`: the words 0, 1, 2, 3 at addresses 4, 56, 0, 36, the result at 64. */
  function CorrectionOp(): ShaExtendSpongeOp
  {
    ShaExtendSpongeOp(
      [MemoryAddress(0, CODE_SEGMENT, 4), MemoryAddress(0, CODE_SEGMENT, 56),
       MemoryAddress(0, CODE_SEGMENT, 0), MemoryAddress(0, CODE_SEGMENT, 36)],
      0,
      InputCells([0, 1, 2, 3]),
      0,
      MemoryAddress(0, CODE_SEGMENT, 64))
  }

  /** `test_correction`: the row's `w_i` is the bits of 40965. */
  lemma TestCorrection()
    ensures OpFits(CorrectionOp()) && RowForOp(CorrectionOp()).wi == FromWord(40965)
  {
    InputCellsFit(CorrectionOp(), [0, 1, 2, 3]);
    InputCellsRow(CorrectionOp(), [0, 1, 2, 3]);
    ComputeWordExample();
  }
}
