/**
 * The SHA-256 message-schedule word of `compute_w_i`, and the 32-bit words
 * of the extend table as columns of single bits.  The bit order is the one
 * the table's test writes, bit `i` being `(v >> i) & 1`, least significant
 * first.
 */
module ShaWords {
  import opened Goldilocks
  import opened MathUtil

  const WORD_BITS: nat := 32

  /** Every cell is 0 or 1. */
  predicate IsBits(b: seq<Felt>)
  {
    forall k :: 0 <= k < |b| ==> b[k] == 0 || b[k] == 1
  }

  /** The `n` low bits of `v`, least significant first. */
  function BitsOf(v: nat, n: nat): (b: seq<Felt>)
    ensures |b| == n && IsBits(b)
  {
    if n == 0 then [] else [FromNat(v % 2)] + BitsOf(v / 2, n - 1)
  }

  /** The number that bit cells spell, least significant first. */
  function ValueOf(b: seq<Felt>): nat
  {
    if |b| == 0 then 0 else b[0] + 2 * ValueOf(b[1..])
  }

  lemma {:induction false} ValueOfBound(b: seq<Felt>)
    requires IsBits(b)
    ensures ValueOf(b) < Pow2(|b|)
  {
    if |b| > 0 {
      ValueOfBound(b[1..]);
    }
  }

  /** Reading back the bits of a number below 2^n gives the number. */
  lemma {:induction false} ValueOfBitsOf(v: nat, n: nat)
    requires v < Pow2(n)
    ensures ValueOf(BitsOf(v, n)) == v
  {
    if n > 0 {
      var b := BitsOf(v, n);
      assert b[1..] == BitsOf(v / 2, n - 1);
      ValueOfBitsOf(v / 2, n - 1);
    }
  }

  /** Writing out the number that bit cells spell gives the cells back. */
  lemma {:induction false} BitsOfValueOf(b: seq<Felt>)
    requires IsBits(b)
    ensures BitsOf(ValueOf(b), |b|) == b
  {
    if |b| > 0 {
      var v := ValueOf(b);
      assert v % 2 == b[0] && v / 2 == ValueOf(b[1..]);
      BitsOfValueOf(b[1..]);
      assert b == [b[0]] + b[1..];
    }
  }

  lemma DivDiv(v: nat, m: nat)
    requires m > 0
    ensures (v / 2) / m == v / (2 * m)
  {
    var q, r0 := v / 2, v % 2;
    var q2, r1 := q / m, q % m;
    assert v == 2 * m * q2 + (2 * r1 + r0) by {
      assert q == m * q2 + r1;
      assert v == 2 * q + r0;
    }
    DivUnique(v, 2 * m, q2, 2 * r1 + r0);
  }

  /** Bit `i` of `BitsOf(v, n)` is `(v >> i) & 1`. */
  lemma {:induction false} BitsOfIsShift(v: nat, n: nat, i: nat)
    requires i < n
    ensures Pow2(i) >= 1 && BitsOf(v, n)[i] == (v / Pow2(i)) % 2
  {
    Pow2Positive(i);
    if i > 0 {
      BitsOfIsShift(v / 2, n - 1, i - 1);
      Pow2Positive(i - 1);
      DivDiv(v, Pow2(i - 1));
    }
  }

  /** `from_be_bits_to_u32`: 32 bit cells as a word. */
  function ToWord(b: seq<Felt>): bv32
    requires |b| == WORD_BITS && IsBits(b)
  {
    ValueOfBound(b);
    Pow2Of32();
    ValueOf(b) as bv32
  }

  /** `from_u32_to_be_bits`: a word as 32 bit cells. */
  function FromWord(w: bv32): (b: seq<Felt>)
    ensures |b| == WORD_BITS && IsBits(b)
  {
    BitsOf(w as nat, WORD_BITS)
  }

  lemma ToWordFromWord(w: bv32)
    ensures ToWord(FromWord(w)) == w
  {
    Pow2Of32();
    ValueOfBitsOf(w as nat, WORD_BITS);
  }

  /** σ0 of section 4.1.2 of FIPS 180-4: ROTR 7 ⊕ ROTR 18 ⊕ SHR 3. */
  function Sigma0(x: bv32): bv32
  {
    x.RotateRight(7) ^ x.RotateRight(18) ^ (x >> 3)
  }

  /** σ1 of section 4.1.2 of FIPS 180-4: ROTR 17 ⊕ ROTR 19 ⊕ SHR 10. */
  function Sigma1(x: bv32): bv32
  {
    x.RotateRight(17) ^ x.RotateRight(19) ^ (x >> 10)
  }

  /** `compute_w_i` on words: `s1`, then `wrapping_add` of `w[i-16]`, `s0` and `w[i-7]`. */
  function ComputeWord(wMinus15: bv32, wMinus2: bv32, wMinus16: bv32, wMinus7: bv32): bv32
  {
    Sigma1(wMinus2) + wMinus16 + Sigma0(wMinus15) + wMinus7
  }

  /**
   * Step 1 of section 6.2.2 of FIPS 180-4, word `t` of the schedule from
   * words `t-2`, `t-7`, `t-15` and `t-16`, in the standard's order.
   */
  function ScheduleWord(w2: bv32, w7: bv32, w15: bv32, w16: bv32): bv32
  {
    Sigma1(w2) + w7 + Sigma0(w15) + w16
  }

  lemma ComputeWordIsScheduleWord(wMinus15: bv32, wMinus2: bv32, wMinus16: bv32, wMinus7: bv32)
    ensures ComputeWord(wMinus15, wMinus2, wMinus16, wMinus7) == ScheduleWord(wMinus2, wMinus7, wMinus15, wMinus16)
  {
  }

  /** The message schedule W_0 .. W_{n-1} of one 16-word block. */
  function Schedule(block: seq<bv32>, n: nat): (w: seq<bv32>)
    requires |block| == 16 && 16 <= n
    ensures |w| == n
    decreases n
  {
    if n == 16 then block
    else
      var prev := Schedule(block, n - 1);
      prev + [ScheduleWord(prev[n - 3], prev[n - 8], prev[n - 16], prev[n - 17])]
  }

  /** The schedule starts with the block and then follows the recurrence. */
  lemma {:induction false} ScheduleRecurrence(block: seq<bv32>, n: nat, t: nat)
    requires |block| == 16 && 16 <= n && t < n
    ensures t < 16 ==> Schedule(block, n)[t] == block[t]
    ensures 16 <= t ==>
      Schedule(block, n)[t] == ScheduleWord(Schedule(block, n)[t - 2], Schedule(block, n)[t - 7],
                                            Schedule(block, n)[t - 15], Schedule(block, n)[t - 16])
    decreases n
  {
    if n > 16 && t < n - 1 {
      ScheduleRecurrence(block, n - 1, t);
      var prev := Schedule(block, n - 1);
      assert Schedule(block, n)[..n - 1] == prev;
      assert t >= 16 ==> t - 16 < t - 15 < t - 7 < t - 2 < n - 1;
    }
  }

  /** The row of the table's test: inputs 0, 1, 2, 3 give 40965. */
  lemma ComputeWordExample()
    ensures ComputeWord(0, 1, 2, 3) == 40965
  {
  }
}
