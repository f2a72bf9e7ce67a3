/**
 * The Goldilocks prime field, p = 2^64 - 2^32 + 1, that every trace value,
 * challenge and constraint of the prover lives in.  Elements are the integers
 * 0 .. p-1; the operations reduce modulo p.  The lemmas give the ring laws the
 * constraint proofs need, proved through congruence of integers modulo p.
 */
module Goldilocks {
  const P: int := 0xFFFF_FFFF_0000_0001

  type Felt = x: int | 0 <= x < P

  function Add(a: Felt, b: Felt): Felt { (a + b) % P }

  function Sub(a: Felt, b: Felt): Felt { (a - b) % P }

  function Mul(a: Felt, b: Felt): Felt { (a * b) % P }

  /** `from_canonical_*` / `from_noncanonical_*`: the field element of a natural number. */
  function FromNat(n: nat): Felt { n % P }

  /** b^e by repeated multiplication, as an iterator of powers yields them. */
  function Pow(b: Felt, e: nat): Felt
  {
    if e == 0 then 1 else Mul(Pow(b, e - 1), b)
  }

  /** The left fold of `+` starting from zero, i.e. `.sum()` / `fold(ZERO, +)`. */
  function Sum(xs: seq<Felt>): Felt
  {
    if |xs| == 0 then 0 else Add(Sum(xs[..|xs| - 1]), xs[|xs| - 1])
  }

  /** The left fold of `*` starting from one, i.e. `.product()`. */
  function Product(xs: seq<Felt>): Felt
  {
    if |xs| == 0 then 1 else Mul(Product(xs[..|xs| - 1]), xs[|xs| - 1])
  }

  /** Two integers are congruent modulo p. */
  predicate Cong(x: int, y: int) { (x - y) % P == 0 }

  lemma MultipleOfP(m: int)
    ensures (P * m) % P == 0
  {
  }

  lemma CongOfMod(x: int)
    ensures Cong(x % P, x)
  {
    assert x % P - x == P * (-(x / P));
    MultipleOfP(-(x / P));
  }

  lemma CongTrans(x: int, y: int, z: int)
    requires Cong(x, y) && Cong(y, z)
    ensures Cong(x, z)
  {
    var k := (x - y) / P;
    var l := (y - z) / P;
    assert x - z == P * (k + l);
    MultipleOfP(k + l);
  }

  lemma CongSym(x: int, y: int)
    requires Cong(x, y)
    ensures Cong(y, x)
  {
    var k := (x - y) / P;
    assert y - x == P * (-k);
    MultipleOfP(-k);
  }

  lemma CongAdd(a: int, b: int, c: int, d: int)
    requires Cong(a, b) && Cong(c, d)
    ensures Cong(a + c, b + d) && Cong(a - c, b - d)
  {
    var k := (a - b) / P;
    var l := (c - d) / P;
    assert (a + c) - (b + d) == P * (k + l);
    assert (a - c) - (b - d) == P * (k - l);
    MultipleOfP(k + l);
    MultipleOfP(k - l);
  }

  lemma CongMulRight(a: int, b: int, c: int)
    requires Cong(a, b)
    ensures Cong(a * c, b * c)
  {
    var k := (a - b) / P;
    assert a - b == P * k;
    calc {
      a * c - b * c;
      (a - b) * c;
      (P * k) * c;
      P * (k * c);
    }
    MultipleOfP(k * c);
  }

  lemma CongMul(a: int, b: int, c: int, d: int)
    requires Cong(a, b) && Cong(c, d)
    ensures Cong(a * c, b * d)
  {
    CongMulRight(a, b, c);
    CongMulRight(c, d, b);
    assert c * b == b * c && d * b == b * d;
    CongTrans(a * c, b * c, b * d);
  }

  /** Congruent field elements are equal. */
  lemma CongEq(x: Felt, y: Felt)
    requires Cong(x, y)
    ensures x == y
  {
  }

  /** Each operation is congruent to its integer counterpart. */
  lemma OpsCong(a: Felt, b: Felt)
    ensures Cong(Add(a, b), a + b) && Cong(Sub(a, b), a - b) && Cong(Mul(a, b), a * b)
  {
    CongOfMod(a + b);
    CongOfMod(a - b);
    CongOfMod(a * b);
  }

  lemma AddComm(a: Felt, b: Felt)
    ensures Add(a, b) == Add(b, a)
  {
  }

  lemma MulComm(a: Felt, b: Felt)
    ensures Mul(a, b) == Mul(b, a)
  {
    assert a * b == b * a;
  }

  lemma AddAssoc(a: Felt, b: Felt, c: Felt)
    ensures Add(Add(a, b), c) == Add(a, Add(b, c))
  {
  }

  /** Field elements congruent to the same integer are equal. */
  lemma EqVia(x: Felt, y: Felt, e: int)
    requires Cong(x, e) && Cong(y, e)
    ensures x == y
  {
    CongSym(y, e);
    CongTrans(x, e, y);
  }

  lemma MulCong(x: Felt, e: int, y: Felt, f: int)
    requires Cong(x, e) && Cong(y, f)
    ensures Cong(Mul(x, y), e * f)
  {
    OpsCong(x, y);
    CongMul(x, e, y, f);
    CongTrans(Mul(x, y), x * y, e * f);
  }

  lemma AddCong(x: Felt, e: int, y: Felt, f: int)
    requires Cong(x, e) && Cong(y, f)
    ensures Cong(Add(x, y), e + f) && Cong(Sub(x, y), e - f)
  {
    OpsCong(x, y);
    CongAdd(x, e, y, f);
    CongTrans(Add(x, y), x + y, e + f);
    CongTrans(Sub(x, y), x - y, e - f);
  }

  lemma CongRefl(x: int)
    ensures Cong(x, x)
  {
  }

  lemma MulAssoc(a: Felt, b: Felt, c: Felt)
    ensures Mul(Mul(a, b), c) == Mul(a, Mul(b, c))
  {
    CongRefl(a);
    CongRefl(b);
    CongRefl(c);
    MulCong(a, a, b, b);
    MulCong(b, b, c, c);
    MulCong(Mul(a, b), a * b, c, c);
    MulCong(a, a, Mul(b, c), b * c);
    assert (a * b) * c == a * (b * c);
    EqVia(Mul(Mul(a, b), c), Mul(a, Mul(b, c)), a * (b * c));
  }

  lemma Distrib(a: Felt, b: Felt, c: Felt)
    ensures Mul(a, Add(b, c)) == Add(Mul(a, b), Mul(a, c))
  {
    CongRefl(a);
    CongRefl(b);
    CongRefl(c);
    AddCong(b, b, c, c);
    MulCong(a, a, Add(b, c), b + c);
    MulCong(a, a, b, b);
    MulCong(a, a, c, c);
    AddCong(Mul(a, b), a * b, Mul(a, c), a * c);
    assert a * (b + c) == a * b + a * c;
    EqVia(Mul(a, Add(b, c)), Add(Mul(a, b), Mul(a, c)), a * b + a * c);
  }

  lemma Identities(a: Felt)
    ensures Add(a, 0) == a && Add(0, a) == a && Sub(a, 0) == a && Sub(a, a) == 0
    ensures Mul(a, 1) == a && Mul(1, a) == a && Mul(a, 0) == 0 && Mul(0, a) == 0
  {
  }

  /** An integer expression congruent to 0 is what a field expression vanishing means. */
  lemma VanishesByCong(x: Felt, e: int)
    requires Cong(x, e) && Cong(e, 0)
    ensures x == 0
  {
    CongTrans(x, e, 0);
  }

  lemma SumAppend(xs: seq<Felt>, ys: seq<Felt>)
    ensures Sum(xs + ys) == Add(Sum(xs), Sum(ys))
    decreases |ys|
  {
    if |ys| == 0 {
      assert xs + ys == xs;
    } else {
      var ys' := ys[..|ys| - 1];
      assert (xs + ys)[..|xs + ys| - 1] == xs + ys';
      SumAppend(xs, ys');
      AddAssoc(Sum(xs), Sum(ys'), ys[|ys| - 1]);
    }
  }

  lemma ProductAppend(xs: seq<Felt>, ys: seq<Felt>)
    ensures Product(xs + ys) == Mul(Product(xs), Product(ys))
    decreases |ys|
  {
    if |ys| == 0 {
      assert xs + ys == xs;
    } else {
      var ys' := ys[..|ys| - 1];
      assert (xs + ys)[..|xs + ys| - 1] == xs + ys';
      ProductAppend(xs, ys');
      MulAssoc(Product(xs), Product(ys'), ys[|ys| - 1]);
    }
  }

  /** A sum of zeros is zero. */
  lemma SumZeros(xs: seq<Felt>)
    requires forall k :: 0 <= k < |xs| ==> xs[k] == 0
    ensures Sum(xs) == 0
  {
    if |xs| > 0 {
      SumZeros(xs[..|xs| - 1]);
    }
  }

  lemma SumFront(xs: seq<Felt>)
    requires |xs| > 0
    ensures Sum(xs) == Add(xs[0], Sum(xs[1..]))
  {
    assert xs == [xs[0]] + xs[1..];
    SumAppend([xs[0]], xs[1..]);
    SumSingleton(xs[0]);
  }

  lemma SumSingleton(x: Felt)
    ensures Sum([x]) == x
  {
    assert [x][..0] == [];
  }

  /** Multiplying every summand by `a` multiplies the sum by `a`. */
  lemma SumScale(xs: seq<Felt>, a: Felt)
    ensures Sum(seq(|xs|, k requires 0 <= k < |xs| => Mul(xs[k], a))) == Mul(Sum(xs), a)
  {
    var ys := seq(|xs|, k requires 0 <= k < |xs| => Mul(xs[k], a));
    if |xs| > 0 {
      var xs' := xs[..|xs| - 1];
      SumScale(xs', a);
      assert ys[..|ys| - 1] == seq(|xs'|, k requires 0 <= k < |xs'| => Mul(xs'[k], a));
      MulComm(Add(Sum(xs'), xs[|xs| - 1]), a);
      Distrib(a, Sum(xs'), xs[|xs| - 1]);
      MulComm(a, Sum(xs'));
      MulComm(a, xs[|xs| - 1]);
    }
  }

  /** Adding and then subtracting the same element cancels. */
  lemma AddSubCancel(a: Felt, b: Felt)
    ensures Sub(Add(a, b), a) == b
  {
    CongRefl(a);
    CongRefl(b);
    AddCong(a, a, b, b);
    AddCong(Add(a, b), a + b, a, a);
    EqVia(Sub(Add(a, b), a), b, b);
  }

  /** A difference is zero exactly when the two elements are equal. */
  lemma SubZeroIff(a: Felt, b: Felt)
    ensures Sub(a, b) == 0 <==> a == b
  {
    if a < b {
      assert (a - b) % P == a - b + P;
    }
  }

  /**
   * The identity behind a chunk of two lookups: if `c0·t0 = f0` and
   * `c1·t1 = f1`, then `c0·c1·(t0 + t1) − f0·c1 − f1·c0 = 0`.
   */
  lemma PairIdentity(c0: Felt, c1: Felt, t0: Felt, t1: Felt, f0: Felt, f1: Felt)
    requires Mul(c0, t0) == f0 && Mul(c1, t1) == f1
    ensures Sub(Sub(Mul(Mul(c0, c1), Add(t0, t1)), Mul(f0, c1)), Mul(f1, c0)) == 0
  {
    var e := (c0 * c1) * (t0 + t1) - f0 * c1 - f1 * c0;
    PairValueCong(c0, c1, t0, t1, f0, f1);
    PairPolynomial(c0, c1, t0, t1, f0, f1);
    var d0 := c0 * t0 - f0;
    var d1 := c1 * t1 - f1;
    ProductCong(c0, t0, f0);
    ProductCong(c1, t1, f1);
    CongMulRight(d0, 0, c1);
    CongMulRight(d1, 0, c0);
    CongAdd(d0 * c1, 0, d1 * c0, 0);
    VanishesByCong(Sub(Sub(Mul(Mul(c0, c1), Add(t0, t1)), Mul(f0, c1)), Mul(f1, c0)), e);
  }

  lemma ProductCong(c: Felt, t: Felt, f: Felt)
    requires Mul(c, t) == f
    ensures Cong(c * t - f, 0)
  {
    OpsCong(c, t);
    CongSym(Mul(c, t), c * t);
  }

  lemma PairPolynomial(c0: int, c1: int, t0: int, t1: int, f0: int, f1: int)
    ensures (c0 * c1) * (t0 + t1) - f0 * c1 - f1 * c0 == (c0 * t0 - f0) * c1 + (c1 * t1 - f1) * c0
  {
  }

  lemma PairValueCong(c0: Felt, c1: Felt, t0: Felt, t1: Felt, f0: Felt, f1: Felt)
    ensures Cong(Sub(Sub(Mul(Mul(c0, c1), Add(t0, t1)), Mul(f0, c1)), Mul(f1, c0)),
                 (c0 * c1) * (t0 + t1) - f0 * c1 - f1 * c0)
  {
    CongRefl(c0);
    CongRefl(c1);
    CongRefl(t0);
    CongRefl(t1);
    CongRefl(f0);
    CongRefl(f1);
    AddCong(t0, t0, t1, t1);
    MulCong(c0, c0, c1, c1);
    var m := Mul(Mul(c0, c1), Add(t0, t1));
    MulCong(Mul(c0, c1), c0 * c1, Add(t0, t1), t0 + t1);
    MulCong(f0, f0, c1, c1);
    MulCong(f1, f1, c0, c0);
    var x := (c0 * c1) * (t0 + t1);
    AddCong(m, x, Mul(f0, c1), f0 * c1);
    AddCong(Sub(m, Mul(f0, c1)), x - f0 * c1, Mul(f1, c0), f1 * c0);
  }
}
