/** Integer and sequence helpers: rounded-up division, powers of two, reversal. */
module MathUtil {
  function Min(a: nat, b: nat): nat { if a <= b then a else b }

  function Max(a: nat, b: nat): nat { if a >= b then a else b }

  /**
   * The number of chunks of `b` that `a` elements split into, one chunk at a
   * time; `CeilDivIsQuotient` shows it is plonky2's `ceil_div_usize`,
   * `(a + b - 1) / b`.
   */
  function CeilDiv(a: nat, b: nat): nat
    requires b > 0
    decreases a
  {
    if a == 0 then 0 else 1 + CeilDiv(if a > b then a - b else 0, b)
  }

  lemma MulGe(b: int, d: int)
    requires b > 0
    ensures d >= 1 ==> b * d >= b
  {
    if d >= 1 {
      assert b * d == b * (d - 1) + b;
      assert b * (d - 1) >= 0;
    }
  }

  /** Quotients are unique. */
  lemma DivUnique(x: int, b: int, q: int, r: int)
    requires b > 0 && 0 <= r < b && x == b * q + r
    ensures x / b == q
  {
    var q', r' := x / b, x % b;
    assert x == b * q' + r';
    assert b * (q - q') == r' - r;
    assert b * (q' - q) == r - r';
    MulGe(b, q - q');
    MulGe(b, q' - q);
  }

  /** Taking one chunk of `b` off a non-empty list of `a` leaves one chunk fewer. */
  lemma CeilDivStep(a: nat, b: nat)
    requires b > 0 && a > 0
    ensures CeilDiv(a, b) == 1 + CeilDiv(if a > b then a - b else 0, b)
  {
  }

  lemma {:induction false} CeilDivIsQuotient(a: nat, b: nat)
    requires b > 0
    ensures CeilDiv(a, b) == (a + b - 1) / b
    decreases a
  {
    if a == 0 {
      DivUnique(b - 1, b, 0, b - 1);
    } else if a > b {
      CeilDivIsQuotient(a - b, b);
      var x := a - b + b - 1;
      var q, r := x / b, x % b;
      assert x == b * q + r;
      DivUnique(x + b, b, q + 1, r);
    } else {
      CeilDivIsQuotient(0, b);
      DivUnique(a + b - 1, b, 1, a - 1);
    }
  }

  lemma MulSucc(c: nat, u: nat)
    ensures (c + 1) * u == c * u + u
  {
  }

  lemma MulAddRight(n: nat, b: nat, u: nat)
    ensures n * (b + u) == n * b + n * u
  {
  }

  /** `n` copies of `u` added up, by repeated addition. */
  function Times(n: nat, u: nat): nat
  {
    if n == 0 then 0 else Times(n - 1, u) + u
  }

  lemma {:induction false} TimesIsProduct(n: nat, u: nat)
    ensures Times(n, u) == n * u
  {
    if n > 0 {
      TimesIsProduct(n - 1, u);
      MulSucc(n - 1, u);
    }
  }

  lemma {:induction false} TimesAdd(n: nat, a: nat, b: nat)
    ensures Times(n, a + b) == Times(n, a) + Times(n, b)
  {
    if n > 0 {
      TimesAdd(n - 1, a, b);
    }
  }

  lemma {:induction false} TimesZero(n: nat)
    ensures Times(n, 0) == 0
  {
    if n > 0 {
      TimesZero(n - 1);
    }
  }

  lemma TimesShift(n: nat, u: nat)
    requires n > 0
    ensures u + Times(n - 1, u) == Times(n, u)
  {
  }

  lemma MulMonotone(a: nat, b: nat, u: nat)
    requires a <= b
    ensures a * u <= b * u && u * a <= u * b
  {
    assert b * u == a * u + (b - a) * u;
    assert (b - a) * u >= 0;
  }

  lemma ModOfSmall(a: nat, n: nat)
    requires a < n
    ensures a % n == a
  {
    DivUnique(a, n, 0, a);
  }

  lemma CeilDivZero(b: nat)
    requires b > 0
    ensures CeilDiv(0, b) == 0
  {
  }

  function Pow2(e: nat): nat
  {
    if e == 0 then 1 else 2 * Pow2(e - 1)
  }

  /** `usize::is_power_of_two`. */
  predicate IsPowerOfTwo(n: nat)
  {
    n == 1 || (n >= 2 && n % 2 == 0 && IsPowerOfTwo(n / 2))
  }

  /** The exponent of a power of two. */
  function Log2(n: nat): (e: nat)
    requires IsPowerOfTwo(n)
    ensures Pow2(e) == n
  {
    if n == 1 then 0 else 1 + Log2(n / 2)
  }

  lemma Pow2IsPowerOfTwo(e: nat)
    ensures IsPowerOfTwo(Pow2(e))
  {
    if e > 0 {
      Pow2IsPowerOfTwo(e - 1);
      Pow2Positive(e - 1);
      assert Pow2(e) / 2 == Pow2(e - 1);
    }
  }

  lemma Pow2Positive(e: nat)
    ensures Pow2(e) >= 1
  {
  }

  lemma Pow2Monotone(a: nat, b: nat)
    requires a <= b
    ensures Pow2(a) <= Pow2(b)
  {
  }

  lemma {:induction false} Pow2Mul(a: nat, b: nat)
    ensures Pow2(a + b) == Pow2(a) * Pow2(b)
  {
    if a > 0 {
      Pow2Mul(a - 1, b);
      var x, y := Pow2(a - 1), Pow2(b);
      assert Pow2(a + b) == 2 * Pow2(a - 1 + b);
      assert 2 * (x * y) == (2 * x) * y;
    }
  }

  lemma Pow2Of32()
    ensures Pow2(32) == 0x1_0000_0000
  {
    assert Pow2(2) == 4;
    assert Pow2(4) == 16 by { Pow2Mul(2, 2); }
    assert Pow2(8) == 256 by { Pow2Mul(4, 4); }
    assert Pow2(16) == 65536 by { Pow2Mul(8, 8); }
    Pow2Mul(16, 16);
  }

  /** The smallest exponent whose power of two is at least `n` (searching upward from `e`). */
  function Log2CeilFrom(n: nat, e: nat): (r: nat)
    requires e <= n
    ensures Pow2(r) >= n && r >= e
    ensures forall k :: e <= k < r ==> Pow2(k) < n
    decreases n - e
  {
    Pow2Exceeds(e);
    if Pow2(e) >= n then e else Log2CeilFrom(n, e + 1)
  }

  lemma Pow2Exceeds(e: nat)
    ensures Pow2(e) > e
  {
  }

  /** `usize::next_power_of_two`: the smallest power of two that is at least `n` (1 for 0). */
  function NextPowerOfTwo(n: nat): (r: nat)
    ensures IsPowerOfTwo(r) && r >= n && r >= 1
    ensures forall m: nat :: IsPowerOfTwo(m) && m >= n ==> m >= r
  {
    Pow2Exceeds(n);
    var e := Log2CeilFrom(n, 0);
    Pow2IsPowerOfTwo(e);
    var r := Pow2(e);
    assert forall m: nat :: IsPowerOfTwo(m) && m >= n ==> m >= r by {
      forall m: nat | IsPowerOfTwo(m) && m >= n ensures m >= r {
        var k := Log2(m);
        assert k >= e;
        Pow2Monotone(e, k);
      }
    }
    r
  }

  /** `Vec::reverse`. */
  function Reverse<T>(s: seq<T>): (r: seq<T>)
    ensures |r| == |s| && forall k :: 0 <= k < |s| ==> r[k] == s[|s| - 1 - k]
  {
    seq(|s|, k requires 0 <= k < |s| => s[|s| - 1 - k])
  }

  /** The chunk of at most `size` elements starting at `start`, as `chunks(size)` yields it. */
  function ChunkAt<T>(xs: seq<T>, size: nat, start: nat): seq<T>
    requires start < |xs|
  {
    xs[start..Min(start + size, |xs|)]
  }
}
