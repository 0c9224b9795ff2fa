/** Arbitrary-precision integer operations that the penalty formula is built
    from (the `big` package of the Filecoin state types), on Dafny's unbounded
    `int`. Only the operations the formula uses are given, each with the
    rounding the formula depends on stated in its contract. */
module Big {

  function Abs(a: int): (r: int)
    ensures r >= 0 && (r == a || r == -a)
  {
    if a < 0 then -a else a
  }

  /** `big.Max`: the larger of the two operands. */
  function Max(a: int, b: int): (r: int)
    ensures r >= a && r >= b
    ensures r == a || r == b
  {
    if a > b then a else b
  }

  /** 2^n, the divisor of a right shift and the factor of a left shift. */
  function Pow2(n: nat): (p: int)
    ensures p >= 1
  {
    if n == 0 then 1 else 2 * Pow2(n - 1)
  }

  /** `big.Rsh`: an arithmetic right shift, which rounds toward negative
      infinity, so the result is the floor of a / 2^n. */
  function Rsh(a: int, n: nat): (r: int)
    ensures r * Pow2(n) <= a < (r + 1) * Pow2(n)
    ensures r > 0 <==> a >= Pow2(n)
  {
    var p := Pow2(n);
    FloorDivBounds(a, p);
    FloorDivPositive(a, p);
    a / p
  }

  /** `big.Lsh`: multiplication by 2^n. No bits are lost, so a right shift by
      the same amount undoes it, and shifting that back gives the result again. */
  function Lsh(a: int, n: nat): (r: int)
    ensures Rsh(r, n) == a
    ensures Rsh(r, n) * Pow2(n) == r
  {
    var p := Pow2(n);
    DivBounds(a * p, p, a, a);
    a * p
  }

  /** `big.Div`: the division of math/big's `Int.Div`, which is Euclidean.
      The remainder a - q * b is never negative and is smaller than the
      divisor in magnitude, whatever the signs of the operands. */
  function Div(a: int, b: int): (q: int)
    requires b != 0
    ensures 0 <= a - q * b < Abs(b)
  {
    a / b
  }

  /** Division by a positive divisor is monotone in the dividend. */
  lemma DivMonotone(a: int, a': int, b: int)
    requires a <= a' && 0 < b
    ensures Div(a, b) <= Div(a', b)
  {
    var q, q' := Div(a, b), Div(a', b);
    // q * b <= a <= a' < q' * b + b
    assert (q' + 1) * b == q' * b + b;
    MulLtCancel(q, q' + 1, b);
  }

  /** Dividing an exact multiple gives back the factor, whatever the signs. */
  lemma DivExact(k: int, b: int)
    requires b != 0
    ensures Div(k * b, b) == k
  {
    var c := k - Div(k * b, b);
    assert k * b - Div(k * b, b) * b == c * b;
    if c != 0 {
      AbsMulGe(c, b);
    }
  }

  // Helpers for the non-linear steps above.

  lemma AbsMulGe(c: int, b: int)
    requires c != 0
    ensures Abs(c * b) >= Abs(b)
  {
    MulLe(1, Abs(c), Abs(b));
    assert Abs(c * b) == Abs(c) * Abs(b);
  }

  lemma FloorDivPositive(a: int, d: int)
    requires d > 0
    ensures a / d > 0 <==> a >= d
  {
    FloorDivBounds(a, d);
    var r := a / d;
    if r >= 1 {
      MulLe(1, r, d);
    } else {
      MulLe(r + 1, 1, d);
    }
  }

  lemma MulLe(a: int, b: int, c: int)
    requires a <= b && 0 <= c
    ensures a * c <= b * c
  {
    assert b * c - a * c == (b - a) * c;
  }

  lemma MulLtCancel(c: int, e: int, d: int)
    requires 0 < d && c * d < e * d
    ensures c < e
  {
    if c >= e {
      MulLe(e, c, d);
    }
  }

  lemma FloorDivBounds(a: int, d: int)
    requires d > 0
    ensures (a / d) * d <= a < (a / d + 1) * d
  {
    assert a == (a / d) * d + a % d;
    assert (a / d + 1) * d == (a / d) * d + d;
  }

  /** A quotient is pinned between any two bounds whose multiples bracket
      the dividend. */
  lemma DivBounds(x: int, d: int, lo: int, hi: int)
    requires d > 0 && lo * d <= x <= hi * d
    ensures lo <= x / d <= hi
  {
    var q := x / d;
    FloorDivBounds(x, d);
    if q < lo {
      MulLe(q + 1, lo, d);
    }
    if q > hi {
      assert (hi + 1) * d == hi * d + d;
      MulLe(hi + 1, q, d);
    }
  }
}
