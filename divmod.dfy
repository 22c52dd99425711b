/** Facts about Euclidean division on non-negative numbers, used by the index arithmetic. */
module DivMod {

  /** A positive multiple of d is at least d. */
  lemma {:induction false} MulAtLeast(a: int, d: int)
    requires a >= 1 && d >= 0
    ensures a * d >= d
  {
    if a > 1 {
      MulAtLeast(a - 1, d);
      assert a * d == (a - 1) * d + d;
    }
  }

  /** Multiplying by a non-negative number keeps the order. */
  lemma MulMonotone(a: int, b: int, c: int)
    requires a <= b && c >= 0
    ensures a * c <= b * c
  {
    assert b * c - a * c == (b - a) * c;
  }

  /** The quotient and remainder of x by d are the only q, m with x == q * d + m and 0 <= m < d. */
  lemma DivModUnique(x: int, d: int, q: int, m: int)
    requires d >= 1 && 0 <= m < d && x == q * d + m
    ensures x / d == q && x % d == m
  {
    var q0, m0 := x / d, x % d;
    assert x == q0 * d + m0;
    assert q * d - q0 * d == m0 - m;
    if q > q0 {
      assert (q - q0) * d == q * d - q0 * d;
      MulAtLeast(q - q0, d);
    } else if q < q0 {
      assert (q0 - q) * d == q0 * d - q * d;
      MulAtLeast(q0 - q, d);
    }
  }

  /** Removing one multiple of d leaves the remainder unchanged. */
  lemma ModSubDivisor(x: int, d: int)
    requires d >= 1 && x >= d
    ensures (x - d) % d == x % d && (x - d) / d == x / d - 1
  {
    assert x - d == (x / d - 1) * d + x % d;
    DivModUnique(x - d, d, x / d - 1, x % d);
  }

  /** A positive number below the divisor is its own remainder. */
  lemma SmallRemainder(x: int, d: int)
    requires 0 <= x < d
    ensures x % d == x && x / d == 0
  {
    DivModUnique(x, d, 0, x);
  }

  /** The factors of a positive product are positive. */
  lemma FactorsPositive(a: nat, b: nat, n: nat)
    requires a * b == n && n >= 1
    ensures a >= 1 && b >= 1
  {
  }

  /** Floor division brackets its dividend: q * d <= x < (q + 1) * d, exactly when d divides x. */
  lemma FloorDivBounds(x: nat, d: nat)
    requires d >= 1
    ensures (x / d) * d <= x < (x / d + 1) * d
    ensures x % d == 0 ==> (x / d) * d == x
  {
    assert x == (x / d) * d + x % d;
    assert (x / d + 1) * d == (x / d) * d + d;
  }
}
