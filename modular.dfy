/** Facts about Dafny's `%` on `int` with a positive divisor. For a positive divisor it agrees
    with Python's `%`: the remainder lies in [0, n) whatever the sign of the dividend. */
module Modular {

  /** The remainder is determined by any quotient/remainder split with the remainder in range. */
  lemma ModUnique(x: int, n: int, q: int, r: int)
    requires n > 0 && 0 <= r < n && x == q * n + r
    ensures x % n == r
  {
    var k := q - x / n;
    assert k * n == x % n - r;
  }

  /** Adding whole laps does not change the remainder. */
  lemma ModAddMultiple(x: int, q: int, n: int)
    requires n > 0
    ensures (x + q * n) % n == x % n
  {
    ModUnique(x + q * n, n, x / n + q, x % n);
  }

  /** Reducing a summand first does not change the remainder of the sum. */
  lemma ModOfSum(a: int, b: int, n: int)
    requires n > 0
    ensures (a % n + b) % n == (a + b) % n
  {
    ModAddMultiple(a % n + b, a / n, n);
    assert a % n + b + (a / n) * n == a + b;
  }
}
