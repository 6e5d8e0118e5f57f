/** Small facts about multiplication, quotient and remainder that the
    solver does not find on its own. */
module Arith {

  lemma MulNonneg(a: int, b: int)
    requires a >= 0 && b >= 0
    ensures a * b >= 0
  {
  }

  lemma MulBounds(a: int, n: int)
    requires n >= 1
    ensures a >= 1 ==> a * n >= n
    ensures a <= -1 ==> a * n <= -n
  {
    if a >= 1 {
      MulNonneg(a - 1, n);
      assert a * n == (a - 1) * n + n;
    } else if a <= -1 {
      MulNonneg(-a - 1, n);
      assert -(a * n) == (-a - 1) * n + n;
    }
  }

  /** The only multiple of `n` strictly between `-n` and `n` is zero. */
  lemma MulZero(a: int, n: int)
    requires n >= 1 && -n < a * n < n
    ensures a == 0
  {
    MulBounds(a, n);
  }

  /** Quotient and remainder are unique. */
  lemma DivModUnique(x: int, n: int, q: int, r: int)
    requires n >= 1 && 0 <= r < n && x == q * n + r
    ensures x % n == r && x / n == q
  {
    var q2, r2 := x / n, x % n;
    assert x == q2 * n + r2;
    assert (q - q2) * n == r2 - r;
    MulZero(q - q2, n);
  }

  lemma MulMonotone(a: int, b: int, c: int)
    requires 0 <= a <= b && c >= 0
    ensures a * c <= b * c
  {
    MulNonneg(b - a, c);
    assert b * c == a * c + (b - a) * c;
  }
}
