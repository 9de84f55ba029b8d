/** The smaller of two integers, and facts about integer division and multiplication
    the solver does not find by itself once the divisor is a variable. */
module Arith {
  function Min(a: int, b: int): int
  {
    if a < b then a else b
  }

  /** Division with a known quotient and remainder; the solver does not find these
      facts on its own once the divisor is a variable. */
  lemma DivModUnique(x: nat, m: nat, q: nat, r: nat)
    requires 0 < m && r < m && x == q * m + r
    ensures x / m == q && x % m == r
  {
    var q', r' := x / m, x % m;
    assert x == q' * m + r';
    assert (q' - q) * m == r - r';
    MulSmall(q' - q, m);
  }

  /** A multiple of `m` strictly between `-m` and `m` is zero. */
  lemma MulSmall(d: int, m: nat)
    requires -(m as int) < d * m < m
    ensures d == 0
  {
    assert (-d) * m == -(d * m);
    if d >= 1 {
      MulAtLeast(d, m);
    } else if d <= -1 {
      MulAtLeast(-d, m);
    }
  }

  lemma MulAtLeast(d: int, b: nat)
    requires 1 <= d
    ensures d * b >= b
  {
    var e := d - 1;
    assert d * b == e * b + b;
    assert e * b >= 0;
  }

  /** Clipping a window `[start, start + size)` to `[0, len)` leaves a window of at
      most `size`. */
  lemma MinWindow(len: nat, start: nat, size: nat)
    ensures Min(start, len) <= Min(start + size, len) <= len
    ensures Min(start + size, len) - Min(start, len) <= size
  {
  }

  /** The remainder of a natural number is at most the number. */
  lemma ModBelow(a: nat, d: nat)
    requires 0 < d
    ensures a % d <= a
  {
    var q := a / d;
    assert a == q * d + a % d;
    assert q * d >= 0;
  }
}
