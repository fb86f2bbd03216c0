/** Division facts the solver needs spelled out. */
module Arith {

  lemma MulMonotone(a: int, b: int, d: int)
    requires a <= b && 0 <= d
    ensures a * d <= b * d
  {
  }

  lemma Distribute(a: int, b: int, d: int)
    ensures (a + b) * d == a * d + b * d
  {
  }

  lemma DivMod(n: nat, d: nat)
    requires d > 0
    ensures n == n / d * d + n % d && 0 <= n % d < d
  {
  }

  /** Quotient and remainder are the only ones. */
  lemma DivUnique(n: nat, d: nat, q: int, r: int)
    requires n == q * d + r && 0 <= r < d
    ensures n / d == q && n % d == r
  {
    DivMod(n, d);
    var q', r' := n / d, n % d;
    assert (q - q') * d == r' - r;
    if q - q' >= 1 {
      MulMonotone(1, q - q', d);
    } else if q - q' <= -1 {
      MulMonotone(q - q', -1, d);
    }
  }

  lemma MulDiv(a: nat, b: nat)
    requires b > 0
    ensures a * b % b == 0 && a * b / b == a
  {
    DivUnique(a * b, b, a, 0);
  }

  lemma QuotientBelow(n: nat, d: nat, bound: nat)
    requires d > 0 && n < bound * d
    ensures n / d < bound
  {
    DivMod(n, d);
    var q := n / d;
    if bound <= q {
      MulMonotone(bound, q, d);
    }
  }

  lemma QuotientAbove(n: nat, d: nat, bound: nat)
    requires d > 0 && n >= bound * d
    ensures n / d >= bound
  {
    DivMod(n, d);
    var q := n / d;
    if q <= bound - 1 {
      MulMonotone(q, bound - 1, d);
    }
  }
}
