/** Division with remainder by a variable divisor, kept apart from everything else. */
module Arith {
  lemma AtLeast(a: int, b: int)
    requires a >= 1 && b >= 0
    ensures a * b >= b
  {
    assert (a - 1) * b >= 0;
  }

  lemma Distribute(a: int, b: int, c: int)
    ensures (a + b) * c == a * c + b * c
    ensures (a - b) * c == a * c - b * c
  {
  }

  lemma Associate(a: int, b: int, c: int)
    ensures a * (b * c) == (a * b) * c
  {
  }

  lemma NonNegative(a: int, b: int)
    requires a >= 0 && b >= 0
    ensures a * b >= 0
  {
  }

  function Quotient(n: nat, d: nat): (q: nat)
    requires d > 0
  {
    DivBasics(n, d);
    n / d
  }

  function Rest(n: nat, d: nat): (r: nat)
    requires d > 0
    ensures r < d
  {
    n % d
  }

  lemma DivBasics(n: nat, d: nat)
    requires d > 0
    ensures n / d >= 0 && 0 <= n % d < d && n == (n / d) * d + n % d
  {
    var q := n / d;
    assert n == q * d + n % d;
    if q < 0 {
      AtLeast(-q, d);
    }
  }

  /** Quotient and remainder are the only ones. */
  lemma Unique(n: nat, d: nat, q: nat, r: nat)
    requires d > 0 && r < d && n == q * d + r
    ensures Quotient(n, d) == q && Rest(n, d) == r
  {
    DivBasics(n, d);
    var q0, r0 := n / d, n % d;
    Distribute(q0, q, d);
    if q0 > q {
      AtLeast(q0 - q, d);
    } else if q0 < q {
      Distribute(q, q0, d);
      AtLeast(q - q0, d);
    }
  }

  lemma Recompose(n: nat, d: nat)
    requires d > 0
    ensures n == Quotient(n, d) * d + Rest(n, d)
  {
    DivBasics(n, d);
  }

  /** The remainder by a divisor of the divisor. */
  lemma NestedRest(x: nat, a: nat, b: nat)
    requires a > 0 && b > 0
    ensures a * b > 0
    ensures Rest(Rest(x, a * b), b) == Rest(x, b)
  {
    AtLeast(a, b);
    var q, r := Quotient(x, a * b), Rest(x, a * b);
    Recompose(x, a * b);
    Associate(q, a, b);
    var q2, r2 := Quotient(r, b), Rest(r, b);
    Recompose(r, b);
    Distribute(q * a, q2, b);
    NonNegative(q, a);
    Unique(x, b, q * a + q2, r2);
  }
}
