/** Facts about division and products that the index arithmetic of the other modules rests on. */
module Arith {

  function Min(a: int, b: int): int { if a <= b then a else b }

  function Max(a: int, b: int): int { if a >= b then a else b }

  function Abs(x: real): real { if x < 0.0 then -x else x }

  /** A product behind a name, so that proofs that do not need it can leave it alone. */
  function Mul(a: int, b: int): int { a * b }

  /** And a quotient. */
  function Div(a: int, b: int): int
    requires b > 0
  {
    a / b
  }

  lemma {:induction false} MulMonotone(a: int, b: int, d: int)
    requires a <= b && d >= 0
    ensures a * d <= b * d
  {
  }

  lemma {:induction false} DivAtLeast(a: int, d: int, q: int)
    requires d > 0 && q * d <= a
    ensures q <= a / d
  {
    if a / d < q {
      MulMonotone(a / d + 1, q, d);
    }
  }

  lemma {:induction false} DivAtMost(a: int, d: int, q: int)
    requires d > 0 && a < (q + 1) * d
    ensures a / d <= q
  {
    if a / d > q {
      MulMonotone(q + 1, a / d, d);
    }
  }

  /** `q * d + r` determines `q` and `r`. */
  lemma {:induction false} DivModOf(q: int, d: int, r: int)
    requires 0 <= r < d
    ensures (q * d + r) / d == q && (q * d + r) % d == r
  {
    var a := q * d + r;
    DivAtLeast(a, d, q);
    assert (q + 1) * d == q * d + d;
    DivAtMost(a, d, q);
  }

  lemma {:induction false} DivTwice(a: nat, b: nat, c: nat)
    requires b > 0 && c > 0
    ensures b * c > 0 && a / b / c == a / (b * c)
  {
    var q := a / b / c;
    assert q * c <= a / b < (q + 1) * c;
    MulMonotone(q * c, a / b, b);
    MulMonotone(a / b + 1, (q + 1) * c, b);
    assert q * c * b == q * (b * c) && (q + 1) * c * b == (q + 1) * (b * c);
    DivAtLeast(a, b * c, q);
    DivAtMost(a, b * c, q);
  }

  lemma {:induction false} Grows(a: real, b: real, s: real)
    requires a > b && s > 0.0
    ensures a * s > b * s
  {
  }

  lemma {:induction false} NotNegative(a: real, b: real)
    requires a >= 0.0 && b >= 0.0
    ensures a * b >= 0.0
  {
  }
}
