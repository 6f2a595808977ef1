/**
 * Small facts about products and quotients. Products of reals are named by a parameter of
 * their own, which keeps the solver from rewriting them.
 */
module Arithmetic {
  function Power(x: real, n: nat): real {
    if n == 0 then 1.0 else Power(x, n - 1) * x
  }

  function Min(x: real, y: real): real {
    if x <= y then x else y
  }

  function Max(x: real, y: real): real {
    if x >= y then x else y
  }

  lemma ProductSign(x: real, y: real, p: real)
    requires p == x * y && x >= 0.0 && y >= 0.0
    ensures p >= 0.0
    ensures x > 0.0 && y > 0.0 ==> p > 0.0
  {
  }

  lemma SquareSign(d: real, s: real)
    requires s == d * d
    ensures s >= 0.0
    ensures d != 0.0 ==> s > 0.0
  {
    if d >= 0.0 {
      ProductSign(d, d, s);
    } else {
      assert s == (-d) * (-d);
      ProductSign(-d, -d, s);
    }
  }

  lemma SignOfFactor(a: real, b: real, p: real)
    requires a > 0.0 && p == a * b && p >= 0.0
    ensures b >= 0.0
  {
  }

  lemma ScaleMonotone(x: real, y: real, c: real, p: real, q: real)
    requires x <= y && c >= 0.0 && p == x * c && q == y * c
    ensures p <= q
  {
    ProductSign(y - x, c, (y - x) * c);
  }

  /** Dividing by more gives less. */
  lemma FractionOrder(a: real, b: real, x: real)
    requires a >= b > 0.0 && x >= 0.0
    ensures x / a <= x / b
  {
    var p, q := x / a, x / b;
    assert a * p == x && b * q == x;
    SignOfFactor(a, p, x);
    ProductSign(p, a - b, p * (a - b));
    assert b * (q - p) == p * (a - b);
    SignOfFactor(b, q - p, b * (q - p));
  }

  /** Multiples of p for different factors are at least p apart. */
  lemma {:induction false} StepsApart(p: nat, x: nat, q: nat)
    requires x < q
    ensures p * x + p <= p * q
  {
    assert p * q == p * (q - 1) + p;
    if x < q - 1 { StepsApart(p, x, q - 1); }
  }
}
