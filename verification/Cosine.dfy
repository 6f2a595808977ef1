/** Cosine similarity over the reals, with the square root taken as a parameter (src/qortia/recall_helpers.py). */
module Cosine {
  import opened Arithmetic

  /** The sum of products of paired elements; the longer vector is cut, as zip does. */
  function Dot(a: seq<real>, b: seq<real>): real {
    if a == [] || b == [] then 0.0 else a[0] * b[0] + Dot(a[1..], b[1..])
  }

  ghost predicate IsSqrt(sqrt: real -> real) {
    forall x :: x >= 0.0 ==> sqrt(x) >= 0.0 && sqrt(x) * sqrt(x) == x
  }

  function CosineOf(sqrt: real -> real, a: seq<real>, b: seq<real>): real {
    Quotient(Dot(a, b), sqrt(Dot(a, a)), sqrt(Dot(b, b)))
  }

  /** The dot product over the product of the magnitudes; zero when either magnitude is. */
  function Quotient(dot: real, magA: real, magB: real): real {
    if magA == 0.0 || magB == 0.0 then 0.0
    else
      ProductNonZero(magA, magB);
      dot / (magA * magB)
  }

  lemma ProductNonZero(x: real, y: real)
    requires x != 0.0 && y != 0.0
    ensures x * y != 0.0
  {
  }

  lemma {:induction false} SquareNonNegative(a: seq<real>)
    ensures Dot(a, a) >= 0.0
  {
    if a == [] {
    } else {
      SquareNonNegative(a[1..]);
      SquareSign(a[0], a[0] * a[0]);
    }
  }

  lemma {:induction false} DotSymmetric(a: seq<real>, b: seq<real>)
    ensures Dot(a, b) == Dot(b, a)
  {
    if a == [] || b == [] {
    } else {
      DotSymmetric(a[1..], b[1..]);
    }
  }

  /** The cross term of the induction step is dominated when d * d <= a * b. */
  lemma CrossTerm(a: real, b: real, d: real, x: real, y: real)
    requires a >= 0.0 && b >= 0.0 && d * d <= a * b
    ensures 2.0 * d * (x * y) <= a * (y * y) + b * (x * x)
  {
    var xx, yy, dd, ab := x * x, y * y, d * d, a * b;
    SquareSign(x, xx);
    SquareSign(d, dd);
    if a == 0.0 {
      assert ab == 0.0;
      assert d == 0.0;
      ProductSign(b, xx, b * xx);
    } else {
      var gap := a * yy + b * xx - 2.0 * d * (x * y);
      var e := a * y - d * x;
      CompleteSquare(a, b, d, x, y, e);
      SquareSign(e, e * e);
      ProductSign(ab - dd, xx, (ab - dd) * xx);
      SignOfFactor(a, gap, a * gap);
    }
  }

  lemma CompleteSquare(a: real, b: real, d: real, x: real, y: real, e: real)
    requires e == a * y - d * x
    ensures a * (a * (y * y) + b * (x * x) - 2.0 * d * (x * y)) == e * e + (a * b - d * d) * (x * x)
  {
    assert e * e == (a * y - d * x) * (a * y - d * x);
  }

  /** One more pair of elements changes the three products p, q and d like this. */
  ghost predicate Extends(p: real, q: real, d: real, x: real, y: real, p': real, q': real, d': real) {
    p >= 0.0 && q >= 0.0 && p' == x * x + p && q' == y * y + q && d' == x * y + d
  }

  type Relation = (real, real, real) -> bool

  /** What holds of empty products and is kept by one more pair holds of the products of all vectors. */
  lemma {:induction false} DotsSatisfy(holds: Relation, a: seq<real>, b: seq<real>)
    requires forall p, q :: p >= 0.0 && q >= 0.0 ==> holds(p, q, 0.0)
    requires forall p, q, d, x, y, p', q', d' ::
      Extends(p, q, d, x, y, p', q', d') && holds(p, q, d) ==> holds(p', q', d')
    ensures holds(Dot(a, a), Dot(b, b), Dot(a, b))
  {
    if a == [] || b == [] {
      SquareNonNegative(a);
      SquareNonNegative(b);
    } else {
      var s, t := a[1..], b[1..];
      DotsSatisfy(holds, s, t);
      SquareNonNegative(s);
      SquareNonNegative(t);
      assert Extends(Dot(s, s), Dot(t, t), Dot(s, t), a[0], b[0], Dot(a, a), Dot(b, b), Dot(a, b));
    }
  }

  function Dominated(): Relation {
    (p: real, q: real, d: real) => d * d <= p * q
  }

  lemma CauchySchwarzStep(p: real, q: real, d: real, x: real, y: real, p': real, q': real, d': real)
    requires Extends(p, q, d, x, y, p', q', d') && d * d <= p * q
    ensures d' * d' <= p' * q'
  {
    CrossTerm(p, q, d, x, y);
    assert d' * d' == (x * x) * (y * y) + 2.0 * d * (x * y) + d * d;
    assert p' * q' == (x * x) * (y * y) + (q * (x * x) + p * (y * y)) + p * q;
  }

  lemma DominatedAtStart(p: real, q: real)
    requires p >= 0.0 && q >= 0.0
    ensures Dominated()(p, q, 0.0)
  {
    ProductSign(p, q, p * q);
  }

  lemma DominatedStep(p: real, q: real, d: real, x: real, y: real, p': real, q': real, d': real)
    requires Extends(p, q, d, x, y, p', q', d') && Dominated()(p, q, d)
    ensures Dominated()(p', q', d')
  {
    CauchySchwarzStep(p, q, d, x, y, p', q', d');
  }

  lemma DotsAreDominated(a: seq<real>, b: seq<real>)
    ensures Dominated()(Dot(a, a), Dot(b, b), Dot(a, b))
  {
    var holds := Dominated();
    forall p, q | p >= 0.0 && q >= 0.0 ensures holds(p, q, 0.0) { DominatedAtStart(p, q); }
    forall p, q, d, x, y, p', q', d' | Extends(p, q, d, x, y, p', q', d') && holds(p, q, d) ensures holds(p', q', d') {
      DominatedStep(p, q, d, x, y, p', q', d');
    }
    DotsSatisfy(holds, a, b);
  }

  lemma CauchySchwarz(a: seq<real>, b: seq<real>)
    ensures Dot(a, b) * Dot(a, b) <= Dot(a, a) * Dot(b, b)
  {
    DotsAreDominated(a, b);
    DominatedMeans(Dot(a, a), Dot(b, b), Dot(a, b), Dot(a, b) * Dot(a, b), Dot(a, a) * Dot(b, b));
  }

  lemma DominatedMeans(p: real, q: real, d: real, dd: real, pq: real)
    requires Dominated()(p, q, d) && dd == d * d && pq == p * q
    ensures dd <= pq
  {
  }

  lemma UnitSquare(q: real)
    requires q * q <= 1.0
    ensures -1.0 <= q <= 1.0
  {
    assert (1.0 - q) * (1.0 + q) >= 0.0;
  }

  lemma DivideOut(w: real, s: real, p: real)
    requires s > 0.0 && p == w * s && p <= s
    ensures w <= 1.0
  {
  }

  lemma SquareOrder(x: real, y: real)
    requires y > 0.0 && x * x <= y * y
    ensures -1.0 <= x / y <= 1.0
  {
    var q := x / y;
    var w, s, p := q * q, y * y, x * x;
    assert x == q * y;
    assert p == w * s;
    SquareSign(y, s);
    DivideOut(w, s, p);
    UnitSquare(q);
  }

  lemma QuotientBounded(dot: real, magA: real, magB: real)
    requires magA >= 0.0 && magB >= 0.0 && dot * dot <= (magA * magA) * (magB * magB)
    ensures -1.0 <= Quotient(dot, magA, magB) <= 1.0
  {
    if magA != 0.0 && magB != 0.0 {
      ProductNonZero(magA, magB);
      assert (magA * magB) * (magA * magB) == (magA * magA) * (magB * magB);
      SquareOrder(dot, magA * magB);
    }
  }

  lemma CosineBounded(sqrt: real -> real, a: seq<real>, b: seq<real>)
    requires IsSqrt(sqrt)
    ensures -1.0 <= CosineOf(sqrt, a, b) <= 1.0
  {
    SquareNonNegative(a);
    SquareNonNegative(b);
    CauchySchwarz(a, b);
    QuotientBounded(Dot(a, b), sqrt(Dot(a, a)), sqrt(Dot(b, b)));
  }

  lemma CosineSymmetric(sqrt: real -> real, a: seq<real>, b: seq<real>)
    ensures CosineOf(sqrt, a, b) == CosineOf(sqrt, b, a)
  {
    DotSymmetric(a, b);
    var ma, mb := sqrt(Dot(a, a)), sqrt(Dot(b, b));
    assert ma * mb == mb * ma;
  }

  ghost predicate NonZero(a: seq<real>) {
    exists i :: 0 <= i < |a| && a[i] != 0.0
  }

  lemma {:induction false} SquarePositive(a: seq<real>)
    requires NonZero(a)
    ensures Dot(a, a) > 0.0
  {
    var x, rest := a[0], a[1..];
    var s := x * x;
    assert Dot(a, a) == s + Dot(rest, rest);
    SquareSign(x, s);
    SquareNonNegative(rest);
    if x == 0.0 {
      var i :| 0 <= i < |a| && a[i] != 0.0;
      assert rest[i - 1] != 0.0;
      SquarePositive(rest);
    }
  }

  lemma QuotientOfSquare(m: real, s: real)
    requires m != 0.0 && s == m * m
    ensures Quotient(s, m, m) == 1.0
  {
    SquareSign(m, s);
    assert s / s == 1.0;
  }

  /** A vector with a non-zero element is exactly similar to itself. */
  lemma CosineSelf(sqrt: real -> real, a: seq<real>)
    requires IsSqrt(sqrt) && NonZero(a)
    ensures CosineOf(sqrt, a, a) == 1.0
  {
    SquarePositive(a);
    QuotientOfSquare(sqrt(Dot(a, a)), Dot(a, a));
  }

  function Negated(a: seq<real>): seq<real> {
    seq(|a|, i requires 0 <= i < |a| => -a[i])
  }

  lemma {:induction false} DotNegated(a: seq<real>, b: seq<real>)
    ensures Dot(a, Negated(b)) == -Dot(a, b)
  {
    if a == [] || b == [] {
    } else {
      DotNegated(a[1..], b[1..]);
      assert Negated(b)[1..] == Negated(b[1..]);
    }
  }

  /** Turning one vector around turns the sign of the similarity. */
  lemma CosineNegated(sqrt: real -> real, a: seq<real>, b: seq<real>)
    ensures CosineOf(sqrt, a, Negated(b)) == -CosineOf(sqrt, a, b)
  {
    DotNegated(a, b);
    DotNegated(Negated(b), b);
    DotSymmetric(Negated(b), b);
    DotNegated(b, b);
    QuotientNegated(Dot(a, b), sqrt(Dot(a, a)), sqrt(Dot(b, b)));
  }

  lemma QuotientNegated(dot: real, magA: real, magB: real)
    ensures Quotient(-dot, magA, magB) == -Quotient(dot, magA, magB)
  {
  }
}
