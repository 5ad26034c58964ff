/**
  Multiplication of reals under a name, with the laws the cosine proofs use. The proofs below the laws hide
  the definition of `Times`, so that the solver only ever rewrites by a law that is called.
 */
module RealArith {

  function Times(x: real, y: real): real {
    x * y
  }

  // The laws, one at a time.

  lemma Commute(x: real, y: real)
    ensures Times(x, y) == Times(y, x)
  {
  }

  lemma Associate(x: real, y: real, z: real)
    ensures Times(Times(x, y), z) == Times(x, Times(y, z))
  {
  }

  lemma Distribute(x: real, a: real, b: real)
    ensures Times(x, a + b) == Times(x, a) + Times(x, b)
    ensures Times(x, a - b) == Times(x, a) - Times(x, b)
    ensures Times(a + b, x) == Times(a, x) + Times(b, x)
    ensures Times(a - b, x) == Times(a, x) - Times(b, x)
  {
  }

  lemma Negate(x: real, y: real)
    ensures Times(-x, y) == -Times(x, y)
    ensures Times(x, -y) == -Times(x, y)
  {
  }

  lemma Units(x: real)
    ensures Times(1.0, x) == x && Times(x, 1.0) == x
    ensures Times(0.0, x) == 0.0 && Times(x, 0.0) == 0.0
    ensures Times(2.0, x) == 2.0 * x
  {
  }

  lemma Positive(x: real, y: real)
    requires x > 0.0 && y > 0.0
    ensures Times(x, y) > 0.0
  {
  }

  lemma NonNegative(x: real, y: real)
    requires x >= 0.0 && y >= 0.0
    ensures Times(x, y) >= 0.0
  {
  }

  lemma Quotient(d: real, n: real)
    requires n > 0.0
    ensures Times(d / n, n) == d
  {
  }

  // Consequences.

  lemma Square(x: real)
    ensures Times(x, x) >= 0.0
    ensures x != 0.0 ==> Times(x, x) > 0.0
  {
    hide Times;
    if x > 0.0 {
      Positive(x, x);
    } else if x < 0.0 {
      Positive(-x, -x);
      Negate(x, -x);
      Negate(x, x);
    } else {
      Units(x);
    }
  }

  /** (a*b)*(c*d) == (a*c)*(b*d) */
  lemma Regroup(a: real, b: real, c: real, d: real)
    ensures Times(Times(a, b), Times(c, d)) == Times(Times(a, c), Times(b, d))
  {
    hide Times;
    Associate(a, b, Times(c, d));
    Associate(b, c, d);
    Commute(b, c);
    Associate(c, b, d);
    Associate(a, c, Times(b, d));
  }

  lemma Compare(q: real, t: real, n: real)
    requires n > 0.0
    ensures q >= t <==> Times(q, n) >= Times(t, n)
  {
    hide Times;
    Distribute(n, q, t);
    Distribute(n, t, q);
    if q >= t {
      NonNegative(q - t, n);
    } else {
      Positive(t - q, n);
    }
  }

  lemma PositiveFactor(x: real, y: real)
    requires x > 0.0 && Times(x, y) >= 0.0
    ensures y >= 0.0
  {
    hide Times;
    Commute(x, y);
    Units(x);
    Compare(y, 0.0, x);
  }

  lemma Monotone(a: real, b: real, c: real, d: real)
    requires 0.0 <= a <= b && 0.0 <= c <= d
    ensures Times(a, c) <= Times(b, d)
  {
    hide Times;
    NonNegative(b - a, c);
    NonNegative(b, d - c);
    Distribute(c, b, a);
    Distribute(b, d, c);
  }

  lemma DifferenceOfSquares(p: real, q: real)
    ensures Times(p, p) - Times(q, q) == Times(p - q, p + q)
  {
    hide Times;
    Distribute(p + q, p, q);
    Distribute(p, p, q);
    Distribute(q, p, q);
    Commute(p, q);
  }

  lemma SquareBound(p: real, q: real)
    requires q >= 0.0 && Times(p, p) <= Times(q, q)
    ensures -q <= p <= q
  {
    hide Times;
    DifferenceOfSquares(p, q);
    if p > q {
      Positive(p - q, p + q);
    }
    if p < -q {
      Positive(-(p - q), -(p + q));
      Negate(p - q, -(p + q));
      Negate(p - q, p + q);
    }
  }

  lemma RootUnique(x: real, y: real)
    requires x >= 0.0 && y >= 0.0 && Times(x, x) == Times(y, y)
    ensures x == y
  {
    hide Times;
    SquareBound(x, y);
    SquareBound(y, x);
  }

  lemma QuotientAtLeast(d: real, n: real, t: real)
    requires n > 0.0
    ensures d / n >= t <==> d >= Times(t, n)
  {
    hide Times;
    Quotient(d, n);
    Compare(d / n, t, n);
  }

  lemma QuotientUnique(d: real, n: real, q: real)
    requires n > 0.0 && Times(q, n) == d
    ensures d / n == q
  {
    hide Times;
    Quotient(d, n);
    Compare(d / n, q, n);
    Compare(q, d / n, n);
  }

  lemma CancelFactor(k: real, d: real, n: real)
    requires k > 0.0 && n > 0.0
    ensures Times(k, n) > 0.0
    ensures Times(k, d) / Times(k, n) == d / n
  {
    hide Times;
    Positive(k, n);
    Quotient(d, n);
    var q := d / n;
    Associate(q, k, n);
    Commute(q, k);
    Associate(k, q, n);
    QuotientUnique(Times(k, d), Times(k, n), q);
  }

  /** A square factor cancels from an inequality between products. */
  lemma CancelSquares(k: real, x: real, y: real, z: real)
    requires k > 0.0 && Times(Times(k, x), Times(k, x)) <= Times(Times(k, y), Times(k, z))
    ensures Times(x, x) <= Times(y, z)
  {
    hide Times;
    Regroup(k, x, k, x);
    Regroup(k, y, k, z);
    Positive(k, k);
    Commute(Times(k, k), Times(x, x));
    Commute(Times(k, k), Times(y, z));
    Compare(Times(y, z), Times(x, x), Times(k, k));
  }

  /** For t, x, y > 0: d >= t*x*y exactly when d > 0 and the squares compare that way. */
  lemma CompareSquares(t: real, x: real, y: real, d: real)
    requires t > 0.0 && x > 0.0 && y > 0.0
    ensures d >= Times(t, Times(x, y))
            <==> d > 0.0 && Times(d, d) >= Times(Times(t, t), Times(Times(x, x), Times(y, y)))
  {
    hide Times;
    var q := Times(t, Times(x, y));
    Positive(x, y);
    Positive(t, Times(x, y));
    Regroup(t, Times(x, y), t, Times(x, y));
    Regroup(x, y, x, y);
    if d >= q {
      Monotone(q, d, q, d);
    } else if d > 0.0 {
      DifferenceOfSquares(q, d);
      Positive(q - d, q + d);
    }
  }

  /** R*(R*s - q*p) - p*(R*q - q*R) == R*(R*s - p*q), term by term. */
  lemma OrthogonalExpansion(R: real, p: real, q: real, s: real, ub: real, rb: real, ab: real)
    requires ub == Times(R, s) + Times(-q, p)
    requires rb == Times(R, q) + Times(-q, R)
    requires ab == Times(R, ub) + Times(-p, rb)
    ensures ab == Times(R, Times(R, s) - Times(p, q))
  {
    hide Times;
    Negate(q, p);
    Negate(q, R);
    Commute(q, p);
    Commute(q, R);
    Units(-p);
  }

  /** Two projections of at least t times the norms multiply to at least t^2 times the product of the norms. */
  lemma ProjectionProduct(t: real, x: real, y: real, n: real, p: real, q: real)
    requires t > 0.0 && x > 0.0 && y > 0.0 && n > 0.0
    requires p >= Times(t, Times(x, n)) && q >= Times(t, Times(y, n))
    ensures Times(p, q) >= Times(Times(t, t), Times(Times(n, n), Times(x, y)))
  {
    hide Times;
    Positive(x, n);
    Positive(y, n);
    Positive(t, Times(x, n));
    Positive(t, Times(y, n));
    Monotone(Times(t, Times(x, n)), p, Times(t, Times(y, n)), q);
    Regroup(t, Times(x, n), t, Times(y, n));
    Regroup(x, n, y, n);
    Commute(Times(x, y), Times(n, n));
  }

  /** With every product named: X*Y = k*k, and 1 - t^2 bounds what is left of X and Y. */
  lemma AngleSumScaled(tt: real, X: real, Y: real, k: real, pp: real, qq: real, pq: real, s: real)
    requires 0.0 <= tt <= 1.0 && X >= 0.0 && Y >= 0.0 && k >= 0.0 && Times(X, Y) == Times(k, k)
    requires Times(tt, X) <= pp <= X && Times(tt, Y) <= qq <= Y && pq >= Times(tt, k)
    requires Times(s - pq, s - pq) <= Times(X - pp, Y - qq)
    ensures s >= Times(2.0 * tt - 1.0, k)
  {
    hide Times;
    var e := 1.0 - tt;
    Distribute(X, 1.0, tt);
    Distribute(Y, 1.0, tt);
    Distribute(k, 1.0, tt);
    Distribute(k, tt, e);
    Units(X);
    Units(Y);
    Units(k);
    assert tt - e == 2.0 * tt - 1.0;
    Monotone(X - pp, Times(e, X), Y - qq, Times(e, Y));
    Regroup(e, X, e, Y);
    Regroup(e, k, e, k);
    NonNegative(e, k);
    SquareBound(s - pq, Times(e, k));
  }

  /**
    The step behind twice the angle. x, y and n are the norms of u, v and r, p = u.r, q = v.r, s = u.v;
    both cosines against r are at least t, and the parts orthogonal to r obey Cauchy-Schwarz.
   */
  lemma AngleSum(t: real, x: real, y: real, n: real, p: real, q: real, s: real)
    requires 0.0 < t <= 1.0 && x > 0.0 && y > 0.0 && n > 0.0
    requires p >= Times(t, Times(x, n)) && q >= Times(t, Times(y, n))
    requires Times(p, p) <= Times(Times(n, n), Times(x, x)) && Times(q, q) <= Times(Times(n, n), Times(y, y))
    requires var d := Times(Times(n, n), s) - Times(p, q);
             Times(d, d) <= Times(Times(Times(n, n), Times(x, x)) - Times(p, p),
                                  Times(Times(n, n), Times(y, y)) - Times(q, q))
    ensures s >= Times(2.0 * Times(t, t) - 1.0, Times(x, y))
  {
    hide Times;
    var R, w, tt := Times(n, n), Times(x, y), Times(t, t);
    Monotone(t, 1.0, t, 1.0);
    Units(1.0);
    Square(t);
    ProjectionProduct(t, x, y, n, p, q);
    ProjectionProduct(t, x, x, n, p, p);
    ProjectionProduct(t, y, y, n, q, q);
    var X, Y, k := Times(R, Times(x, x)), Times(R, Times(y, y)), Times(R, w);
    Positive(n, n);
    Positive(x, x);
    Positive(y, y);
    Positive(x, y);
    Positive(R, Times(x, x));
    Positive(R, Times(y, y));
    Positive(R, w);
    Regroup(R, Times(x, x), R, Times(y, y));
    Regroup(R, w, R, w);
    Regroup(x, x, y, y);
    AngleSumScaled(tt, X, Y, k, Times(p, p), Times(q, q), Times(p, q), Times(R, s));
    var c := 2.0 * tt - 1.0;
    Associate(c, w, R);
    Commute(R, w);
    Commute(R, s);
    Compare(s, Times(c, w), R);
  }
}
