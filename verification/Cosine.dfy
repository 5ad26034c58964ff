/**
  Cosine similarity as the coalescing layer computes it (internal/coalesce/cosine.go), over the reals and
  in any dimension, and the geometry behind its threshold. `math.Sqrt` is a parameter: every statement
  holds of every function that returns a non-negative square root of each non-negative number.
 */
module Cosine {
  import opened RealArith

  type Vector = seq<real>

  /** The inner product, adding from the first component to the last. */
  function Dot(a: Vector, b: Vector): real
    requires |a| == |b|
  {
    if |a| == 0 then 0.0
    else Dot(a[..|a| - 1], b[..|b| - 1]) + Times(a[|a| - 1], b[|b| - 1])
  }

  ghost predicate NonZero(a: Vector) {
    exists i :: 0 <= i < |a| && a[i] != 0.0
  }

  /** What the similarity is defined on: two non-zero vectors of one dimension. */
  ghost predicate Comparable(a: Vector, b: Vector) {
    |a| == |b| && NonZero(a) && NonZero(b)
  }

  ghost predicate IsSqrt(sqrt: real -> real) {
    forall x: real :: x >= 0.0 ==> sqrt(x) >= 0.0 && Times(sqrt(x), sqrt(x)) == x
  }

  /** The angle's cosine; only meaningful on comparable vectors. */
  ghost function Cos(sqrt: real -> real, a: Vector, b: Vector): real
    requires IsSqrt(sqrt) && Comparable(a, b)
  {
    NonZeroNorm(sqrt, a);
    NonZeroNorm(sqrt, b);
    Positive(sqrt(Dot(a, a)), sqrt(Dot(b, b)));
    Dot(a, b) / Times(sqrt(Dot(a, a)), sqrt(Dot(b, b)))
  }

  lemma {:induction false} SquareNonNegative(a: Vector)
    ensures Dot(a, a) >= 0.0
  {
    if |a| > 0 {
      SquareNonNegative(a[..|a| - 1]);
      Square(a[|a| - 1]);
    }
  }

  lemma {:induction false} SquarePositive(a: Vector)
    ensures Dot(a, a) > 0.0 <==> NonZero(a)
  {
    if |a| > 0 {
      var b := a[..|a| - 1];
      var x := a[|a| - 1];
      SquareNonNegative(b);
      SquarePositive(b);
      Square(x);
      if NonZero(b) {
        var i :| 0 <= i < |b| && b[i] != 0.0;
        assert a[i] != 0.0;
      } else if x == 0.0 {
        forall i | 0 <= i < |a| ensures a[i] == 0.0 {
          assert i == |a| - 1 || a[i] == b[i];
        }
      }
    }
  }

  lemma NonZeroNorm(sqrt: real -> real, a: Vector)
    requires IsSqrt(sqrt) && NonZero(a)
    ensures Dot(a, a) > 0.0 && sqrt(Dot(a, a)) > 0.0
  {
    SquarePositive(a);
    assert sqrt(Dot(a, a)) != 0.0;
  }

  /** One pass with three accumulators; refuses exactly the pairs that are not comparable. */
  method CosineSimilarity(sqrt: real -> real, a: Vector, b: Vector) returns (sim: real, ok: bool)
    requires IsSqrt(sqrt)
    ensures ok <==> Comparable(a, b)
    ensures ok ==> sim == Cos(sqrt, a, b)
    ensures !ok ==> sim == 0.0
  {
    if |a| == 0 || |a| != |b| {
      return 0.0, false;
    }
    var na, nb, dot := 0.0, 0.0, 0.0;
    for i := 0 to |a|
      invariant dot == Dot(a[..i], b[..i])
      invariant na == Dot(a[..i], a[..i])
      invariant nb == Dot(b[..i], b[..i])
    {
      assert a[..i + 1][..i] == a[..i] && b[..i + 1][..i] == b[..i];
      var x, y := a[i], b[i];
      dot := dot + x * y;
      na := na + x * x;
      nb := nb + y * y;
    }
    assert a[..|a|] == a && b[..|b|] == b;
    SquarePositive(a);
    SquarePositive(b);
    SquareNonNegative(a);
    SquareNonNegative(b);
    if na == 0.0 || nb == 0.0 {
      return 0.0, false;
    }
    NonZeroNorm(sqrt, a);
    NonZeroNorm(sqrt, b);
    Positive(sqrt(na), sqrt(nb));
    return dot / (sqrt(na) * sqrt(nb)), true;
  }

  // ---------------------------------------------------------------------------------------------------
  // Bilinearity and the Cauchy-Schwarz inequality
  // ---------------------------------------------------------------------------------------------------

  lemma {:induction false} DotSymmetric(a: Vector, b: Vector)
    requires |a| == |b|
    ensures Dot(a, b) == Dot(b, a)
  {
    if |a| > 0 {
      DotSymmetric(a[..|a| - 1], b[..|b| - 1]);
    }
  }

  /** The linear combination x*a + y*b. */
  ghost function Comb(x: real, a: Vector, y: real, b: Vector): (c: Vector)
    requires |a| == |b|
    ensures |c| == |a|
  {
    seq(|a|, i requires 0 <= i < |a| => Times(x, a[i]) + Times(y, b[i]))
  }

  lemma {:induction false} DotComb(x: real, a: Vector, y: real, b: Vector, c: Vector)
    requires |a| == |b| == |c|
    ensures Dot(Comb(x, a, y, b), c) == Times(x, Dot(a, c)) + Times(y, Dot(b, c))
  {
    hide Times;
    if |a| == 0 {
      Units(x);
      Units(y);
    } else {
      var n := |a| - 1;
      DotComb(x, a[..n], y, b[..n], c[..n]);
      assert Comb(x, a, y, b)[..n] == Comb(x, a[..n], y, b[..n]);
      Distribute(c[n], Times(x, a[n]), Times(y, b[n]));
      Associate(x, a[n], c[n]);
      Associate(y, b[n], c[n]);
      Distribute(x, Dot(a[..n], c[..n]), Times(a[n], c[n]));
      Distribute(y, Dot(b[..n], c[..n]), Times(b[n], c[n]));
    }
  }

  lemma DotWithComb(a: Vector, z: real, b: Vector, w: real, r: Vector)
    requires |a| == |b| == |r|
    ensures Dot(a, Comb(z, b, w, r)) == Times(z, Dot(a, b)) + Times(w, Dot(a, r))
  {
    hide Times, Dot, Comb;
    DotComb(z, b, w, r, a);
    DotSymmetric(Comb(z, b, w, r), a);
    DotSymmetric(a, b);
    DotSymmetric(a, r);
  }

  /**
    With R = r.r, p = u.r and q = v.r, the vectors R*u - p*r and R*v - q*r are what is left of u and v, scaled,
    once their parts along r are taken away. This is their inner product.
   */
  lemma DotOrthogonal(u: Vector, v: Vector, r: Vector, R: real, p: real, q: real)
    requires |u| == |v| == |r| && R == Dot(r, r) && p == Dot(u, r) && q == Dot(v, r)
    ensures Dot(Comb(R, u, -p, r), Comb(R, v, -q, r)) == Times(R, Times(R, Dot(u, v)) - Times(p, q))
  {
    hide Times, Comb, Dot;
    var a, b := Comb(R, u, -p, r), Comb(R, v, -q, r);
    DotComb(R, u, -p, r, b);
    DotWithComb(u, R, v, -q, r);
    DotWithComb(r, R, v, -q, r);
    DotSymmetric(r, v);
    OrthogonalExpansion(R, p, q, Dot(u, v), Dot(u, b), Dot(r, b), Dot(a, b));
  }

  lemma {:induction false} ZeroVector(a: Vector, b: Vector)
    requires |a| == |b| && !NonZero(b)
    ensures Dot(a, b) == 0.0
  {
    if |a| > 0 {
      var c := b[..|b| - 1];
      forall i | 0 <= i < |c| ensures c[i] == 0.0 {
        assert c[i] == b[i];
      }
      ZeroVector(a[..|a| - 1], c);
    }
  }

  lemma CauchySchwarz(a: Vector, b: Vector)
    requires |a| == |b|
    ensures Times(Dot(a, b), Dot(a, b)) <= Times(Dot(a, a), Dot(b, b))
  {
    hide Times;
    var A, B, p := Dot(a, a), Dot(b, b), Dot(a, b);
    SquareNonNegative(b);
    SquarePositive(b);
    Commute(A, B);
    if B > 0.0 {
      // The square of B*a - p*b is B*(B*A - p*p), and a square is not negative.
      DotOrthogonal(a, a, b, B, p, p);
      SquareNonNegative(Comb(B, a, -p, b));
      PositiveFactor(B, Times(B, A) - Times(p, p));
    } else {
      ZeroVector(a, b);
      Units(p);
      Units(A);
    }
  }

  // ---------------------------------------------------------------------------------------------------
  // The similarity itself
  // ---------------------------------------------------------------------------------------------------

  /** The numerator never exceeds the denominator: |a.b| <= |a||b|. */
  lemma DotWithinNorms(sqrt: real -> real, a: Vector, b: Vector)
    requires IsSqrt(sqrt) && |a| == |b|
    ensures var n := Times(sqrt(Dot(a, a)), sqrt(Dot(b, b))); -n <= Dot(a, b) <= n
  {
    hide Times;
    SquareNonNegative(a);
    SquareNonNegative(b);
    CauchySchwarz(a, b);
    var x, y := sqrt(Dot(a, a)), sqrt(Dot(b, b));
    Regroup(x, y, x, y);
    NonNegative(x, y);
    SquareBound(Dot(a, b), Times(x, y));
  }

  lemma CosineRange(sqrt: real -> real, a: Vector, b: Vector)
    requires IsSqrt(sqrt) && Comparable(a, b)
    ensures -1.0 <= Cos(sqrt, a, b) <= 1.0
  {
    hide Times;
    NonZeroNorm(sqrt, a);
    NonZeroNorm(sqrt, b);
    DotWithinNorms(sqrt, a, b);
    var d, n := Dot(a, b), Times(sqrt(Dot(a, a)), sqrt(Dot(b, b)));
    Positive(sqrt(Dot(a, a)), sqrt(Dot(b, b)));
    Quotient(d, n);
    Units(n);
    Negate(1.0, n);
    Compare(d / n, -1.0, n);
    Compare(1.0, d / n, n);
  }

  lemma CosineSymmetric(sqrt: real -> real, a: Vector, b: Vector)
    requires IsSqrt(sqrt) && Comparable(a, b)
    ensures Cos(sqrt, a, b) == Cos(sqrt, b, a)
  {
    hide Times;
    DotSymmetric(a, b);
    Commute(sqrt(Dot(a, a)), sqrt(Dot(b, b)));
  }

  lemma CosineSelf(sqrt: real -> real, a: Vector)
    requires IsSqrt(sqrt) && NonZero(a)
    ensures Cos(sqrt, a, a) == 1.0
  {
    hide Times;
    NonZeroNorm(sqrt, a);
    Units(Dot(a, a));
    QuotientUnique(Dot(a, a), Dot(a, a), 1.0);
  }

  /** The vector k*a. */
  ghost function Scale(k: real, a: Vector): (b: Vector)
    ensures |b| == |a| && forall i :: 0 <= i < |a| ==> b[i] == Times(k, a[i])
  {
    seq(|a|, i requires 0 <= i < |a| => Times(k, a[i]))
  }

  lemma {:induction false} DotScale(k: real, a: Vector, b: Vector)
    requires |a| == |b|
    ensures Dot(Scale(k, a), b) == Times(k, Dot(a, b))
  {
    hide Times;
    if |a| == 0 {
      Units(k);
    } else {
      var n := |a| - 1;
      DotScale(k, a[..n], b[..n]);
      assert Scale(k, a)[..n] == Scale(k, a[..n]);
      Associate(k, a[n], b[n]);
      Distribute(k, Dot(a[..n], b[..n]), Times(a[n], b[n]));
    }
  }

  lemma NormScale(sqrt: real -> real, k: real, a: Vector)
    requires IsSqrt(sqrt) && NonZero(a) && k > 0.0
    ensures NonZero(Scale(k, a))
    ensures sqrt(Dot(Scale(k, a), Scale(k, a))) == Times(k, sqrt(Dot(a, a)))
  {
    hide Times;
    var c := Scale(k, a);
    NonZeroNorm(sqrt, a);
    DotScale(k, a, c);
    DotSymmetric(a, c);
    DotScale(k, a, a);
    var A, x := Dot(a, a), sqrt(Dot(a, a));
    Positive(k, A);
    Positive(k, Times(k, A));
    SquarePositive(c);
    NonZeroNorm(sqrt, c);
    Regroup(k, x, k, x);
    Associate(k, k, A);
    Positive(k, x);
    RootUnique(sqrt(Dot(c, c)), Times(k, x));
  }

  /** Positive scaling of either argument leaves the similarity alone. */
  lemma CosineScaleInvariant(sqrt: real -> real, k: real, a: Vector, b: Vector)
    requires IsSqrt(sqrt) && Comparable(a, b) && k > 0.0
    ensures Comparable(Scale(k, a), b)
    ensures Cos(sqrt, Scale(k, a), b) == Cos(sqrt, a, b)
    ensures Cos(sqrt, b, Scale(k, a)) == Cos(sqrt, b, a)
  {
    hide Times;
    NormScale(sqrt, k, a);
    DotScale(k, a, b);
    NonZeroNorm(sqrt, a);
    NonZeroNorm(sqrt, b);
    var x, y := sqrt(Dot(a, a)), sqrt(Dot(b, b));
    Positive(x, y);
    Associate(k, x, y);
    CancelFactor(k, Dot(a, b), Times(x, y));
    CosineSymmetric(sqrt, Scale(k, a), b);
    CosineSymmetric(sqrt, a, b);
  }

  // ---------------------------------------------------------------------------------------------------
  // The merge test and its geometry
  // ---------------------------------------------------------------------------------------------------

  /** How a merger decides: the square root it uses and its threshold. */
  datatype Measure = Measure(sqrt: real -> real, threshold: real)

  /** `ok && sim >= threshold` */
  ghost predicate Similar(m: Measure, a: Vector, b: Vector)
    requires IsSqrt(m.sqrt)
  {
    Comparable(a, b) && Cos(m.sqrt, a, b) >= m.threshold
  }

  /** 2t^2 - 1, the cosine of twice the threshold's angle. */
  function SharedBound(m: Measure): real {
    2.0 * Times(m.threshold, m.threshold) - 1.0
  }

  lemma SimilarSymmetric(m: Measure, a: Vector, b: Vector)
    requires IsSqrt(m.sqrt)
    ensures Similar(m, a, b) <==> Similar(m, b, a)
  {
    if Comparable(a, b) {
      CosineSymmetric(m.sqrt, a, b);
    }
  }

  /** The test, multiplied out: a.b >= t|a||b|. */
  lemma SimilarMultipliedOut(m: Measure, a: Vector, b: Vector)
    requires IsSqrt(m.sqrt) && Comparable(a, b)
    ensures var x, y := m.sqrt(Dot(a, a)), m.sqrt(Dot(b, b));
            x > 0.0 && y > 0.0 && Times(x, x) == Dot(a, a) && Times(y, y) == Dot(b, b)
            && (Similar(m, a, b) <==> Dot(a, b) >= Times(m.threshold, Times(x, y)))
  {
    hide Times;
    NonZeroNorm(m.sqrt, a);
    NonZeroNorm(m.sqrt, b);
    var x, y := m.sqrt(Dot(a, a)), m.sqrt(Dot(b, b));
    Positive(x, y);
    QuotientAtLeast(Dot(a, b), Times(x, y), m.threshold);
  }

  /** For a positive threshold the test needs no square root. */
  lemma SimilarWithoutRoots(m: Measure, a: Vector, b: Vector)
    requires IsSqrt(m.sqrt) && m.threshold > 0.0 && Comparable(a, b)
    ensures Similar(m, a, b) <==>
            Dot(a, b) > 0.0
            && Times(Dot(a, b), Dot(a, b)) >= Times(Times(m.threshold, m.threshold), Times(Dot(a, a), Dot(b, b)))
  {
    hide Times;
    SimilarMultipliedOut(m, a, b);
    CompareSquares(m.threshold, m.sqrt(Dot(a, a)), m.sqrt(Dot(b, b)), Dot(a, b));
  }

  /** Cauchy-Schwarz on what is left of u and v once their parts along r are taken away. */
  lemma OrthogonalParts(u: Vector, v: Vector, r: Vector)
    requires |u| == |v| == |r| && Dot(r, r) > 0.0
    ensures var R, p, q := Dot(r, r), Dot(u, r), Dot(v, r);
            var d := Times(R, Dot(u, v)) - Times(p, q);
            Times(d, d) <= Times(Times(R, Dot(u, u)) - Times(p, p), Times(R, Dot(v, v)) - Times(q, q))
  {
    hide Times, Comb, Dot;
    var R, p, q := Dot(r, r), Dot(u, r), Dot(v, r);
    DotOrthogonal(u, v, r, R, p, q);
    DotOrthogonal(u, u, r, R, p, p);
    DotOrthogonal(v, v, r, R, q, q);
    CauchySchwarz(Comb(R, u, -p, r), Comb(R, v, -q, r));
    CancelSquares(R, Times(R, Dot(u, v)) - Times(p, q), Times(R, Dot(u, u)) - Times(p, p),
                  Times(R, Dot(v, v)) - Times(q, q));
  }

  /**
    Two vectors that both reach the threshold t against one representative are themselves at cosine
    at least 2t^2 - 1: the angles add up to at most twice the threshold's angle.
   */
  lemma SharedRepresentative(m: Measure, u: Vector, v: Vector, r: Vector)
    requires IsSqrt(m.sqrt) && 0.0 < m.threshold <= 1.0
    requires Similar(m, u, r) && Similar(m, v, r)
    ensures Comparable(u, v)
    ensures Cos(m.sqrt, u, v) >= SharedBound(m)
  {
    hide Times;
    var x, y, n := m.sqrt(Dot(u, u)), m.sqrt(Dot(v, v)), m.sqrt(Dot(r, r));
    SimilarMultipliedOut(m, u, r);
    SimilarMultipliedOut(m, v, r);
    Positive(n, n);
    CauchySchwarz(u, r);
    CauchySchwarz(v, r);
    Commute(Dot(u, u), Dot(r, r));
    Commute(Dot(v, v), Dot(r, r));
    OrthogonalParts(u, v, r);
    AngleSum(m.threshold, x, y, n, Dot(u, r), Dot(v, r), Dot(u, v));
    Positive(x, y);
    QuotientAtLeast(Dot(u, v), Times(x, y), SharedBound(m));
  }

  /** A vector that reaches the threshold t <= 1 against r is itself within the sharers' bound of r. */
  lemma RepresentativeItself(m: Measure, u: Vector, r: Vector)
    requires IsSqrt(m.sqrt) && 0.0 < m.threshold <= 1.0 && Similar(m, u, r)
    ensures Cos(m.sqrt, u, r) >= SharedBound(m)
    ensures Cos(m.sqrt, r, u) >= SharedBound(m)
  {
    hide Times;
    var t := m.threshold;
    Monotone(t, t, t, 1.0);
    Units(t);
    CosineSymmetric(m.sqrt, u, r);
  }
}
