/**
 `cosine_similarity` of rag/engines/retriever.py, repeated in rag/engines/vector_store.py,
 over exact reals. The square root is an argument: any function that computes one.
 */
module CosineSimilarity {
  type Vector = seq<real>

  function Sq(x: real): real {
    x * x
  }

  /** `sum(x * y for x, y in zip(a, b))`. */
  function Dot(a: Vector, b: Vector): real
    requires |a| == |b|
  {
    if a == [] then 0.0 else Dot(a[..|a| - 1], b[..|b| - 1]) + a[|a| - 1] * b[|b| - 1]
  }

  function Difference(s: real, x: real, t: real, y: real): real {
    s * x - t * y
  }

  /** The sum of the squares of s * a[i] - t * b[i]. */
  ghost function Gap(a: Vector, b: Vector, s: real, t: real): real
    requires |a| == |b|
  {
    if a == [] then 0.0
    else Gap(a[..|a| - 1], b[..|b| - 1], s, t) + Sq(Difference(s, a[|a| - 1], t, b[|b| - 1]))
  }

  // ---------------------------------------------------------------------------
  // Arithmetic; products are named so that the solver compares variables only
  // ---------------------------------------------------------------------------

  lemma PositiveProduct(u: real, v: real, uv: real)
    requires u > 0.0 && v > 0.0 && uv == u * v
    ensures uv > 0.0
  {
  }

  lemma SquareSign(d: real)
    ensures d != 0.0 ==> Sq(d) > 0.0
    ensures d == 0.0 ==> Sq(d) == 0.0
    ensures Sq(-d) == Sq(d)
  {
    if d > 0.0 {
      PositiveProduct(d, d, Sq(d));
    } else if d < 0.0 {
      PositiveProduct(-d, -d, Sq(-d));
    }
  }

  lemma SquareGrows(x: real, y: real)
    requires 0.0 <= y < x
    ensures Sq(y) < Sq(x)
  {
    PositiveProduct(x - y, x + y, Sq(x) - Sq(y));
  }

  lemma SquareOfDifference(s: real, x: real, t: real, y: real)
    ensures Sq(Difference(s, x, t, y)) == s * s * (x * x) - 2.0 * (s * t) * (x * y) + t * t * (y * y)
  {
  }

  lemma Distribute(c: real, u: real, v: real)
    ensures c * (u + v) == c * u + c * v
  {
  }

  lemma Collect(g: real, n: real, d: real, m: real)
    requires g == n * n * m - 2.0 * (n * d) * d + d * d * n
    ensures g == n * (m * n - Sq(d))
  {
  }

  lemma DivideOut(n: real, x: real, nx: real)
    requires n > 0.0 && nx == n * x && nx >= 0.0
    ensures x >= 0.0 && (nx == 0.0 <==> x == 0.0)
  {
  }

  // ---------------------------------------------------------------------------
  // Cauchy-Schwarz
  // ---------------------------------------------------------------------------

  lemma {:induction false} GapExpands(a: Vector, b: Vector, s: real, t: real, g: real, m: real, d: real, n: real)
    requires |a| == |b| && g == Gap(a, b, s, t)
    requires m == Dot(a, a) && d == Dot(a, b) && n == Dot(b, b)
    ensures g == s * s * m - 2.0 * (s * t) * d + t * t * n
  {
    if a != [] {
      var a', b', x, y := a[..|a| - 1], b[..|b| - 1], a[|a| - 1], b[|b| - 1];
      var g', m', d', n' := Gap(a', b', s, t), Dot(a', a'), Dot(a', b'), Dot(b', b');
      GapExpands(a', b', s, t, g', m', d', n');
      ExpandStep(s, x, t, y, g', m', d', n', g, m, d, n);
    }
  }

  lemma ExpandStep(s: real, x: real, t: real, y: real, g: real, m: real, d: real, n: real,
                   g1: real, m1: real, d1: real, n1: real)
    requires g == s * s * m - 2.0 * (s * t) * d + t * t * n
    requires g1 == g + Sq(Difference(s, x, t, y)) && m1 == m + x * x && d1 == d + x * y && n1 == n + y * y
    ensures g1 == s * s * m1 - 2.0 * (s * t) * d1 + t * t * n1
  {
    var xx, xy, yy := x * x, x * y, y * y;
    SquareOfDifference(s, x, t, y);
    Distribute(s * s, m, xx);
    Distribute(2.0 * (s * t), d, xy);
    Distribute(t * t, n, yy);
  }

  /** The gap closes exactly when s * a == t * b. */
  lemma {:induction false} GapZeroIff(a: Vector, b: Vector, s: real, t: real)
    requires |a| == |b|
    ensures Gap(a, b, s, t) >= 0.0
    ensures Gap(a, b, s, t) == 0.0 <==> Scaled(a, b, s, t)
  {
    if a != [] {
      var a', b' := a[..|a| - 1], b[..|b| - 1];
      GapZeroIff(a', b', s, t);
      SquareSign(Difference(s, a[|a| - 1], t, b[|b| - 1]));
      assert forall i :: 0 <= i < |a'| ==> a'[i] == a[i] && b'[i] == b[i];
      if Gap(a, b, s, t) == 0.0 {
        forall i | 0 <= i < |a| ensures Difference(s, a[i], t, b[i]) == 0.0 {
          assert i < |a'| ==> Difference(s, a'[i], t, b'[i]) == 0.0;
        }
      }
    }
  }

  /** s * a == t * b, element by element. */
  ghost predicate Scaled(a: Vector, b: Vector, s: real, t: real)
    requires |a| == |b|
  {
    forall i :: 0 <= i < |a| ==> Difference(s, a[i], t, b[i]) == 0.0
  }

  /** One vector is a multiple of the other. */
  ghost predicate Proportional(a: Vector, b: Vector)
    requires |a| == |b|
  {
    exists s, t :: (s != 0.0 || t != 0.0) && Scaled(a, b, s, t)
  }

  lemma {:induction false} NormSign(a: Vector)
    ensures Dot(a, a) >= 0.0
    ensures Dot(a, a) == 0.0 ==> forall i :: 0 <= i < |a| ==> a[i] == 0.0
  {
    var m := Dot(a, a);
    GapExpands(a, a, 1.0, 0.0, Gap(a, a, 1.0, 0.0), m, m, m);
    GapZeroIff(a, a, 1.0, 0.0);
    if m == 0.0 {
      forall i | 0 <= i < |a| ensures a[i] == 0.0 {
        assert Difference(1.0, a[i], 0.0, a[i]) == 0.0;
      }
    }
  }

  lemma {:induction false} DotZero(a: Vector, b: Vector)
    requires |a| == |b| && ((forall i :: 0 <= i < |b| ==> b[i] == 0.0) || (forall i :: 0 <= i < |a| ==> a[i] == 0.0))
    ensures Dot(a, b) == 0.0
  {
    if a != [] {
      DotZero(a[..|a| - 1], b[..|b| - 1]);
    }
  }

  /** (a . b)^2 <= (a . a) (b . b), with equality exactly for proportional vectors. */
  lemma {:induction false} CauchySchwarz(a: Vector, b: Vector)
    requires |a| == |b|
    ensures Sq(Dot(a, b)) <= Dot(a, a) * Dot(b, b)
    ensures Sq(Dot(a, b)) == Dot(a, a) * Dot(b, b) <==> Proportional(a, b)
  {
    NormSign(b);
    if Dot(b, b) == 0.0 {
      DotZero(a, b);
      SquareSign(Dot(a, b));
      assert Scaled(a, b, 0.0, 1.0);
    } else {
      BoundAndTightness(a, b, Dot(a, a), Dot(a, b), Dot(b, b), Dot(a, a) * Dot(b, b));
    }
  }

  lemma {:induction false} BoundAndTightness(a: Vector, b: Vector, m: real, d: real, n: real, mn: real)
    requires |a| == |b| && m == Dot(a, a) && d == Dot(a, b) && n == Dot(b, b) && n > 0.0 && mn == m * n
    ensures Sq(d) <= mn
    ensures Sq(d) == mn <==> Proportional(a, b)
  {
    BoundedByProjection(a, b, m, d, n, mn);
    if s, t :| (s != 0.0 || t != 0.0) && Scaled(a, b, s, t) {
      ScaledIsTight(a, b, s, t, m, d, n);
    }
  }

  lemma {:induction false} BoundedByProjection(a: Vector, b: Vector, m: real, d: real, n: real, mn: real)
    requires |a| == |b| && m == Dot(a, a) && d == Dot(a, b) && n == Dot(b, b) && n > 0.0 && mn == m * n
    ensures Sq(d) <= mn
    ensures Sq(d) == mn <==> Scaled(a, b, n, d)
  {
    var g, x := Gap(a, b, n, d), mn - Sq(d);
    GapOfProjection(a, b, g, m, d, n, x);
    GapZeroIff(a, b, n, d);
    DivideOut(n, x, g);
  }

  lemma {:induction false} ScaledDot(a: Vector, b: Vector, c: Vector, s: real, t: real, p: real, q: real)
    requires |a| == |b| == |c| && Scaled(a, b, s, t)
    requires p == Dot(a, c) && q == Dot(b, c)
    ensures s * p == t * q
  {
    if a != [] {
      var k := |a| - 1;
      var p', q' := Dot(a[..k], c[..k]), Dot(b[..k], c[..k]);
      assert forall i :: 0 <= i < k ==> a[..k][i] == a[i] && b[..k][i] == b[i];
      ScaledDot(a[..k], b[..k], c[..k], s, t, p', q');
      assert Difference(s, a[k], t, b[k]) == 0.0;
      ScaledDotStep(s, t, p', q', a[k], b[k], c[k]);
    }
  }

  lemma ScaledDotStep(s: real, t: real, p: real, q: real, x: real, y: real, z: real)
    requires s * p == t * q && s * x == t * y
    ensures s * (p + x * z) == t * (q + y * z)
  {
    assert s * (x * z) == (s * x) * z && t * (y * z) == (t * y) * z;
    Distribute(s, p, x * z);
    Distribute(t, q, y * z);
  }

  lemma {:induction false} ScaledIsTight(a: Vector, b: Vector, s: real, t: real, m: real, d: real, n: real)
    requires |a| == |b| && (s != 0.0 || t != 0.0) && Scaled(a, b, s, t)
    requires m == Dot(a, a) && d == Dot(a, b) && n == Dot(b, b)
    ensures Sq(d) == m * n
  {
    DotCommutes(a, b);
    ScaledDot(a, b, a, s, t, m, d);
    ScaledDot(a, b, b, s, t, d, n);
    if s == 0.0 {
      CancelFactor(t, n, t * n);
      CancelFactor(t, d, t * d);
    } else {
      EqualProducts(s, t, m, d, n, m * n, Sq(d));
    }
  }

  lemma EqualProducts(s: real, t: real, m: real, d: real, n: real, mn: real, dd: real)
    requires s != 0.0 && s * m == t * d && s * d == t * n
    requires mn == m * n && dd == Sq(d)
    ensures mn == dd
  {
    var sm, sd := s * m, s * d;
    assert s * mn == sm * n;
    assert s * dd == sd * d;
    assert sm * n == t * d * n == sd * d;
    assert s * (mn - dd) == s * mn - s * dd;
    CancelFactor(s, mn - dd, s * (mn - dd));
  }

  lemma CancelFactor(s: real, x: real, sx: real)
    requires s != 0.0 && sx == s * x && sx == 0.0
    ensures x == 0.0
  {
  }

  lemma {:induction false} DotCommutes(a: Vector, b: Vector)
    requires |a| == |b|
    ensures Dot(a, b) == Dot(b, a)
  {
    if a != [] {
      DotCommutes(a[..|a| - 1], b[..|b| - 1]);
    }
  }

  lemma {:induction false} GapOfProjection(a: Vector, b: Vector, g: real, m: real, d: real, n: real, x: real)
    requires |a| == |b| && m == Dot(a, a) && d == Dot(a, b) && n == Dot(b, b)
    requires g == Gap(a, b, n, d) && x == m * n - Sq(d)
    ensures g == n * x
  {
    GapExpands(a, b, n, d, g, m, d, n);
    Collect(g, n, d, m);
  }

  // ---------------------------------------------------------------------------
  // The similarity
  // ---------------------------------------------------------------------------

  ghost predicate ComputesRoots(sqrt: real -> real) {
    forall x :: x >= 0.0 ==> sqrt(x) >= 0.0 && Sq(sqrt(x)) == x
  }

  lemma QuotientBounds(d: real, m: real)
    requires m > 0.0 && Sq(d) <= Sq(m)
    ensures -1.0 <= d / m <= 1.0 && d / m * m == d
  {
    SquareSign(d);
    if d > m {
      SquareGrows(d, m);
    } else if d < -m {
      SquareGrows(-d, m);
    }
    var q := d / m;
    assert q * m == d;
    if q > 1.0 {
      PositiveProduct(q - 1.0, m, q * m - m);
    } else if q < -1.0 {
      PositiveProduct(-1.0 - q, m, -m - q * m);
    }
  }

  lemma QuotientSquare(d: real, m: real)
    requires m > 0.0
    ensures Sq(d / m) == 1.0 <==> Sq(d) == Sq(m)
  {
    var q, mm := d / m, Sq(m);
    assert q * m == d;
    SquareSign(m);
    ProductOfSquares(q, m);
    ScaledToOne(Sq(q), mm, Sq(q) * mm);
  }

  lemma ScaledToOne(x: real, m: real, xm: real)
    requires m != 0.0 && xm == x * m
    ensures x == 1.0 <==> xm == m
  {
    if xm == m {
      CancelFactor(m, x - 1.0, m * (x - 1.0));
    }
  }

  lemma ProductOfSquares(p: real, q: real)
    ensures Sq(p) * Sq(q) == Sq(p * q)
  {
  }

  method SumOfProducts(a: Vector, b: Vector) returns (sum: real)
    requires |a| == |b|
    ensures sum == Dot(a, b)
  {
    sum := 0.0;
    for i := 0 to |a|
      invariant sum == Dot(a[..i], b[..i])
    {
      assert a[..i + 1][..i] == a[..i] && b[..i + 1][..i] == b[..i];
      sum := sum + a[i] * b[i];
    }
    assert a[..|a|] == a && b[..|b|] == b;
  }

  /** Zero for unequal, empty or null vectors; otherwise the cosine, which lies in [-1, 1]. */
  method Cosine(a: Vector, b: Vector, sqrt: real -> real) returns (r: real)
    requires ComputesRoots(sqrt)
    ensures -1.0 <= r <= 1.0
    ensures |a| != |b| || a == [] ==> r == 0.0
    ensures |a| == |b| && (Dot(a, a) == 0.0 || Dot(b, b) == 0.0) ==> r == 0.0
    ensures |a| == |b| ==> r * (sqrt(Dot(a, a)) * sqrt(Dot(b, b))) == Dot(a, b)
    ensures |a| == |b| ==> (Sq(r) == 1.0 <==> Proportional(a, b) && Dot(a, a) != 0.0 && Dot(b, b) != 0.0)
  {
    if |a| != |b| || a == [] {
      return 0.0;
    }
    var dot := SumOfProducts(a, b);
    var squaresA := SumOfProducts(a, a);
    var squaresB := SumOfProducts(b, b);
    NormSign(a);
    NormSign(b);
    var magA, magB := sqrt(squaresA), sqrt(squaresB);
    SquareSign(magA);
    SquareSign(magB);
    if magA == 0.0 || magB == 0.0 {
      DotZero(a, b);
      return 0.0;
    }
    CosineInRange(a, b, dot, magA, magB);
    r := dot / (magA * magB);
  }

  lemma {:induction false} CosineInRange(a: Vector, b: Vector, dot: real, magA: real, magB: real)
    requires |a| == |b| && dot == Dot(a, b) && magA > 0.0 && magB > 0.0
    requires Sq(magA) == Dot(a, a) && Sq(magB) == Dot(b, b)
    ensures magA * magB > 0.0
    ensures
      var r := dot / (magA * magB);
      -1.0 <= r <= 1.0 && r * (magA * magB) == dot && (Sq(r) == 1.0 <==> Proportional(a, b))
  {
    PositiveProduct(magA, magB, magA * magB);
    CauchySchwarz(a, b);
    ProductOfSquares(magA, magB);
    QuotientBounds(dot, magA * magB);
    QuotientSquare(dot, magA * magB);
  }
}
