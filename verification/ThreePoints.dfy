/** The parabola through three points and its vertex, as `interpolatePeak` computes them
    (analyzing/AnalyzeFrame.cpp), with the real algebra that shows the result is the
    maximum of that parabola. */
module ThreePoints {

  /** Denominator of the vertex formula of the parabola through three points. */
  function Curvature(x1: real, y1: real, x2: real, y2: real, x3: real, y3: real): real {
    (y1 - y2) * (x3 - x2) + (y3 - y2) * (x2 - x1)
  }

  /** Numerator of the vertex formula. */
  function Numerator(x1: real, y1: real, x2: real, y2: real, x3: real, y3: real): real {
    (y1 - y2) * (x3 - x2) * (x3 - x2) - (y3 - y2) * (x2 - x1) * (x2 - x1)
  }

  /** Abscissa of the vertex. */
  function Vertex(x1: real, y1: real, x2: real, y2: real, x3: real, y3: real): real
    requires Curvature(x1, y1, x2, y2, x3, y3) != 0.0
  {
    Numerator(x1, y1, x2, y2, x3, y3) / (2.0 * Curvature(x1, y1, x2, y2, x3, y3)) + x2
  }

  /** (a - b) (a - c): a numerator or denominator of the Lagrange basis. */
  function Factor(a: real, b: real, c: real): real {
    (a - b) * (a - c)
  }

  function Term(y: real, n: real, d: real): real
    requires d != 0.0
  {
    y * n / d
  }

  predicate Spread(x1: real, x2: real, x3: real) {
    Factor(x1, x2, x3) != 0.0 && Factor(x2, x3, x1) != 0.0 && Factor(x3, x1, x2) != 0.0
  }

  /** Lagrange interpolation of three points, evaluated at x. */
  function Lagrange(x1: real, y1: real, x2: real, y2: real, x3: real, y3: real, x: real): real
    requires Spread(x1, x2, x3)
  {
    var n1 := Factor(x, x2, x3);
    var n2 := Factor(x, x3, x1);
    var n3 := Factor(x, x1, x2);
    Term(y1, n1, Factor(x1, x2, x3)) + Term(y2, n2, Factor(x2, x3, x1)) + Term(y3, n3, Factor(x3, x1, x2))
  }

  /** The peak from three samples: the parabola at its vertex, or the middle height when one
      of the two guards against division by zero fails. */
  function GuardedPeak(x1: real, y1: real, x2: real, y2: real, x3: real, y3: real): real {
    if Curvature(x1, y1, x2, y2, x3, y3) != 0.0 then
      var peakpos := Vertex(x1, y1, x2, y2, x3, y3);
      var d1 := Factor(x1, x2, x3);
      var d2 := Factor(x2, x3, x1);
      var d3 := Factor(x3, x1, x2);
      if d1 * d2 * d3 != 0.0 then
        NonzeroFactors(d1, d2, d3);
        Lagrange(x1, y1, x2, y2, x3, y3, peakpos)
      else y2
    else y2
  }

  lemma NonzeroFactors(a: real, b: real, c: real)
    requires a * b * c != 0.0
    ensures a != 0.0 && b != 0.0 && c != 0.0
  {
  }

  datatype Parabola = Parabola(a: real, b: real, c: real) {
    function At(x: real): real { a * x * x + b * x + c }
  }

  ghost predicate Through(q: Parabola, x1: real, y1: real, x2: real, y2: real, x3: real, y3: real) {
    q.At(x1) == y1 && q.At(x2) == y2 && q.At(x3) == y3
  }

  lemma ZeroFactor(p: real, q: real)
    requires p * q == 0.0 && p != 0.0
    ensures q == 0.0
  {
  }

  lemma ZeroParabola(q: Parabola, x1: real, x2: real, x3: real)
    requires x1 < x2 < x3
    requires q.At(x1) == 0.0 && q.At(x2) == 0.0 && q.At(x3) == 0.0
    ensures q == Parabola(0.0, 0.0, 0.0)
  {
    var a, b := q.a, q.b;
    var s, t := a * (x1 + x2) + b, a * (x2 + x3) + b;
    assert (x2 - x1) * s == q.At(x2) - q.At(x1);
    assert (x3 - x2) * t == q.At(x3) - q.At(x2);
    ZeroFactor(x2 - x1, s);
    ZeroFactor(x3 - x2, t);
    assert (x3 - x1) * a == t - s;
    ZeroFactor(x3 - x1, a);
  }

  lemma ParabolaUnique(q: Parabola, r: Parabola, x1: real, y1: real, x2: real, y2: real, x3: real, y3: real)
    requires Through(q, x1, y1, x2, y2, x3, y3) && Through(r, x1, y1, x2, y2, x3, y3)
    requires x1 < x2 < x3
    ensures q == r
  {
    var diff := Parabola(q.a - r.a, q.b - r.b, q.c - r.c);
    DifferenceAt(q, r, x1);
    DifferenceAt(q, r, x2);
    DifferenceAt(q, r, x3);
    ZeroParabola(diff, x1, x2, x3);
  }

  lemma DifferenceAt(q: Parabola, r: Parabola, x: real)
    ensures Parabola(q.a - r.a, q.b - r.b, q.c - r.c).At(x) == q.At(x) - r.At(x)
  {
  }

  // ---------- the curve through the three points, centred on the middle one ----------

  lemma TermTimes(y: real, n: real, d1: real, q: real, m: real, d: real)
    requires d1 != 0.0 && d == d1 * q && m == n * q
    ensures Term(y, n, d1) * d == y * m
  {
  }

  lemma SumOfThree(a: real, b: real, c: real, d: real, s: real)
    requires s == a + b + c
    ensures s * d == a * d + b * d + c * d
  {
  }

  lemma Weighted(a: real, m: real, h: real, u: real, v: real, p: real, q: real)
    requires m == h * v - h * h * u && p == a * h && q == a * h * h
    ensures a * m == p * v - q * u
  {
  }

  lemma Combine(s: real, p: real, q: real, r: real)
    ensures s == p + q ==> s * r == p * r + q * r
    ensures s == p - q ==> s * r == p * r - q * r
  {
  }

  lemma WithoutTwo(y: real, d: real, m1: real, m2: real, m3: real)
    requires m2 == d - m1 - m3
    ensures y * m2 == y * d - y * m1 - y * m3
  {
  }

  /** The weighted sum of the basis, with the heights taken relative to the middle one. */
  lemma CollectTerms(y1: real, y2: real, y3: real, a: real, b: real, m1: real, m2: real, m3: real,
                     h1: real, h2: real, u: real, v: real, d: real,
                     p1: real, q1: real, p3: real, q3: real, e: real, f: real)
    requires a == y2 - y1 && b == y2 - y3
    requires m1 == h2 * v - h2 * h2 * u && m3 == h1 * v + h1 * h1 * u && m2 == d - m1 - m3
    requires p1 == a * h2 && q1 == a * h2 * h2 && p3 == b * h1 && q3 == b * h1 * h1
    requires e == p1 + p3 && f == q1 - q3
    ensures y1 * m1 + y2 * m2 + y3 * m3 == y2 * d + f * u - e * v
  {
    Combine(y1, y2, a, m1);
    Combine(y3, y2, b, m3);
    WithoutTwo(y2, d, m1, m2, m3);
    Weighted(a, m1, h2, u, v, p1, q1);
    WeightedRight(b, m3, h1, u, v, p3, q3);
    Combine(e, p1, p3, v);
    Combine(f, q1, q3, u);
  }

  lemma WeightedRight(a: real, m: real, h: real, u: real, v: real, p: real, q: real)
    requires m == h * v + h * h * u && p == a * h && q == a * h * h
    ensures a * m == p * v + q * u
  {
  }

  /** The coefficients of the curve, from the gaps h1, h2 and the drops a, b around the middle point. */
  ghost predicate Coefficients(h1: real, h2: real, a: real, b: real, e: real, f: real, d: real) {
    && e == a * h2 + b * h1
    && f == a * h2 * h2 - b * h1 * h1
    && d == h1 * h2 * (h1 + h2)
  }

  ghost predicate Gaps(x1: real, y1: real, x2: real, y2: real, x3: real, y3: real, h1: real, h2: real, a: real,
                       b: real) {
    h1 == x2 - x1 && h2 == x3 - x2 && a == y2 - y1 && b == y2 - y3
  }

  lemma DropsAsCoefficients(x1: real, y1: real, x2: real, y2: real, x3: real, y3: real,
                            h1: real, h2: real, a: real, b: real)
    requires Gaps(x1, y1, x2, y2, x3, y3, h1, h2, a, b)
    ensures -Curvature(x1, y1, x2, y2, x3, y3) == a * h2 + b * h1
    ensures -Numerator(x1, y1, x2, y2, x3, y3) == a * h2 * h2 - b * h1 * h1
  {
  }

  /** The Lagrange basis, multiplied out. */
  lemma Basis(x1: real, x2: real, x3: real, x: real, h1: real, h2: real, u: real, d: real)
    returns (d1: real, d2: real, d3: real, m1: real, m2: real, m3: real)
    requires h1 == x2 - x1 && h2 == x3 - x2 && u == x - x2 && d == h1 * h2 * (h1 + h2)
    ensures d1 == Factor(x1, x2, x3) && d2 == Factor(x2, x3, x1) && d3 == Factor(x3, x1, x2)
    ensures d == d1 * h2 && d == d2 * -(h1 + h2) && d == d3 * h1
    ensures m1 == Factor(x, x2, x3) * h2 && m2 == Factor(x, x3, x1) * -(h1 + h2) && m3 == Factor(x, x1, x2) * h1
    ensures m1 == h2 * (u * u) - h2 * h2 * u
    ensures m3 == h1 * (u * u) + h1 * h1 * u
    ensures m2 == d - m1 - m3
  {
    d1, d2, d3 := Factor(x1, x2, x3), Factor(x2, x3, x1), Factor(x3, x1, x2);
    m1, m2, m3 := Factor(x, x2, x3) * h2, Factor(x, x3, x1) * -(h1 + h2), Factor(x, x1, x2) * h1;
    assert x1 == x2 - h1 && x3 == x2 + h2 && x == x2 + u;
    assert Factor(x, x2, x3) == u * (u - h2);
    assert Factor(x, x3, x1) == (u - h2) * (u + h1);
    assert Factor(x, x1, x2) == (u + h1) * u;
  }

  lemma LagrangeCentred(x1: real, y1: real, x2: real, y2: real, x3: real, y3: real, x: real, u: real,
                        h1: real, h2: real, a: real, b: real, e: real, f: real, d: real)
    requires Spread(x1, x2, x3) && u == x - x2
    requires Gaps(x1, y1, x2, y2, x3, y3, h1, h2, a, b) && Coefficients(h1, h2, a, b, e, f, d)
    ensures Lagrange(x1, y1, x2, y2, x3, y3, x) * d == y2 * d + f * u - e * (u * u)
  {
    var d1, d2, d3, m1, m2, m3 := Basis(x1, x2, x3, x, h1, h2, u, d);
    var t1, t2, t3 := Term(y1, Factor(x, x2, x3), d1), Term(y2, Factor(x, x3, x1), d2), Term(y3, Factor(x, x1, x2), d3);
    TermTimes(y1, Factor(x, x2, x3), d1, h2, m1, d);
    TermTimes(y2, Factor(x, x3, x1), d2, -(h1 + h2), m2, d);
    TermTimes(y3, Factor(x, x1, x2), d3, h1, m3, d);
    SumOfThree(t1, t2, t3, d, Lagrange(x1, y1, x2, y2, x3, y3, x));
    CollectTerms(y1, y2, y3, a, b, m1, m2, m3, h1, h2, u, u * u, d, a * h2, a * h2 * h2, b * h1, b * h1 * h1, e, f);
  }

  lemma DenominatorSigns(x1: real, x2: real, x3: real)
    requires x1 < x2 < x3
    ensures Factor(x1, x2, x3) > 0.0 > Factor(x2, x3, x1)
    ensures Factor(x3, x1, x2) > 0.0
  {
  }

  lemma Product(p: real, q: real)
    requires p > 0.0 && q > 0.0
    ensures p * q > 0.0
  {
  }

  lemma SpanPositive(h1: real, h2: real)
    requires h1 > 0.0 && h2 > 0.0
    ensures h1 * h2 * (h1 + h2) > 0.0
  {
  }

  /** Slope and second coefficient of a parabola seen from its point at o. */
  lemma CentredForm(q: Parabola, o: real, x1: real, u1: real, x2: real, u2: real, x3: real, u3: real)
    returns (a: real, s: real)
    requires u1 == x1 - o && u2 == x2 - o && u3 == x3 - o
    ensures q.At(x1) == q.At(o) + s * u1 + a * (u1 * u1)
    ensures q.At(x2) == q.At(o) + s * u2 + a * (u2 * u2)
    ensures q.At(x3) == q.At(o) + s * u3 + a * (u3 * u3)
  {
    a, s := q.a, 2.0 * q.a * o + q.b;
    AtCentred(q, o, x1, u1);
    AtCentred(q, o, x2, u2);
    AtCentred(q, o, x3, u3);
  }

  lemma AtCentred(q: Parabola, o: real, x: real, u: real)
    requires u == x - o
    ensures q.At(x) == q.At(o) + (2.0 * q.a * o + q.b) * u + q.a * (u * u)
  {
  }

  lemma SlopeAndCurvature(g: real, s: real, h1: real, h2: real, a: real, b: real, e: real, f: real, d: real)
    requires -a == s * -h1 + g * (-h1 * -h1)
    requires -b == s * h2 + g * (h2 * h2)
    requires Coefficients(h1, h2, a, b, e, f, d)
    ensures g * d == -e && s * d == f
  {
  }

  lemma TimesSpan(v: real, y2: real, g: real, s: real, u: real, e: real, f: real, d: real)
    requires v == y2 + s * u + g * (u * u) && g * d == -e && s * d == f
    ensures v * d == y2 * d + f * u - e * (u * u)
  {
  }

  /** Any parabola through the three points is that same curve. */
  lemma ParabolaCentred(q: Parabola, x1: real, y1: real, x2: real, y2: real, x3: real, y3: real, x: real, u: real,
                        h1: real, h2: real, a: real, b: real, e: real, f: real, d: real)
    requires Through(q, x1, y1, x2, y2, x3, y3) && u == x - x2
    requires Gaps(x1, y1, x2, y2, x3, y3, h1, h2, a, b) && Coefficients(h1, h2, a, b, e, f, d)
    ensures q.At(x) * d == y2 * d + f * u - e * (u * u)
  {
    var g, s := CentredForm(q, x2, x1, -h1, x3, h2, x, u);
    SlopeAndCurvature(g, s, h1, h2, a, b, e, f, d);
    TimesSpan(q.At(x), y2, g, s, u, e, f, d);
  }

  lemma Half(f: real, e: real, w: real)
    requires e > 0.0 && w == f / (2.0 * e)
    ensures 2.0 * (e * w) == f
  {
  }

  lemma CompleteSquare(e: real, f: real, w: real, u: real, z: real)
    requires 2.0 * (e * w) == f && z == u - w
    ensures f * u - e * (u * u) == e * (w * w) - e * (z * z)
  {
  }

  lemma QuotientNegated(p: real, q: real)
    requires q != 0.0
    ensures -p / (2.0 * -q) == p / (2.0 * q)
  {
  }

  /** Where the vertex lies, with a > 0 the drop to the left and b >= 0 the drop to the right. */
  lemma VertexBounds(a: real, b: real, h1: real, h2: real, e: real, f: real, w: real)
    requires a > 0.0 && b >= 0.0 && h1 > 0.0 && h2 > 0.0
    requires e == a * h2 + b * h1 && f == a * h2 * h2 - b * h1 * h1
    requires 2.0 * (e * w) == f
    ensures e > 0.0 && -h1 / 2.0 < w <= h2 / 2.0
  {
    Product(a, h2);
    NonNegative(b, h1);
    Product(a * h2, h1);
    NonNegative(b * h1, h2);
    assert e * h2 == a * h2 * h2 + b * h1 * h2;
    assert e * h1 == a * h2 * h1 + b * h1 * h1;
    assert f <= e * h2 && f > -(e * h1) by {
      Product(a * h2, h2);
      NonNegative(b * h1, h1);
    }
    assert e * (h2 - 2.0 * w) >= 0.0 && e * (h1 + 2.0 * w) > 0.0;
    Sign(e, h2 - 2.0 * w);
    Sign(e, h1 + 2.0 * w);
  }

  lemma NonNegative(p: real, q: real)
    requires p >= 0.0 && q > 0.0
    ensures p * q >= 0.0
  {
  }

  lemma Sign(e: real, r: real)
    requires e > 0.0
    ensures e * r >= 0.0 ==> r >= 0.0
    ensures e * r > 0.0 ==> r > 0.0
  {
  }

  ghost predicate IsMaximum(q: Parabola, p: real, top: real) {
    q.At(p) == top && forall x :: x != p ==> q.At(x) < top
  }

  function InterpolatedPeak(x1: real, y1: real, x2: real, y2: real, x3: real, y3: real): real
    requires x1 < x2 < x3 && Curvature(x1, y1, x2, y2, x3, y3) != 0.0
  {
    DenominatorSigns(x1, x2, x3);
    Lagrange(x1, y1, x2, y2, x3, y3, Vertex(x1, y1, x2, y2, x3, y3))
  }

  /** The curvature is negative and the vertex lies within half a gap of the middle point. */
  lemma VertexPosition(x1: real, y1: real, x2: real, y2: real, x3: real, y3: real,
                       h1: real, h2: real, a: real, b: real)
    requires x1 < x2 < x3 && y1 < y2 && y3 <= y2 && Gaps(x1, y1, x2, y2, x3, y3, h1, h2, a, b)
    ensures Curvature(x1, y1, x2, y2, x3, y3) < 0.0
    ensures var w := Vertex(x1, y1, x2, y2, x3, y3) - x2;
            -h1 / 2.0 < w <= h2 / 2.0 && 2.0 * ((a * h2 + b * h1) * w) == a * h2 * h2 - b * h1 * h1
  {
    var e, f := a * h2 + b * h1, a * h2 * h2 - b * h1 * h1;
    DropsAsCoefficients(x1, y1, x2, y2, x3, y3, h1, h2, a, b);
    Product(a, h2);
    NonNegative(b, h1);
    QuotientNegated(f, e);
    Half(f, e, f / (2.0 * e));
    VertexBounds(a, b, h1, h2, e, f, f / (2.0 * e));
  }

  lemma VertexTheorem(x1: real, y1: real, x2: real, y2: real, x3: real, y3: real,
                      h1: real, h2: real, a: real, b: real, e: real, f: real, d: real, w: real)
    requires Spread(x1, x2, x3) && d > 0.0 && e > 0.0
    requires Gaps(x1, y1, x2, y2, x3, y3, h1, h2, a, b) && Coefficients(h1, h2, a, b, e, f, d)
    requires 2.0 * (e * w) == f
    ensures (Lagrange(x1, y1, x2, y2, x3, y3, x2 + w) - y2) * d == e * (w * w)
    ensures forall q :: Through(q, x1, y1, x2, y2, x3, y3) ==>
              IsMaximum(q, x2 + w, Lagrange(x1, y1, x2, y2, x3, y3, x2 + w))
  {
    var p := x2 + w;
    var top := Lagrange(x1, y1, x2, y2, x3, y3, p);
    LagrangeCentred(x1, y1, x2, y2, x3, y3, p, w, h1, h2, a, b, e, f, d);
    Overshoot(top, y2, d, e, f, w);
    forall q | Through(q, x1, y1, x2, y2, x3, y3) ensures IsMaximum(q, p, top) {
      forall x ensures x == p ==> q.At(x) == top
               ensures x != p ==> q.At(x) < top {
        ParabolaCentred(q, x1, y1, x2, y2, x3, y3, x, x - x2, h1, h2, a, b, e, f, d);
        BelowTop(q.At(x), top, y2, d, e, f, w, x - x2, x - p);
      }
    }
  }

  /** The vertex of the parabola through the three points is where the code puts it, and the
      interpolated peak is the value there. */
  lemma VertexIsMaximum(x1: real, y1: real, x2: real, y2: real, x3: real, y3: real)
    requires x1 < x2 < x3 && y1 < y2 && y3 <= y2
    ensures Curvature(x1, y1, x2, y2, x3, y3) < 0.0
    ensures x2 - (x2 - x1) / 2.0 < Vertex(x1, y1, x2, y2, x3, y3) <= x2 + (x3 - x2) / 2.0
    ensures forall q :: Through(q, x1, y1, x2, y2, x3, y3) ==>
              IsMaximum(q, Vertex(x1, y1, x2, y2, x3, y3), InterpolatedPeak(x1, y1, x2, y2, x3, y3))
  {
    var h1, h2, a, b := x2 - x1, x3 - x2, y2 - y1, y2 - y3;
    DenominatorSigns(x1, x2, x3);
    SpanPositive(h1, h2);
    Product(a, h2);
    NonNegative(b, h1);
    VertexPosition(x1, y1, x2, y2, x3, y3, h1, h2, a, b);
    VertexTheorem(x1, y1, x2, y2, x3, y3, h1, h2, a, b, a * h2 + b * h1, a * h2 * h2 - b * h1 * h1,
                  h1 * h2 * (h1 + h2), Vertex(x1, y1, x2, y2, x3, y3) - x2);
  }

  lemma Overshoot(top: real, y2: real, d: real, e: real, f: real, w: real)
    requires 2.0 * (e * w) == f
    requires top * d == y2 * d + f * w - e * (w * w)
    ensures (top - y2) * d == e * (w * w)
  {
  }

  lemma BelowTop(v: real, top: real, y2: real, d: real, e: real, f: real, w: real, u: real, z: real)
    requires d > 0.0 && e > 0.0 && 2.0 * (e * w) == f && z == u - w
    requires (top - y2) * d == e * (w * w)
    requires v * d == y2 * d + f * u - e * (u * u)
    ensures z == 0.0 ==> v == top
    ensures z != 0.0 ==> v < top
  {
    CompleteSquare(e, f, w, u, z);
    if z != 0.0 {
      var g := SquareScaled(e, z);
      Gap(v, top, d, g);
    } else {
      Gap(v, top, d, 0.0);
    }
  }

  lemma Gap(v: real, top: real, d: real, g: real)
    requires d > 0.0 && top * d - v * d == g
    ensures g == 0.0 ==> v == top
    ensures g > 0.0 ==> v < top
  {
  }

  lemma SquareScaled(e: real, z: real) returns (g: real)
    requires e > 0.0 && z != 0.0
    ensures g == e * (z * z) && g > 0.0
  {
    g := e * (z * z);
    if z > 0.0 {
      Product(e, z);
      Product(e * z, z);
    } else {
      Product(e, -z);
      Product(e * -z, -z);
    }
  }

  /** The two guards of the interpolation pass whenever the abscissas increase. */
  lemma GuardPasses(x1: real, x2: real, x3: real)
    requires x1 < x2 < x3
    ensures Spread(x1, x2, x3)
    ensures Factor(x1, x2, x3) * Factor(x2, x3, x1) * Factor(x3, x1, x2) != 0.0
  {
  }

  /** There is a parabola through any three points with distinct abscissas. */
  lemma ParabolaExists(x1: real, y1: real, x2: real, y2: real, x3: real, y3: real) returns (q: Parabola)
    requires x1 < x2 < x3
    ensures Through(q, x1, y1, x2, y2, x3, y3)
  {
    // divided differences
    var s12, s23 := (y2 - y1) / (x2 - x1), (y3 - y2) / (x3 - x2);
    var a := (s23 - s12) / (x3 - x1);
    q := Parabola(a, s12 - a * (x1 + x2), y1 - s12 * x1 + a * x1 * x2);
    assert s12 * (x2 - x1) == y2 - y1 && s23 * (x3 - x2) == y3 - y2 && a * (x3 - x1) == s23 - s12;
    AtNewton(q, a, s12, y1, x1, x2, x1);
    AtNewton(q, a, s12, y1, x1, x2, x2);
    AtNewton(q, a, s12, y1, x1, x2, x3);
    assert a * (x3 - x1) * (x3 - x2) == s23 * (x3 - x2) - s12 * (x3 - x2);
  }

  lemma AtNewton(q: Parabola, a: real, s: real, y1: real, x1: real, x2: real, x: real)
    requires q == Parabola(a, s - a * (x1 + x2), y1 - s * x1 + a * x1 * x2)
    ensures q.At(x) == y1 + s * (x - x1) + a * (x - x1) * (x - x2)
  {
  }

  lemma PeakAboveMiddle(x1: real, y1: real, x2: real, y2: real, x3: real, y3: real)
    requires x1 < x2 < x3 && y1 < y2 && y3 <= y2
    ensures Curvature(x1, y1, x2, y2, x3, y3) < 0.0
    ensures InterpolatedPeak(x1, y1, x2, y2, x3, y3) >= y2
  {
    VertexIsMaximum(x1, y1, x2, y2, x3, y3);
    var q := ParabolaExists(x1, y1, x2, y2, x3, y3);
    assert IsMaximum(q, Vertex(x1, y1, x2, y2, x3, y3), InterpolatedPeak(x1, y1, x2, y2, x3, y3));
    assert q.At(x2) == y2;
  }

  // ---------- how far the peak is from the middle point ----------

  /** The rise over the middle point that the coefficients e, f, d of the curve determine. */
  ghost predicate Rises(e: real, f: real, d: real, rise: real) {
    if e == 0.0 || d == 0.0 then rise == 0.0 else 4.0 * ((e * d) * rise) == f * f
  }

  lemma NonzeroProduct(p: real, q: real)
    ensures p * q != 0.0 <==> p != 0.0 && q != 0.0
  {
  }

  /** The second guard passes exactly when no two abscissas are equal. */
  lemma SpreadExactly(x1: real, x2: real, x3: real, h1: real, h2: real, d: real)
    requires h1 == x2 - x1 && h2 == x3 - x2 && d == h1 * h2 * (h1 + h2)
    ensures Spread(x1, x2, x3) <==> d != 0.0
    ensures Factor(x1, x2, x3) * Factor(x2, x3, x1) * Factor(x3, x1, x2) != 0.0 <==> d != 0.0
  {
    var d1, d2, d3 := Factor(x1, x2, x3), Factor(x2, x3, x1), Factor(x3, x1, x2);
    var s := h1 + h2;
    assert x1 - x2 == -h1 && x1 - x3 == -s && x2 - x3 == -h2;
    NonzeroProduct(h1 * h2, s);
    NonzeroProduct(h1, h2);
    NonzeroProduct(-h1, -s);
    NonzeroProduct(-h2, h1);
    NonzeroProduct(s, h2);
    NonzeroProduct(d1 * d2, d3);
    NonzeroProduct(d1, d2);
  }

  lemma HalfOfEither(f: real, e: real, w: real)
    requires e != 0.0 && w == f / (2.0 * e)
    ensures 2.0 * (e * w) == f
  {
  }

  lemma RiseFromVertex(rise: real, e: real, f: real, d: real, w: real)
    requires 2.0 * (e * w) == f && rise * d == e * (w * w)
    ensures 4.0 * ((e * d) * rise) == f * f
  {
    calc {
      4.0 * ((e * d) * rise);
      4.0 * (e * (rise * d));
      4.0 * (e * (e * (w * w)));
      (2.0 * (e * w)) * (2.0 * (e * w));
      f * f;
    }
  }

  /** Whatever the order of the abscissas: the guarded peak is the middle height if a guard fails, and
      otherwise it lies f^2 / (4 e d) above it. */
  lemma GuardedRise(x1: real, y1: real, x2: real, y2: real, x3: real, y3: real,
                    h1: real, h2: real, a: real, b: real, e: real, f: real, d: real)
    requires Gaps(x1, y1, x2, y2, x3, y3, h1, h2, a, b) && Coefficients(h1, h2, a, b, e, f, d)
    ensures Rises(e, f, d, GuardedPeak(x1, y1, x2, y2, x3, y3) - y2)
  {
    DropsAsCoefficients(x1, y1, x2, y2, x3, y3, h1, h2, a, b);
    SpreadExactly(x1, x2, x3, h1, h2, d);
    if e != 0.0 && d != 0.0 {
      var peakpos := Vertex(x1, y1, x2, y2, x3, y3);
      QuotientNegated(f, e);
      HalfOfEither(f, e, peakpos - x2);
      LagrangeCentred(x1, y1, x2, y2, x3, y3, peakpos, peakpos - x2, h1, h2, a, b, e, f, d);
      var top := Lagrange(x1, y1, x2, y2, x3, y3, peakpos);
      Overshoot(top, y2, d, e, f, peakpos - x2);
      RiseFromVertex(top - y2, e, f, d, peakpos - x2);
    }
  }

  /** The rise is an actual one exactly when the curve is level at the middle point or opens downwards. */
  lemma RiseSign(e: real, f: real, d: real, rise: real)
    requires Rises(e, f, d, rise)
    ensures rise >= 0.0 <==> e == 0.0 || d == 0.0 || f == 0.0 || e * d > 0.0
  {
    if e != 0.0 && d != 0.0 {
      NonzeroProduct(e, d);
      if f == 0.0 {
        ZeroFactor(e * d, rise);
      } else {
        var g := SquareScaled(1.0, f);
        SameSign(e * d, rise);
      }
    }
  }

  lemma SameSign(p: real, r: real)
    requires p * r > 0.0
    ensures r >= 0.0 <==> p > 0.0
  {
    if p > 0.0 && r < 0.0 { Product(p, -r); }
    if p < 0.0 && r >= 0.0 { NonNegative(r, -p); }
  }

  /** Between increasing abscissas the rise is at most what the drop on one side and the gaps allow. */
  ghost predicate BoundedRise(h1: real, h2: real, a: real, b: real, rise: real) {
    4.0 * (h1 * (h1 + h2) * rise) <= a * h2 * h2 || 4.0 * (h2 * (h1 + h2) * rise) <= b * h1 * h1
  }

  lemma RiseBounded(h1: real, h2: real, a: real, b: real, e: real, f: real, d: real, rise: real)
    requires h1 > 0.0 && h2 > 0.0 && a > 0.0 && b >= 0.0
    requires Coefficients(h1, h2, a, b, e, f, d) && Rises(e, f, d, rise)
    ensures e > 0.0 && d > 0.0 && BoundedRise(h1, h2, a, b, rise)
  {
    SpanPositive(h1, h2);
    Product(a, h2);
    NonNegative(b, h1);
    if f >= 0.0 {
      var p, q, s := WeightedDrops(h1, h2, a, b, e, f, d);
      OneSideBound(h2, h1, p, q, p * h2, e, f, d, s, rise);
    } else {
      var p, q, s := WeightedDrops(h2, h1, b, a, e, -f, d);
      OneSideBound(h1, h2, p, q, p * h1, e, -f, d, s, rise);
    }
  }

  /** The coefficients in terms of the weighted drops, seen from either side. */
  lemma WeightedDrops(h1: real, h2: real, a: real, b: real, e: real, f: real, d: real)
    returns (p: real, q: real, s: real)
    requires Coefficients(h1, h2, a, b, e, f, d) || Coefficients(h2, h1, b, a, e, -f, d)
    ensures p == a * h2 && q == b * h1 && e == p + q && f == p * h2 - q * h1
    ensures s == h1 * (h1 + h2) && d == s * h2
  {
    p, q, s := a * h2, b * h1, h1 * (h1 + h2);
  }

  /** Here g is the gap on the side the curve leans to, p its weighted drop and q that of the other side. */
  lemma OneSideBound(g: real, h: real, p: real, q: real, top: real, e: real, f: real, d: real, s: real, rise: real)
    requires g > 0.0 && h > 0.0 && p >= 0.0 && q >= 0.0 && e == p + q && e > 0.0 && top == p * g
    requires 0.0 <= f && f == p * g - q * h && d == s * g && 4.0 * ((e * d) * rise) == f * f
    ensures 4.0 * (s * rise) <= top
  {
    NonNegative(q, h);
    NonNegative(q, g);
    assert e * g == p * g + q * g;
    Square(f, e * g, top);
    var r := top - 4.0 * (s * rise);
    CancelBoth(e, g, s, d, rise, top, f, r);
    Product(e, g);
    Sign(e * g, r);
  }

  lemma Square(f: real, p: real, q: real)
    requires 0.0 <= f <= p && f <= q
    ensures f * f <= p * q
  {
  }

  lemma CancelBoth(e: real, g: real, s: real, d: real, rise: real, top: real, f: real, r: real)
    requires d == s * g && 4.0 * ((e * d) * rise) == f * f && f * f <= (e * g) * top && r == top - 4.0 * (s * rise)
    ensures (e * g) * r >= 0.0
  {
    calc {
      (e * g) * r;
      (e * g) * top - (e * g) * (4.0 * (s * rise));
      (e * g) * top - 4.0 * ((e * d) * rise);
    }
  }

  // ---------- scaling the heights and shifting the abscissas ----------

  /** The arguments of one call are those of another with heights scaled by k and abscissas shifted by d. */
  ghost predicate AffinePoints(x1: real, y1: real, x2: real, y2: real, x3: real, y3: real,
                               x1': real, y1': real, x2': real, y2': real, x3': real, y3': real,
                               k: real, d: real) {
    && k > 0.0
    && x1' == x1 + d && x2' == x2 + d && x3' == x3 + d
    && y1' == k * y1 && y2' == k * y2 && y3' == k * y3
  }

  lemma AffineCurvature(x1: real, y1: real, x2: real, y2: real, x3: real, y3: real,
                        x1': real, y1': real, x2': real, y2': real, x3': real, y3': real, k: real, d: real)
    requires AffinePoints(x1, y1, x2, y2, x3, y3, x1', y1', x2', y2', x3', y3', k, d)
    ensures Curvature(x1', y1', x2', y2', x3', y3') == k * Curvature(x1, y1, x2, y2, x3, y3)
    ensures (Curvature(x1', y1', x2', y2', x3', y3') == 0.0) == (Curvature(x1, y1, x2, y2, x3, y3) == 0.0)
  {
  }

  lemma AffineVertex(x1: real, y1: real, x2: real, y2: real, x3: real, y3: real,
                     x1': real, y1': real, x2': real, y2': real, x3': real, y3': real, k: real, d: real)
    requires AffinePoints(x1, y1, x2, y2, x3, y3, x1', y1', x2', y2', x3', y3', k, d)
    requires Curvature(x1, y1, x2, y2, x3, y3) != 0.0 && Curvature(x1', y1', x2', y2', x3', y3') != 0.0
    ensures Vertex(x1', y1', x2', y2', x3', y3') == Vertex(x1, y1, x2, y2, x3, y3) + d
  {
  }

  /** One Lagrange term: with the height scaled and the differences unchanged it scales. */
  lemma AffineTerm(y: real, n: real, q: real, y': real, n': real, q': real, k: real)
    requires q != 0.0 && y' == k * y && n' == n && q' == q
    ensures Term(y', n', q') == k * Term(y, n, q)
  {
  }

  lemma SpreadShift(x1: real, x2: real, x3: real, x1': real, x2': real, x3': real, d: real)
    requires x1' == x1 + d && x2' == x2 + d && x3' == x3 + d
    ensures Factor(x1', x2', x3') == Factor(x1, x2, x3)
    ensures Factor(x2', x3', x1') == Factor(x2, x3, x1)
    ensures Factor(x3', x1', x2') == Factor(x3, x1, x2)
  {
  }

  lemma NumeratorShift(x1: real, x2: real, x3: real, x: real, x1': real, x2': real, x3': real, x': real, d: real)
    requires x1' == x1 + d && x2' == x2 + d && x3' == x3 + d && x' == x + d
    ensures Factor(x', x2', x3') == Factor(x, x2, x3)
    ensures Factor(x', x3', x1') == Factor(x, x3, x1)
    ensures Factor(x', x1', x2') == Factor(x, x1, x2)
  {
  }

  lemma AffineLagrange(x1: real, y1: real, x2: real, y2: real, x3: real, y3: real, x: real,
                       x1': real, y1': real, x2': real, y2': real, x3': real, y3': real, x': real,
                       k: real, d: real)
    requires AffinePoints(x1, y1, x2, y2, x3, y3, x1', y1', x2', y2', x3', y3', k, d)
    requires Spread(x1, x2, x3) && Spread(x1', x2', x3') && x' == x + d
    ensures Lagrange(x1', y1', x2', y2', x3', y3', x') == k * Lagrange(x1, y1, x2, y2, x3, y3, x)
  {
    SpreadShift(x1, x2, x3, x1', x2', x3', d);
    NumeratorShift(x1, x2, x3, x, x1', x2', x3', x', d);
    AffineTerm(y1, Factor(x, x2, x3), Factor(x1, x2, x3),
               y1', Factor(x', x2', x3'), Factor(x1', x2', x3'), k);
    AffineTerm(y2, Factor(x, x3, x1), Factor(x2, x3, x1),
               y2', Factor(x', x3', x1'), Factor(x2', x3', x1'), k);
    AffineTerm(y3, Factor(x, x1, x2), Factor(x3, x1, x2),
               y3', Factor(x', x1', x2'), Factor(x3', x1', x2'), k);
    AffineSum3(Term(y1, Factor(x, x2, x3), Factor(x1, x2, x3)),
               Term(y2, Factor(x, x3, x1), Factor(x2, x3, x1)),
               Term(y3, Factor(x, x1, x2), Factor(x3, x1, x2)), Lagrange(x1, y1, x2, y2, x3, y3, x),
               Term(y1', Factor(x', x2', x3'), Factor(x1', x2', x3')),
               Term(y2', Factor(x', x3', x1'), Factor(x2', x3', x1')),
               Term(y3', Factor(x', x1', x2'), Factor(x3', x1', x2')),
               Lagrange(x1', y1', x2', y2', x3', y3', x'), k);
  }

  lemma AffineSum3(a: real, b: real, c: real, s: real, a': real, b': real, c': real, s': real, k: real)
    requires a' == k * a && b' == k * b && c' == k * c && s == a + b + c && s' == a' + b' + c'
    ensures s' == k * s
  {
  }

  lemma AffineGuardedPeak(x1: real, y1: real, x2: real, y2: real, x3: real, y3: real,
                          x1': real, y1': real, x2': real, y2': real, x3': real, y3': real,
                          k: real, d: real)
    requires AffinePoints(x1, y1, x2, y2, x3, y3, x1', y1', x2', y2', x3', y3', k, d)
    ensures GuardedPeak(x1', y1', x2', y2', x3', y3') == k * GuardedPeak(x1, y1, x2, y2, x3, y3)
  {
    AffineCurvature(x1, y1, x2, y2, x3, y3, x1', y1', x2', y2', x3', y3', k, d);
    SpreadShift(x1, x2, x3, x1', x2', x3', d);
    if Curvature(x1, y1, x2, y2, x3, y3) != 0.0 {
      AffineVertex(x1, y1, x2, y2, x3, y3, x1', y1', x2', y2', x3', y3', k, d);
      var d1, d2, d3 := Factor(x1, x2, x3), Factor(x2, x3, x1), Factor(x3, x1, x2);
      if d1 * d2 * d3 != 0.0 {
        NonzeroFactors(d1, d2, d3);
        AffineLagrange(x1, y1, x2, y2, x3, y3, Vertex(x1, y1, x2, y2, x3, y3),
                       x1', y1', x2', y2', x3', y3', Vertex(x1', y1', x2', y2', x3', y3'), k, d);
      }
    }
  }
}
