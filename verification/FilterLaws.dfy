/** What every step of the zone filter does to the mean and the variance along any direction.
    With symmetry these laws determine the step. */
module FilterLaws {
  import opened RealAlgebra
  import opened LinearAlgebra
  import opened ZoneFilter
  import opened FilterRuns

  /** A prediction carries every direction back through the transition: its mean gains the
      offset, its variance the noise. */
  lemma PredictCarries(g: Gauss, n: nat, f: Mat, gamma: Vec, q: Vec, v: Vec)
    requires Sound(g, n) && Legal(Predict(f, gamma, q), n) && |v| == n
    ensures var r := Apply(g, n, Predict(f, gamma, q));
      && Dot(v, r.x) == Dot(v, gamma) + Dot(Combine(v, f, n), g.x)
      && Quad(r.p, n, v) == Quad(g.p, n, Combine(v, f, n)) + WeightedSquares(q, v)
  {
    var c := Congruence(f, g.p, n);
    SymmetricCongruence(f, g.p, n);
    SymmetrisedFixes(AddDiagonal(c, n, q), n);
    DotAxpy(1.0, gamma, MulVec(f, g.x), v);
    CombineMoves(v, f, n, g.x);
    QuadAddDiagonal(c, n, q, v);
    QuadCongruence(f, g.p, n, v);
  }

  /** A deliberate widening adds to the variance of its own coordinate and to nothing else. */
  lemma InflateAdds(g: Gauss, n: nat, i: nat, c: real, v: Vec)
    requires Shaped(g, n) && Legal(Inflate(i, c), n) && |v| == n
    ensures var r := Apply(g, n, Inflate(i, c));
      Dot(v, r.x) == Dot(v, g.x) && Quad(r.p, n, v) == Quad(g.p, n, v) + Times(c, Times(v[i], v[i]))
  {
    QuadAddDiagonal(g.p, n, Zeros(n)[i := c], v);
    WeightedSquaresOfOne(v, i, c);
  }

  lemma Replace(with: real, without: real, was: real, x: real, value: real, v: real)
    requires with == was + Times(value - x, v) && without == was + Times(0.0 - v, x)
    ensures with == without + Times(value, v)
  {
    assert (value - x) * v == value * v - x * v;
  }

  lemma ReseedMean(x: Vec, i: nat, value: real, v: Vec)
    requires i < |x| == |v|
    ensures Dot(v, x[i := value]) == Dot(v[i := 0.0], x) + Times(value, v[i])
  {
    var with, without := Dot(v, x[i := value]), Dot(v[i := 0.0], x);
    assert with == Dot(v, x) + Times(value - x[i], v[i]) by {
      DotUpdate(x, i, value, v);
    }
    assert without == Dot(v, x) + Times(0.0 - v[i], x[i]) by {
      DotUpdate(v, i, 0.0, x);
      DotSymmetric(v, x);
    }
    Replace(with, without, Dot(v, x), x[i], value, v[i]);
  }

  /** A reset coordinate has the new value and variance and is tied to no other. */
  lemma ReseedDecouples(g: Gauss, n: nat, i: nat, value: real, variance: real, v: Vec)
    requires Shaped(g, n) && Legal(Reseed(i, value, variance), n) && |v| == n
    ensures var r := Apply(g, n, Reseed(i, value, variance));
      && Dot(v, r.x) == Dot(v[i := 0.0], g.x) + Times(value, v[i])
      && Quad(r.p, n, v) == Quad(g.p, n, v[i := 0.0]) + Times(variance, Times(v[i], v[i]))
  {
    QuadDecouple(g.p, n, i, variance, v);
    ReseedMean(g.x, i, value, v);
  }

  /** A re-mapped mean moves one coordinate and leaves the covariance. */
  lemma PlaceMoves(g: Gauss, n: nat, i: nat, value: real, v: Vec)
    requires Shaped(g, n) && Legal(Place(i, value), n) && |v| == n
    ensures var r := Apply(g, n, Place(i, value));
      Dot(v, r.x) == Dot(v, g.x) + Times(value - g.x[i], v[i]) && Quad(r.p, n, v) == Quad(g.p, n, v)
  {
    DotUpdate(g.x, i, value, v);
  }

  /** The variance of v . x after reading z of h . x with noise r, when the estimate is moved
      by t times the surprise. */
  function GainVariance(p: Mat, n: nat, m: Reading, v: Vec, t: real): real
    requires Square(p, n) && |m.h| == |v| == n
  {
    Quad(p, n, Axpy(-t, m.h, v)) + Times(m.r, Times(t, t))
  }

  /** A measurement moves the estimate of every direction by the best possible multiple of the
      surprise: no other leaves less variance, and no other as little. */
  lemma MeasureIsBest(g: Gauss, n: nat, m: Reading, v: Vec) returns (t: real)
    requires Sound(g, n) && Legal(Measure(m), n) && |v| == n && InnovationVar(g.p, n, m) > 0.0
    ensures var r := Apply(g, n, Measure(m));
      && Dot(v, r.x) == Dot(v, g.x) + Times(t, m.z - Dot(m.h, g.x))
      && Quad(r.p, n, v) == GainVariance(g.p, n, m, v, t)
    ensures forall other :: other != t ==> GainVariance(g.p, n, m, v, other) > GainVariance(g.p, n, m, v, t)
  {
    var u, s, d := MulVec(g.p, m.h), InnovationVar(g.p, n, m), Dot(v, MulVec(g.p, m.h));
    t := d / s;
    QuadDowndate(g.p, n, u, s, v);
    DotAxpy(Innovation(g.x, m, s), u, g.x, v);
    DotSymmetric(u, v);
    SwapQuotient(d, m.z - Dot(m.h, g.x), s);
    GainVarianceIs(g, n, m, v, t, d, s);
    BestGain(Quad(g.p, n, v), d, s, t, t);
    forall other | other != t ensures GainVariance(g.p, n, m, v, other) > GainVariance(g.p, n, m, v, t) {
      GainVarianceIs(g, n, m, v, other, d, s);
      BestGain(Quad(g.p, n, v), d, s, t, other);
    }
  }

  lemma GainVarianceIs(g: Gauss, n: nat, m: Reading, v: Vec, t: real, d: real, s: real)
    requires Sound(g, n) && |m.h| == |v| == n
    requires d == Dot(v, MulVec(g.p, m.h)) && s == InnovationVar(g.p, n, m)
    ensures GainVariance(g.p, n, m, v, t) == Quad(g.p, n, v) - 2.0 * Times(t, d) + Times(s, Times(t, t))
  {
    QuadAlongLine(g.p, n, v, -t, m.h);
    GainTerms(t, d, Quad(g.p, n, m.h), m.r, s);
  }

  lemma GainTerms(t: real, d: real, hh: real, r: real, s: real)
    requires s == hh + r
    ensures 2.0 * Times(-t, d) + Times(-t, Times(-t, hh)) + Times(r, Times(t, t))
         == -2.0 * Times(t, d) + Times(s, Times(t, t))
  {
    assert (-t) * ((-t) * hh) == hh * (t * t);
  }

  lemma BestGain(vv: real, d: real, s: real, t: real, other: real)
    requires s > 0.0 && t == d / s
    ensures vv - 2.0 * Times(t, d) + Times(s, Times(t, t)) == vv + Times(Less(d, s), d)
    ensures other != t ==>
      vv - 2.0 * Times(other, d) + Times(s, Times(other, other)) > vv - 2.0 * Times(t, d) + Times(s, Times(t, t))
  {
    assert d == t * s;
    var gap := other - t;
    SquareNonNegative(gap);
    assert s * (gap * gap) == s * (other * other) - 2.0 * (other * d) + t * d;
    assert s * (t * t) == t * d;
    if other != t {
      ProductPositive(s, Times(gap, gap));
    }
  }

  /** What is read ends between its estimate and the reading, by the noise's part of the whole
      uncertainty, and its variance shrinks by the same part. */
  lemma ReadingPulls(g: Gauss, n: nat, m: Reading, s: real, r: Gauss)
    requires Sound(g, n) && |m.h| == n && s == Quad(g.p, n, m.h) + m.r && s > 0.0 && r == Fuse(g, n, m)
    ensures Dot(m.h, r.x) - m.z == Times(m.r / s, Dot(m.h, g.x) - m.z)
    ensures Quad(r.p, n, m.h) == Times(m.r / s, Quad(g.p, n, m.h))
  {
    var u, hh := MulVec(g.p, m.h), Quad(g.p, n, m.h);
    DotAxpy(Innovation(g.x, m, s), u, g.x, m.h);
    QuadDowndate(g.p, n, u, s, m.h);
    DotSymmetric(u, m.h);
    Pulled(Dot(m.h, g.x), m.z, hh, m.r, s);
  }

  lemma Pulled(hx: real, z: real, hh: real, r: real, s: real)
    requires s == hh + r && s > 0.0
    ensures hx + Times((z - hx) / s, hh) - z == Times(r / s, hx - z)
    ensures hh + Times(Less(hh, s), hh) == Times(r / s, hh)
  {
    QuotientTimes(hh, s);
    QuotientTimes(r, s);
    SwapQuotient(z - hx, hh, s);
    assert hh / s + r / s == 1.0 by {
      Divide(s, hh / s + r / s, s);
      Divide(s, 1.0, s);
    }
    var a, b := hh / s, r / s;
    assert a == 1.0 - b;
    assert a * (z - hx) == (z - hx) - b * (z - hx);
    assert a * hh == hh - b * hh;
  }

  /** A scalar reading, in the entries it is about. */
  lemma ScalarPulls(g: Gauss, n: nat, i: nat, z: real, noise: real, r: Gauss)
    requires Sound(g, n) && i < n && noise > 0.0 && r == Fuse(g, n, ScalarReading(n, i, z, noise))
    ensures g.p[i][i] >= 0.0 && Shaped(r, n)
    ensures r.x[i] - z == Times(noise / (g.p[i][i] + noise), g.x[i] - z)
    ensures r.p[i][i] == Times(noise / (g.p[i][i] + noise), g.p[i][i])
  {
    var m := ScalarReading(n, i, z, noise);
    QuadUnit(g.p, n, i);
    ReadingPulls(g, n, m, g.p[i][i] + noise, r);
    DotUnit(n, i, r.x);
    DotUnit(n, i, g.x);
    QuadUnit(r.p, n, i);
  }

  /** A reading of the sum of two states. */
  lemma PairPulls(g: Gauss, n: nat, i: nat, j: nat, z: real, noise: real, r: Gauss, s: real)
    requires Sound(g, n) && i < n && j < n && noise > 0.0 && r == Fuse(g, n, PairReading(n, i, j, z, noise))
    requires s == (g.p[i][i] + g.p[j][i]) + (g.p[i][j] + g.p[j][j]) + noise
    ensures s > 0.0 && Shaped(r, n)
    ensures r.x[i] + r.x[j] - z == Times(noise / s, g.x[i] + g.x[j] - z)
  {
    var m := PairReading(n, i, j, z, noise);
    PairTerms(g, n, i, j, z, noise);
    assert Quad(g.p, n, m.h) >= 0.0;
    ReadingPulls(g, n, m, s, r);
    DotAxpy(1.0, Unit(n, j), Unit(n, i), r.x);
    DotUnit(n, i, r.x);
    DotUnit(n, j, r.x);
  }

  /** Two predictions in a row are one with the product transition; the first one's noise and
      offset pass through the second. */
  lemma PredictTwice(g: Gauss, n: nat, f1: Mat, c1: Vec, q1: Vec, f2: Mat, c2: Vec, q2: Vec, v: Vec)
    requires Sound(g, n) && Legal(Predict(f1, c1, q1), n) && Legal(Predict(f2, c2, q2), n) && |v| == n
    ensures var r := Apply(Apply(g, n, Predict(f1, c1, q1)), n, Predict(f2, c2, q2));
      var back := Combine(v, MatMul(f2, f1, n), n);
      && Dot(v, r.x) == Dot(v, c2) + Dot(Combine(v, f2, n), c1) + Dot(back, g.x)
      && Quad(r.p, n, v) == Quad(g.p, n, back) + WeightedSquares(q1, Combine(v, f2, n)) + WeightedSquares(q2, v)
  {
    ApplyKeepsCovariance(g, n, Predict(f1, c1, q1));
    PredictCarries(Apply(g, n, Predict(f1, c1, q1)), n, f2, c2, q2, v);
    PredictCarries(g, n, f1, c1, q1, Combine(v, f2, n));
    CombineProduct(v, f2, f1, n);
  }

  /** The start has the given values, and independent states of the given variances. */
  lemma StartIsIndependent(x: Vec, variances: Vec, v: Vec)
    requires |x| == |variances| == |v|
    ensures Dot(v, Start(x, variances).x) == Dot(v, x)
    ensures Quad(Start(x, variances).p, |x|, v) == WeightedSquares(variances, v)
  {
    var n := |x|;
    var zero := seq(n, i => Zeros(n));
    DotZeros(v);
    assert MulVec(zero, v) == Zeros(n);
    DotSymmetric(v, Zeros(n));
    QuadAddDiagonal(zero, n, variances, v);
  }

  /** A run is its steps one after the other. */
  lemma {:induction false} RunsFollow(g: Gauss, n: nat, first: seq<Step>, later: seq<Step>)
    requires Shaped(g, n)
    requires (forall s :: s in first ==> Legal(s, n)) && (forall s :: s in later ==> Legal(s, n))
    ensures Run(g, n, first + later) == Run(Run(g, n, first), n, later)
  {
    if later == [] {
      assert first + later == first;
    } else {
      var k := |later| - 1;
      assert (first + later)[..|first + later| - 1] == first + later[..k];
      RunsFollow(g, n, first, later[..k]);
    }
  }

  lemma RunOfOne(g: Gauss, n: nat, s: Step)
    requires Shaped(g, n) && Legal(s, n)
    ensures Run(g, n, [s]) == Apply(g, n, s)
  {
    assert [s][..0] == [];
  }
}
