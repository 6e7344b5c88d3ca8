/** A two-parameter recursive least squares fit: rows y = x * slope + offset. Both fits of
    the estimator (the SMART calibration and the placement map) are this one covariance
    update, so the matrix facts are proved once. */
module TwoParamRls {
  import opened RealAlgebra

  /** A 2x2 matrix by rows: (a b; c d). */
  datatype Mat2 = Mat2(a: real, b: real, c: real, d: real)

  predicate Symmetric(p: Mat2) {
    p.b == p.c
  }

  function Det(p: Mat2): real {
    p.a * p.d - p.b * p.c
  }

  ghost predicate PSD(p: Mat2) {
    Symmetric(p) && p.a >= 0.0 && p.d >= 0.0 && Det(p) >= 0.0
  }

  /** P h for the row h = (x, 1). */
  function Column(p: Mat2, x: real): (u: (real, real)) {
    (Times(x, p.a) + p.b, Times(x, p.c) + p.d)
  }

  /** h P h^T + r */
  function RowVar(p: Mat2, x: real, r: real): real {
    Times(x, Column(p, x).0) + Column(p, x).1 + r
  }

  /** p - y z / s */
  function Reduce(p: real, y: real, z: real, s: real): real
    requires s > 0.0
  {
    p - Times(y / s, z)
  }

  /** P - (P h)(P h)^T / s */
  function Absorbed(p: Mat2, x: real, r: real): (q: Mat2)
    requires RowVar(p, x, r) > 0.0
  {
    var u, s := Column(p, x), RowVar(p, x, r);
    Mat2(Reduce(p.a, u.0, u.0, s), Reduce(p.b, u.0, u.1, s),
         Reduce(p.c, u.1, u.0, s), Reduce(p.d, u.1, u.1, s))
  }

  // -- the covariance stays one -------------------------------------------------

  /** With a positive slope variance the row variance is a square over it. */
  lemma CompletedSquare(p: Mat2, x: real, r: real)
    requires Symmetric(p)
    ensures Times(p.a, RowVar(p, x, r) - r) == Times(Column(p, x).0, Column(p, x).0) + Det(p)
  {
    var u := Column(p, x).0;
    assert p.a * (x * u + x * p.b + p.d) == (p.a * x) * u + p.b * (p.a * x) + p.a * p.d;
  }

  lemma PositiveFactor(a: real, y: real)
    requires a > 0.0 && Times(a, y) >= 0.0
    ensures y >= 0.0
  {
  }

  lemma RowVarPositive(p: Mat2, x: real, r: real)
    requires PSD(p) && r > 0.0
    ensures RowVar(p, x, r) >= r
  {
    if p.a == 0.0 {
      assert Det(p) == -Times(p.b, p.b);
      SquareNonNegative(p.b);
    } else {
      CompletedSquare(p, x, r);
      SquareNonNegative(Column(p, x).0);
      PositiveFactor(p.a, RowVar(p, x, r) - r);
    }
  }

  lemma ScaledEntries(p: Mat2, x: real, r: real)
    requires Symmetric(p)
    ensures var u, s := Column(p, x), RowVar(p, x, r);
      && Times(s, p.a) - Times(u.0, u.0) == Times(r, p.a) + Det(p)
      && Times(s, p.d) - Times(u.1, u.1) == Times(r, p.d) + Times(Times(x, x), Det(p))
      && Times(s, p.b) - Times(u.0, u.1) == Times(r, p.b) - Times(x, Det(p))
  {
    var a, b, d := p.a, p.b, p.d;
    var u, v := Column(p, x).0, Column(p, x).1;
    var det := Det(p);
    assert u == a * x + b && v == b * x + d && det == a * d - b * b;
    assert (x * u + v) * a - u * u == det;
    assert (x * u + v) * d - v * v == (x * x) * det;
    assert (x * u + v) * b - u * v == -(x * det);
  }

  lemma ReduceIsQuotient(p: real, y: real, z: real, s: real)
    requires s > 0.0
    ensures Reduce(p, y, z, s) == (Times(s, p) - Times(y, z)) / s
  {
    var k := y / s;
    assert y == k * s;
    assert s * p - y * z == s * (p - k * z);
    Divide(s, p - k * z, s * p - y * z);
  }

  /** (r a + D)(r d + x^2 D) - (r b - x D)^2 = r D s, over s^2. */
  lemma AbsorbedDet(p: Mat2, x: real, r: real)
    requires Symmetric(p) && RowVar(p, x, r) > 0.0
    ensures Symmetric(Absorbed(p, x, r))
    ensures Det(Absorbed(p, x, r)) == Times(r, Det(p)) / RowVar(p, x, r)
  {
    AbsorbedEntries(p, x, r);
    DetOfEntries(p, x, r, Absorbed(p, x, r));
  }

  lemma DetOfEntries(p: Mat2, x: real, r: real, q: Mat2)
    requires Symmetric(p) && RowVar(p, x, r) > 0.0 && Symmetric(q)
    requires var s, det := RowVar(p, x, r), Det(p);
      && q.a == (Times(r, p.a) + det) / s
      && q.d == (Times(r, p.d) + Times(Times(x, x), det)) / s
      && q.b == (Times(r, p.b) - Times(x, det)) / s
    ensures Det(q) == Times(r, Det(p)) / RowVar(p, x, r)
  {
    DetFromScaled(p.a, p.b, p.d, x, r, Det(p), RowVar(p, x, r), q.a, q.b, q.d);
  }

  lemma AbsorbedEntries(p: Mat2, x: real, r: real)
    requires Symmetric(p) && RowVar(p, x, r) > 0.0
    ensures var s, det, q := RowVar(p, x, r), Det(p), Absorbed(p, x, r);
      && Symmetric(q) && q.a == (Times(r, p.a) + det) / s
      && q.d == (Times(r, p.d) + Times(Times(x, x), det)) / s
      && q.b == (Times(r, p.b) - Times(x, det)) / s
  {
    var s, u := RowVar(p, x, r), Column(p, x);
    ScaledEntries(p, x, r);
    ReduceIsQuotient(p.a, u.0, u.0, s);
    ReduceIsQuotient(p.d, u.1, u.1, s);
    ReduceIsQuotient(p.b, u.0, u.1, s);
    SwapQuotient(u.0, u.1, s);
  }

  lemma DetFromScaled(a: real, b: real, d: real, x: real, r: real, det: real, s: real,
                      qa: real, qb: real, qd: real)
    requires s > 0.0 && det == a * d - b * b && s == Times(x, Times(x, a) + b) + (Times(x, b) + d) + r
    requires qa == (Times(r, a) + det) / s
    requires qd == (Times(r, d) + Times(Times(x, x), det)) / s
    requires qb == (Times(r, b) - Times(x, det)) / s
    ensures qa * qd - qb * qb == Times(r, det) / s
  {
    var na, nd, nb := r * a + det, r * d + (x * x) * det, r * b - x * det;
    assert na == qa * s && nd == qd * s && nb == qb * s;
    NumeratorDet(a, b, d, x, r, det, s, na, nb, nd);
    var w := qa * qd - qb * qb;
    assert na * nd - nb * nb == s * (s * w);
    assert Times(s, Times(s, w)) == Times(s, Times(r, det));
    CancelTwice(s, w, Times(r, det));
  }

  lemma NumeratorDet(a: real, b: real, d: real, x: real, r: real, det: real, s: real,
                     na: real, nb: real, nd: real)
    requires det == a * d - b * b && s == x * (x * a + b) + (x * b + d) + r
    requires na == r * a + det && nd == r * d + (x * x) * det && nb == r * b - x * det
    ensures na * nd - nb * nb == s * (r * det)
  {
    Foil(r * a, det, r * d, (x * x) * det);
    Foil(r * b, -(x * det), r * b, -(x * det));
    ScaledDet(a, b, d, r, det);
    CrossTerms(a, b, d, x, r, det);
    RowTerms(a, b, d, x, r, det, s);
  }

  lemma Foil(p: real, q: real, u: real, v: real)
    ensures (p + q) * (u + v) == p * u + p * v + q * u + q * v
  {
  }

  lemma ScaledDet(a: real, b: real, d: real, r: real, det: real)
    requires det == a * d - b * b
    ensures (r * a) * (r * d) - (r * b) * (r * b) == (r * r) * det
  {
    assert (r * a) * (r * d) == (r * r) * (a * d) && (r * b) * (r * b) == (r * r) * (b * b);
  }

  lemma CrossTerms(a: real, b: real, d: real, x: real, r: real, det: real)
    ensures (r * a) * ((x * x) * det) == a * (x * x) * (r * det)
    ensures det * (r * d) == d * (r * det)
    ensures (r * b) * -(x * det) == -(b * x * (r * det)) == -(x * det) * (r * b)
    ensures -(x * det) * -(x * det) == det * ((x * x) * det)
  {
  }

  lemma RowTerms(a: real, b: real, d: real, x: real, r: real, det: real, s: real)
    requires s == x * (x * a + b) + (x * b + d) + r
    ensures s * (r * det) == a * (x * x) * (r * det) + 2.0 * (b * x * (r * det)) + d * (r * det) + (r * r) * det
  {
    var w := r * det;
    assert s == a * (x * x) + 2.0 * (b * x) + d + r;
    assert r * w == (r * r) * det;
  }

  lemma CancelTwice(s: real, w: real, t: real)
    requires s > 0.0 && Times(s, Times(s, w)) == Times(s, t)
    ensures w == t / s
  {
    assert s * w == t;
  }

  /** A row keeps the covariance one, and never loosens either parameter. */
  lemma AbsorbedIsPSD(p: Mat2, x: real, r: real)
    requires PSD(p) && r > 0.0
    ensures RowVar(p, x, r) > 0.0 && PSD(Absorbed(p, x, r))
    ensures Absorbed(p, x, r).a <= p.a && Absorbed(p, x, r).d <= p.d
  {
    RowVarPositive(p, x, r);
    var s, det, u := RowVar(p, x, r), Det(p), Column(p, x);
    ScaledEntries(p, x, r);
    ReduceIsQuotient(p.a, u.0, u.0, s);
    ReduceIsQuotient(p.d, u.1, u.1, s);
    ProductNonNegative(r, p.a);
    ProductNonNegative(r, p.d);
    ProductNonNegative(r, det);
    SquareNonNegative(x);
    ProductNonNegative(Times(x, x), det);
    QuotientNonNegative(Times(r, p.a) + det, s);
    QuotientNonNegative(Times(r, p.d) + Times(Times(x, x), det), s);
    QuotientNonNegative(Times(r, det), s);
    AbsorbedDet(p, x, r);
    ReduceShrinks(p.a, u.0, s);
    ReduceShrinks(p.d, u.1, s);
  }

  lemma ReduceShrinks(p: real, y: real, s: real)
    requires s > 0.0
    ensures Reduce(p, y, y, s) <= p
  {
    var k := y / s;
    assert k * y == k * k * s;
  }

  // -- information ---------------------------------------------------------------

  function InnerEntry(p0: real, p1: real, l0: real, l1: real): real {
    Times(p0, l0) + Times(p1, l1)
  }

  function Product(p: Mat2, l: Mat2): Mat2 {
    Mat2(InnerEntry(p.a, p.b, l.a, l.c), InnerEntry(p.a, p.b, l.b, l.d),
         InnerEntry(p.c, p.d, l.a, l.c), InnerEntry(p.c, p.d, l.b, l.d))
  }

  const IDENTITY := Mat2(1.0, 0.0, 0.0, 1.0)

  /** L + h^T h / r */
  function Informed(l: Mat2, x: real, r: real): Mat2
    requires r > 0.0
  {
    Mat2(l.a + Times(x, x / r), l.b + Times(x, 1.0 / r), l.c + x / r, l.d + 1.0 / r)
  }

  lemma ColumnTimesInformation(p: Mat2, l: Mat2, x: real)
    requires Symmetric(p) && Product(p, l) == IDENTITY
    ensures Times(Column(p, x).0, l.a) + Times(Column(p, x).1, l.c) == x
    ensures Times(Column(p, x).0, l.b) + Times(Column(p, x).1, l.d) == 1.0
  {
    var u, v := Column(p, x).0, Column(p, x).1;
    ColumnEntry(p.a, p.b, p.d, l.a, l.c, x, u, v);
    ColumnEntry(p.a, p.b, p.d, l.b, l.d, x, u, v);
  }

  lemma ColumnEntry(a: real, b: real, d: real, l0: real, l1: real, x: real, u: real, v: real)
    requires u == Times(x, a) + b && v == Times(x, b) + d
    ensures Times(u, l0) + Times(v, l1) == Times(x, InnerEntry(a, b, l0, l1)) + InnerEntry(b, d, l0, l1)
  {
    assert (x * a) * l0 == x * (a * l0) && (x * b) * l1 == x * (b * l1);
  }

  /** One entry of the product: row (p0 p1), whose share of the column is y, against column
      (l0 l1), whose share of the row h is phi. */
  lemma InverseEntry(p0: real, p1: real, l0: real, l1: real, y: real, u: real, v: real,
                     x: real, phi: real, r: real, s: real, m0: real, m1: real)
    requires r > 0.0 && s > 0.0 && m0 == l0 + Times(x, phi / r) && m1 == l1 + phi / r
    requires s == Times(x, u) + v + r
    requires y == Times(x, p0) + p1
    requires Times(u, l0) + Times(v, l1) == phi
    ensures InnerEntry(Reduce(p0, y, u, s), Reduce(p1, y, v, s), m0, m1)
         == InnerEntry(p0, p1, l0, l1)
  {
    var e, f := phi / r, y / s;
    assert phi == e * r && y == f * s;
    assert (p0 - f * u) * (l0 + x * e) + (p1 - f * v) * (l1 + e)
        == p0 * l0 + p1 * l1 + e * (x * p0 + p1) - f * (u * l0 + v * l1) - (f * e) * (x * u + v);
    assert e * (f * s) - f * (e * r) - (f * e) * (s - r) == 0.0;
  }

  /** Sherman-Morrison: the update inverts the information with the row added to it. */
  lemma AbsorbedInverts(p: Mat2, l: Mat2, x: real, r: real)
    requires Symmetric(p) && r > 0.0 && RowVar(p, x, r) > 0.0
    requires Product(p, l) == IDENTITY
    ensures Product(Absorbed(p, x, r), Informed(l, x, r)) == IDENTITY
  {
    var u, s := Column(p, x), RowVar(p, x, r);
    var q, m := Absorbed(p, x, r), Informed(l, x, r);
    ColumnTimesInformation(p, l, x);
    InverseEntry(p.a, p.b, l.a, l.c, u.0, u.0, u.1, x, x, r, s, m.a, m.c);
    InverseEntry(p.a, p.b, l.b, l.d, u.0, u.0, u.1, x, 1.0, r, s, m.b, m.d);
    InverseEntry(p.c, p.d, l.a, l.c, u.1, u.0, u.1, x, x, r, s, m.a, m.c);
    InverseEntry(p.c, p.d, l.b, l.d, u.1, u.0, u.1, x, 1.0, r, s, m.b, m.d);
  }

  // -- the normal equations ------------------------------------------------------

  /** P h / s */
  function GainOf(p: Mat2, x: real, r: real): (k: (real, real))
    requires RowVar(p, x, r) > 0.0
  {
    (Column(p, x).0 / RowVar(p, x, r), Column(p, x).1 / RowVar(p, x, r))
  }

  /** L (slope, offset): the left side of the normal equations. */
  function Normal(l: Mat2, slope: real, offset: real): (real, real) {
    (Times(l.a, slope) + Times(l.b, offset), Times(l.c, slope) + Times(l.d, offset))
  }

  /** Their right side with the row y = x * slope + offset of variance r added to it. */
  function RowEvidence(v: (real, real), x: real, y: real, r: real): (real, real)
    requires r > 0.0
  {
    (v.0 + Times(x, y) / r, v.1 + y / r)
  }

  lemma ReciprocalTimes(x: real, y: real, r: real)
    requires r > 0.0
    ensures Times(x, 1.0 / r) == x / r
    ensures Times(x / r, y) == Times(x, y) / r
  {
    var e := 1.0 / r;
    assert e * r == 1.0;
    assert (x * e) * r == x;
    var g := x / r;
    assert g * r == x;
    assert (g * y) * r == x * y;
    Divide(r, x * e, x);
    Divide(r, g * y, x * y);
  }

  lemma ScaledGain(l0: real, l1: real, k: (real, real), u: (real, real), x: real, phi: real, r: real, s: real,
                   m0: real, m1: real)
    requires r > 0.0 && s > 0.0 && s == Times(x, u.0) + u.1 + r
    requires m0 == l0 + Times(x, phi / r) && m1 == l1 + phi / r
    requires Times(k.0, s) == u.0 && Times(k.1, s) == u.1
    requires Times(u.0, l0) + Times(u.1, l1) == phi
    ensures Times(m0, k.0) + Times(m1, k.1) == phi / r
  {
    var g := phi / r;
    assert g * r == phi;
    var y := (l0 + x * g) * k.0 + (l1 + g) * k.1;
    assert y * s == (u.0 * l0 + u.1 * l1) + g * (x * u.0 + u.1);
    assert y * s == g * s;
    Divide(s, y, g * s);
  }

  /** L' k = h / r */
  lemma GainThroughInformation(p: Mat2, l: Mat2, x: real, r: real)
    requires Symmetric(p) && Symmetric(l) && Product(p, l) == IDENTITY
    requires r > 0.0 && RowVar(p, x, r) > 0.0
    ensures var k, m := GainOf(p, x, r), Informed(l, x, r);
      && Symmetric(m)
      && Times(m.a, k.0) + Times(m.b, k.1) == x / r
      && Times(m.c, k.0) + Times(m.d, k.1) == 1.0 / r
  {
    var u, s, k, m := Column(p, x), RowVar(p, x, r), GainOf(p, x, r), Informed(l, x, r);
    ColumnTimesInformation(p, l, x);
    QuotientTimes(u.0, s);
    QuotientTimes(u.1, s);
    ReciprocalTimes(x, 0.0, r);
    ScaledGain(l.a, l.c, k, u, x, x, r, s, m.a, m.c);
    ScaledGain(l.b, l.d, k, u, x, 1.0, r, s, m.b, m.d);
  }

  /** A row satisfied by z before the move is satisfied by y after it. */
  lemma SolvedRow(a: real, b: real, v: real, slope: real, offset: real, s2: real, o2: real,
                  k: (real, real), d: real, g: real, y: real, z: real)
    requires s2 == slope + Times(k.0, d) && o2 == offset + Times(k.1, d) && d == y - z
    requires Times(a, k.0) + Times(b, k.1) == g
    requires Times(a, slope) + Times(b, offset) == v + Times(g, z)
    ensures Times(a, s2) + Times(b, o2) == v + Times(g, y)
  {
    assert Times(d, g) == Times(g, y) - Times(g, z);
  }

  lemma InformedTerms(l: Mat2, m: Mat2, x: real, r: real, slope: real, offset: real, z: real)
    requires r > 0.0 && m == Informed(l, x, r) && z == Times(x, slope) + offset
    ensures Times(m.a, slope) + Times(m.b, offset) == Times(l.a, slope) + Times(l.b, offset) + Times(x / r, z)
    ensures Times(m.c, slope) + Times(m.d, offset) == Times(l.c, slope) + Times(l.d, offset) + Times(1.0 / r, z)
  {
    ReciprocalTimes(x, slope, r);
    var g, e := x / r, 1.0 / r;
    assert x * e == g;
    assert (x * g) * slope == g * (x * slope);
    assert g * slope == e * (x * slope);
  }

  /** The move along the gain solves the normal equations with the row added. */
  lemma MoveSolves(p: Mat2, l: Mat2, slope: real, offset: real, x: real, y: real, r: real, s2: real, o2: real)
    requires Symmetric(p) && Symmetric(l) && Product(p, l) == IDENTITY && r > 0.0 && RowVar(p, x, r) > 0.0
    requires var k, d := GainOf(p, x, r), y - (Times(x, slope) + offset);
      s2 == slope + Times(k.0, d) && o2 == offset + Times(k.1, d)
    ensures Normal(Informed(l, x, r), s2, o2) == RowEvidence(Normal(l, slope, offset), x, y, r)
  {
    var m, k, z := Informed(l, x, r), GainOf(p, x, r), Times(x, slope) + offset;
    var v, d := Normal(l, slope, offset), y - z;
    GainThroughInformation(p, l, x, r);
    InformedTerms(l, m, x, r, slope, offset, z);
    ReciprocalTimes(x, y, r);
    ReciprocalTimes(1.0, y, r);
    SolvedRow(m.a, m.b, v.0, slope, offset, s2, o2, k, d, x / r, y, z);
    SolvedRow(m.c, m.d, v.1, slope, offset, s2, o2, k, d, 1.0 / r, y, z);
  }

  /** P takes the left side of the normal equations back to slope and offset. */
  lemma NormalInverted(p: Mat2, l: Mat2, slope: real, offset: real, v: (real, real))
    requires Product(p, l) == IDENTITY && v == Normal(l, slope, offset)
    ensures slope == Times(p.a, v.0) + Times(p.b, v.1) && offset == Times(p.c, v.0) + Times(p.d, v.1)
  {
    InvertedRow(p.a, p.b, l, slope, offset, v);
    InvertedRow(p.c, p.d, l, slope, offset, v);
  }

  lemma InvertedRow(p0: real, p1: real, l: Mat2, slope: real, offset: real, v: (real, real))
    requires v == Normal(l, slope, offset)
    ensures Times(p0, v.0) + Times(p1, v.1)
         == Times(InnerEntry(p0, p1, l.a, l.c), slope) + Times(InnerEntry(p0, p1, l.b, l.d), offset)
  {
    assert p0 * (l.a * slope + l.b * offset) == p0 * l.a * slope + p0 * l.b * offset;
    assert p1 * (l.c * slope + l.d * offset) == p1 * l.c * slope + p1 * l.d * offset;
  }

  /** So they have one solution. */
  lemma SolvedOnce(p: Mat2, l: Mat2, v: (real, real), s: real, o: real, t: real, q: real)
    requires Product(p, l) == IDENTITY && v == Normal(l, s, o) == Normal(l, t, q)
    ensures s == t && o == q
  {
    NormalInverted(p, l, s, o, v);
    NormalInverted(p, l, t, q, v);
  }
}
