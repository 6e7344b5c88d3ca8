/** The per-zone Kalman filter: sequential measurement updates in Joseph form, prediction,
    deliberate variance inflation and re-seeding, for a state of any size. */
module ZoneFilter {
  import opened RealAlgebra
  import opened LinearAlgebra

  datatype Gauss = Gauss(x: Vec, p: Mat)

  /** One reading z of h . x with noise variance r. */
  datatype Reading = Reading(h: Vec, z: real, r: real)

  ghost predicate Shaped(g: Gauss, n: nat) {
    |g.x| == n && Square(g.p, n)
  }

  ghost predicate Covariance(p: Mat, n: nat)
    requires Square(p, n)
  {
    Symmetric(p, n) && PSD(p, n)
  }

  ghost predicate Sound(g: Gauss, n: nat) {
    Shaped(g, n) && Covariance(g.p, n)
  }

  // -- the textbook update ------------------------------------------------------

  function Innovation(x: Vec, m: Reading, s: real): real
    requires |x| == |m.h| && s > 0.0
  {
    (m.z - Dot(m.h, x)) / s
  }

  function InnovationVar(p: Mat, n: nat, m: Reading): real
    requires Square(p, n) && |m.h| == n
  {
    Quad(p, n, m.h) + m.r
  }

  /** Mean moved along P h, covariance reduced by the rank-one term (P h)(P h)^T / s. */
  function Fuse(g: Gauss, n: nat, m: Reading): (r: Gauss)
    requires |g.x| == n && Square(g.p, n) && |m.h| == n
    ensures Shaped(r, n)
  {
    var s := InnovationVar(g.p, n, m);
    if s > 0.0 then
      var u := MulVec(g.p, m.h);
      Gauss(Axpy(Innovation(g.x, m, s), u, g.x), Downdate(g.p, n, u, s))
    else
      g
  }

  /** H = e_i */
  function ScalarReading(n: nat, i: nat, z: real, r: real): Reading
    requires i < n
  {
    Reading(Unit(n, i), z, r)
  }

  /** H = e_i + e_j */
  function PairReading(n: nat, i: nat, j: nat, z: real, r: real): Reading
    requires i < n && j < n
  {
    Reading(Axpy(1.0, Unit(n, j), Unit(n, i)), z, r)
  }

  // -- a measurement never loosens any direction, and never breaks the covariance --

  /** Cauchy-Schwarz for a covariance, in the form the update needs. */
  lemma GainBound(p: Mat, n: nat, h: Vec, s: real, v: Vec)
    requires Square(p, n) && Covariance(p, n) && |h| == |v| == n
    requires s > 0.0 && Quad(p, n, h) <= s
    ensures Quad(p, n, v) + Times(Less(Dot(MulVec(p, h), v), s), Dot(MulVec(p, h), v)) >= 0.0
  {
    var d := Dot(MulVec(p, h), v);
    DotSymmetric(MulVec(p, h), v);
    QuadAlongLine(p, n, v, Less(d, s), h);
    assert Quad(p, n, Axpy(Less(d, s), h, v)) >= 0.0;
    GainBoundStep(d, s, Quad(p, n, h), Quad(p, n, v));
  }

  lemma GainBoundStep(d: real, s: real, hh: real, vv: real)
    requires s > 0.0 && hh <= s
    requires vv + 2.0 * Times(Less(d, s), d) + Times(Less(d, s), Times(Less(d, s), hh)) >= 0.0
    ensures vv + Times(Less(d, s), d) >= 0.0
  {
    var k := d / s;
    assert d == k * s;
    assert Times(Less(d, s), d) == (-k) * d == -(k * k * s);
    assert Times(Less(d, s), Times(Less(d, s), hh)) == k * k * hh by {
      assert (-k) * ((-k) * hh) == k * k * hh;
    }
    Monotone(k * k, hh, s);
  }

  lemma Monotone(c: real, x: real, y: real)
    requires c >= 0.0 && x <= y
    ensures c * x <= c * y
  {
  }

  lemma FuseKeepsCovariance(g: Gauss, n: nat, m: Reading)
    requires Sound(g, n) && |m.h| == n && m.r >= 0.0
    ensures Sound(Fuse(g, n, m), n)
  {
    var s := InnovationVar(g.p, n, m);
    if s > 0.0 {
      var u := MulVec(g.p, m.h);
      SymmetricDowndate(g.p, n, u, s);
      forall v: Vec | |v| == n
        ensures Quad(Downdate(g.p, n, u, s), n, v) >= 0.0
      {
        QuadDowndate(g.p, n, u, s, v);
        GainBound(g.p, n, m.h, s, v);
      }
    }
  }

  lemma FuseNeverLoosens(g: Gauss, n: nat, m: Reading, v: Vec)
    requires Shaped(g, n) && |m.h| == |v| == n
    ensures Quad(Fuse(g, n, m).p, n, v) <= Quad(g.p, n, v)
  {
    var s := InnovationVar(g.p, n, m);
    if s > 0.0 {
      var u := MulVec(g.p, m.h);
      QuadDowndate(g.p, n, u, s, v);
    }
  }

  /** In particular no diagonal entry grows. */
  lemma FuseShrinksVariances(g: Gauss, n: nat, m: Reading, i: nat)
    requires Shaped(g, n) && |m.h| == n && i < n
    ensures Fuse(g, n, m).p[i][i] <= g.p[i][i]
  {
    FuseNeverLoosens(g, n, m, Unit(n, i));
    QuadUnit(g.p, n, i);
    QuadUnit(Fuse(g, n, m).p, n, i);
  }

  // -- the in-place Joseph form -------------------------------------------------

  function MatOf(p: array2<real>): (m: Mat)
    reads p
    ensures |m| == p.Length0
    ensures forall i :: 0 <= i < |m| ==> |m[i]| == p.Length1
    ensures forall i, j :: 0 <= i < p.Length0 && 0 <= j < p.Length1 ==> m[i][j] == p[i, j]
  {
    seq(p.Length0, i requires 0 <= i < p.Length0 reads p =>
      seq(p.Length1, j requires 0 <= j < p.Length1 reads p => p[i, j]))
  }

  ghost function Snapshot(x: array<real>, p: array2<real>): Gauss
    reads x, p
  {
    Gauss(x[..], MatOf(p))
  }

  ghost predicate Matching(x: array<real>, p: array2<real>) {
    x.Length == p.Length0 == p.Length1
  }

  /** (I - K H) P, with hp = H P */
  function Reduced(p: Mat, n: nat, k: Vec, hp: Vec): (a: Mat)
    requires Square(p, n) && |k| == |hp| == n
    ensures Square(a, n)
  {
    seq(n, a requires 0 <= a < n =>
      seq(n, b requires 0 <= b < n => p[a][b] - Times(k[a], hp[b])))
  }

  /** ... (I - K H)^T + K R K^T, with col = (I - K H) P H^T */
  function Joseph(a1: Mat, n: nat, col: Vec, k: Vec, r: real): (q: Mat)
    requires Square(a1, n) && |col| == |k| == n
    ensures Square(q, n)
  {
    seq(n, a requires 0 <= a < n =>
      seq(n, b requires 0 <= b < n =>
        a1[a][b] - Times(col[a], k[b]) + Times(r, Times(k[a], k[b]))))
  }

  function Symmetrised(q: Mat, n: nat): (r: Mat)
    requires Square(q, n)
    ensures Square(r, n)
  {
    seq(n, a requires 0 <= a < n => seq(n, b requires 0 <= b < n => 0.5 * (q[a][b] + q[b][a])))
  }

  lemma SymmetrisedFixes(q: Mat, n: nat)
    requires Square(q, n) && Symmetric(q, n)
    ensures Symmetrised(q, n) == q
  {
    var r := Symmetrised(q, n);
    forall a | 0 <= a < n ensures r[a] == q[a] {
      forall b | 0 <= b < n ensures r[a][b] == q[a][b] {
        assert q[a][b] == q[b][a];
      }
    }
  }

  lemma JosephEntry(pab: real, ha: real, hb: real, hh: real, r: real, s: real)
    requires s > 0.0 && s == hh + r
    ensures pab - Times(ha / s, hb) - Times(ha - Times(ha / s, hh), hb / s)
            + Times(r, Times(ha / s, hb / s))
         == pab + Times(Less(ha, s), hb)
  {
    var ka, kb := ha / s, hb / s;
    assert ha == ka * s && hb == kb * s;
    assert ha - ka * hh == ka * r;
    assert Times(Less(ha, s), hb) == -(ka * hb);
  }

  /** The Joseph form of a symmetric P is its rank-one downdate. u is P H^T, hh is H P H^T. */
  lemma JosephIsDowndate(p: Mat, n: nat, u: Vec, hh: real, r: real, s: real, k: Vec, col: Vec)
    requires Square(p, n) && Symmetric(p, n) && |u| == |k| == |col| == n
    requires s > 0.0 && s == hh + r
    requires forall a :: 0 <= a < n ==> k[a] == u[a] / s
    requires forall a :: 0 <= a < n ==> col[a] == u[a] - Times(k[a], hh)
    ensures Symmetrised(Joseph(Reduced(p, n, k, u), n, col, k, r), n) == Downdate(p, n, u, s)
  {
    var q, d := Joseph(Reduced(p, n, k, u), n, col, k, r), Downdate(p, n, u, s);
    forall a | 0 <= a < n ensures q[a] == d[a] {
      forall b | 0 <= b < n ensures q[a][b] == d[a][b] {
        JosephEntry(p[a][b], u[a], u[b], hh, r, s);
      }
    }
    assert q == d;
    SymmetricDowndate(p, n, u, s);
    SymmetrisedFixes(d, n);
  }

  /** x + k e */
  function Shift(x: Vec, k: Vec, e: real): (y: Vec)
    requires |x| == |k|
    ensures |y| == |x|
  {
    seq(|x|, a requires 0 <= a < |x| => x[a] + Times(k[a], e))
  }

  lemma ShiftIsAxpy(x: Vec, u: Vec, k: Vec, e: real, s: real)
    requires |x| == |u| == |k| && s > 0.0
    requires forall a :: 0 <= a < |x| ==> k[a] == u[a] / s
    ensures Shift(x, k, e) == Axpy(e / s, u, x)
  {
    forall a | 0 <= a < |x| ensures Shift(x, k, e)[a] == x[a] + Times(e / s, u[a]) {
      SwapQuotient(u[a], e, s);
    }
  }

  lemma ScalarTerms(g: Gauss, n: nat, i: nat, z: real, r: real)
    requires Shaped(g, n) && Symmetric(g.p, n) && i < n
    ensures var m := ScalarReading(n, i, z, r);
      && InnovationVar(g.p, n, m) == g.p[i][i] + r
      && Dot(m.h, g.x) == g.x[i]
      && forall a :: 0 <= a < n ==> MulVec(g.p, m.h)[a] == g.p[a][i]
  {
    forall a | 0 <= a < n ensures MulVec(g.p, Unit(n, i))[a] == g.p[a][i] {
      DotUnit(n, i, g.p[a]);
    }
    DotUnit(n, i, g.x);
    QuadUnit(g.p, n, i);
  }

  /** The last lines of both updates: the mean moved along k, P replaced by the
      symmetrised Joseph form. */
  method Store(x: array<real>, p: array2<real>, k: Vec, step: real, joseph: Mat)
    requires Matching(x, p) && |k| == x.Length && Square(joseph, x.Length)
    modifies x, p
    ensures x[..] == Shift(old(x[..]), k, step)
    ensures MatOf(p) == Symmetrised(joseph, x.Length)
  {
    StoreMean(x, k, step);
    StoreCovariance(p, joseph);
  }

  method StoreMean(x: array<real>, k: Vec, step: real)
    requires |k| == x.Length
    modifies x
    ensures x[..] == Shift(old(x[..]), k, step)
  {
    ghost var x0 := x[..];
    forall a | 0 <= a < x.Length {
      x[a] := x[a] + Times(k[a], step);
    }
    assert x[..] == Shift(x0, k, step);
  }

  method StoreCovariance(p: array2<real>, joseph: Mat)
    requires p.Length0 == p.Length1 && Square(joseph, p.Length0)
    modifies p
    ensures MatOf(p) == Symmetrised(joseph, p.Length0)
  {
    var mean := Symmetrised(joseph, p.Length0);
    forall a, b | 0 <= a < p.Length0 && 0 <= b < p.Length0 {
      p[a, b] := mean[a][b];
    }
    forall a | 0 <= a < p.Length0 ensures MatOf(p)[a] == mean[a] {
    }
  }

  /** What both updates compute, given the vectors they compute it from. */
  lemma JosephIsFuse(g: Gauss, n: nat, m: Reading, s: real, e: real, k: Vec, col: Vec)
    requires Shaped(g, n) && Symmetric(g.p, n) && |m.h| == |k| == |col| == n
    requires s == InnovationVar(g.p, n, m) && s > 0.0 && e == m.z - Dot(m.h, g.x)
    requires var u := MulVec(g.p, m.h);
      forall a :: 0 <= a < n ==> k[a] == u[a] / s && col[a] == u[a] - Times(k[a], Quad(g.p, n, m.h))
    ensures var u := MulVec(g.p, m.h);
      Gauss(Shift(g.x, k, e),
            Symmetrised(Joseph(Reduced(g.p, n, k, u), n, col, k, m.r), n)) == Fuse(g, n, m)
  {
    var u := MulVec(g.p, m.h);
    JosephIsDowndate(g.p, n, u, Quad(g.p, n, m.h), m.r, s, k, col);
    ShiftIsAxpy(g.x, u, k, e, s);
  }

  method ScalarUpdate(x: array<real>, p: array2<real>, i: nat, z: real, r: real)
    requires Matching(x, p) && i < x.Length
    requires Symmetric(MatOf(p), x.Length)
    modifies x, p
    ensures Snapshot(x, p)
         == Fuse(old(Snapshot(x, p)), x.Length, ScalarReading(x.Length, i, z, r))
  {
    var n := x.Length;
    ghost var g, m := Snapshot(x, p), ScalarReading(n, i, z, r);
    ScalarTerms(g, n, i, z, r);
    var s := p[i, i] + r;
    if !(s > 0.0) {
      return;
    }
    var p0 := MatOf(p);
    var k := seq(n, a requires 0 <= a < n => p0[a][i] / s);
    var a1 := Reduced(p0, n, k, p0[i]);
    var col := Column(a1, i);
    var joseph := Joseph(a1, n, col, k, r);
    assert p0[i] == MulVec(p0, m.h);
    var step := z - x[i];
    JosephIsFuse(g, n, m, s, step, k, col);
    Store(x, p, k, step, joseph);
  }

  lemma PairTerms(g: Gauss, n: nat, i: nat, j: nat, z: real, r: real)
    requires Shaped(g, n) && Symmetric(g.p, n) && i < n && j < n
    ensures var m := PairReading(n, i, j, z, r);
      && Dot(m.h, g.x) == g.x[i] + g.x[j]
      && (forall a :: 0 <= a < n ==> MulVec(g.p, m.h)[a] == g.p[i][a] + g.p[j][a])
      && Quad(g.p, n, m.h) == (g.p[i][i] + g.p[j][i]) + (g.p[i][j] + g.p[j][j])
  {
    var h := Axpy(1.0, Unit(n, j), Unit(n, i));
    forall v: Vec | |v| == n ensures Dot(h, v) == v[i] + v[j] == Dot(v, h) {
      DotAxpy(1.0, Unit(n, j), Unit(n, i), v);
      DotUnit(n, i, v);
      DotUnit(n, j, v);
    }
    forall a | 0 <= a < n ensures MulVec(g.p, h)[a] == g.p[i][a] + g.p[j][a] {
      assert Dot(g.p[a], h) == g.p[a][i] + g.p[a][j];
    }
    assert Dot(h, MulVec(g.p, h)) == MulVec(g.p, h)[i] + MulVec(g.p, h)[j];
    assert Dot(h, g.x) == g.x[i] + g.x[j];
  }

  method PairUpdate(x: array<real>, p: array2<real>, i: nat, j: nat, z: real, r: real)
    requires Matching(x, p) && i < x.Length && j < x.Length
    requires Symmetric(MatOf(p), x.Length)
    modifies x, p
    ensures Snapshot(x, p)
         == Fuse(old(Snapshot(x, p)), x.Length, PairReading(x.Length, i, j, z, r))
  {
    var n := x.Length;
    ghost var g, m := Snapshot(x, p), PairReading(n, i, j, z, r);
    PairTerms(g, n, i, j, z, r);
    var p0 := MatOf(p);
    var hp := seq(n, a requires 0 <= a < n => p0[i][a] + p0[j][a]);
    var s := hp[i] + hp[j] + r;
    if !(s > 0.0) {
      return;
    }
    var k := seq(n, a requires 0 <= a < n => hp[a] / s);
    var a1 := Reduced(p0, n, k, hp);
    var col := seq(n, a requires 0 <= a < n => a1[a][i] + a1[a][j]);
    var joseph := Joseph(a1, n, col, k, r);
    assert hp == MulVec(p0, m.h);
    PairColumns(p0, n, i, j, hp, k);
    var step := z - x[i] - x[j];
    JosephIsFuse(g, n, m, s, step, k, col);
    Store(x, p, k, step, joseph);
  }

  lemma PairColumns(p: Mat, n: nat, i: nat, j: nat, hp: Vec, k: Vec)
    requires Square(p, n) && Symmetric(p, n) && i < n && j < n && |hp| == |k| == n
    requires forall a :: 0 <= a < n ==> hp[a] == p[i][a] + p[j][a]
    ensures var a1 := Reduced(p, n, k, hp);
      forall a :: 0 <= a < n ==> a1[a][i] + a1[a][j] == hp[a] - Times(k[a], hp[i] + hp[j])
  {
    forall a | 0 <= a < n
      ensures Reduced(p, n, k, hp)[a][i] + Reduced(p, n, k, hp)[a][j]
           == hp[a] - Times(k[a], hp[i] + hp[j])
    {
      assert p[a][i] == p[i][a] && p[a][j] == p[j][a];
      TwoColumns(p[a][i], p[a][j], k[a], hp[i], hp[j]);
    }
  }

  lemma TwoColumns(pi: real, pj: real, k: real, hi: real, hj: real)
    ensures (pi - Times(k, hi)) + (pj - Times(k, hj)) == pi + pj - Times(k, hi + hj)
  {
  }

  method ResetState(x: array<real>, p: array2<real>, i: nat, value: real, variance: real)
    requires Matching(x, p) && i < x.Length
    modifies x, p
    ensures x[..] == old(x[..])[i := value]
    ensures MatOf(p) == Decouple(old(MatOf(p)), x.Length, i, variance)
  {
    x[i] := value;
    forall b | 0 <= b < x.Length {
      p[i, b] := 0.0;
    }
    forall a | 0 <= a < x.Length {
      p[a, i] := 0.0;
    }
    p[i, i] := variance;
    ghost var r := Decouple(old(MatOf(p)), x.Length, i, variance);
    forall a | 0 <= a < x.Length ensures MatOf(p)[a] == r[a] {
    }
  }
}
