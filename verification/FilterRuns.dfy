/** Whole runs of the zone filter: the covariance stays one through every order of steps,
    and a tick's readings may be fused in any order. */
module FilterRuns {
  import opened RealAlgebra
  import opened LinearAlgebra
  import opened ZoneFilter

  // -- two readings in either order ---------------------------------------------

  /** The joint correction of two readings: u, w are their columns P H^T, a and b their
      innovation variances, c the covariance between them. */
  function Joint(u1: real, u2: real, w1: real, w2: real, a: real, b: real, c: real): real
    requires Det(a, b, c) != 0.0
  {
    -(b * u1 * u2 - c * (u1 * w2 + w1 * u2) + a * w1 * w2) / Det(a, b, c)
  }

  function Det(a: real, b: real, c: real): real {
    a * b - c * c
  }

  lemma JointSymmetric(u1: real, u2: real, w1: real, w2: real, a: real, b: real, c: real)
    requires Det(a, b, c) != 0.0
    ensures Det(b, a, c) != 0.0
    ensures Joint(u1, u2, w1, w2, a, b, c) == Joint(w1, w2, u1, u2, b, a, c)
  {
  }

  lemma DivideOut(d: real, x: real, y: real)
    requires d != 0.0 && d * x == y
    ensures x == y / d
  {
  }

  lemma Determinant(a: real, b: real, c: real, s: real)
    requires a > 0.0 && s == b + Times(Less(c, a), c) && s > 0.0
    ensures Det(a, b, c) == a * s > 0.0
  {
    var k := c / a;
    assert c == k * a;
    assert s == b - k * c;
  }

  /** Two successive rank-one corrections are the joint one. */
  lemma TwoSteps(u1: real, u2: real, w1: real, w2: real, v1: real, v2: real,
                 a: real, b: real, c: real, s: real)
    requires a > 0.0 && s == b + Times(Less(c, a), c) && s > 0.0
    requires v1 == w1 + Times(Less(c, a), u1) && v2 == w2 + Times(Less(c, a), u2)
    ensures Det(a, b, c) != 0.0
    ensures Times(Less(u1, a), u2) + Times(Less(v1, s), v2)
         == Joint(u1, u2, w1, w2, a, b, c)
  {
    Determinant(a, b, c, s);
    var k := c / a;
    var alpha, beta := w1 - k * u1, w2 - k * u2;
    var q1, q2 := u1 / a, alpha / s;
    var x := -(q1 * u2) - q2 * beta;
    assert u1 == q1 * a && alpha == q2 * s && c == k * a && s == b - k * c;
    CrossMultiply(q1, q2, a, s, u1, u2, alpha, beta);
    ExpandProduct(u1, u2, w1, w2, a, b, c, k, s);
    DivideOut(Det(a, b, c), x, -(b * u1 * u2 - c * (u1 * w2 + w1 * u2) + a * w1 * w2));
  }

  lemma CrossMultiply(q1: real, q2: real, a: real, s: real,
                      u1: real, u2: real, alpha: real, beta: real)
    requires u1 == q1 * a && alpha == q2 * s
    ensures (a * s) * (-(q1 * u2) - q2 * beta) == -(s * u1 * u2 + a * alpha * beta)
  {
    assert (a * s) * (q1 * u2) == s * (q1 * a) * u2;
    assert (a * s) * (q2 * beta) == a * (q2 * s) * beta;
  }

  lemma ExpandProduct(u1: real, u2: real, w1: real, w2: real,
                      a: real, b: real, c: real, k: real, s: real)
    requires c == k * a && s == b - k * c
    ensures s * u1 * u2 + a * (w1 - k * u1) * (w2 - k * u2)
         == b * u1 * u2 - c * (u1 * w2 + w1 * u2) + a * w1 * w2
  {
    assert s * u1 * u2 == b * u1 * u2 - k * (k * a) * u1 * u2;
  }

  ghost predicate Commensurate(g: Gauss, n: nat, m1: Reading, m2: Reading) {
    Sound(g, n) && |m1.h| == |m2.h| == n && m1.r > 0.0 && m2.r > 0.0
  }

  /** What the second of two readings sees. */
  lemma SecondReading(g: Gauss, n: nat, m1: Reading, m2: Reading)
    requires Commensurate(g, n, m1, m2)
    ensures var u, w := MulVec(g.p, m1.h), MulVec(g.p, m2.h);
      var a, c := InnovationVar(g.p, n, m1), Dot(m1.h, w);
      var g1 := Fuse(g, n, m1);
      && a > 0.0
      && MulVec(g1.p, m2.h) == Axpy(Less(c, a), u, w)
      && InnovationVar(g1.p, n, m2) == InnovationVar(g.p, n, m2) + Times(Less(c, a), c)
      && InnovationVar(g1.p, n, m2) > 0.0
      && Dot(m2.h, g1.x) == Dot(m2.h, g.x) + Times(Innovation(g.x, m1, a), c)
  {
    var u, w := MulVec(g.p, m1.h), MulVec(g.p, m2.h);
    var a, g1 := InnovationVar(g.p, n, m1), Fuse(g, n, m1);
    assert Quad(g.p, n, m1.h) >= 0.0;
    SymmetricMoves(g.p, n, m1.h, m2.h);
    MulVecDowndate(g.p, n, u, a, m2.h);
    QuadDowndate(g.p, n, u, a, m2.h);
    FuseKeepsCovariance(g, n, m1);
    assert Quad(g1.p, n, m2.h) >= 0.0;
    DotAxpy(Innovation(g.x, m1, a), u, g.x, m2.h);
  }

  /** The covariance after two readings, in a form that does not mention their order. */
  lemma FusedTwiceCovariance(g: Gauss, n: nat, m1: Reading, m2: Reading, i: nat, j: nat)
    requires Commensurate(g, n, m1, m2) && i < n && j < n
    ensures var u, w := MulVec(g.p, m1.h), MulVec(g.p, m2.h);
      var a, b := InnovationVar(g.p, n, m1), InnovationVar(g.p, n, m2);
      var c := Dot(m1.h, w);
      && Det(a, b, c) != 0.0
      && Fuse(Fuse(g, n, m1), n, m2).p[i][j]
         == g.p[i][j] + Joint(u[i], u[j], w[i], w[j], a, b, c)
  {
    var u, w := MulVec(g.p, m1.h), MulVec(g.p, m2.h);
    var a, b := InnovationVar(g.p, n, m1), InnovationVar(g.p, n, m2);
    var c := Dot(m1.h, w);
    var g1 := Fuse(g, n, m1);
    SecondReading(g, n, m1, m2);
    var w1, s := MulVec(g1.p, m2.h), InnovationVar(g1.p, n, m2);
    TwoSteps(u[i], u[j], w[i], w[j], w1[i], w1[j], a, b, c, s);
    assert g1.p[i][j] == g.p[i][j] + Times(Less(u[i], a), u[j]);
    assert Fuse(g1, n, m2).p[i][j] == g1.p[i][j] + Times(Less(w1[i], s), w1[j]);
  }

  /** The same for the mean; e1 and e2 are the two prior innovations. */
  lemma FusedTwiceMean(g: Gauss, n: nat, m1: Reading, m2: Reading, i: nat)
    requires Commensurate(g, n, m1, m2) && i < n
    ensures var u, w := MulVec(g.p, m1.h), MulVec(g.p, m2.h);
      var a, b := InnovationVar(g.p, n, m1), InnovationVar(g.p, n, m2);
      var c := Dot(m1.h, w);
      var e1, e2 := m1.z - Dot(m1.h, g.x), m2.z - Dot(m2.h, g.x);
      && Det(a, b, c) != 0.0
      && Fuse(Fuse(g, n, m1), n, m2).x[i] == g.x[i] - Joint(e1, u[i], e2, w[i], a, b, c)
  {
    var u, w := MulVec(g.p, m1.h), MulVec(g.p, m2.h);
    var a, b := InnovationVar(g.p, n, m1), InnovationVar(g.p, n, m2);
    var c := Dot(m1.h, w);
    var g1 := Fuse(g, n, m1);
    SecondReading(g, n, m1, m2);
    var w1, s := MulVec(g1.p, m2.h), InnovationVar(g1.p, n, m2);
    var e1, e2 := m1.z - Dot(m1.h, g.x), m2.z - Dot(m2.h, g.x);
    var d2 := m2.z - Dot(m2.h, g1.x);
    assert g1.x[i] == g.x[i] + Times(e1 / a, u[i]);
    assert Fuse(g1, n, m2).x[i] == g1.x[i] + Times(d2 / s, w1[i]);
    TwoMoves(g.x[i], g1.x[i], Fuse(g1, n, m2).x[i], e1, u[i], e2, w[i], d2, w1[i], a, b, c, s);
  }

  /** Two successive moves of the mean are the joint one. */
  lemma TwoMoves(x0: real, x1: real, x2: real, e1: real, u: real, e2: real, w: real, d2: real, v: real,
                 a: real, b: real, c: real, s: real)
    requires a > 0.0 && s == b + Times(Less(c, a), c) && s > 0.0
    requires d2 == e2 - Times(e1 / a, c) && v == w + Times(Less(c, a), u)
    requires x1 == x0 + Times(e1 / a, u) && x2 == x1 + Times(d2 / s, v)
    ensures Det(a, b, c) != 0.0 && x2 == x0 - Joint(e1, u, e2, w, a, b, c)
  {
    Negate(e1, u, a);
    Negate(d2, v, s);
    Negate(e1, c, a);
    ExchangeLess(e1, c, a);
    TwoSteps(e1, u, e2, w, d2, v, a, b, c, s);
  }

  lemma Negate(e: real, u: real, a: real)
    requires a > 0.0
    ensures Times(e / a, u) == -Times(Less(e, a), u)
  {
  }

  lemma ExchangeLess(x: real, y: real, a: real)
    requires a > 0.0
    ensures Times(Less(x, a), y) == Times(Less(y, a), x)
  {
  }

  lemma FuseCommutes(g: Gauss, n: nat, m1: Reading, m2: Reading)
    requires Commensurate(g, n, m1, m2)
    ensures Fuse(Fuse(g, n, m1), n, m2) == Fuse(Fuse(g, n, m2), n, m1)
  {
    var p, q := Fuse(Fuse(g, n, m1), n, m2), Fuse(Fuse(g, n, m2), n, m1);
    forall i | 0 <= i < n ensures p.x[i] == q.x[i] {
      MeanCommutes(g, n, m1, m2, i);
    }
    forall i | 0 <= i < n ensures p.p[i] == q.p[i] {
      forall j | 0 <= j < n ensures p.p[i][j] == q.p[i][j] {
        CovarianceCommutes(g, n, m1, m2, i, j);
      }
    }
    assert p.x == q.x && p.p == q.p;
  }

  lemma MeanCommutes(g: Gauss, n: nat, m1: Reading, m2: Reading, i: nat)
    requires Commensurate(g, n, m1, m2) && i < n
    ensures Fuse(Fuse(g, n, m1), n, m2).x[i] == Fuse(Fuse(g, n, m2), n, m1).x[i]
  {
    var u, w := MulVec(g.p, m1.h), MulVec(g.p, m2.h);
    var e1, e2 := m1.z - Dot(m1.h, g.x), m2.z - Dot(m2.h, g.x);
    FusedTwiceMean(g, n, m1, m2, i);
    FusedTwiceMean(g, n, m2, m1, i);
    SymmetricMoves(g.p, n, m1.h, m2.h);
    JointSymmetric(e1, u[i], e2, w[i],
                   InnovationVar(g.p, n, m1), InnovationVar(g.p, n, m2), Dot(m1.h, w));
  }

  lemma CovarianceCommutes(g: Gauss, n: nat, m1: Reading, m2: Reading, i: nat, j: nat)
    requires Commensurate(g, n, m1, m2) && i < n && j < n
    ensures Fuse(Fuse(g, n, m1), n, m2).p[i][j] == Fuse(Fuse(g, n, m2), n, m1).p[i][j]
  {
    var u, w := MulVec(g.p, m1.h), MulVec(g.p, m2.h);
    FusedTwiceCovariance(g, n, m1, m2, i, j);
    FusedTwiceCovariance(g, n, m2, m1, i, j);
    SymmetricMoves(g.p, n, m1.h, m2.h);
    JointSymmetric(u[i], u[j], w[i], w[j],
                   InnovationVar(g.p, n, m1), InnovationVar(g.p, n, m2), Dot(m1.h, w));
  }

  // -- a tick's readings in any order -------------------------------------------

  function FuseAll(g: Gauss, n: nat, ms: seq<Reading>): (r: Gauss)
    requires Shaped(g, n)
    requires forall m :: m in ms ==> |m.h| == n
    ensures Shaped(r, n)
    decreases |ms|
  {
    if ms == [] then g else FuseAll(Fuse(g, n, ms[0]), n, ms[1..])
  }

  ghost predicate Usable(ms: seq<Reading>, n: nat) {
    forall m :: m in ms ==> |m.h| == n && m.r > 0.0
  }

  lemma FuseAllCons(g: Gauss, n: nat, m: Reading, rest: seq<Reading>)
    requires Shaped(g, n) && |m.h| == n
    requires forall r :: r in rest ==> |r.h| == n
    ensures FuseAll(g, n, [m] + rest) == FuseAll(Fuse(g, n, m), n, rest)
  {
    assert ([m] + rest)[1..] == rest;
  }

  function Moved(ms: seq<Reading>, k: nat): seq<Reading>
    requires k < |ms|
  {
    ms[..k] + ms[k + 1..]
  }

  /** One reading taken before another that was to come first. */
  lemma BringOver(g: Gauss, n: nat, m: Reading, k: Reading, rest: seq<Reading>, moved: seq<Reading>)
    requires Commensurate(g, n, m, k)
    requires (forall r :: r in rest ==> |r.h| == n) && (forall r :: r in moved ==> |r.h| == n)
    requires FuseAll(Fuse(g, n, m), n, rest) == FuseAll(Fuse(Fuse(g, n, m), n, k), n, moved)
    ensures FuseAll(Fuse(g, n, m), n, rest) == FuseAll(Fuse(g, n, k), n, [m] + moved)
  {
    FuseCommutes(g, n, m, k);
    FuseAllCons(Fuse(g, n, k), n, m, moved);
  }

  /** The k-th reading may be taken first. */
  lemma {:induction false} BringForward(g: Gauss, n: nat, ms: seq<Reading>, k: nat)
    requires Sound(g, n) && Usable(ms, n) && k < |ms|
    ensures FuseAll(g, n, ms) == FuseAll(Fuse(g, n, ms[k]), n, Moved(ms, k))
    decreases k
  {
    if k == 0 {
      assert Moved(ms, 0) == ms[1..];
    } else {
      var m, rest := ms[0], ms[1..];
      FuseKeepsCovariance(g, n, m);
      BringForward(Fuse(g, n, m), n, rest, k - 1);
      BringOver(g, n, m, ms[k], rest, Moved(rest, k - 1));
      assert Moved(ms, k) == [m] + Moved(rest, k - 1);
    }
  }

  /** Any two orders of the same readings give the same mean and the same covariance. */
  lemma {:induction false} FusionOrderIsFree(g: Gauss, n: nat, ms: seq<Reading>, ns: seq<Reading>)
    requires Sound(g, n) && Usable(ms, n) && Usable(ns, n) && multiset(ms) == multiset(ns)
    ensures FuseAll(g, n, ms) == FuseAll(g, n, ns)
    decreases |ms|
  {
    if ms == [] {
      assert |multiset(ns)| == 0;
    } else {
      var k := PositionOf(ms, ns);
      BringForward(g, n, ns, k);
      FuseKeepsCovariance(g, n, ms[0]);
      FusionOrderIsFree(Fuse(g, n, ms[0]), n, ms[1..], Moved(ns, k));
    }
  }

  lemma PositionOf(ms: seq<Reading>, ns: seq<Reading>) returns (k: nat)
    requires |ms| > 0 && multiset(ms) == multiset(ns)
    ensures k < |ns| && ns[k] == ms[0]
    ensures multiset(ms[1..]) == multiset(Moved(ns, k))
  {
    assert ms[0] in multiset(ns);
    k :| 0 <= k < |ns| && ns[k] == ms[0];
    assert ns == ns[..k] + [ns[k]] + ns[k + 1..];
    assert ms == [ms[0]] + ms[1..];
    assert multiset(Moved(ns, k)) == multiset(ns) - multiset{ns[k]};
    assert multiset(ms[1..]) == multiset(ms) - multiset{ms[0]};
  }

  // -- every reachable state ----------------------------------------------------

  datatype Step =
    | Predict(f: Mat, gamma: Vec, q: Vec)   // transition, offset, process noise
    | Measure(m: Reading)
    | Inflate(i: nat, c: real)              // a jump's deliberate widening
    | Reseed(i: nat, value: real, variance: real)
    | Place(i: nat, value: real)            // a re-mapped or seeded mean

  predicate Legal(s: Step, n: nat) {
    match s
    case Predict(f, gamma, q) =>
      Square(f, n) && |gamma| == |q| == n && forall i :: 0 <= i < n ==> q[i] >= 0.0
    case Measure(m) => |m.h| == n && m.r >= 0.0
    case Inflate(i, c) => i < n && c >= 0.0
    case Reseed(i, _, variance) => i < n && variance >= 0.0
    case Place(i, _) => i < n
  }

  function Apply(g: Gauss, n: nat, s: Step): (r: Gauss)
    requires Shaped(g, n) && Legal(s, n)
    ensures Shaped(r, n)
  {
    match s
    case Predict(f, gamma, q) =>
      Gauss(Axpy(1.0, gamma, MulVec(f, g.x)),
            Symmetrised(AddDiagonal(Congruence(f, g.p, n), n, q), n))
    case Measure(m) => Fuse(g, n, m)
    case Inflate(i, c) => Gauss(g.x, AddDiagonal(g.p, n, Zeros(n)[i := c]))
    case Reseed(i, value, variance) => Gauss(g.x[i := value], Decouple(g.p, n, i, variance))
    case Place(i, value) => Gauss(g.x[i := value], g.p)
  }

  lemma ApplyKeepsCovariance(g: Gauss, n: nat, s: Step)
    requires Sound(g, n) && Legal(s, n)
    ensures Sound(Apply(g, n, s), n)
  {
    match s
    case Predict(f, gamma, q) => PredictKeepsCovariance(g.p, n, f, q);
    case Measure(m) => FuseKeepsCovariance(g, n, m);
    case Inflate(i, c) => WidenedIsCovariance(g.p, n, Zeros(n)[i := c]);
    case Reseed(i, value, variance) => ReseedKeepsCovariance(g.p, n, i, variance);
    case Place(i, value) =>
  }

  lemma WidenedIsCovariance(p: Mat, n: nat, d: Vec)
    requires Square(p, n) && Covariance(p, n) && |d| == n
    requires forall i :: 0 <= i < n ==> d[i] >= 0.0
    ensures Covariance(AddDiagonal(p, n, d), n)
  {
    forall v: Vec | |v| == n ensures Quad(AddDiagonal(p, n, d), n, v) >= 0.0 {
      QuadAddDiagonal(p, n, d, v);
      WeightedSquaresNonNegative(d, v);
      assert Quad(p, n, v) >= 0.0;
    }
  }

  lemma PredictKeepsCovariance(p: Mat, n: nat, f: Mat, q: Vec)
    requires Square(p, n) && Covariance(p, n) && Square(f, n) && |q| == n
    requires forall i :: 0 <= i < n ==> q[i] >= 0.0
    ensures Covariance(Symmetrised(AddDiagonal(Congruence(f, p, n), n, q), n), n)
  {
    var c := Congruence(f, p, n);
    SymmetricCongruence(f, p, n);
    forall v: Vec | |v| == n ensures Quad(c, n, v) >= 0.0 {
      QuadCongruence(f, p, n, v);
      assert Quad(p, n, Combine(v, f, n)) >= 0.0;
    }
    WidenedIsCovariance(c, n, q);
    SymmetrisedFixes(AddDiagonal(c, n, q), n);
  }

  lemma ReseedKeepsCovariance(p: Mat, n: nat, i: nat, variance: real)
    requires Square(p, n) && Covariance(p, n) && i < n && variance >= 0.0
    ensures Covariance(Decouple(p, n, i, variance), n)
  {
    var r := Decouple(p, n, i, variance);
    forall a, b | 0 <= a < n && 0 <= b < n ensures r[a][b] == r[b][a] {
      assert p[a][b] == p[b][a];
    }
    forall v: Vec | |v| == n ensures Quad(Decouple(p, n, i, variance), n, v) >= 0.0 {
      QuadDecouple(p, n, i, variance, v);
      assert Quad(p, n, v[i := 0.0]) >= 0.0;
      SquareNonNegative(v[i]);
      ProductNonNegative(variance, Times(v[i], v[i]));
    }
  }

  /** The state a zone starts in: independent states at their prior variances. */
  function Start(x: Vec, variances: Vec): (g: Gauss)
    requires |x| == |variances|
    ensures Shaped(g, |x|)
  {
    var n := |x|;
    Gauss(x, AddDiagonal(seq(n, i => Zeros(n)), n, variances))
  }

  lemma StartIsSound(x: Vec, variances: Vec)
    requires |x| == |variances|
    requires forall i :: 0 <= i < |x| ==> variances[i] >= 0.0
    ensures Sound(Start(x, variances), |x|)
  {
    var n := |x|;
    var zero := seq(n, i => Zeros(n));
    forall v: Vec | |v| == n ensures Quad(zero, n, v) >= 0.0 {
      DotZeros(v);
      assert MulVec(zero, v) == Zeros(n);
      DotSymmetric(v, Zeros(n));
    }
    WidenedIsCovariance(zero, n, variances);
  }

  function Run(g: Gauss, n: nat, steps: seq<Step>): (r: Gauss)
    requires Shaped(g, n)
    requires forall s :: s in steps ==> Legal(s, n)
    ensures Shaped(r, n)
  {
    if steps == [] then g
    else Apply(Run(g, n, steps[..|steps| - 1]), n, steps[|steps| - 1])
  }

  lemma {:induction false} RunIsSound(g: Gauss, n: nat, steps: seq<Step>)
    requires Sound(g, n)
    requires forall s :: s in steps ==> Legal(s, n)
    ensures Sound(Run(g, n, steps), n)
  {
    if steps != [] {
      RunIsSound(g, n, steps[..|steps| - 1]);
      ApplyKeepsCovariance(Run(g, n, steps[..|steps| - 1]), n, steps[|steps| - 1]);
    }
  }

  /** The error the filter raises on a variance below zero cannot be reached. */
  lemma NoNegativeVariance(x: Vec, variances: Vec, steps: seq<Step>, i: nat)
    requires |x| == |variances| && i < |x|
    requires forall j :: 0 <= j < |x| ==> variances[j] >= 0.0
    requires forall s :: s in steps ==> Legal(s, |x|)
    ensures Run(Start(x, variances), |x|, steps).p[i][i] >= 0.0
  {
    var n := |x|;
    StartIsSound(x, variances);
    RunIsSound(Start(x, variances), n, steps);
    var p := Run(Start(x, variances), n, steps).p;
    QuadUnit(p, n, i);
    assert Quad(p, n, Unit(n, i)) >= 0.0;
  }
}
