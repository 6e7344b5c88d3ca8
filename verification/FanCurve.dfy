/** The online fan-curve fit of one fan model: settled (duty, speed) readings in PWM bins, a
    grid fit over dead band and exponent with the top speed in closed form, and the rule that
    retires a fit nothing confirms. */
module FanCurve {
  import opened RealAlgebra
  import opened Wrappers

  const BINS := 32
  const BIN_CAPACITY: nat := 240
  const MIN_BIN_SAMPLES: nat := 8
  const MIN_BINS := 4
  const MIN_SPAN := 0.25
  const SETTLE_TOL := 0.000001
  const EPS := 0.000000000001
  const DEADBANDS: nat := 19
  const EXPONENTS: nat := 21

  /** Relative airflow at duty u for a dead band and an exponent. */
  type Airflow = (real, real, real) -> real

  function Deadband(i: nat): real {
    0.025 * (i as real)
  }

  function Exponent(j: nat): real {
    0.5 + 0.05 * (j as real)
  }

  /** The grid runs from dead band 0 to 0.45 and from exponent 0.5 to 1.5. */
  lemma GridSpans(i: nat, j: nat)
    ensures Deadband(0) == 0.0 && Deadband(18) == 0.45 && Exponent(0) == 0.5 && Exponent(20) == 1.5
    ensures Deadband(i + 1) - Deadband(i) == 0.025 && Exponent(j + 1) - Exponent(j) == 0.05
  {
  }

  // -- one bin ---------------------------------------------------------------------

  /** Count and sums of duty, speed and squared speed. */
  datatype Bin = Bin(n: nat, su: real, sr: real, sr2: real)

  datatype Sample = Sample(duty: real, speed: real)

  const EMPTY := Bin(0, 0.0, 0.0, 0.0)
  const DECAY := 239.0 / 240.0

  /** A full bin first becomes a mean of one sample fewer. */
  function Decayed(b: Bin): Bin {
    if b.n >= BIN_CAPACITY then
      Bin(BIN_CAPACITY - 1, b.su * DECAY, b.sr * DECAY, b.sr2 * DECAY)
    else b
  }

  function Absorbed(b: Bin, s: Sample): Bin {
    var d := Decayed(b);
    Bin(d.n + 1, d.su + s.duty, d.sr + s.speed, d.sr2 + Times(s.speed, s.speed))
  }

  function Fold(samples: seq<Sample>): (b: Bin)
    ensures b.n == if |samples| < BIN_CAPACITY then |samples| else BIN_CAPACITY
  {
    if samples == [] then EMPTY
    else Absorbed(Fold(samples[..|samples| - 1]), samples[|samples| - 1])
  }

  /** The squared distance of every sample from y, the older ones forgotten at the bin's rate. */
  function Scatter(samples: seq<Sample>, y: real): (r: real)
    ensures r >= 0.0
  {
    if samples == [] then 0.0
    else
      var k := |samples| - 1;
      var e := samples[k].speed - y;
      SquareNonNegative(e);
      (if k >= BIN_CAPACITY then DECAY * Scatter(samples[..k], y) else Scatter(samples[..k], y))
      + Times(e, e)
  }

  /** What the three sums of a bin say about any prediction y of its speed. */
  function Spread(b: Bin, y: real): real {
    b.sr2 - 2.0 * Times(y, b.sr) + Times(Times(y, y), b.n as real)
  }

  lemma SpreadDecays(b: Bin, y: real)
    requires b.n == BIN_CAPACITY
    ensures Spread(Decayed(b), y) == DECAY * Spread(b, y)
  {
    var yy := y * y;
    assert Times(y, b.sr * DECAY) == DECAY * Times(y, b.sr);
    assert Times(Times(y, y), 239.0) == DECAY * Times(Times(y, y), 240.0);
  }

  lemma SpreadAbsorbs(d: Bin, s: Sample, y: real)
    ensures var e := s.speed - y;
      Spread(Bin(d.n + 1, d.su + s.duty, d.sr + s.speed, d.sr2 + Times(s.speed, s.speed)), y)
      == Spread(d, y) + Times(e, e)
  {
    var x, n := s.speed, d.n as real;
    assert y * (d.sr + x) == y * d.sr + y * x;
    assert (y * y) * (n + 1.0) == (y * y) * n + y * y;
    assert (x - y) * (x - y) == x * x - 2.0 * (y * x) + y * y;
  }

  /** The bin's sums are the scatter of its samples about any prediction. */
  lemma {:induction false} SpreadIsScatter(samples: seq<Sample>, y: real)
    ensures Spread(Fold(samples), y) == Scatter(samples, y)
  {
    if samples != [] {
      var k := |samples| - 1;
      var b := Fold(samples[..k]);
      SpreadIsScatter(samples[..k], y);
      if b.n == BIN_CAPACITY {
        SpreadDecays(b, y);
      }
      SpreadAbsorbs(Decayed(b), samples[k], y);
    } else {
      assert Times(y, 0.0) == 0.0 && Times(Times(y, y), 0.0) == 0.0;
    }
  }

  /** Cauchy-Schwarz for the bin: sr^2 <= n sr2. */
  lemma BinMoments(samples: seq<Sample>)
    ensures var b := Fold(samples); Times(b.sr, b.sr) <= Times(b.n as real, b.sr2)
  {
    var b := Fold(samples);
    if samples != [] {
      var n := b.n as real;
      SpreadIsScatter(samples, b.sr / n);
      Moments(n, b.sr, b.sr2);
    }
  }

  lemma Moments(n: real, sr: real, sr2: real)
    requires n > 0.0
    requires sr2 - 2.0 * Times(sr / n, sr) + Times(Times(sr / n, sr / n), n) >= 0.0
    ensures Times(sr, sr) <= Times(n, sr2)
  {
    var y := sr / n;
    assert sr == y * n;
    assert (y * y) * n == y * sr;
    var gap := sr2 - y * sr;
    ProductNonNegative(n, gap);
    assert n * gap == n * sr2 - (y * n) * sr;
  }

  /** The bin a duty falls in. */
  function BinIndex(duty: real): (k: nat)
    requires 0.0 <= duty <= 1.0
    ensures k < 32 && InBin(duty, k) && (k < 31 ==> duty < (k as real + 1.0) / 32.0)
  {
    var k := (duty * 32.0).Floor;
    if k < BINS - 1 then k else BINS - 1
  }

  predicate InBin(duty: real, k: nat) {
    (k as real) / 32.0 <= duty <= (k as real + 1.0) / 32.0
  }

  ghost predicate AllInBin(samples: seq<Sample>, k: nat) {
    forall i :: 0 <= i < |samples| ==> InBin(samples[i].duty, k)
  }

  ghost predicate AllForward(samples: seq<Sample>) {
    forall i :: 0 <= i < |samples| ==> samples[i].speed >= 0.0
  }

  /** Speeds that are not negative never add up to one that is. */
  lemma {:induction false} SumOfForward(samples: seq<Sample>)
    requires AllForward(samples)
    ensures Fold(samples).sr >= 0.0
  {
    if samples != [] {
      SumOfForward(samples[..|samples| - 1]);
    }
  }

  /** A bin's mean duty stays inside the bin through every decay. */
  lemma {:induction false} MeanDutyInBin(samples: seq<Sample>, k: nat)
    requires AllInBin(samples, k)
    ensures var b := Fold(samples);
      (k as real) / 32.0 * (b.n as real) <= b.su <= (k as real + 1.0) / 32.0 * (b.n as real)
  {
    if samples != [] {
      MeanDutyInBin(samples[..|samples| - 1], k);
    }
  }

  function MeanDuty(b: Bin): real {
    if b.n == 0 then 0.0 else b.su / (b.n as real)
  }

  /** How far the duties lie from y in sum, the older ones forgotten at the bin's rate. */
  function Lean(samples: seq<Sample>, y: real): real {
    if samples == [] then 0.0
    else
      var k := |samples| - 1;
      (if k >= BIN_CAPACITY then DECAY * Lean(samples[..k], y) else Lean(samples[..k], y)) + (samples[k].duty - y)
  }

  lemma {:induction false} LeanIsSum(samples: seq<Sample>, y: real)
    ensures Lean(samples, y) == Fold(samples).su - Times(Fold(samples).n as real, y)
  {
    if samples != [] {
      var k := |samples| - 1;
      LeanIsSum(samples[..k], y);
      LeanStep(Fold(samples[..k]), samples[k], y);
    }
  }

  lemma LeanStep(b: Bin, s: Sample, y: real)
    requires b.n <= BIN_CAPACITY
    ensures var a := Absorbed(b, s);
      a.su - Times(a.n as real, y)
      == (if b.n == BIN_CAPACITY then DECAY * (b.su - Times(b.n as real, y)) else b.su - Times(b.n as real, y))
         + (s.duty - y)
  {
    if b.n == BIN_CAPACITY {
      assert DECAY * Times(240.0, y) == Times(239.0, y);
      assert Times(240.0, y) == Times(239.0, y) + y;
    } else {
      assert (b.n as real + 1.0) * y == (b.n as real) * y + y;
    }
  }

  /** The mean duty is the centre of the samples: they lean neither way from it. */
  lemma MeanDutyIsCentre(samples: seq<Sample>, y: real)
    requires samples != []
    ensures Lean(samples, y) == 0.0 <==> y == MeanDuty(Fold(samples))
  {
    var b := Fold(samples);
    LeanIsSum(samples, y);
    QuotientTimes(b.su, b.n as real);
    CentreIsUnique(b.n as real, b.su, y, b.su / (b.n as real));
  }

  lemma CentreIsUnique(n: real, su: real, y: real, m: real)
    requires n > 0.0 && Times(m, n) == su
    ensures su - Times(n, y) == 0.0 <==> y == m
  {
    if y < m {
      ProductPositive(n, m - y);
    } else if m < y {
      ProductPositive(n, y - m);
    }
  }

  lemma MeanDutyOfBin(samples: seq<Sample>, k: nat)
    requires samples != [] && AllInBin(samples, k)
    ensures InBin(MeanDuty(Fold(samples)), k)
  {
    var b := Fold(samples);
    MeanDutyInBin(samples, k);
    QuotientTimes(b.su, b.n as real);
    MeanBetween(b.n as real, b.su / (b.n as real), (k as real) / 32.0, (k as real + 1.0) / 32.0);
  }

  lemma MeanBetween(n: real, m: real, lo: real, hi: real)
    requires n > 0.0 && lo * n <= m * n <= hi * n
    ensures lo <= m <= hi
  {
    if m < lo {
      ProductPositive(lo - m, n);
    } else if hi < m {
      ProductPositive(m - hi, n);
    }
  }

  ghost predicate AllAt(samples: seq<Sample>, u: real, y: real) {
    forall i :: 0 <= i < |samples| ==> samples[i] == Sample(u, y)
  }

  lemma {:induction false} LeanOfOne(samples: seq<Sample>, u: real, y: real)
    requires AllAt(samples, u, y)
    ensures Lean(samples, u) == 0.0
  {
    if samples != [] {
      LeanOfOne(samples[..|samples| - 1], u, y);
    }
  }

  lemma {:induction false} ScatterOfOne(samples: seq<Sample>, u: real, y: real)
    requires AllAt(samples, u, y)
    ensures Scatter(samples, y) == 0.0
  {
    if samples != [] {
      ScatterOfOne(samples[..|samples| - 1], u, y);
    }
  }

  /** Samples taken at one duty have it as their mean. */
  lemma MeanDutyOfOne(samples: seq<Sample>, u: real, y: real)
    requires samples != [] && AllAt(samples, u, y)
    ensures MeanDuty(Fold(samples)) == u
  {
    LeanOfOne(samples, u, y);
    MeanDutyIsCentre(samples, u);
  }

  // -- the fit -----------------------------------------------------------------------

  datatype Fit = Fit(rpmMax: real, deadband: real, exponent: real, sse: real, total: real, ts: real)

  function Usable(bins: seq<Bin>): (u: seq<Bin>)
    ensures forall b :: b in u ==> b in bins && b.n >= MIN_BIN_SAMPLES
  {
    if bins == [] then []
    else
      var rest := Usable(bins[..|bins| - 1]);
      if bins[|bins| - 1].n >= MIN_BIN_SAMPLES then rest + [bins[|bins| - 1]] else rest
  }

  /** The usable bins are all those with enough samples, each as often as it occurs. */
  lemma {:induction false} UsableAreAll(bins: seq<Bin>, b: Bin)
    ensures multiset(Usable(bins))[b] == if b.n >= 8 then multiset(bins)[b] else 0
  {
    if bins != [] {
      var k := |bins| - 1;
      UsableAreAll(bins[..k], b);
      assert bins == bins[..k] + [bins[k]];
    }
  }

  function Total(bins: seq<Bin>): (t: nat)
    ensures (forall b :: b in bins ==> b.n >= MIN_BIN_SAMPLES) ==> t >= MIN_BIN_SAMPLES * |bins|
  {
    if bins == [] then 0 else Total(bins[..|bins| - 1]) + bins[|bins| - 1].n
  }

  lemma {:induction false} TotalSplits(a: seq<Bin>, b: seq<Bin>)
    ensures Total(a + b) == Total(a) + Total(b)
  {
    if b == [] {
      assert a + b == a;
    } else {
      var k := |b| - 1;
      assert (a + b)[..|a + b| - 1] == a + b[..k];
      TotalSplits(a, b[..k]);
    }
  }

  lemma TotalOfOne(b: Bin)
    ensures Total([b]) == b.n
  {
    assert [b][..0] == [];
  }

  /** phi^T W phi, phi^T sr and the sum of squared speeds at one grid point. */
  function Denom(bins: seq<Bin>, phi: Airflow, d: real, e: real): real {
    if bins == [] then 0.0
    else
      var b := bins[|bins| - 1];
      var p := phi(MeanDuty(b), d, e);
      Denom(bins[..|bins| - 1], phi, d, e) + Times(Times(p, p), b.n as real)
  }

  function Cross(bins: seq<Bin>, phi: Airflow, d: real, e: real): real {
    if bins == [] then 0.0
    else
      var b := bins[|bins| - 1];
      Cross(bins[..|bins| - 1], phi, d, e) + Times(phi(MeanDuty(b), d, e), b.sr)
  }

  function Squares(bins: seq<Bin>): real {
    if bins == [] then 0.0 else Squares(bins[..|bins| - 1]) + bins[|bins| - 1].sr2
  }

  /** The squared error of the curve r * phi over the bins, from the three sums. */
  function Sse(bins: seq<Bin>, phi: Airflow, d: real, e: real, r: real): real {
    Squares(bins) - 2.0 * Times(r, Cross(bins, phi, d, e))
    + Times(Times(r, r), Denom(bins, phi, d, e))
  }

  /** The same error bin by bin. */
  function Error(bins: seq<Bin>, phi: Airflow, d: real, e: real, r: real): real {
    if bins == [] then 0.0
    else
      var b := bins[|bins| - 1];
      Error(bins[..|bins| - 1], phi, d, e, r) + Spread(b, Times(r, phi(MeanDuty(b), d, e)))
  }

  lemma {:induction false} SseIsError(bins: seq<Bin>, phi: Airflow, d: real, e: real, r: real)
    ensures Sse(bins, phi, d, e, r) == Error(bins, phi, d, e, r)
  {
    if bins == [] {
      assert Times(r, 0.0) == 0.0 && Times(Times(r, r), 0.0) == 0.0;
    } else {
      var k := |bins| - 1;
      var b := bins[k];
      SseIsError(bins[..k], phi, d, e, r);
      SseStep(r, phi(MeanDuty(b), d, e), b,
              Cross(bins[..k], phi, d, e), Denom(bins[..k], phi, d, e));
    }
  }

  lemma SseStep(r: real, p: real, b: Bin, c: real, d: real)
    ensures var n := b.n as real;
      var (c2, d2) := (c + Times(p, b.sr), d + Times(Times(p, p), n));
      b.sr2 - 2.0 * Times(r, c2) + Times(Times(r, r), d2)
      == -2.0 * Times(r, c) + Times(Times(r, r), d) + Spread(b, Times(r, p))
  {
    var n := b.n as real;
    assert r * (c + p * b.sr) == r * c + (r * p) * b.sr;
    assert (r * r) * (d + (p * p) * n) == (r * r) * d + ((r * p) * (r * p)) * n;
  }

  /** Some readings left the bin like this. */
  ghost predicate Reached(b: Bin) {
    exists samples :: b == Fold(samples)
  }

  /** So the error of any curve at any grid point is a sum of squares: never negative. */
  lemma {:induction false} SseNonNegative(bins: seq<Bin>, phi: Airflow, d: real, e: real, r: real)
    requires forall k :: 0 <= k < |bins| ==> Reached(bins[k])
    ensures Error(bins, phi, d, e, r) >= 0.0 && Sse(bins, phi, d, e, r) >= 0.0
  {
    SseIsError(bins, phi, d, e, r);
    if bins != [] {
      var k := |bins| - 1;
      SseNonNegative(bins[..k], phi, d, e, r);
      assert Reached(bins[k]);
      var samples :| bins[k] == Fold(samples);
      SpreadIsScatter(samples, Times(r, phi(MeanDuty(bins[k]), d, e)));
    }
  }

  /** A grid point the fit may use: enough airflow and a positive top speed. */
  predicate Eligible(bins: seq<Bin>, phi: Airflow, d: real, e: real) {
    Denom(bins, phi, d, e) > EPS && Cross(bins, phi, d, e) / Denom(bins, phi, d, e) > 0.0
  }

  function BestSpeed(bins: seq<Bin>, phi: Airflow, d: real, e: real): real {
    if Denom(bins, phi, d, e) > EPS then Cross(bins, phi, d, e) / Denom(bins, phi, d, e) else 0.0
  }

  function PointSse(bins: seq<Bin>, phi: Airflow, i: nat, j: nat): real {
    Sse(bins, phi, Deadband(i), Exponent(j), BestSpeed(bins, phi, Deadband(i), Exponent(j)))
  }

  /** At a grid point the closed form is the least-squares top speed. */
  lemma BestSpeedIsLeast(bins: seq<Bin>, phi: Airflow, d: real, e: real, r: real)
    requires Denom(bins, phi, d, e) > EPS
    ensures Sse(bins, phi, d, e, BestSpeed(bins, phi, d, e)) <= Sse(bins, phi, d, e, r)
  {
    LeastSquares(Cross(bins, phi, d, e), Denom(bins, phi, d, e), r);
  }

  lemma LeastSquares(c: real, d: real, r: real)
    requires d > 0.0
    ensures -2.0 * Times(c / d, c) + Times(Times(c / d, c / d), d)
         <= -2.0 * Times(r, c) + Times(Times(r, r), d)
  {
    var q := c / d;
    assert c == q * d;
    var gap := r - q;
    SquareNonNegative(gap);
    ProductNonNegative(d, Times(gap, gap));
    assert d * (gap * gap) == d * (r * r) - 2.0 * (r * (q * d)) + d * (q * q);
    assert q * c == d * (q * q) && r * c == r * (q * d);
  }

  // -- the search over the grid ------------------------------------------------------

  function Largest(u: seq<Bin>): real
    requires u != []
  {
    var rest := if |u| == 1 then MeanDuty(u[0]) else Largest(u[..|u| - 1]);
    if rest < MeanDuty(u[|u| - 1]) then MeanDuty(u[|u| - 1]) else rest
  }

  function Smallest(u: seq<Bin>): real
    requires u != []
  {
    var rest := if |u| == 1 then MeanDuty(u[0]) else Smallest(u[..|u| - 1]);
    if MeanDuty(u[|u| - 1]) < rest then MeanDuty(u[|u| - 1]) else rest
  }

  predicate Enough(u: seq<Bin>) {
    |u| >= MIN_BINS && Largest(u) - Smallest(u) >= MIN_SPAN
  }

  predicate OnGrid(i: nat, j: nat) {
    i < DEADBANDS && j < EXPONENTS
  }

  lemma {:induction false} LargestIsMost(u: seq<Bin>) returns (b: Bin)
    requires u != []
    ensures b in u && MeanDuty(b) == Largest(u) && forall c :: c in u ==> MeanDuty(c) <= Largest(u)
  {
    b := u[|u| - 1];
    assert forall c :: c in u ==> c in u[..|u| - 1] || c == b;
    if |u| > 1 {
      var a := LargestIsMost(u[..|u| - 1]);
      b := if Largest(u[..|u| - 1]) < MeanDuty(b) then b else a;
    }
  }

  lemma {:induction false} SmallestIsLeast(u: seq<Bin>) returns (b: Bin)
    requires u != []
    ensures b in u && MeanDuty(b) == Smallest(u) && forall c :: c in u ==> Smallest(u) <= MeanDuty(c)
  {
    b := u[|u| - 1];
    assert forall c :: c in u ==> c in u[..|u| - 1] || c == b;
    if |u| > 1 {
      var a := SmallestIsLeast(u[..|u| - 1]);
      b := if MeanDuty(b) < Smallest(u[..|u| - 1]) then b else a;
    }
  }

  /** Enough bins, two of which are far enough apart in duty. */
  lemma EnoughMeans(u: seq<Bin>)
    ensures Enough(u) <==>
      |u| >= 4 && exists b, c :: b in u && c in u && MeanDuty(b) - MeanDuty(c) >= 0.25
  {
    if u != [] {
      var b := LargestIsMost(u);
      var c := SmallestIsLeast(u);
    }
  }

  predicate EligibleAt(u: seq<Bin>, phi: Airflow, i: nat, j: nat) {
    Eligible(u, phi, Deadband(i), Exponent(j))
  }

  predicate Earlier(i: nat, j: nat, k: nat, l: nat) {
    i < k || (i == k && j < l)
  }

  /** (i, j) is the least-error eligible point among those before (k, l), the first of equals. */
  ghost predicate BestBefore(u: seq<Bin>, phi: Airflow, i: nat, j: nat, k: nat, l: nat) {
    && OnGrid(i, j) && Earlier(i, j, k, l) && EligibleAt(u, phi, i, j)
    && forall a: nat, b: nat :: OnGrid(a, b) && Earlier(a, b, k, l) && EligibleAt(u, phi, a, b) ==>
         && PointSse(u, phi, i, j) <= PointSse(u, phi, a, b)
         && (Earlier(a, b, i, j) ==> PointSse(u, phi, i, j) < PointSse(u, phi, a, b))
  }

  ghost predicate NoneBefore(u: seq<Bin>, phi: Airflow, k: nat, l: nat) {
    forall a: nat, b: nat :: OnGrid(a, b) && Earlier(a, b, k, l) ==> !EligibleAt(u, phi, a, b)
  }

  datatype Point = Point(i: nat, j: nat)

  ghost predicate Best(u: seq<Bin>, phi: Airflow, best: Option<Point>, k: nat, l: nat) {
    match best
    case None => NoneBefore(u, phi, k, l)
    case Some(p) => BestBefore(u, phi, p.i, p.j, k, l)
  }

  /** The winner among the first n exponents of one dead band: the first of least error. */
  ghost predicate RowBest(u: seq<Bin>, phi: Airflow, i: nat, row: Option<nat>, n: nat) {
    match row
    case None => forall b: nat :: b < n ==> !EligibleAt(u, phi, i, b)
    case Some(j) =>
      (j < n && EligibleAt(u, phi, i, j)
       && forall b: nat :: b < n && EligibleAt(u, phi, i, b) ==>
            && PointSse(u, phi, i, j) <= PointSse(u, phi, i, b)
            && (b < j ==> PointSse(u, phi, i, j) < PointSse(u, phi, i, b)))
  }

  method SearchRow(u: seq<Bin>, phi: Airflow, i: nat) returns (row: Option<nat>)
    requires i < DEADBANDS
    ensures RowBest(u, phi, i, row, EXPONENTS)
  {
    row := None;
    for j := 0 to EXPONENTS
      invariant RowBest(u, phi, i, row, j)
    {
      if EligibleAt(u, phi, i, j)
         && (row.None? || PointSse(u, phi, i, j) < PointSse(u, phi, i, row.value)) {
        row := Some(j);
      }
    }
  }

  method SearchGrid(u: seq<Bin>, phi: Airflow) returns (best: Option<Point>)
    ensures Best(u, phi, best, DEADBANDS, 0)
  {
    best := None;
    for i := 0 to DEADBANDS
      invariant Best(u, phi, best, i, 0)
    {
      var row := SearchRow(u, phi, i);
      if row.Some? && (best.None? || PointSse(u, phi, i, row.value)
                                     < PointSse(u, phi, best.value.i, best.value.j)) {
        best := Some(Point(i, row.value));
      }
    }
  }

  function FitAt(u: seq<Bin>, phi: Airflow, p: Point, ts: real): Fit {
    Fit(BestSpeed(u, phi, Deadband(p.i), Exponent(p.j)), Deadband(p.i), Exponent(p.j),
        PointSse(u, phi, p.i, p.j), Total(u) as real, ts)
  }

  /** sqrt(max(sse, 0) / total) / rpm_max <= maxFrac, without the root. */
  predicate Accurate(f: Fit, maxFrac: real)
    requires f.total > 0.0
  {
    (if f.sse < 0.0 then 0.0 else f.sse) / f.total
      <= Times(Times(maxFrac, f.rpmMax), Times(maxFrac, f.rpmMax))
  }

  /** A fit is accurate exactly when the mean squared miss of the readings is at most the square
      of the given share of the top speed. */
  lemma AccurateExactly(u: seq<Bin>, phi: Airflow, p: Point, ts: real, maxFrac: real, limit: real)
    requires Total(u) > 0 && PointSse(u, phi, p.i, p.j) >= 0.0
    requires limit == Times(maxFrac, BestSpeed(u, phi, Deadband(p.i), Exponent(p.j)))
    ensures Accurate(FitAt(u, phi, p, ts), maxFrac)
      <==> PointSse(u, phi, p.i, p.j) <= Times(Total(u) as real, Times(limit, limit))
  {
    MeanAtMost(PointSse(u, phi, p.i, p.j), Total(u) as real, Times(limit, limit));
  }

  lemma MeanAtMost(sum: real, n: real, x: real)
    requires n > 0.0
    ensures sum / n <= x <==> sum <= Times(n, x)
  {
    QuotientTimes(sum, n);
    if sum / n <= x {
      ProductNonNegative(n, x - sum / n);
    } else {
      ProductPositive(n, sum / n - x);
    }
  }

  /** f is the least-error grid point of bins that can carry a fit, and accurate enough. */
  ghost predicate Accepted(u: seq<Bin>, phi: Airflow, maxFrac: real, f: Fit) {
    Enough(u) && f.total > 0.0 && Accurate(f, maxFrac)
    && exists p: Point :: BestBefore(u, phi, p.i, p.j, DEADBANDS, 0) && f == FitAt(u, phi, p, f.ts)
  }

  // -- data that lies on a curve -----------------------------------------------------

  /** The bin holds samples of one duty, all at the speed that r times the curve of the grid
      point gives it. */
  ghost predicate OnCurve(b: Bin, phi: Airflow, i: nat, j: nat, r: real) {
    exists samples, u :: OnCurveAt(b, phi, i, j, r, samples, u)
  }

  ghost predicate OnCurveAt(b: Bin, phi: Airflow, i: nat, j: nat, r: real, samples: seq<Sample>, u: real) {
    && samples != [] && b == Fold(samples)
    && AllAt(samples, u, Times(r, phi(u, Deadband(i), Exponent(j))))
  }

  /** Bins that carry a fit and lie on the curve of a grid point that moves air. */
  ghost predicate Recoverable(u: seq<Bin>, phi: Airflow, i: nat, j: nat, r: real) {
    && Enough(u) && i < 19 && j < 21 && r > 0.0 && Denom(u, phi, Deadband(i), Exponent(j)) > 0.000000000001
    && forall b :: b in u ==> OnCurve(b, phi, i, j, r)
  }

  /** The bin's spread around a prediction is 0 exactly at the curve's own speed. */
  lemma CurveSpread(b: Bin, phi: Airflow, i: nat, j: nat, r: real, y: real)
    requires OnCurve(b, phi, i, j, r)
    ensures Reached(b) && Spread(b, y) >= 0.0
    ensures Spread(b, y) == 0.0 <==> y == Times(r, phi(MeanDuty(b), Deadband(i), Exponent(j)))
  {
    var samples, u :| OnCurveAt(b, phi, i, j, r, samples, u);
    var x := Times(r, phi(u, Deadband(i), Exponent(j)));
    MeanDutyOfOne(samples, u, x);
    SpreadIsScatter(samples, y);
    ScatterOfOne(samples, u, x);
    ScatterOfLast(samples, y);
    SquareNonNegative(x - y);
  }

  lemma ScatterOfLast(samples: seq<Sample>, y: real)
    requires samples != []
    ensures var e := samples[|samples| - 1].speed - y; Scatter(samples, y) >= Times(e, e)
  {
  }

  /** Two curves give the bin's duty the same speed. */
  predicate SameSpeed(b: Bin, phi: Airflow, d: real, e: real, s: real, i: nat, j: nat, r: real) {
    Times(s, phi(MeanDuty(b), d, e)) == Times(r, phi(MeanDuty(b), Deadband(i), Exponent(j)))
  }

  /** So is the error of a curve over all the bins. */
  lemma {:induction false} CurveError(u: seq<Bin>, phi: Airflow, i: nat, j: nat, r: real, d: real, e: real, s: real)
    requires forall b :: b in u ==> OnCurve(b, phi, i, j, r)
    ensures Error(u, phi, d, e, s) >= 0.0
    ensures Error(u, phi, d, e, s) == 0.0 <==> forall b :: b in u ==> SameSpeed(b, phi, d, e, s, i, j, r)
  {
    if u != [] {
      var k := |u| - 1;
      assert u[k] in u && forall b :: b in u <==> b in u[..k] || b == u[k];
      CurveError(u[..k], phi, i, j, r, d, e, s);
      CurveSpread(u[k], phi, i, j, r, Times(s, phi(MeanDuty(u[k]), d, e)));
    }
  }

  /** The grid point of such data has the curve's own top speed and no error. */
  lemma CurveIsEligible(u: seq<Bin>, phi: Airflow, i: nat, j: nat, r: real)
    requires Recoverable(u, phi, i, j, r)
    ensures EligibleAt(u, phi, i, j) && PointSse(u, phi, i, j) == 0.0
    ensures BestSpeed(u, phi, Deadband(i), Exponent(j)) == r
  {
    var d, e := Deadband(i), Exponent(j);
    var c, q, best := Cross(u, phi, d, e), Denom(u, phi, d, e), BestSpeed(u, phi, d, e);
    CurveError(u, phi, i, j, r, d, e, r);
    CurveError(u, phi, i, j, r, d, e, best);
    SseIsError(u, phi, d, e, r);
    SseIsError(u, phi, d, e, best);
    BestSpeedIsLeast(u, phi, d, e, r);
    LeastIsUnique(c, q, r);
  }

  lemma LeastIsUnique(c: real, d: real, r: real)
    requires d > 0.0
    requires -2.0 * Times(c / d, c) + Times(Times(c / d, c / d), d)
          == -2.0 * Times(r, c) + Times(Times(r, r), d)
    ensures r == c / d
  {
    var q := c / d;
    assert c == q * d;
    var gap := r - q;
    assert d * (gap * gap) == d * (r * r) - 2.0 * (r * (q * d)) + d * (q * q);
    assert q * c == d * (q * q) && r * c == r * (q * d);
    if gap != 0.0 {
      SquareNonNegative(gap);
      ProductPositive(d, Times(gap, gap));
    }
  }

  /** Whatever grid point wins on such data has no error, and its curve gives every bin's own
      speed back. */
  lemma CurveIsRecovered(u: seq<Bin>, phi: Airflow, i: nat, j: nat, r: real, p: Point)
    requires Recoverable(u, phi, i, j, r) && BestBefore(u, phi, p.i, p.j, DEADBANDS, 0)
    ensures PointSse(u, phi, p.i, p.j) == 0.0
    ensures var d, e := Deadband(p.i), Exponent(p.j);
      forall b :: b in u ==> SameSpeed(b, phi, d, e, BestSpeed(u, phi, d, e), i, j, r)
  {
    var d, e := Deadband(p.i), Exponent(p.j);
    CurveIsEligible(u, phi, i, j, r);
    assert Earlier(i, j, DEADBANDS, 0);
    SseIsError(u, phi, d, e, BestSpeed(u, phi, d, e));
    CurveError(u, phi, i, j, r, d, e, BestSpeed(u, phi, d, e));
  }

  lemma NothingRecoverable(u: seq<Bin>, phi: Airflow)
    requires NoneBefore(u, phi, DEADBANDS, 0)
    ensures forall i, j, r :: !Recoverable(u, phi, i, j, r)
  {
    forall i, j, r | Recoverable(u, phi, i, j, r) ensures false {
      CurveIsEligible(u, phi, i, j, r);
      assert Earlier(i, j, DEADBANDS, 0);
    }
  }

  lemma NoErrorIsAccurate(f: Fit, maxFrac: real)
    requires f.total > 0.0 && f.sse == 0.0
    ensures Accurate(f, maxFrac)
  {
    SquareNonNegative(Times(maxFrac, f.rpmMax));
  }

  /** The fit gives every bin's speed back, without error. */
  ghost predicate Recovers(u: seq<Bin>, phi: Airflow, i: nat, j: nat, r: real, f: Fit) {
    f.sse == 0.0 && forall b :: b in u ==> SameSpeed(b, phi, f.deadband, f.exponent, f.rpmMax, i, j, r)
  }

  /** The fit of the bins, exactly when the data can carry one. */
  method FitBins(bins: seq<Bin>, phi: Airflow, maxFrac: real, ts: real) returns (fit: Option<Fit>)
    ensures fit.Some? ==> fit.value.ts == ts && Accepted(Usable(bins), phi, maxFrac, fit.value)
    ensures fit.None? ==> !exists f: Fit :: f.ts == ts && Accepted(Usable(bins), phi, maxFrac, f)
    ensures forall i, j, r :: Recoverable(Usable(bins), phi, i, j, r) ==>
      fit.Some? && Recovers(Usable(bins), phi, i, j, r, fit.value)
  {
    var u := Usable(bins);
    if !Enough(u) {
      return None;
    }
    var best := SearchGrid(u, phi);
    if best.None? {
      NothingRecoverable(u, phi);
      return None;
    }
    var f := FitAt(u, phi, best.value, ts);
    fit := if Accurate(f, maxFrac) then Some(f) else None;
    forall i, j, r | Recoverable(u, phi, i, j, r) ensures fit == Some(f) && Recovers(u, phi, i, j, r, f) {
      CurveIsRecovered(u, phi, i, j, r, best.value);
      NoErrorIsAccurate(f, maxFrac);
    }
    forall g: Fit | g.ts == ts && Accepted(u, phi, maxFrac, g) ensures g == f {
      var p: Point :| BestBefore(u, phi, p.i, p.j, DEADBANDS, 0) && g == FitAt(u, phi, p, g.ts);
      BestIsUnique(u, phi, p, best.value);
    }
  }

  /** The point the search ends with is the first of the least ones, dead bands first. */
  lemma BestIsFirst(u: seq<Bin>, phi: Airflow, p: Point, i: nat, j: nat)
    requires BestBefore(u, phi, p.i, p.j, DEADBANDS, 0) && i < 19 && j < 21
    requires EligibleAt(u, phi, i, j) && (i, j) != (p.i, p.j)
    ensures PointSse(u, phi, p.i, p.j) <= PointSse(u, phi, i, j)
    ensures i < p.i || (i == p.i && j < p.j) ==> PointSse(u, phi, p.i, p.j) < PointSse(u, phi, i, j)
  {
    assert Earlier(i, j, DEADBANDS, 0);
    assert i < p.i || (i == p.i && j < p.j) ==> Earlier(i, j, p.i, p.j);
  }

  lemma BestIsUnique(u: seq<Bin>, phi: Airflow, p: Point, q: Point)
    requires BestBefore(u, phi, p.i, p.j, DEADBANDS, 0) && BestBefore(u, phi, q.i, q.j, DEADBANDS, 0)
    ensures p == q
  {
    assert Earlier(p.i, p.j, q.i, q.j) || Earlier(q.i, q.j, p.i, p.j) || p == q;
  }

  /** An accepted fit is the least-squares curve over the whole grid and every top speed. */
  lemma FitIsLeastSquares(u: seq<Bin>, phi: Airflow, p: Point, i: nat, j: nat, r: real)
    requires BestBefore(u, phi, p.i, p.j, DEADBANDS, 0)
    requires OnGrid(i, j) && EligibleAt(u, phi, i, j)
    ensures PointSse(u, phi, p.i, p.j) <= Sse(u, phi, Deadband(i), Exponent(j), r)
  {
    BestSpeedIsLeast(u, phi, Deadband(i), Exponent(j), r);
  }

  /** No bin adds up to a negative speed. */
  ghost predicate Forward(bins: seq<Bin>) {
    forall b :: b in bins ==> b.sr >= 0.0
  }

  ghost predicate Blowing(phi: Airflow) {
    forall u: real, d: real, e: real :: phi(u, d, e) >= 0.0
  }

  lemma {:induction false} CrossNonNegative(bins: seq<Bin>, phi: Airflow, d: real, e: real)
    requires Forward(bins) && Blowing(phi)
    ensures Cross(bins, phi, d, e) >= 0.0
  {
    if bins != [] {
      var k := |bins| - 1;
      var p := phi(MeanDuty(bins[k]), d, e);
      CrossNonNegative(bins[..k], phi, d, e);
      assert bins[k] in bins;
      ProductNonNegative(p, bins[k].sr);
    }
  }

  /** With no cross term the error only grows with the top speed. */
  lemma NoCrossNoGain(c: real, d: real, r: real)
    requires c == 0.0 && d >= 0.0
    ensures -2.0 * Times(r, c) + Times(Times(r, r), d) >= 0.0
  {
    SquareNonNegative(r);
    ProductNonNegative(Times(r, r), d);
  }

  /** Top speed 0: nothing is explained. */
  lemma StandstillSse(u: seq<Bin>, phi: Airflow, d: real, e: real)
    ensures Sse(u, phi, d, e, 0.0) == Squares(u)
  {
  }

  /** For speeds that are not negative, the chosen curve has the least error of all grid points
      that move any air, eligible or not, and all top speeds. */
  lemma FitIsLeastOfAll(u: seq<Bin>, phi: Airflow, p: Point, i: nat, j: nat, r: real)
    requires BestBefore(u, phi, p.i, p.j, DEADBANDS, 0) && Forward(u) && Blowing(phi)
    requires OnGrid(i, j) && Denom(u, phi, Deadband(i), Exponent(j)) > EPS
    ensures PointSse(u, phi, p.i, p.j) <= Sse(u, phi, Deadband(i), Exponent(j), r)
  {
    var d, e := Deadband(i), Exponent(j);
    if EligibleAt(u, phi, i, j) {
      FitIsLeastSquares(u, phi, p, i, j, r);
    } else {
      CrossNonNegative(u, phi, d, e);
      NoQuotientNoCross(Cross(u, phi, d, e), Denom(u, phi, d, e));
      NoCrossNoGain(Cross(u, phi, d, e), Denom(u, phi, d, e), r);
      BestSpeedIsLeast(u, phi, Deadband(p.i), Exponent(p.j), 0.0);
      StandstillSse(u, phi, Deadband(p.i), Exponent(p.j));
    }
  }

  lemma NoQuotientNoCross(c: real, d: real)
    requires c >= 0.0 && d > 0.0 && !(c / d > 0.0)
    ensures c == 0.0
  {
    QuotientTimes(c, d);
  }

  // -- what is sampled -------------------------------------------------------------------

  /** The duty a channel has been held at, and since when. */
  datatype Hold = Hold(duty: real, since: real)

  /** One tick of a channel: its command (absent when not a number), its reading. */
  datatype Command = Command(ts: real, u: Option<real>, reading: Option<real>)

  /** The nearest duty a fan can be given. */
  function Duty(u: real): (d: real)
    ensures 0.0 <= d <= 1.0
    ensures 0.0 <= u <= 1.0 ==> d == u
    ensures u < 0.0 ==> d == 0.0
    ensures u > 1.0 ==> d == 1.0
  {
    var low := if u < 0.0 then 0.0 else u;
    if 1.0 < low then 1.0 else low
  }

  predicate Near(x: real, y: real) {
    -SETTLE_TOL <= x - y <= SETTLE_TOL
  }

  function NextHold(hold: Option<Hold>, c: Command): Option<Hold> {
    if c.u.None? then None
    else if hold.None? || !Near(hold.value.duty, Duty(c.u.value)) || c.ts < hold.value.since then
      Some(Hold(Duty(c.u.value), c.ts))
    else hold
  }

  /** The reading enters a bin. */
  predicate Sampled(hold: Option<Hold>, c: Command, settle: real) {
    && c.u.Some? && hold.Some? && NextHold(hold, c) == hold
    && c.ts - hold.value.since >= settle
    && c.reading.Some? && c.reading.value >= 0.0
  }

  function HoldAfter(cs: seq<Command>, n: nat): Option<Hold>
    requires n <= |cs|
  {
    if n == 0 then None else NextHold(HoldAfter(cs, n - 1), cs[n - 1])
  }

  /** From j to n the command stayed at one duty. */
  ghost predicate HeldSince(cs: seq<Command>, j: nat, n: nat, duty: real)
    requires j <= n <= |cs|
  {
    forall k :: j <= k < n ==>
      cs[k].u.Some? && -0.000001 <= duty - Duty(cs[k].u.value) <= 0.000001
  }

  lemma {:induction false} HoldIsHistory(cs: seq<Command>, n: nat) returns (j: nat)
    requires n <= |cs| && HoldAfter(cs, n).Some?
    ensures j < n && cs[j].ts == HoldAfter(cs, n).value.since
    ensures HeldSince(cs, j, n, HoldAfter(cs, n).value.duty)
  {
    var before := HoldAfter(cs, n - 1);
    if HoldAfter(cs, n) == before {
      j := HoldIsHistory(cs, n - 1);
    } else {
      j := n - 1;
    }
  }

  /** Only settled readings are sampled: the command had already been at that duty for
      `settle` seconds of unbroken ticks. */
  lemma SampleIsSettled(cs: seq<Command>, k: nat, settle: real) returns (j: nat)
    requires k < |cs| && Sampled(HoldAfter(cs, k), cs[k], settle)
    ensures j < k && cs[k].ts - cs[j].ts >= settle && cs[k].reading.Some? && cs[k].reading.value >= 0.0
    ensures HeldSince(cs, j, k + 1, HoldAfter(cs, k).value.duty)
  {
    j := HoldIsHistory(cs, k);
  }

  /** From j to n the command was the same, and the clock did not go back. */
  ghost predicate Steady(cs: seq<Command>, j: nat, n: nat, duty: real)
    requires j <= n <= |cs|
  {
    && (forall k :: j <= k < n ==> cs[k].u.Some? && Duty(cs[k].u.value) == duty)
    && (forall k :: j < k < n ==> cs[k - 1].ts <= cs[k].ts)
  }

  lemma {:induction false} SteadyIsHeld(cs: seq<Command>, j: nat, n: nat, duty: real)
    requires j < n <= |cs| && Steady(cs, j, n, duty)
    ensures HoldAfter(cs, n).Some? && Near(HoldAfter(cs, n).value.duty, duty)
    ensures HoldAfter(cs, n).value.since <= cs[j].ts <= cs[n - 1].ts
    decreases n
  {
    if j < n - 1 {
      SteadyIsHeld(cs, j, n - 1, duty);
    }
  }

  /** And every settled one is: a live reading after `settle` seconds of one command. */
  lemma SteadyIsSampled(cs: seq<Command>, j: nat, k: nat, duty: real, settle: real)
    requires j < k < |cs| && Steady(cs, j, k + 1, duty) && cs[k].ts - cs[j].ts >= settle
    requires cs[k].reading.Some? && cs[k].reading.value >= 0.0
    ensures Sampled(HoldAfter(cs, k), cs[k], settle)
  {
    SteadyIsHeld(cs, j, k, duty);
  }

  // -- what is published ----------------------------------------------------------------

  /** The range of each number in which a stored curve is followed. */
  predicate Parses(deadband: real, exponent: real, rpmMax: real) {
    0.0 <= deadband < 0.5 && 0.5 <= exponent <= 1.5 && rpmMax > 0.0
  }

  lemma FitParses(u: seq<Bin>, phi: Airflow, p: Point, ts: real)
    requires OnGrid(p.i, p.j) && EligibleAt(u, phi, p.i, p.j)
    ensures var f := FitAt(u, phi, p, ts); 0.0 <= f.deadband < 0.5 && 0.5 <= f.exponent <= 1.5 && f.rpmMax > 0.0
  {
    var i, j := p.i as real, p.j as real;
    assert 0.0 <= i <= 18.0 && 0.0 <= j <= 20.0;
  }

  /** How long ago a stamp was made; one that lies ahead counts as made now. */
  function Age(stamp: real, ts: real): (age: real)
    ensures age >= 0.0 && age >= ts - stamp && (age == 0.0 || age == ts - stamp)
  {
    if ts < stamp then 0.0 else ts - stamp
  }

  datatype Config = Config(settle: real, refit: real, maxFrac: real, maxAge: real)

  /** No accepted refit, or no tachometer reading, within the limit. */
  predicate Stale(f: Fit, sampled: Option<real>, ts: real, maxAge: real) {
    sampled.None? || Age(f.ts, ts) > maxAge || Age(sampled.value, ts) > maxAge
  }

  lemma FoldPush(samples: seq<Sample>, s: Sample, k: nat)
    requires 0.0 <= s.duty <= 1.0 && k == BinIndex(s.duty) && AllInBin(samples, k)
    ensures Fold(samples + [s]) == Absorbed(Fold(samples), s)
    ensures AllInBin(samples + [s], k)
  {
    assert (samples + [s])[..|samples|] == samples;
  }

  class FanModel {
    var bins: array<Bin>
    var fit: Option<Fit>
    var lastTs: Option<real>
    var sampledTs: Option<real>
    var hold: map<string, Hold>
    ghost var history: seq<seq<Sample>>

    ghost predicate Valid()
      reads this, bins
    {
      && bins.Length == 32 && |history| == 32
      && (forall k :: 0 <= k < BINS ==> bins[k] == Fold(history[k]) && AllInBin(history[k], k))
      && (forall k :: 0 <= k < BINS ==> AllForward(history[k]))
      && (fit.Some? ==> Parses(fit.value.deadband, fit.value.exponent, fit.value.rpmMax) && fit.value.sse >= 0.0)
    }

    constructor ()
      ensures Valid() && fresh(bins) && fit == None && lastTs == None && sampledTs == None && hold == map[]
      ensures history == seq(BINS, k => [])
    {
      bins := new Bin[BINS](_ => EMPTY);
      fit, lastTs, sampledTs, hold := None, None, None, map[];
      history := seq(BINS, k => []);
    }

    /** One settled reading enters the bin of its duty. */
    method Absorb(duty: real, speed: real)
      requires Valid() && 0.0 <= duty <= 1.0 && speed >= 0.0
      modifies bins, this`history
      ensures Valid()
      ensures var k := BinIndex(duty);
        && history == old(history)[k := old(history)[k] + [Sample(duty, speed)]]
        && bins[..] == old(bins[..])[k := Absorbed(old(bins[..])[k], Sample(duty, speed))]
    {
      var k := BinIndex(duty);
      FoldPush(history[k], Sample(duty, speed), k);
      var row := Decayed(bins[k]);
      bins[k] := Bin(row.n + 1, row.su + duty, row.sr + speed, row.sr2 + Times(speed, speed));
      history := history[k := history[k] + [Sample(duty, speed)]];
    }

    function HoldOf(ch: string): Option<Hold>
      reads this
    {
      if ch in hold then Some(hold[ch]) else None
    }

    /** One channel's turn of a tick: every live reading confirms the fit, and only one taken
        at a settled command enters a bin. */
    method Read(ch: string, c: Command, settle: real)
      requires Valid()
      modifies this`hold, this`sampledTs, this`history, bins
      ensures Valid()
      ensures HoldOf(ch) == NextHold(old(HoldOf(ch)), c)
      ensures var was := old(HoldOf(ch));
        if c.u.None? then HoldOf(ch) == None
        else if was.Some? && was.value.since <= c.ts && -0.000001 <= was.value.duty - Duty(c.u.value) <= 0.000001 then
          HoldOf(ch) == was
        else HoldOf(ch) == Some(Hold(Duty(c.u.value), c.ts))
      ensures forall other :: other != ch ==> HoldOf(other) == old(HoldOf(other))
      ensures sampledTs == if c.reading.Some? && c.reading.value >= 0.0 then Some(c.ts) else old(sampledTs)
      ensures if c.u.Some? && c.reading.Some? && c.reading.value >= 0.0 && HoldOf(ch).Some?
                 && HoldOf(ch) == old(HoldOf(ch)) && c.ts - HoldOf(ch).value.since >= settle then
          var d := Duty(c.u.value);
          history == old(history)[BinIndex(d) := old(history)[BinIndex(d)] + [Sample(d, c.reading.value)]]
        else history == old(history)
    {
      var live := c.reading.Some? && c.reading.value >= 0.0;
      if live {
        sampledTs := Some(c.ts);
      }
      if c.u.None? {
        hold := hold - {ch};
        return;
      }
      var duty := Duty(c.u.value);
      if ch !in hold || !Near(hold[ch].duty, duty) || c.ts < hold[ch].since {
        hold := hold[ch := Hold(duty, c.ts)];
        return;
      }
      if c.ts - hold[ch].since < settle || !live {
        return;
      }
      Absorb(duty, c.reading.value);
    }

    /** An accepted fit of the bins can be stored. */
    lemma FitIsSound(phi: Airflow, maxFrac: real, f: Fit)
      requires Valid() && Accepted(Usable(bins[..]), phi, maxFrac, f)
      ensures Parses(f.deadband, f.exponent, f.rpmMax) && f.sse >= 0.0
    {
      forall k | 0 <= k < BINS ensures Reached(bins[k]) {
        assert bins[k] == Fold(history[k]);
      }
      AcceptedParses(Usable(bins[..]), phi, maxFrac, f);
      AcceptedSse(Usable(bins[..]), phi, maxFrac, f);
    }

    /** And while airflow is never negative it is the least-squares curve over the whole grid and
        every top speed. */
    lemma FitIsLeast(phi: Airflow, maxFrac: real, f: Fit, i: nat, j: nat, r: real)
      requires Valid() && Accepted(Usable(bins[..]), phi, maxFrac, f) && Blowing(phi)
      requires OnGrid(i, j) && Denom(Usable(bins[..]), phi, Deadband(i), Exponent(j)) > EPS
      ensures f.sse <= Sse(Usable(bins[..]), phi, Deadband(i), Exponent(j), r)
    {
      forall k | 0 <= k < BINS ensures bins[k].sr >= 0.0 {
        SumOfForward(history[k]);
      }
      var u := Usable(bins[..]);
      var p: Point :| BestBefore(u, phi, p.i, p.j, DEADBANDS, 0) && f == FitAt(u, phi, p, f.ts);
      FitIsLeastOfAll(u, phi, p, i, j, r);
    }

    /** The refit of a tick, when it is due; a refused fit leaves the last one standing. */
    method Refit(ts: real, cfg: Config, phi: Airflow)
      requires Valid()
      modifies this`fit, this`lastTs
      ensures Valid()
      ensures fit == old(fit) || (fit.Some? && fit.value.ts == ts
        && Accepted(Usable(bins[..]), phi, cfg.maxFrac, fit.value) && fit.value.sse >= 0.0)
      ensures old(lastTs).None? || ts < old(lastTs).value ==> fit == old(fit) && lastTs == Some(ts)
      ensures old(lastTs).Some? && old(lastTs).value <= ts < old(lastTs).value + cfg.refit ==>
        fit == old(fit) && lastTs == old(lastTs)
      ensures old(lastTs).Some? && ts >= old(lastTs).value && ts >= old(lastTs).value + cfg.refit ==>
        lastTs == Some(ts) && (fit.None? || fit.value.ts != ts ==>
          !exists f: Fit :: f.ts == ts && Accepted(Usable(bins[..]), phi, cfg.maxFrac, f))
    {
      if lastTs.None? || ts < lastTs.value {
        lastTs := Some(ts);
      } else if ts - lastTs.value >= cfg.refit {
        lastTs := Some(ts);
        var found := FitBins(bins[..], phi, cfg.maxFrac, ts);
        if found.Some? {
          FitIsSound(phi, cfg.maxFrac, found.value);
          fit := found;
        }
      }
    }

    /** What a tick publishes: the standing fit, unless nothing confirms it any more. */
    method Publish(ts: real, cfg: Config) returns (curve: Option<Fit>, stale: bool)
      requires Valid()
      ensures curve.Some? ==>
        0.0 <= curve.value.deadband < 0.5 && 0.5 <= curve.value.exponent <= 1.5 && curve.value.rpmMax > 0.0
      ensures stale <==> fit.Some? && (sampledTs.None? || Age(fit.value.ts, ts) > cfg.maxAge
                                       || Age(sampledTs.value, ts) > cfg.maxAge)
      ensures curve == if stale then None else fit
    {
      stale := fit.Some? && Stale(fit.value, sampledTs, ts, cfg.maxAge);
      curve := if stale then None else fit;
    }
  }

  lemma AcceptedSse(u: seq<Bin>, phi: Airflow, maxFrac: real, f: Fit)
    requires Accepted(u, phi, maxFrac, f) && forall b :: b in u ==> Reached(b)
    ensures f.sse >= 0.0
  {
    var p: Point :| BestBefore(u, phi, p.i, p.j, DEADBANDS, 0) && f == FitAt(u, phi, p, f.ts);
    var d, e := Deadband(p.i), Exponent(p.j);
    SseNonNegative(u, phi, d, e, BestSpeed(u, phi, d, e));
  }

  lemma AcceptedParses(u: seq<Bin>, phi: Airflow, maxFrac: real, f: Fit)
    requires Accepted(u, phi, maxFrac, f)
    ensures Parses(f.deadband, f.exponent, f.rpmMax)
    ensures 0.0 <= f.deadband < 0.5 && 0.5 <= f.exponent <= 1.5 && f.rpmMax > 0.0
  {
    var p: Point :| BestBefore(u, phi, p.i, p.j, DEADBANDS, 0) && f == FitAt(u, phi, p, f.ts);
    FitParses(u, phi, p, f.ts);
  }
}
