/** The SMART calibration of one bay and serial: rows y = slope * x + offset by recursive
    least squares without forgetting, slope clamped, accepted on count, certainty and age. */
module Calibration {
  import opened RealAlgebra
  import opened TwoParamRls
  import opened Wrappers

  const PRIOR_SLOPE := 0.7
  const PRIOR_OFFSET := -2.1
  const PRIOR_VAR := Mat2(0.05, 0.0, 0.0, 4.0)
  const ROW_VAR := 0.25
  const SLOPE_MIN := 0.3
  const SLOPE_MAX := 0.98
  const OFFSET_MIN := -10.0
  const OFFSET_MAX := 10.0
  const MIN_SAMPLES := 20
  const SLOPE_VAR_MAX := 0.01
  const RMS_ALPHA := 0.1

  /** A calibration restored from a stale file: its sigma is inflated until `confirm` more
      samples have updated it. */
  datatype Hold = Hold(inflate: real, confirm: int)

  /** `n` counts every accepted sample, `recent` those since the last expiry. */
  datatype Entry = Entry(slope: real, offset: real, p: Mat2, n: nat, recent: nat, rms2: real,
                         ts: Option<real>, used: bool, hold: Option<Hold>)

  datatype Row = Row(x: real, y: real, ts: real)

  function Fresh(sigmaUncalibrated: real): Entry {
    Entry(PRIOR_SLOPE, PRIOR_OFFSET, PRIOR_VAR, 0, 0,
          sigmaUncalibrated * sigmaUncalibrated, None, false, None)
  }

  function Clamp(lo: real, hi: real, x: real): (y: real)
    requires lo <= hi
    ensures lo <= y <= hi
    ensures y == x <==> lo <= x <= hi
  {
    if x < lo then lo else if hi < x then hi else x
  }

  // -- the update ----------------------------------------------------------------

  /** P h / s */
  function Gain(p: Mat2, x: real): (k: (real, real))
    requires RowVar(p, x, ROW_VAR) > 0.0
  {
    GainOf(p, x, ROW_VAR)
  }

  /** I - k h */
  function Shrink(k: (real, real), x: real): Mat2 {
    Mat2(1.0 - k.0 * x, -k.0, -(k.1 * x), 1.0 - k.1)
  }

  /** (a0, a1) . (f0, f1) + R ki kj */
  function JosephEntry(a0: real, a1: real, f0: real, f1: real, ki: real, kj: real): real {
    Times(a0, f0) + Times(a1, f1) + Times(ROW_VAR, Times(ki, kj))
  }

  /** (I - k h) P (I - k h)^T + R k k^T, then symmetrised. */
  function JosephForm(p: Mat2, x: real): Mat2
    requires RowVar(p, x, ROW_VAR) > 0.0
  {
    var k := Gain(p, x);
    var f := Shrink(k, x);
    var a := Product(f, p);
    var off := 0.5 * (JosephEntry(a.a, a.b, f.c, f.d, k.0, k.1)
                      + JosephEntry(a.c, a.d, f.a, f.b, k.1, k.0));
    Mat2(JosephEntry(a.a, a.b, f.a, f.b, k.0, k.0), off,
         off, JosephEntry(a.c, a.d, f.c, f.d, k.1, k.1))
  }

  function Residual(e: Entry, x: real, y: real): real {
    y - (Times(x, e.slope) + e.offset)
  }

  function UnclampedSlope(e: Entry, x: real, y: real): real
    requires RowVar(e.p, x, ROW_VAR) > 0.0
  {
    e.slope + Times(Gain(e.p, x).0, Residual(e, x, y))
  }

  /** One more sample counts down the confirmation of a restored entry. */
  function CountDown(hold: Option<Hold>): Option<Hold> {
    match hold
    case None => None
    case Some(h) => if h.confirm - 1 > 0 then Some(Hold(h.inflate, h.confirm - 1)) else None
  }

  /** One row; the second value is the drive-equivalent a-priori residual. */
  function Update(e: Entry, row: Row): (r: (Entry, real))
    requires RowVar(e.p, row.x, ROW_VAR) > 0.0
  {
    var residual := Residual(e, row.x, row.y);
    var k := Gain(e.p, row.x);
    var before := Clamp(SLOPE_MIN, SLOPE_MAX, e.slope);
    var drive := residual / before;
    (Entry(Clamp(SLOPE_MIN, SLOPE_MAX, UnclampedSlope(e, row.x, row.y)),
           e.offset + Times(k.1, residual),
           JosephForm(e.p, row.x), e.n + 1, e.recent + 1,
           (1.0 - RMS_ALPHA) * e.rms2 + RMS_ALPHA * (drive * drive),
           Some(row.ts), e.used, CountDown(e.hold)),
     drive)
  }

  /** x * A0 + A1 over a row of A = (I - k h) P is what the gain leaves: k_i R. */
  lemma RowRemainder(pa: real, pb: real, ki: real, ui: real, u: (real, real), x: real, s: real)
    requires s == Times(x, u.0) + u.1 + ROW_VAR
    requires Times(ki, s) == ui == Times(x, pa) + pb
    ensures Times(x, pa - Times(ki, u.0)) + (pb - Times(ki, u.1)) == Times(ki, ROW_VAR)
  {
    assert x * (pa - ki * u.0) + (pb - ki * u.1) == (x * pa + pb) - ki * (x * u.0 + u.1);
  }

  /** (row of A)(I - k h)^T + R k_i k gives the row of A back. */
  lemma JosephRow(a0: real, a1: real, ki: real, k: (real, real), x: real)
    requires Times(x, a0) + a1 == Times(ki, ROW_VAR)
    ensures var f := Shrink(k, x);
      && JosephEntry(a0, a1, f.a, f.b, ki, k.0) == a0
      && JosephEntry(a0, a1, f.c, f.d, ki, k.1) == a1
  {
    assert a0 * (k.0 * x) + a1 * k.0 == k.0 * (x * a0 + a1);
    assert a0 * (k.1 * x) + a1 * k.1 == k.1 * (x * a0 + a1);
  }

  lemma ShrunkEntries(k: (real, real), x: real, f: Mat2, pa: real, pc: real, u: real)
    requires f == Shrink(k, x) && u == Times(x, pa) + pc
    ensures InnerEntry(f.a, f.b, pa, pc) == pa - Times(k.0, u)
    ensures InnerEntry(f.c, f.d, pa, pc) == pc - Times(k.1, u)
  {
  }

  lemma ShrunkRows(p: Mat2, x: real, k: (real, real))
    requires Symmetric(p)
    ensures var u := Column(p, x);
      Product(Shrink(k, x), p) == Mat2(p.a - Times(k.0, u.0), p.b - Times(k.0, u.1),
                                       p.c - Times(k.1, u.0), p.d - Times(k.1, u.1))
  {
    var u := Column(p, x);
    ShrunkEntries(k, x, Shrink(k, x), p.a, p.c, u.0);
    ShrunkEntries(k, x, Shrink(k, x), p.b, p.d, u.1);
  }

  /** The Joseph form of a symmetric P is the rank-one correction. */
  lemma JosephIsAbsorbed(p: Mat2, x: real)
    requires Symmetric(p) && RowVar(p, x, ROW_VAR) > 0.0
    ensures JosephForm(p, x) == Absorbed(p, x, ROW_VAR)
  {
    var s, u, k := RowVar(p, x, ROW_VAR), Column(p, x), Gain(p, x);
    QuotientTimes(u.0, s);
    QuotientTimes(u.1, s);
    RowRemainder(p.a, p.b, k.0, u.0, u, x, s);
    RowRemainder(p.c, p.d, k.1, u.1, u, x, s);
    ShrunkRows(p, x, k);
    var a := Product(Shrink(k, x), p);
    JosephRow(a.a, a.b, k.0, k, x);
    JosephRow(a.c, a.d, k.1, k, x);
    SwapQuotient(u.0, u.1, s);
  }

  lemma UpdateKeepsCovariance(e: Entry, row: Row)
    requires PSD(e.p)
    ensures RowVar(e.p, row.x, ROW_VAR) > 0.0
    ensures PSD(Update(e, row).0.p) && Update(e, row).0.p.a <= e.p.a
    ensures 0.3 <= Update(e, row).0.slope <= 0.98
  {
    AbsorbedIsPSD(e.p, row.x, ROW_VAR);
    JosephIsAbsorbed(e.p, row.x);
  }

  // -- the recursion is the batch fit -------------------------------------------

  function Run(e: Entry, rows: seq<Row>): (r: Entry)
    requires PSD(e.p)
    ensures PSD(r.p)
  {
    if rows == [] then e
    else
      var before := Run(e, rows[..|rows| - 1]);
      UpdateKeepsCovariance(before, rows[|rows| - 1]);
      Update(before, rows[|rows| - 1]).0
  }

  /** Information of the prior and of every row. */
  function Information(rows: seq<Row>): Mat2 {
    if rows == [] then Mat2(20.0, 0.0, 0.0, 0.25)
    else Informed(Information(rows[..|rows| - 1]), rows[|rows| - 1].x, ROW_VAR)
  }

  function SumX(rows: seq<Row>): real {
    if rows == [] then 0.0 else SumX(rows[..|rows| - 1]) + rows[|rows| - 1].x
  }

  function SumXX(rows: seq<Row>): real {
    if rows == [] then 0.0
    else SumXX(rows[..|rows| - 1]) + rows[|rows| - 1].x * rows[|rows| - 1].x
  }

  lemma {:induction false} InformationSums(rows: seq<Row>)
    ensures Information(rows) == Mat2(20.0 + 4.0 * SumXX(rows), 4.0 * SumX(rows),
                                      4.0 * SumX(rows), 0.25 + 4.0 * (|rows| as real))
  {
    if rows != [] {
      InformationSums(rows[..|rows| - 1]);
      var x := rows[|rows| - 1].x;
      assert Times(x, x / ROW_VAR) == 4.0 * (x * x);
    }
  }

  /** After any rows the covariance is the inverse of prior plus row information. */
  lemma {:induction false} CovarianceIsInverseInformation(sigma: real, rows: seq<Row>)
    ensures Product(Run(Fresh(sigma), rows).p, Information(rows)) == IDENTITY
  {
    if rows == [] {
      PriorInverse();
    } else {
      var rest, row := rows[..|rows| - 1], rows[|rows| - 1];
      CovarianceIsInverseInformation(sigma, rest);
      InverseStep(Run(Fresh(sigma), rest), Information(rest), row);
    }
  }

  lemma PriorInverse()
    ensures Product(PRIOR_VAR, Mat2(20.0, 0.0, 0.0, 0.25)) == IDENTITY
  {
  }

  lemma InverseStep(e: Entry, l: Mat2, row: Row)
    requires PSD(e.p) && Product(e.p, l) == IDENTITY
    ensures RowVar(e.p, row.x, ROW_VAR) > 0.0
    ensures Product(Update(e, row).0.p, Informed(l, row.x, ROW_VAR)) == IDENTITY
  {
    UpdateKeepsCovariance(e, row);
    JosephIsAbsorbed(e.p, row.x);
    AbsorbedInverts(e.p, l, row.x, ROW_VAR);
  }

  /** So the slope variance is a closed form of the number, sum and square sum of the rows'
      regressors: their order and their readings do not enter. */
  lemma SlopeVarianceClosedForm(sigma: real, rows: seq<Row>)
    ensures Times(Run(Fresh(sigma), rows).p.a, Det(Information(rows))) == Information(rows).d
  {
    CovarianceIsInverseInformation(sigma, rows);
    InformationSums(rows);
    InverseCorner(Run(Fresh(sigma), rows).p, Information(rows));
  }

  lemma InverseCorner(p: Mat2, l: Mat2)
    requires Product(p, l) == IDENTITY
    ensures Times(p.a, Det(l)) == l.d
  {
    assert p.a * l.a + p.b * l.c == 1.0 && p.a * l.b + p.b * l.d == 0.0;
    assert p.a * (l.a * l.d - l.b * l.c)
        == (p.a * l.a + p.b * l.c) * l.d - (p.a * l.b + p.b * l.d) * l.c;
  }

  function Evidence(v: (real, real), row: Row): (real, real) {
    RowEvidence(v, row.x, row.y, ROW_VAR)
  }

  /** One row solves the normal equations exactly when the clamp does not act. */
  lemma NormalEquationsStep(e: Entry, l: Mat2, row: Row)
    requires PSD(e.p) && Symmetric(l) && l.a > 0.0 && Product(e.p, l) == IDENTITY
    ensures RowVar(e.p, row.x, ROW_VAR) > 0.0
    ensures var f := Update(e, row).0;
      Normal(Informed(l, row.x, ROW_VAR), f.slope, f.offset)
          == Evidence(Normal(l, e.slope, e.offset), row)
      <==> SLOPE_MIN <= UnclampedSlope(e, row.x, row.y) <= SLOPE_MAX
  {
    UpdateKeepsCovariance(e, row);
    var x, f, raw := row.x, Update(e, row).0, UnclampedSlope(e, row.x, row.y);
    MoveSolves(e.p, l, e.slope, e.offset, x, row.y, ROW_VAR, raw, f.offset);
    InformedSlope(l, x);
    SlopeDecides(Informed(l, x, ROW_VAR), f.slope, raw, f.offset);
  }

  lemma InformedSlope(l: Mat2, x: real)
    requires l.a > 0.0
    ensures Informed(l, x, ROW_VAR).a > 0.0
  {
    SquareNonNegative(x);
    assert Times(x, x / ROW_VAR) == 4.0 * Times(x, x);
  }

  lemma SlopeDecides(m: Mat2, s: real, t: real, o: real)
    requires m.a > 0.0
    ensures Normal(m, s, o) == Normal(m, t, o) <==> s == t
  {
    if s < t {
      ProductPositive(m.a, t - s);
    } else if t < s {
      ProductPositive(m.a, s - t);
    }
  }

  /** What the prior and every row say for slope and offset. */
  function Evidences(rows: seq<Row>): (real, real) {
    if rows == [] then Normal(Information([]), PRIOR_SLOPE, PRIOR_OFFSET)
    else Evidence(Evidences(rows[..|rows| - 1]), rows[|rows| - 1])
  }

  /** No row of the run meets the slope clamp. */
  ghost predicate Unclamped(sigma: real, rows: seq<Row>) {
    rows == [] ||
      var before, row := Run(Fresh(sigma), rows[..|rows| - 1]), rows[|rows| - 1];
      && Unclamped(sigma, rows[..|rows| - 1])
      && RowVar(before.p, row.x, ROW_VAR) > 0.0
      && SLOPE_MIN <= UnclampedSlope(before, row.x, row.y) <= SLOPE_MAX
  }

  lemma {:induction false} InformationIsPositive(rows: seq<Row>)
    ensures Symmetric(Information(rows)) && Information(rows).a > 0.0
  {
    if rows != [] {
      var x := rows[|rows| - 1].x;
      InformationIsPositive(rows[..|rows| - 1]);
      SquareNonNegative(x);
      assert Times(x, x / ROW_VAR) == 4.0 * Times(x, x);
    }
  }

  /** The recursion is the batch least-squares fit: while the clamp acts on no row, slope and
      offset solve the normal equations of the prior and all rows. */
  lemma {:induction false} RunIsBatchFit(sigma: real, rows: seq<Row>)
    requires Unclamped(sigma, rows)
    ensures var f := Run(Fresh(sigma), rows);
      Normal(Information(rows), f.slope, f.offset) == Evidences(rows)
  {
    if rows != [] {
      var rest, row := rows[..|rows| - 1], rows[|rows| - 1];
      RunIsBatchFit(sigma, rest);
      CovarianceIsInverseInformation(sigma, rest);
      InformationIsPositive(rest);
      NormalEquationsStep(Run(Fresh(sigma), rest), Information(rest), row);
    }
  }

  /** While the clamp acts on no row, nothing else solves those equations. */
  lemma BatchFitIsUnique(sigma: real, rows: seq<Row>, slope: real, offset: real)
    requires Unclamped(sigma, rows) && Normal(Information(rows), slope, offset) == Evidences(rows)
    ensures var f := Run(Fresh(sigma), rows); slope == f.slope && offset == f.offset
  {
    var f := Run(Fresh(sigma), rows);
    RunIsBatchFit(sigma, rows);
    CovarianceIsInverseInformation(sigma, rows);
    SolvedOnce(f.p, Information(rows), Evidences(rows), slope, offset, f.slope, f.offset);
  }

  // -- acceptance ----------------------------------------------------------------

  /** The part of acceptance that does not depend on the clock. */
  predicate Confirmed(e: Entry) {
    e.ts.Some? && e.recent >= MIN_SAMPLES && e.p.a < SLOPE_VAR_MAX
  }

  predicate InAge(e: Entry, now: real, maxAge: real) {
    e.ts.Some? && 0.0 <= now - e.ts.value <= maxAge
  }

  predicate Calibrated(e: Entry, now: real, maxAge: real) {
    Confirmed(e) && InAge(e, now, maxAge)
  }

  /** The expiry at the start of a tick. */
  function Expire(e: Entry, now: real, maxAge: real): Entry {
    if e.ts.Some? && e.recent > 0 && (now - e.ts.value > maxAge || now - e.ts.value < 0.0) then
      e.(recent := 0)
    else
      e
  }

  datatype Event = Sample(row: Row) | Tick(now: real)

  function Step(e: Entry, ev: Event, maxAge: real): (r: Entry)
    requires PSD(e.p)
    ensures PSD(r.p)
  {
    match ev
    case Sample(row) => UpdateKeepsCovariance(e, row); Update(e, row).0
    case Tick(now) => Expire(e, now, maxAge)
  }

  function Life(e: Entry, events: seq<Event>, maxAge: real): (r: Entry)
    requires PSD(e.p)
    ensures PSD(r.p)
  {
    if events == [] then e
    else Step(Life(e, events[..|events| - 1], maxAge), events[|events| - 1], maxAge)
  }

  /** A tick that finds the entry out of age. */
  ghost predicate Expires(e: Entry, events: seq<Event>, k: nat, maxAge: real)
    requires PSD(e.p) && k < |events|
  {
    events[k].Tick? && !InAge(Life(e, events[..k], maxAge), events[k].now, maxAge)
  }

  /** A confirmed calibration stays confirmed through any samples and ticks in which no tick
      finds it out of age: nothing else can lose it. */
  lemma {:induction false} LostOnlyByAge(e: Entry, events: seq<Event>, maxAge: real)
    requires PSD(e.p) && Confirmed(e)
    requires forall k :: 0 <= k < |events| ==> !Expires(e, events, k, maxAge)
    ensures Confirmed(Life(e, events, maxAge))
  {
    if events != [] {
      var k := |events| - 1;
      var rest := events[..k];
      forall i | 0 <= i < k ensures !Expires(e, rest, i, maxAge) {
        assert rest[..i] == events[..i];
        assert !Expires(e, events, i, maxAge);
      }
      LostOnlyByAge(e, rest, maxAge);
      assert !Expires(e, events, k, maxAge);
      var before := Life(e, rest, maxAge);
      match events[k]
      case Sample(row) => UpdateKeepsCovariance(before, row);
      case Tick(_) =>
    }
  }
}
