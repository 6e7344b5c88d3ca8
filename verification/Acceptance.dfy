/** When a SMART calibration is accepted, from the samples and ticks of its life alone. */
module Acceptance {
  import opened Calibration
  import opened RealAlgebra
  import opened TwoParamRls
  import opened Wrappers

  /** The accepted samples, in order. */
  function Rows(events: seq<Event>): seq<Row> {
    if events == [] then []
    else Rows(events[..|events| - 1]) + match events[|events| - 1] case Sample(row) => [row] case Tick(_) => []
  }

  function LastSample(rows: seq<Row>): Option<real> {
    if rows == [] then None else Some(rows[|rows| - 1].ts)
  }

  /** Event k is a tick before the last sample, or more than `maxAge` after it. */
  predicate OutOfAge(events: seq<Event>, k: nat, maxAge: real)
    requires k < |events|
  {
    && events[k].Tick?
    && var last := LastSample(Rows(events[..k]));
       last.Some? && !(0.0 <= events[k].now - last.value <= maxAge)
  }

  /** Samples since the last tick out of age. */
  function Streak(events: seq<Event>, maxAge: real): nat {
    if events == [] then 0
    else
      var k := |events| - 1;
      if OutOfAge(events, k, maxAge) then 0
      else Streak(events[..k], maxAge) + if events[k].Sample? then 1 else 0
  }

  lemma RowsOf(events: seq<Event>, k: nat)
    requires |events| == k + 1
    ensures events[k].Sample? ==> Rows(events)[..|Rows(events)| - 1] == Rows(events[..k])
                                  && Rows(events) != [] && Rows(events)[|Rows(events)| - 1] == events[k].row
    ensures events[k].Tick? ==> Rows(events) == Rows(events[..k])
  {
  }

  /** What an entry's fit and clock are after any events: those of the run of its samples. */
  ghost predicate FitsRows(e: Entry, f: Entry, rows: seq<Row>) {
    e == f.(recent := e.recent) && e.n == |rows| && e.ts == LastSample(rows)
  }

  /** The fresh count has no part in the fit. */
  lemma CountIsApart(e: Entry, row: Row, m: nat)
    requires RowVar(e.p, row.x, ROW_VAR) > 0.0
    ensures Update(e.(recent := m), row).0 == Update(e, row).0.(recent := m + 1)
  {
    var f := e.(recent := m);
    assert f.slope == e.slope && f.offset == e.offset && f.p == e.p && f.rms2 == e.rms2;
    assert Residual(f, row.x, row.y) == Residual(e, row.x, row.y);
    assert UnclampedSlope(f, row.x, row.y) == UnclampedSlope(e, row.x, row.y);
  }

  lemma SampleFits(e: Entry, f: Entry, rest: seq<Row>, row: Row, rows: seq<Row>)
    requires FitsRows(e, f, rest) && rows == rest + [row] && RowVar(e.p, row.x, ROW_VAR) > 0.0
    ensures FitsRows(Update(e, row).0, Update(f, row).0, rows)
  {
    CountIsApart(e, row, f.recent);
    assert e.(recent := f.recent) == f;
  }

  /** Its fit is that of its samples, whatever the ticks between them, and its fresh count is
      the streak. */
  lemma {:induction false} LifeIsRun(sigma: real, events: seq<Event>, maxAge: real)
    ensures FitsRows(Life(Fresh(sigma), events, maxAge), Run(Fresh(sigma), Rows(events)), Rows(events))
    ensures Life(Fresh(sigma), events, maxAge).recent == Streak(events, maxAge) <= |Rows(events)|
  {
    if events != [] {
      var k := |events| - 1;
      var rest := events[..k];
      LifeIsRun(sigma, rest, maxAge);
      RowsOf(events, k);
      var e, f := Life(Fresh(sigma), rest, maxAge), Run(Fresh(sigma), Rows(rest));
      if events[k].Sample? {
        UpdateKeepsCovariance(e, events[k].row);
        assert Rows(events) == Rows(rest) + [events[k].row];
        SampleFits(e, f, Rows(rest), events[k].row, Rows(events));
      }
    }
  }

  /** What n rows say about the slope apart from the offset, prior included: the determinant of
      their information. */
  function SlopeEvidence(n: real, x: real, xx: real): real {
    (20.0 + 4.0 * xx) * (0.25 + 4.0 * n) - 16.0 * (x * x)
  }

  /** The slope variance is below a limit exactly when the rows carry enough information, as
      their number, sum and sum of squares say. */
  lemma SureExactly(sigma: real, rows: seq<Row>, limit: real)
    ensures Run(Fresh(sigma), rows).p.a < limit <==>
      0.25 + 4.0 * (|rows| as real) < Times(limit, SlopeEvidence(|rows| as real, SumX(rows), SumXX(rows)))
  {
    var l := Information(rows);
    SlopeVarianceClosedForm(sigma, rows);
    InformationSums(rows);
    DetOfSums(l, |rows| as real, SumX(rows), SumXX(rows));
    QuotientBelow(Run(Fresh(sigma), rows).p.a, Det(l), l.d, limit);
  }

  lemma DetOfSums(l: Mat2, n: real, x: real, xx: real)
    requires l == Mat2(20.0 + 4.0 * xx, 4.0 * x, 4.0 * x, 0.25 + 4.0 * n)
    ensures Det(l) == SlopeEvidence(n, x, xx)
  {
    assert (4.0 * x) * (4.0 * x) == 16.0 * (x * x);
  }

  lemma QuotientBelow(v: real, det: real, d: real, limit: real)
    requires v >= 0.0 && Times(v, det) == d && d > 0.0
    ensures v < limit <==> d < Times(limit, det)
  {
    if det <= 0.0 {
      ProductNonNegative(v, -det);
      assert false;
    } else if v < limit {
      ProductPositive(limit - v, det);
    } else {
      ProductNonNegative(v - limit, det);
    }
  }

  /** A calibration is accepted exactly when at least twenty samples have come since the last
      tick out of age, the samples carry enough information on the slope, and the last of them
      is in age. */
  lemma AcceptedExactly(sigma: real, events: seq<Event>, now: real, maxAge: real, window: real)
    ensures var rows, last := Rows(events), LastSample(Rows(events));
      Calibrated(Life(Fresh(sigma), events, maxAge), now, window) <==>
        && Streak(events, maxAge) >= 20
        && 0.25 + 4.0 * (|rows| as real) < Times(0.01, SlopeEvidence(|rows| as real, SumX(rows), SumXX(rows)))
        && last.Some? && 0.0 <= now - last.value <= window
  {
    LifeIsRun(sigma, events, maxAge);
    SureExactly(sigma, Rows(events), 0.01);
  }

  /** The residual an accepted row leaves, in terms of the drive it reads: what is missing at
      the slope it found. The mean square moves a tenth of the way to its square. */
  lemma ResidualOnRecord(e: Entry, row: Row)
    requires PSD(e.p) && SLOPE_MIN <= e.slope <= SLOPE_MAX
    ensures RowVar(e.p, row.x, ROW_VAR) > 0.0
    ensures var (f, drive) := Update(e, row);
      && Times(drive, e.slope) + Times(row.x, e.slope) + e.offset == row.y
      && 10.0 * (f.rms2 - e.rms2) == Times(drive, drive) - e.rms2
  {
    UpdateKeepsCovariance(e, row);
    QuotientTimes(Residual(e, row.x, row.y), e.slope);
  }
}
