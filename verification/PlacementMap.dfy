/** The learned map difference (ds, db) of one further proximal sensor of a bay: a
    two-parameter fit with a random walk on the offset. A box holds the pair; a pair outside
    is moved in along the line of pairs that explain its readings equally well. */
module PlacementMap {
  import opened RealAlgebra
  import opened TwoParamRls
  import opened Calibration

  datatype Box = Box(sLo: real, sHi: real, bLo: real, bHi: real)

  predicate Proper(box: Box) {
    box.sLo <= box.sHi && box.bLo <= box.bHi
  }

  predicate Inside(box: Box, ds: real, db: real) {
    box.sLo <= ds <= box.sHi && box.bLo <= db <= box.bHi
  }

  /** The box of a member, given the bay's own map (slope, offset). */
  function BoxOf(spread: real, slope: real, offset: real): Box {
    var lo := if -spread < SLOPE_MIN - slope then SLOPE_MIN - slope else -spread;
    var hi := if SLOPE_MAX - slope < spread then SLOPE_MAX - slope else spread;
    Box(lo, hi, OFFSET_MIN - offset, OFFSET_MAX - offset)
  }

  /** A pair is in the box when it is within the spread and takes the bay's map to one inside the
      bounds of a map. */
  lemma BoxMeans(spread: real, slope: real, offset: real, ds: real, db: real)
    ensures Inside(BoxOf(spread, slope, offset), ds, db) <==>
      -spread <= ds <= spread && 0.3 <= slope + ds <= 0.98 && -10.0 <= offset + db <= 10.0
  {
  }

  /** The bay's slope is the prior or a calibration's, and every calibration's is clamped, so
      the box a member is held in is never empty and always holds "no difference in slope". */
  lemma BoxNeverEmpty(spread: real, e: Entry, rows: seq<Row>)
    requires spread >= 0.0 && PSD(e.p) && SLOPE_MIN <= e.slope <= SLOPE_MAX
    ensures var f := Run(e, rows);
      Proper(BoxOf(spread, f.slope, f.offset)) && BoxOf(spread, f.slope, f.offset).sLo <= 0.0
        <= BoxOf(spread, f.slope, f.offset).sHi
  {
    if rows != [] {
      UpdateKeepsCovariance(Run(e, rows[..|rows| - 1]), rows[|rows| - 1]);
    }
  }

  /** What the member's readings identify: its disagreement at this rise. */
  function Gap(ds: real, db: real, rise: real): real {
    Times(ds, rise) + db
  }

  /** The pair moved by t along the direction that leaves the gap alone. */
  predicate SlidesInto(box: Box, ds: real, db: real, rise: real, t: real) {
    Inside(box, ds + t, db - Times(t, rise))
  }

  lemma SlidingKeepsGap(ds: real, db: real, rise: real, t: real)
    ensures Gap(ds + t, db - Times(t, rise), rise) == Gap(ds, db, rise)
  {
  }

  /** The steps that land the offset in its range, as bounds on t. */
  lemma OffsetRange(db: real, lo: real, hi: real, rise: real, t: real)
    requires rise != 0.0
    ensures lo <= db - Times(t, rise) <= hi <==>
      if rise > 0.0 then (db - hi) / rise <= t <= (db - lo) / rise
      else (db - lo) / rise <= t <= (db - hi) / rise
  {
    QuotientTimes(db - hi, rise);
    QuotientTimes(db - lo, rise);
  }

  function Prior(spread: real, offsetSpread: real): Mat2 {
    Mat2(Times(spread, spread), 0.0, 0.0, Times(offsetSpread, offsetSpread))
  }

  lemma PriorIsPSD(spread: real, offsetSpread: real)
    ensures PSD(Prior(spread, offsetSpread))
  {
    SquareNonNegative(spread);
    SquareNonNegative(offsetSpread);
    ProductNonNegative(Times(spread, spread), Times(offsetSpread, offsetSpread));
  }

  class Member {
    var ds: real
    var db: real
    var p: Mat2
    var n: nat

    constructor (spread: real, offsetSpread: real)
      ensures ds == 0.0 && db == 0.0 && n == 0
      ensures p == Mat2(Times(spread, spread), 0.0, 0.0, Times(offsetSpread, offsetSpread)) && PSD(p)
    {
      ds, db, n := 0.0, 0.0, 0;
      p := Prior(spread, offsetSpread);
      PriorIsPSD(spread, offsetSpread);
    }

    /** Holds the pair in the box. When sliding can bring it in, it slides by the smallest
        possible amount and the gap at this rise is unchanged; when no slide can, each
        coordinate is clipped on its own. */
    method Bound(rise: real, box: Box)
      requires Proper(box)
      modifies this`ds, this`db
      ensures Held(box, rise, old(ds), old(db), ds, db)
    {
      ghost var ds0, db0 := ds, db;
      var lo, hi := box.sLo - ds, box.sHi - ds;
      if rise > 0.0 {
        lo, hi := Max(lo, (db - box.bHi) / rise), Min(hi, (db - box.bLo) / rise);
      } else if rise < 0.0 {
        lo, hi := Max(lo, (db - box.bLo) / rise), Min(hi, (db - box.bHi) / rise);
      } else if !(box.bLo <= db <= box.bHi) {
        lo, hi := 1.0, -1.0;
      }
      forall t ensures SlidesInto(box, ds0, db0, rise, t) <==> lo <= t <= hi {
        if rise != 0.0 {
          OffsetRange(db0, box.bLo, box.bHi, rise, t);
        }
      }
      if lo <= hi {
        var t := Min(Max(0.0, lo), hi);
        assert SlidesInto(box, ds0, db0, rise, t);
        SlidingKeepsGap(ds0, db0, rise, t);
        ds := ds + t;
        db := db - Times(t, rise);
      }
      ds := Clamp(box.sLo, box.sHi, ds);
      db := Clamp(box.bLo, box.bHi, db);
    }

    /** One row z = ds * rise + db of variance r; the offset has walked by q since the last.
        The row variance of a covariance is positive, so the row is never refused. */
    method Absorb(rise: real, z: real, r: real, q: real, box: Box)
      requires PSD(p) && r > 0.0 && q >= 0.0 && Proper(box)
      modifies this
      ensures PSD(p) && p == Learned(old(p), rise, r, q)
      ensures p.a <= old(p).a
      ensures n == old(n) + 1
      ensures Inside(box, ds, db)
      ensures var s := Corrected(old(ds), old(db), old(p), rise, z, r, q);
        && Held(box, rise, s.0, s.1, ds, db)
        && Explains(old(p), old(ds), old(db), rise, z, r, q, p, s.0, s.1)
        && (Inside(box, s.0, s.1) ==> Explains(old(p), old(ds), old(db), rise, z, r, q, p, ds, db))
    {
      CorrectedExplains(p, ds, db, rise, z, r, q);
      ghost var s0 := Corrected(ds, db, p, rise, z, r, q);
      WidenedIsPSD(p, q);
      p := Widened(p, q);
      var ph := Column(p, rise);
      var s := Times(rise, ph.0) + ph.1 + r;
      AbsorbedIsPSD(p, rise, r);
      var k := (ph.0 / s, ph.1 / s);
      var nu := z - Gap(ds, db, rise);
      ds := ds + Times(k.0, nu);
      db := db + Times(k.1, nu);
      var off := 0.5 * ((p.b - Times(k.0, ph.1)) + (p.c - Times(k.1, ph.0)));
      SwapQuotient(ph.0, ph.1, s);
      p := Mat2(p.a - Times(k.0, ph.0), off, off, p.d - Times(k.1, ph.1));
      n := n + 1;
      Bound(rise, box);
      InsideStays(box, rise, s0.0, s0.1, ds, db);
    }
  }

  /** What holding the pair (ds0, db0) in the box does to it. */
  ghost predicate Held(box: Box, rise: real, ds0: real, db0: real, ds: real, db: real) {
    && Inside(box, ds, db)
    && (Reachable(box, rise, ds0, db0) ==> Gap(ds, db, rise) == Gap(ds0, db0, rise))
    && (forall t :: SlidesInto(box, ds0, db0, rise, t) ==> Abs(ds - ds0) <= Abs(t))
    && (!Reachable(box, rise, ds0, db0) ==>
         ds == Clamp(box.sLo, box.sHi, ds0) && db == Clamp(box.bLo, box.bHi, db0))
  }

  /** Some slide brings the pair into the box. */
  ghost predicate Reachable(box: Box, rise: real, ds0: real, db0: real) {
    exists t :: SlidesInto(box, ds0, db0, rise, t)
  }

  /** The covariance after a row. */
  function Learned(p: Mat2, rise: real, r: real, q: real): Mat2 {
    var w := Widened(p, q);
    if RowVar(w, rise, r) > 0.0 then Absorbed(w, rise, r) else w
  }

  /** The pair after a row, before the box. */
  function Corrected(ds: real, db: real, p: Mat2, rise: real, z: real, r: real, q: real): (real, real) {
    var w := Widened(p, q);
    var s, u, nu := RowVar(w, rise, r), Column(w, rise), z - Gap(ds, db, rise);
    if s > 0.0 then (ds + Times(u.0 / s, nu), db + Times(u.1 / s, nu)) else (ds, db)
  }

  /** What a row leaves is the least-squares answer: whatever information L the pair stood on
      after the walk of its offset, the new covariance inverts L with the row added, and the
      pair solves the normal equations with the row added. */
  ghost predicate Explains(p: Mat2, ds: real, db: real, rise: real, z: real, r: real, q: real,
                           p1: Mat2, ds1: real, db1: real)
    requires r > 0.0
  {
    forall l: Mat2 ::
      Symmetric(l) && Product(Mat2(p.a, p.b, p.c, p.d + q), l) == IDENTITY ==>
        && Product(p1, Informed(l, rise, r)) == IDENTITY
        && Normal(Informed(l, rise, r), ds1, db1)
           == (Normal(l, ds, db).0 + Times(rise, z) / r, Normal(l, ds, db).1 + z / r)
  }

  lemma CorrectedExplains(p: Mat2, ds: real, db: real, rise: real, z: real, r: real, q: real)
    requires PSD(p) && r > 0.0 && q >= 0.0
    ensures var s := Corrected(ds, db, p, rise, z, r, q);
      Explains(p, ds, db, rise, z, r, q, Learned(p, rise, r, q), s.0, s.1)
  {
    var w, s := Widened(p, q), Corrected(ds, db, p, rise, z, r, q);
    WidenedIsPSD(p, q);
    AbsorbedIsPSD(w, rise, r);
    assert Gap(ds, db, rise) == Times(rise, ds) + db;
    forall l: Mat2 | Symmetric(l) && Product(Mat2(p.a, p.b, p.c, p.d + q), l) == IDENTITY
      ensures Product(Learned(p, rise, r, q), Informed(l, rise, r)) == IDENTITY
      ensures Normal(Informed(l, rise, r), s.0, s.1) == RowEvidence(Normal(l, ds, db), rise, z, r)
    {
      AbsorbedInverts(w, l, rise, r);
      MoveSolves(w, l, ds, db, rise, z, r, s.0, s.1);
    }
  }

  /** No other pair is the answer, where there is information at all. */
  lemma ExplanationIsUnique(p: Mat2, ds: real, db: real, rise: real, z: real, r: real, q: real, l: Mat2,
                            p1: Mat2, ds1: real, db1: real, p2: Mat2, ds2: real, db2: real)
    requires r > 0.0 && Symmetric(l) && Product(Mat2(p.a, p.b, p.c, p.d + q), l) == IDENTITY
    requires Explains(p, ds, db, rise, z, r, q, p1, ds1, db1)
    requires Explains(p, ds, db, rise, z, r, q, p2, ds2, db2)
    ensures ds1 == ds2 && db1 == db2
  {
    SolvedOnce(p1, Informed(l, rise, r), Normal(Informed(l, rise, r), ds1, db1), ds1, db1, ds2, db2);
  }

  /** A proper covariance has information. */
  lemma InformationExists(p: Mat2) returns (l: Mat2)
    requires PSD(p) && Det(p) > 0.0
    ensures Symmetric(l) && Product(p, l) == IDENTITY
  {
    var e := 1.0 / Det(p);
    l := Mat2(p.d * e, -(p.b * e), -(p.b * e), p.a * e);
    InverseEntries(p.a, p.b, p.d, Det(p), e);
  }

  lemma InverseEntries(a: real, b: real, d: real, det: real, e: real)
    requires det == a * d - b * b && Times(det, e) == 1.0
    ensures Times(a, d * e) + Times(b, -(b * e)) == 1.0 && Times(a, -(b * e)) + Times(b, a * e) == 0.0
    ensures Times(b, d * e) + Times(d, -(b * e)) == 0.0 && Times(b, -(b * e)) + Times(d, a * e) == 1.0
  {
    assert a * (d * e) == (a * d) * e && b * (b * e) == (b * b) * e;
  }

  /** A pair inside the box is left where it is. */
  lemma InsideStays(box: Box, rise: real, ds0: real, db0: real, ds: real, db: real)
    requires Held(box, rise, ds0, db0, ds, db)
    ensures Inside(box, ds0, db0) ==> ds == ds0 && db == db0
  {
    if Inside(box, ds0, db0) {
      assert SlidesInto(box, ds0, db0, rise, 0.0);
      assert Gap(ds, db, rise) == Gap(ds0, db0, rise) && ds == ds0;
    }
  }

  /** The offset's random walk. */
  function Widened(p: Mat2, q: real): Mat2 {
    p.(d := p.d + q)
  }

  lemma WidenedIsPSD(p: Mat2, q: real)
    requires PSD(p) && q >= 0.0
    ensures PSD(Widened(p, q))
  {
    ProductNonNegative(p.a, q);
    assert Det(Widened(p, q)) == Det(p) + Times(p.a, q);
  }

  /** The box decides the result: no two pairs are both a correct holding of the same one. */
  lemma HeldIsUnique(box: Box, rise: real, ds0: real, db0: real,
                     ds: real, db: real, es: real, eb: real)
    requires Held(box, rise, ds0, db0, ds, db) && Held(box, rise, ds0, db0, es, eb)
    ensures ds == es && db == eb
  {
    if Reachable(box, rise, ds0, db0) {
      SlideOf(box, rise, ds0, db0, ds, db);
      SlideOf(box, rise, ds0, db0, es, eb);
      var t, u := ds - ds0, es - ds0;
      assert SlidesInto(box, ds0, db0, rise, t) && SlidesInto(box, ds0, db0, rise, u);
      assert Abs(t) == Abs(u);
      if t != u {
        assert t == -u;
        assert Times(t, rise) == -Times(u, rise);
        assert SlidesInto(box, ds0, db0, rise, 0.0);
        assert false;
      }
    }
  }

  lemma SlideOf(box: Box, rise: real, ds0: real, db0: real, ds: real, db: real)
    requires Inside(box, ds, db) && Gap(ds, db, rise) == Gap(ds0, db0, rise)
    ensures SlidesInto(box, ds0, db0, rise, ds - ds0)
    ensures db == db0 - Times(ds - ds0, rise)
  {
  }
}
