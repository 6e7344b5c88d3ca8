/** Calibration ages across restarts: the controller clock restarts with the process, so an
    entry's last sample time travels through the model file in wall-clock time. */
module CalibrationAge {
  import opened Calibration
  import opened RealAlgebra
  import opened TwoParamRls
  import opened Wrappers

  const STALE_FACTOR := 2.0

  /** A stored entry: `body` without its controller time, and the two wall times. */
  datatype Stored = Stored(body: Entry, lastWall: Option<real>, expiresWall: Option<real>)

  /** The file when it was written. */
  datatype File = File(savedWall: real, entry: Stored)

  /** An entry as the loader hands it to the estimator. */
  datatype Seed = Seed(body: Entry, age: Option<real>, expired: bool)

  function Save(e: Entry, ts: Option<real>, wall: real, maxAge: real): File {
    var last := if e.ts.Some? && ts.Some? && ts.value >= e.ts.value
                then Some(wall - (ts.value - e.ts.value)) else None;
    File(wall, Stored(e.(ts := None), last, if last.None? then None else Some(last.value + maxAge)))
  }

  /** The wall clock is behind the file, or the file is too old. */
  predicate Stale(f: File, wall: real, fileMaxAge: real) {
    wall - f.savedWall < 0.0 || wall - f.savedWall > fileMaxAge
  }

  function Load(s: Stored, wall: real): Seed {
    Seed(s.body,
         if s.lastWall.Some? && wall - s.lastWall.value >= 0.0 then Some(wall - s.lastWall.value) else None,
         s.expiresWall.Some? && wall > s.expiresWall.value)
  }

  /** The checks a stored entry has to pass. */
  predicate Acceptable(e: Entry) {
    && SLOPE_MIN <= e.slope <= SLOPE_MAX && OFFSET_MIN <= e.offset <= OFFSET_MAX
    && e.p.a >= 0.0 && e.p.d >= 0.0
    && Abs(e.p.b - e.p.c) <= 0.000001 * Max(1.0, Max(Abs(e.p.a), Abs(e.p.d)))
    && e.recent <= e.n && e.rms2 >= 0.0
    && (e.hold.Some? ==> e.hold.value.inflate >= 1.0)
  }

  function Kept(hold: Option<Hold>): Option<Hold> {
    if hold.Some? && hold.value.confirm > 0 then hold else None
  }

  /** The entry re-based on the new process's controller time `ts`. Only a file that is not
      stale is asked for an inflation of its own. */
  function Restore(s: Seed, ts: real, stale: bool): Option<Entry> {
    if !(if stale then Acceptable(s.body.(hold := None)) else Acceptable(s.body)) then None
    else
      var known := s.age.Some? && s.age.value >= 0.0;
      Some(s.body.(ts := if known then Some(ts - s.age.value) else None,
                   recent := if known && !s.expired then s.body.recent else 0,
                   hold := if stale then Some(Hold(STALE_FACTOR, MIN_SAMPLES)) else Kept(s.body.hold)))
  }

  /** Saved at controller time `saveTs`, if the memory has one, and wall time `saveWall`, loaded
      at `loadWall` and applied at `restoreTs` of the next process. */
  datatype Cycle = Cycle(saveTs: Option<real>, saveWall: real, loadWall: real, restoreTs: real)

  /** `maxAge` is the saving configuration's calibration window, `fileMaxAge` the loading
      one's limit for a file. */
  function Through(e: Entry, c: Cycle, maxAge: real, fileMaxAge: real): Option<Entry> {
    var f := Save(e, c.saveTs, c.saveWall, maxAge);
    Restore(Load(f.entry, c.loadWall), c.restoreTs, Stale(f, c.loadWall, fileMaxAge))
  }

  function Age(e: Entry, now: real): real
    requires e.ts.Some?
  {
    now - e.ts.value
  }

  // -- one cycle ------------------------------------------------------------------

  /** The age grows by exactly the outage on the wall clock, whatever the two controller
      clocks read; it is lost if and only if it was unknown, in the future, the save had no
      controller time to measure it by, or the wall clock went back past the last sample. */
  lemma RoundTripAge(e: Entry, c: Cycle, maxAge: real, fileMaxAge: real, r: Entry)
    requires Through(e, c, maxAge, fileMaxAge) == Some(r)
    ensures r.ts.Some? <==>
      && e.ts.Some? && c.saveTs.Some?
      && Age(e, c.saveTs.value) >= 0.0 && Age(e, c.saveTs.value) + (c.loadWall - c.saveWall) >= 0.0
    ensures r.ts.Some? ==> Age(r, c.restoreTs) == Age(e, c.saveTs.value) + (c.loadWall - c.saveWall)
    ensures r.p == e.p && r.slope == e.slope && r.offset == e.offset && r.n == e.n
    ensures r.rms2 == e.rms2 && r.used == e.used
  {
  }

  /** A calibration that comes back usable and not inflated is at least as old as when it was
      saved, and was still inside the window the saver gave it. */
  lemma UsableIsOlder(e: Entry, c: Cycle, maxAge: real, fileMaxAge: real, r: Entry, window: real)
    requires Through(e, c, maxAge, fileMaxAge) == Some(r)
    requires Calibrated(r, c.restoreTs, window) && r.hold.None?
    ensures e.ts.Some? && c.saveTs.Some? && Age(r, c.restoreTs) >= Age(e, c.saveTs.value) >= 0.0
    ensures Age(r, c.restoreTs) <= maxAge && r.recent == e.recent
  {
    RoundTripAge(e, c, maxAge, fileMaxAge, r);
  }

  /** Stale files, and only they, put a new hold on the entry; an old hold survives while it
      still wants samples. */
  lemma InflatedExactly(e: Entry, c: Cycle, maxAge: real, fileMaxAge: real, r: Entry)
    requires Through(e, c, maxAge, fileMaxAge) == Some(r)
    ensures var stale := c.loadWall < c.saveWall || c.loadWall - c.saveWall > fileMaxAge;
      && (stale ==> r.hold == Some(Hold(2.0, 20)))
      && (!stale ==> r.hold == if e.hold.Some? && e.hold.value.confirm > 0 then e.hold else None)
  {
  }

  /** The entry's age says nothing for it: not known, negative, or past the saver's window. */
  predicate Doubtful(e: Entry, c: Cycle, maxAge: real) {
    || e.ts.None? || c.saveTs.None? || Age(e, c.saveTs.value) < 0.0
    || Age(e, c.saveTs.value) + (c.loadWall - c.saveWall) < 0.0
    || Age(e, c.saveTs.value) + (c.loadWall - c.saveWall) > maxAge
  }

  lemma DoubtfulRestarts(e: Entry, c: Cycle, maxAge: real, fileMaxAge: real, r: Entry)
    requires Through(e, c, maxAge, fileMaxAge) == Some(r)
    ensures r.recent == if Doubtful(e, c, maxAge) then 0 else e.recent
  {
    RoundTripAge(e, c, maxAge, fileMaxAge, r);
  }

  // -- histories: samples, ticks and restarts in any order -----------------------------

  /** What happens to an entry: a sample or tick under a calibration window, or a restart with
      the windows of the saving and the loading configuration. */
  datatype Item = Live(ev: Event, window: real) | Restart(c: Cycle, maxAge: real, fileMaxAge: real)

  function Next(e: Entry, item: Item): (r: Option<Entry>)
    requires PSD(e.p)
    ensures r.Some? ==> PSD(r.value.p)
  {
    match item
    case Live(ev, window) => Some(Step(e, ev, window))
    case Restart(c, maxAge, fileMaxAge) => Through(e, c, maxAge, fileMaxAge)
  }

  /** The entry after all of it, unless a restart dropped it. */
  function History(e: Entry, items: seq<Item>): (r: Option<Entry>)
    requires PSD(e.p)
    ensures r.Some? ==> PSD(r.value.p)
  {
    if items == [] then Some(e)
    else
      var before := History(e, items[..|items| - 1]);
      if before.None? then None else Next(before.value, items[|items| - 1])
  }

  predicate IsSample(item: Item) {
    item.Live? && item.ev.Sample?
  }

  function Samples(items: seq<Item>): nat {
    if items == [] then 0
    else Samples(items[..|items| - 1]) + if IsSample(items[|items| - 1]) then 1 else 0
  }

  /** The restart reads a file newer than the clock, or too old. */
  predicate ReadsStale(item: Item) {
    item.Restart? && (item.c.loadWall < item.c.saveWall || item.c.loadWall - item.c.saveWall > item.fileMaxAge)
  }

  lemma LiveStep(e: Entry, ev: Event, window: real)
    requires PSD(e.p)
    ensures var r := Step(e, ev, window);
      if ev.Sample? then r.ts == Some(ev.row.ts) && r.recent == e.recent + 1 && r.hold == CountDown(e.hold)
      else r.ts == e.ts && r.recent <= e.recent && r.hold == e.hold
  {
    if ev.Sample? {
      UpdateKeepsCovariance(e, ev.row);
    }
  }

  lemma {:induction false} RecentNeedsSamples(e: Entry, items: seq<Item>, r: Entry)
    requires PSD(e.p) && History(e, items) == Some(r)
    ensures r.recent <= e.recent + Samples(items)
  {
    if items != [] {
      var rest, item := items[..|items| - 1], items[|items| - 1];
      var before := History(e, rest).value;
      RecentNeedsSamples(e, rest, before);
      match item
      case Live(ev, window) => LiveStep(before, ev, window);
      case Restart(c, maxAge, fileMaxAge) => DoubtfulRestarts(before, c, maxAge, fileMaxAge, r);
    }
  }

  lemma {:induction false} HistorySplits(e: Entry, items: seq<Item>, i: nat, r: Entry) returns (m: Entry)
    requires PSD(e.p) && i <= |items| && History(e, items) == Some(r)
    ensures History(e, items[..i]) == Some(m) && PSD(m.p) && History(m, items[i..]) == Some(r)
    decreases |items|
  {
    if i == |items| {
      m := r;
      assert items[..i] == items;
    } else {
      var rest := items[..|items| - 1];
      m := HistorySplits(e, rest, i, History(e, rest).value);
      assert rest[..i] == items[..i] && items[i..][..|items| - 1 - i] == rest[i..];
    }
  }

  /** A history seen from one of its items: `m` before it, `n` after it. */
  lemma HistoryAt(e: Entry, before: seq<Item>, item: Item, after: seq<Item>, m: Entry, r: Entry) returns (n: Entry)
    requires PSD(e.p) && History(e, before) == Some(m) && History(e, before + [item] + after) == Some(r)
    ensures PSD(m.p) && Next(m, item) == Some(n) && PSD(n.p) && History(n, after) == Some(r)
  {
    var items, k := before + [item] + after, |before|;
    n := HistorySplits(e, items, k + 1, r);
    assert items[..k + 1] == before + [item] && items[k + 1..] == after;
    assert (before + [item])[..k] == before;
  }

  /** An entry that was doubtful at a restart is not calibrated, at any time and by any window,
      before MIN_SAMPLES more samples have been accepted, whatever else comes between. */
  lemma DoubtfulNeedsRebuilding(e: Entry, before: seq<Item>, item: Item, after: seq<Item>, m: Entry, r: Entry,
                                now: real, window: real)
    requires PSD(e.p) && History(e, before) == Some(m) && History(e, before + [item] + after) == Some(r)
    requires item.Restart? && Doubtful(m, item.c, item.maxAge) && Samples(after) < MIN_SAMPLES
    ensures !Calibrated(r, now, window)
  {
    var n := HistoryAt(e, before, item, after, m, r);
    DoubtfulRestarts(m, item.c, item.maxAge, item.fileMaxAge, n);
    RecentNeedsSamples(n, after, r);
  }

  // -- how long an inflation lasts ---------------------------------------------------

  /** Samples the entry still has to see before its inflation ends. */
  function Due(e: Entry): nat {
    if e.hold.Some? && e.hold.value.confirm > 0 then e.hold.value.confirm else 0
  }

  function Lesser(x: int, y: int): int {
    if x < y then x else y
  }

  lemma RestartDue(e: Entry, item: Item, r: Entry)
    requires PSD(e.p) && item.Restart? && Next(e, item) == Some(r)
    ensures if ReadsStale(item) then r.hold == Some(Hold(2.0, 20)) else r.hold == Kept(e.hold)
  {
    InflatedExactly(e, item.c, item.maxAge, item.fileMaxAge, r);
  }

  /** No restart shortens an inflation: of what it asks for, up to MIN_SAMPLES, only accepted
      samples take anything off. */
  lemma {:induction false} InflationOutlasts(e: Entry, items: seq<Item>, r: Entry)
    requires PSD(e.p) && History(e, items) == Some(r)
    ensures Due(r) >= Lesser(Due(e), MIN_SAMPLES) - Samples(items)
  {
    if items != [] {
      var rest, item := items[..|items| - 1], items[|items| - 1];
      var before := History(e, rest).value;
      InflationOutlasts(e, rest, before);
      if item.Live? {
        LiveStep(before, item.ev, item.window);
      } else {
        RestartDue(before, item, r);
      }
    }
  }

  /** While no restart reads a stale file an inflation keeps its factor and lasts exactly as
      many accepted samples as it asks for. */
  lemma {:induction false} InflationLasts(e: Entry, items: seq<Item>, r: Entry)
    requires PSD(e.p) && History(e, items) == Some(r)
    requires e.hold.Some? && e.hold.value.confirm > 0 && forall item :: item in items ==> !ReadsStale(item)
    ensures r.hold
      == if Samples(items) < e.hold.value.confirm
         then Some(Hold(e.hold.value.inflate, e.hold.value.confirm - Samples(items))) else None
  {
    if items != [] {
      var rest, item := items[..|items| - 1], items[|items| - 1];
      assert item in items;
      var before := History(e, rest).value;
      InflationLasts(e, rest, before);
      if item.Live? {
        LiveStep(before, item.ev, item.window);
      } else {
        RestartDue(before, item, r);
      }
    }
  }

  /** An entry without an inflation has met a stale file only before its last MIN_SAMPLES
      samples. */
  lemma UninflatedMetNoStaleFile(e: Entry, before: seq<Item>, item: Item, after: seq<Item>, m: Entry, r: Entry)
    requires PSD(e.p) && History(e, before) == Some(m) && History(e, before + [item] + after) == Some(r)
    requires Due(r) == 0 && Samples(after) < MIN_SAMPLES
    ensures !ReadsStale(item)
  {
    var n := HistoryAt(e, before, item, after, m, r);
    if ReadsStale(item) {
      RestartDue(m, item, n);
      InflationOutlasts(n, after, r);
    }
  }

  // -- the age over a history ----------------------------------------------------------

  /** The last reading of the controller clock that the items show, from `start` on. */
  function Clock(items: seq<Item>, start: real): real {
    if items == [] then start
    else
      match items[|items| - 1]
      case Live(Tick(now), _) => now
      case Live(Sample(_), _) => Clock(items[..|items| - 1], start)
      case Restart(c, _, _) => c.restoreTs
  }

  /** Controller time spent in the runs, as far as a save shows it, plus wall time spent between
      them. */
  function Elapsed(items: seq<Item>, start: real): real {
    if items == [] then 0.0
    else
      var rest := items[..|items| - 1];
      Elapsed(rest, start)
      + match items[|items| - 1]
        case Live(Tick(now), _) => now - Clock(rest, start)
        case Live(Sample(_), _) => 0.0
        case Restart(c, _, _) =>
          (if c.saveTs.Some? then c.saveTs.value - Clock(rest, start) else 0.0) + (c.loadWall - c.saveWall)
  }

  /** A known age is the age it was plus the time that has passed since, as the running process
      measured it and across restarts as the wall clock did. */
  lemma {:induction false} AgeIsElapsed(e: Entry, items: seq<Item>, start: real, r: Entry)
    requires PSD(e.p) && History(e, items) == Some(r) && Samples(items) == 0 && r.ts.Some?
    ensures e.ts.Some? && Age(r, Clock(items, start)) == Age(e, start) + Elapsed(items, start)
  {
    if items != [] {
      var rest, item := items[..|items| - 1], items[|items| - 1];
      var before := History(e, rest).value;
      if item.Live? {
        LiveStep(before, item.ev, item.window);
      } else {
        RoundTripAge(before, item.c, item.maxAge, item.fileMaxAge, r);
      }
      AgeIsElapsed(e, rest, start, before);
    }
  }

  /** Over any history the age is the time since the last accepted sample. */
  lemma AgeIsTimeSinceLastSample(e: Entry, before: seq<Item>, item: Item, after: seq<Item>, m: Entry, r: Entry)
    requires PSD(e.p) && History(e, before) == Some(m) && History(e, before + [item] + after) == Some(r)
    requires IsSample(item) && Samples(after) == 0 && r.ts.Some?
    ensures Age(r, Clock(after, item.ev.row.ts)) == Elapsed(after, item.ev.row.ts)
  {
    var n := HistoryAt(e, before, item, after, m, r);
    LiveStep(m, item.ev, item.window);
    AgeIsElapsed(n, after, item.ev.row.ts, r);
  }

  /** Within each run the controller clock does not go back. */
  predicate Forward(items: seq<Item>, start: real) {
    items == [] ||
      var rest := items[..|items| - 1];
      && Forward(rest, start)
      && match items[|items| - 1]
         case Live(Tick(now), _) => now >= Clock(rest, start)
         case Live(Sample(_), _) => true
         case Restart(c, _, _) => c.saveTs.Some? ==> c.saveTs.value >= Clock(rest, start)
  }

  lemma {:induction false} ForwardElapses(items: seq<Item>, start: real)
    requires Forward(items, start) && forall item :: item in items ==> !ReadsStale(item)
    ensures Elapsed(items, start) >= 0.0
  {
    if items != [] {
      assert items[|items| - 1] in items;
      ForwardElapses(items[..|items| - 1], start);
    }
  }

  lemma {:induction false} NothingStaleSince(e: Entry, items: seq<Item>, r: Entry)
    requires PSD(e.p) && History(e, items) == Some(r) && Samples(items) == 0 && Due(r) == 0
    ensures forall item :: item in items ==> !ReadsStale(item)
  {
    if items != [] {
      var rest, item := items[..|items| - 1], items[|items| - 1];
      var before := History(e, rest).value;
      if item.Live? {
        LiveStep(before, item.ev, item.window);
      } else {
        RestartDue(before, item, r);
      }
      NothingStaleSince(e, rest, before);
    }
  }

  /** An entry that comes out of any history with a known age and no inflation is, while the
      controller clock ran forward in each run, at least as old as at every save since its last
      accepted sample. */
  lemma AtLeastAsOldAsSaved(e: Entry, before: seq<Item>, item: Item, after: seq<Item>, m: Entry, r: Entry, now: real)
    requires PSD(e.p) && History(e, before) == Some(m) && History(e, before + [item] + after) == Some(r)
    requires item.Restart? && Samples(after) == 0 && r.ts.Some? && r.hold.None?
    requires Forward(after, item.c.restoreTs) && now >= Clock(after, item.c.restoreTs)
    ensures m.ts.Some? && item.c.saveTs.Some? && Age(r, now) >= Age(m, item.c.saveTs.value) >= 0.0
  {
    var n := HistoryAt(e, before, item, after, m, r);
    AgeIsElapsed(n, after, item.c.restoreTs, r);
    RoundTripAge(m, item.c, item.maxAge, item.fileMaxAge, n);
    UninflatedMetNoStaleFile(e, before, item, after, m, r);
    NothingStaleSince(n, after, r);
    ForwardElapses(after, item.c.restoreTs);
  }

  // -- the sample's wall time ----------------------------------------------------------

  /** How far the wall clock is ahead of the controller clock when the current process starts. */
  function Offset(items: seq<Item>, o: real): real {
    if items == [] then o
    else
      match items[|items| - 1]
      case Live(_, _) => Offset(items[..|items| - 1], o)
      case Restart(c, _, _) => c.loadWall - c.restoreTs
  }

  /** How far the two clocks have moved apart within the runs. */
  function Drift(items: seq<Item>, o: real): real {
    if items == [] then 0.0
    else
      var rest := items[..|items| - 1];
      match items[|items| - 1]
      case Live(_, _) => Drift(rest, o)
      case Restart(c, _, _) =>
        Drift(rest, o) + if c.saveTs.Some? then (c.saveWall - c.saveTs.value) - Offset(rest, o) else 0.0
  }

  /** The wall time of the last sample is conserved through any number of restarts up to the
      drift between the clocks. */
  lemma {:induction false} SampleTimeIsConserved(e: Entry, items: seq<Item>, o: real, r: Entry)
    requires PSD(e.p) && History(e, items) == Some(r) && Samples(items) == 0 && r.ts.Some?
    ensures e.ts.Some? && r.ts.value + Offset(items, o) == e.ts.value + o + Drift(items, o)
  {
    if items != [] {
      var rest, item := items[..|items| - 1], items[|items| - 1];
      var before := History(e, rest).value;
      if item.Live? {
        LiveStep(before, item.ev, item.window);
      } else {
        RoundTripAge(before, item.c, item.maxAge, item.fileMaxAge, r);
      }
      SampleTimeIsConserved(e, rest, o, before);
    }
  }

  // -- which entries come back -----------------------------------------------------------

  /** What the program keeps of every entry of its own; the offset is not among it. */
  ghost predicate Own(e: Entry) {
    && PSD(e.p) && SLOPE_MIN <= e.slope <= SLOPE_MAX && e.recent <= e.n && e.rms2 >= 0.0
    && (e.hold.Some? ==> e.hold.value.inflate >= 1.0)
  }

  lemma SampleKeepsOwn(e: Entry, row: Row)
    requires Own(e)
    ensures RowVar(e.p, row.x, ROW_VAR) > 0.0 && Own(Update(e, row).0)
  {
    UpdateKeepsCovariance(e, row);
    var drive := Update(e, row).1;
    SquareNonNegative(drive);
    assert drive * drive == Times(drive, drive);
  }

  lemma {:induction false} HistoryKeepsOwn(e: Entry, items: seq<Item>, r: Entry)
    requires Own(e) && History(e, items) == Some(r)
    ensures Own(r)
  {
    if items != [] {
      var before := History(e, items[..|items| - 1]).value;
      HistoryKeepsOwn(e, items[..|items| - 1], before);
      if IsSample(items[|items| - 1]) {
        SampleKeepsOwn(before, items[|items| - 1].ev.row);
      }
    }
  }

  /** An entry the program has made itself, through any samples, ticks and restarts, survives a
      restart if and only if its offset, which the update does not bound, lies in the bounds. */
  lemma OwnEntryComesBack(sigma: real, items: seq<Item>, e: Entry, c: Cycle, maxAge: real, fileMaxAge: real)
    requires History(Fresh(sigma), items) == Some(e)
    ensures Through(e, c, maxAge, fileMaxAge).Some? <==> -10.0 <= e.offset <= 10.0
  {
    SquareNonNegative(sigma);
    assert Own(Fresh(sigma));
    HistoryKeepsOwn(Fresh(sigma), items, e);
  }

  /** So an entry of the program's own is kept through all of its life exactly when no restart
      finds its offset outside the bounds. */
  lemma {:induction false} KeptExactly(sigma: real, items: seq<Item>)
    ensures History(Fresh(sigma), items).Some?
      <==> forall k :: 0 <= k < |items| ==> Passes(sigma, items, k)
  {
    if items != [] {
      var n := |items| - 1;
      var rest := items[..n];
      KeptExactly(sigma, rest);
      forall k | 0 <= k < n ensures Passes(sigma, items, k) <==> Passes(sigma, rest, k) {
        assert rest[..k] == items[..k];
      }
      assert Passes(sigma, items, n) ==> History(Fresh(sigma), rest).Some? || items[n].Live?;
      if History(Fresh(sigma), rest).Some? {
        var e := History(Fresh(sigma), rest).value;
        if items[n].Restart? {
          OwnEntryComesBack(sigma, rest, e, items[n].c, items[n].maxAge, items[n].fileMaxAge);
        }
        assert History(Fresh(sigma), items) == Next(e, items[n]);
        assert Passes(sigma, items, n) <==> History(Fresh(sigma), items).Some?;
      }
    }
  }

  /** Item k is no restart, or finds the offset in its bounds. */
  predicate Passes(sigma: real, items: seq<Item>, k: nat)
    requires k < |items|
  {
    var e := History(Fresh(sigma), items[..k]);
    items[k].Live? || (e.Some? && -10.0 <= e.value.offset <= 10.0)
  }

  /** One sample can take a fresh entry's offset out of them. */
  lemma OwnEntryDropped(e: Entry, row: Row, c: Cycle, maxAge: real, fileMaxAge: real)
    requires e.p == PRIOR_VAR && e.offset == PRIOR_OFFSET && row == Row(0.0, 15.0, 0.0)
    ensures RowVar(e.p, row.x, ROW_VAR) > 0.0
    ensures Through(Update(e, row).0, c, maxAge, fileMaxAge).None?
  {
    PriorGain(e.p, row.x);
    assert Residual(e, row.x, row.y) == 17.1;
    OutOfBoundsIsDropped(Update(e, row).0, c, maxAge, fileMaxAge);
  }

  lemma PriorGain(p: Mat2, x: real)
    requires p == PRIOR_VAR && x == 0.0
    ensures RowVar(p, x, ROW_VAR) > 0.0 && Gain(p, x).1 == 4.0 / 4.25
  {
    assert Column(p, x) == (0.0, 4.0);
  }

  /** The tolerance of a stored covariance's symmetry, a millionth of the largest of its diagonal
      and 1. */
  predicate NearlySymmetric(p: Mat2) {
    exists w :: w in [1.0, p.a, p.d] && -0.000001 * w <= p.b - p.c <= 0.000001 * w
  }

  /** Any stored entry comes back exactly when slope and offset are in bounds, no variance is
      negative and the covariance nearly symmetric, the counts and the error make sense, and its
      own inflation, unless the file is stale and that is replaced, is none that deflates. */
  lemma ComesBackExactly(e: Entry, c: Cycle, maxAge: real, fileMaxAge: real)
    ensures var stale := c.loadWall < c.saveWall || c.loadWall - c.saveWall > fileMaxAge;
      Through(e, c, maxAge, fileMaxAge).Some? <==>
        && 0.3 <= e.slope <= 0.98 && -10.0 <= e.offset <= 10.0
        && e.p.a >= 0.0 && e.p.d >= 0.0 && NearlySymmetric(e.p)
        && e.recent <= e.n && e.rms2 >= 0.0
        && (stale || e.hold.None? || e.hold.value.inflate >= 1.0)
  {
    if e.p.a >= 0.0 && e.p.d >= 0.0 {
      WithinLargest(e.p.b - e.p.c, e.p.a, e.p.d);
    }
  }

  lemma WithinLargest(x: real, a: real, d: real)
    requires a >= 0.0 && d >= 0.0
    ensures Abs(x) <= 0.000001 * Max(1.0, Max(Abs(a), Abs(d)))
      <==> exists w :: w in [1.0, a, d] && -0.000001 * w <= x <= 0.000001 * w
  {
    var largest := Max(1.0, Max(Abs(a), Abs(d)));
    assert largest in [1.0, a, d];
  }

  lemma OutOfBoundsIsDropped(e: Entry, c: Cycle, maxAge: real, fileMaxAge: real)
    requires e.offset > OFFSET_MAX
    ensures Through(e, c, maxAge, fileMaxAge).None?
  {
  }
}
