/** What a fan fault means, from the readings and the unpruned history alone: exactly when each
    rule finds a channel off, and exactly when it reports one. */
module FanFaults {
  import opened RealAlgebra
  import opened Wrappers
  import opened FanHealth

  /** The reading is judged: it carries a duty that is not too low, and the duties are on record
      back to the cutoff. */
  ghost predicate Judged(t: Tick, full: seq<Entry>, cfg: Config) {
    && Live(t) && t.reading.value.duty.value >= cfg.minDuty
    && full != [] && full[0].t <= Cutoff(t.now, cfg)
  }

  /** One of the duties during the last `settle` seconds. */
  ghost predicate Recent(full: seq<Entry>, duty: real, cutoff: real) {
    exists i :: 0 <= i < |full| && InForce(full, i, cutoff) && full[i].duty == duty
  }

  predicate Below(rpm: real, duty: real, cfg: Config)
    requires cfg.rpmMax.Some?
  {
    rpm < Times(cfg.rpmMax.value, cfg.phi(duty)) - Times(cfg.rpmTolerance, cfg.rpmMax.value)
  }

  predicate Above(rpm: real, duty: real, cfg: Config)
    requires cfg.rpmMax.Some?
  {
    rpm > Times(cfg.rpmMax.value, cfg.phi(duty)) + Times(cfg.rpmTolerance, cfg.rpmMax.value)
  }

  /** The speed is too low for every duty of late, or too high for every one. */
  ghost predicate SpeedOff(t: Tick, full: seq<Entry>, cfg: Config) {
    && Judged(t, full, cfg) && cfg.rpmMax.Some? && t.reading.value.rpm.Some?
    && var rpm, cutoff := t.reading.value.rpm.value, Cutoff(t.now, cfg);
       || (forall duty :: Recent(full, duty, cutoff) ==> Below(rpm, duty, cfg))
       || (forall duty :: Recent(full, duty, cutoff) ==> Above(rpm, duty, cfg))
  }

  predicate TooLittle(power: real, duty: real, cfg: Config)
    requires cfg.watts.Some?
  {
    power < Times(cfg.watts.value(duty), 1.0 - cfg.powerTolerance)
  }

  predicate TooMuch(power: real, duty: real, cfg: Config)
    requires cfg.watts.Some?
  {
    power > Times(cfg.watts.value(duty), 1.0 + cfg.powerTolerance)
  }

  /** The power is too low for every duty of late, or too high for every one, where enough is
      expected. */
  ghost predicate PowerIsOff(t: Tick, full: seq<Entry>, cfg: Config) {
    && Judged(t, full, cfg) && cfg.watts.Some?
    && t.reading.value.powerReported && t.reading.value.power.Some?
    && cfg.watts.value(t.reading.value.duty.value) >= cfg.powerMin
    && var power, cutoff := t.reading.value.power.value, Cutoff(t.now, cfg);
       || (forall duty :: Recent(full, duty, cutoff) ==> TooLittle(power, duty, cfg))
       || (forall duty :: Recent(full, duty, cutoff) ==> TooMuch(power, duty, cfg))
  }

  /** A reported rail voltage outside its limits, at any duty. */
  predicate VoltageOff(t: Tick, cfg: Config) {
    && t.reading.Some? && t.reading.value.railReported && t.reading.value.volts.Some?
    && var v := t.reading.value.volts.value;
       0.0 < v && (v < cfg.railMin || cfg.railMax < v)
  }

  /** What update k finds off, by the rule. */
  ghost predicate Off(ticks: seq<Tick>, cfg: Config, rule: Rule, k: nat)
    requires k < |ticks|
  {
    match rule
    case Rpm => SpeedOff(ticks[k], Full(ticks, k + 1), cfg)
    case Power => PowerIsOff(ticks[k], Full(ticks, k + 1), cfg)
    case Rail => VoltageOff(ticks[k], cfg)
  }

  /** What a fan model gives: a top speed, and curves that do not fall with the duty. */
  ghost predicate Modelled(cfg: Config) {
    && Monotone(cfg.phi) && (cfg.rpmMax.Some? ==> cfg.rpmMax.value > 0.0)
    && cfg.powerTolerance >= 0.0
    && (cfg.watts.Some? ==> Monotone(cfg.watts.value) && forall duty: real :: cfg.watts.value(duty) >= 0.0)
  }

  /** No power reading is negative, which only a tolerance above 1 could tell. */
  predicate Drawing(t: Tick, cfg: Config) {
    cfg.powerTolerance <= 1.0 ||
    (t.reading.Some? && t.reading.value.power.Some? ==> t.reading.value.power.value >= 0.0)
  }

  lemma BandIsRecent(full: seq<Entry>, cutoff: real, b: (real, real))
    requires full != [] && IsBandOf(Some(b), full, cutoff)
    ensures Recent(full, b.0, cutoff) && Recent(full, b.1, cutoff)
    ensures forall duty :: Recent(full, duty, cutoff) ==> b.0 <= duty <= b.1
  {
  }

  lemma SpeedAgainstBand(full: seq<Entry>, cutoff: real, b: (real, real), rpm: real, cfg: Config)
    requires full != [] && IsBandOf(Some(b), full, cutoff) && Modelled(cfg) && cfg.rpmMax.Some?
    ensures Below(rpm, b.0, cfg) <==> forall duty :: Recent(full, duty, cutoff) ==> Below(rpm, duty, cfg)
    ensures Above(rpm, b.1, cfg) <==> forall duty :: Recent(full, duty, cutoff) ==> Above(rpm, duty, cfg)
  {
    BandIsRecent(full, cutoff, b);
    forall duty | Recent(full, duty, cutoff)
      ensures Times(cfg.rpmMax.value, cfg.phi(b.0)) <= Times(cfg.rpmMax.value, cfg.phi(duty))
      ensures Times(cfg.rpmMax.value, cfg.phi(duty)) <= Times(cfg.rpmMax.value, cfg.phi(b.1))
    {
      Scale(cfg.rpmMax.value, cfg.phi(b.0), cfg.phi(duty));
      Scale(cfg.rpmMax.value, cfg.phi(duty), cfg.phi(b.1));
    }
  }

  lemma LessIsLess(low: real, x: real, tolerance: real, power: real)
    requires 0.0 <= low <= x && (tolerance <= 1.0 || power >= 0.0) && power < Times(low, 1.0 - tolerance)
    ensures power < Times(x, 1.0 - tolerance)
  {
    if tolerance <= 1.0 {
      ProductNonNegative(x - low, 1.0 - tolerance);
    } else {
      ProductNonNegative(low, tolerance - 1.0);
      assert false;
    }
  }

  lemma MoreIsMore(x: real, high: real, tolerance: real, power: real)
    requires x <= high && tolerance >= 0.0 && power > Times(high, 1.0 + tolerance)
    ensures power > Times(x, 1.0 + tolerance)
  {
    ProductNonNegative(high - x, 1.0 + tolerance);
  }

  lemma TooLittleForMore(power: real, low: real, duty: real, cfg: Config)
    requires Modelled(cfg) && cfg.watts.Some? && low <= duty && TooLittle(power, low, cfg)
    requires cfg.powerTolerance <= 1.0 || power >= 0.0
    ensures TooLittle(power, duty, cfg)
  {
    LessIsLess(cfg.watts.value(low), cfg.watts.value(duty), cfg.powerTolerance, power);
  }

  lemma TooMuchForLess(power: real, duty: real, high: real, cfg: Config)
    requires Modelled(cfg) && cfg.watts.Some? && duty <= high && TooMuch(power, high, cfg)
    ensures TooMuch(power, duty, cfg)
  {
    MoreIsMore(cfg.watts.value(duty), cfg.watts.value(high), cfg.powerTolerance, power);
  }

  lemma PowerAgainstBand(full: seq<Entry>, cutoff: real, b: (real, real), power: real, cfg: Config)
    requires full != [] && IsBandOf(Some(b), full, cutoff) && Modelled(cfg) && cfg.watts.Some?
    requires cfg.powerTolerance <= 1.0 || power >= 0.0
    ensures TooLittle(power, b.0, cfg) <==> forall duty :: Recent(full, duty, cutoff) ==> TooLittle(power, duty, cfg)
    ensures TooMuch(power, b.1, cfg) <==> forall duty :: Recent(full, duty, cutoff) ==> TooMuch(power, duty, cfg)
  {
    BandIsRecent(full, cutoff, b);
    if TooLittle(power, b.0, cfg) {
      forall duty | Recent(full, duty, cutoff) ensures TooLittle(power, duty, cfg) {
        TooLittleForMore(power, b.0, duty, cfg);
      }
    }
    if TooMuch(power, b.1, cfg) {
      forall duty | Recent(full, duty, cutoff) ensures TooMuch(power, duty, cfg) {
        TooMuchForLess(power, duty, b.1, cfg);
      }
    }
  }

  lemma BandExists(full: seq<Entry>, cutoff: real, band: Option<(real, real)>)
    requires full != [] && IsBandOf(band, full, cutoff)
    ensures band.Some? <==> full[0].t <= cutoff
  {
  }

  lemma DeviatingAgainstBand(t: Tick, full: seq<Entry>, w: seq<Entry>, cutoff: real, band: Option<(real, real)>,
                             rule: Rule, cfg: Config)
    requires Live(t) && Modelled(cfg) && Drawing(t, cfg) && rule != Rail && w != [] && full != []
    requires cutoff == Cutoff(t.now, cfg) && band == Band(w, cutoff) && IsBandOf(band, full, cutoff)
    requires band.Some? <==> full[0].t <= cutoff
    ensures Deviating(rule, t.reading.value, w, t.now, cfg)
      <==> if rule == Rpm then SpeedOff(t, full, cfg) else PowerIsOff(t, full, cfg)
  {
    var r := t.reading.value;
    if band.Some? {
      if rule == Rpm && cfg.rpmMax.Some? && r.rpm.Some? {
        SpeedAgainstBand(full, cutoff, band.value, r.rpm.value, cfg);
      }
      if rule == Power && cfg.watts.Some? && r.power.Some? {
        PowerAgainstBand(full, cutoff, band.value, r.power.value, cfg);
      }
    }
  }

  lemma OffAgainstHistory(t: Tick, full: seq<Entry>, w: seq<Entry>, rule: Rule, cfg: Config)
    requires Live(t) && Modelled(cfg) && Drawing(t, cfg) && rule != Rail && w != [] && full != []
    requires IsBandOf(Band(w, Cutoff(t.now, cfg)), full, Cutoff(t.now, cfg))
    ensures Deviating(rule, t.reading.value, w, t.now, cfg)
      <==> if rule == Rpm then SpeedOff(t, full, cfg) else PowerIsOff(t, full, cfg)
  {
    var cutoff := Cutoff(t.now, cfg);
    BandExists(full, cutoff, Band(w, cutoff));
    DeviatingAgainstBand(t, full, w, cutoff, Band(w, cutoff), rule, cfg);
  }

  /** Each rule's condition, as it is tested on the pruned window, is its meaning on the whole
      history. */
  lemma DeviatingIsOff(ticks: seq<Tick>, cfg: Config, rule: Rule, k: nat)
    requires Chronological(ticks) && k < |ticks| && ticks[k].reading.Some? && Modelled(cfg) && Drawing(ticks[k], cfg)
    ensures Deviated(ticks, cfg, rule, k) <==> Off(ticks, cfg, rule, k)
  {
    if rule != Rail && Live(ticks[k]) {
      BandIsHistory(ticks, cfg, k + 1);
      OffAgainstHistory(ticks[k], Full(ticks, k + 1), State(ticks, cfg, k + 1).window, rule, cfg);
    }
  }

  /** A rule's timer runs after a reading exactly when the reading is off. */
  lemma TimerExactly(ticks: seq<Tick>, cfg: Config, rule: Rule, n: nat)
    requires Chronological(ticks) && 0 < n <= |ticks| && ticks[n - 1].reading.Some?
    requires Modelled(cfg) && Drawing(ticks[n - 1], cfg)
    ensures rule in State(ticks, cfg, n).since <==> Off(ticks, cfg, rule, n - 1)
  {
    DeviatingIsOff(ticks, cfg, rule, n - 1);
    CheckTimer(Resumed(State(ticks, cfg, n - 1), n), ticks[n - 1].reading.value, ticks[n - 1].now, cfg, rule);
  }

  /** Every update from m to n read the channel and found it off. */
  ghost predicate OffThroughout(ticks: seq<Tick>, cfg: Config, rule: Rule, m: nat, n: nat) {
    m < n <= |ticks| && forall k :: m <= k < n ==> OffAt(ticks, cfg, rule, k)
  }

  ghost predicate OffAt(ticks: seq<Tick>, cfg: Config, rule: Rule, k: nat)
    requires k < |ticks|
  {
    ticks[k].reading.Some? && Off(ticks, cfg, rule, k)
  }

  ghost predicate AllDrawing(ticks: seq<Tick>, cfg: Config) {
    forall k :: 0 <= k < |ticks| ==> Drawing(ticks[k], cfg)
  }

  lemma OffIsDeviated(ticks: seq<Tick>, cfg: Config, rule: Rule, k: nat)
    requires Chronological(ticks) && k < |ticks| && Modelled(cfg) && AllDrawing(ticks, cfg)
    ensures Deviated(ticks, cfg, rule, k) <==> OffAt(ticks, cfg, rule, k)
  {
    if ticks[k].reading.Some? {
      DeviatingIsOff(ticks, cfg, rule, k);
    }
  }

  lemma ThroughoutIsDeviated(ticks: seq<Tick>, cfg: Config, rule: Rule, m: nat, n: nat)
    requires Chronological(ticks) && m < n <= |ticks| && Modelled(cfg) && AllDrawing(ticks, cfg)
    ensures OffThroughout(ticks, cfg, rule, m, n) <==> forall k :: m <= k < n ==> Deviated(ticks, cfg, rule, k)
  {
    forall k | m <= k < n ensures Deviated(ticks, cfg, rule, k) <==> OffAt(ticks, cfg, rule, k) {
      OffIsDeviated(ticks, cfg, rule, k);
    }
  }

  lemma FaultMeansOff(ticks: seq<Tick>, cfg: Config, rule: Rule, n: nat) returns (m: nat)
    requires Chronological(ticks) && 0 < n <= |ticks| && ticks[n - 1].reading.Some?
    requires Modelled(cfg) && AllDrawing(ticks, cfg)
    requires rule in Problems(State(ticks, cfg, n), ticks[n - 1].now, cfg)
    ensures OffThroughout(ticks, cfg, rule, m, n) && ticks[n - 1].now - ticks[m].now >= Fault(cfg, rule)
  {
    m := FaultIsSustained(ticks, cfg, n, rule);
    ThroughoutIsDeviated(ticks, cfg, rule, m, n);
  }

  lemma OffMeansFault(ticks: seq<Tick>, cfg: Config, rule: Rule, m: nat, n: nat)
    requires Chronological(ticks) && Modelled(cfg) && AllDrawing(ticks, cfg)
    requires OffThroughout(ticks, cfg, rule, m, n) && ticks[n - 1].now - ticks[m].now >= Fault(cfg, rule)
    ensures rule in Problems(State(ticks, cfg, n), ticks[n - 1].now, cfg)
  {
    ThroughoutIsDeviated(ticks, cfg, rule, m, n);
    SustainedIsFault(ticks, cfg, m, n, rule);
  }

  /** A rule reports a channel exactly when every update has found it off for the rule's
      seconds. */
  lemma FaultExactly(ticks: seq<Tick>, cfg: Config, rule: Rule, n: nat)
    requires Chronological(ticks) && 0 < n <= |ticks| && ticks[n - 1].reading.Some?
    requires Modelled(cfg) && AllDrawing(ticks, cfg)
    ensures rule in Problems(State(ticks, cfg, n), ticks[n - 1].now, cfg) <==>
      exists m: nat :: OffThroughout(ticks, cfg, rule, m, n) && ticks[n - 1].now - ticks[m].now >= Fault(cfg, rule)
  {
    if rule in Problems(State(ticks, cfg, n), ticks[n - 1].now, cfg) {
      var m := FaultMeansOff(ticks, cfg, rule, n);
    }
    if m: nat :| OffThroughout(ticks, cfg, rule, m, n) && ticks[n - 1].now - ticks[m].now >= Fault(cfg, rule) {
      OffMeansFault(ticks, cfg, rule, m, n);
    }
  }

  /** A tick that shows a fan standing still although every duty of late should turn it. */
  ghost predicate Stopped(t: Tick, full: seq<Entry>, cfg: Config) {
    && Judged(t, full, cfg) && cfg.rpmMax.Some? && t.reading.value.rpm == Some(0.0)
    && forall duty :: Recent(full, duty, Cutoff(t.now, cfg)) ==> cfg.phi(duty) > cfg.rpmTolerance
  }

  lemma StoppedIsOff(t: Tick, full: seq<Entry>, cfg: Config)
    requires Stopped(t, full, cfg) && Modelled(cfg)
    ensures SpeedOff(t, full, cfg)
  {
    var cutoff := Cutoff(t.now, cfg);
    forall duty | Recent(full, duty, cutoff) ensures Below(0.0, duty, cfg) {
      ProductPositive(cfg.rpmMax.value, cfg.phi(duty) - cfg.rpmTolerance);
    }
  }

  /** A stopped fan is reported after `rpmFault` seconds. */
  lemma StoppedFanIsReported(ticks: seq<Tick>, cfg: Config, m: nat, n: nat)
    requires Chronological(ticks) && m < n <= |ticks| && Modelled(cfg) && AllDrawing(ticks, cfg)
    requires forall k :: m <= k < n ==> Stopped(ticks[k], Full(ticks, k + 1), cfg)
    requires ticks[n - 1].now - ticks[m].now >= cfg.rpmFault
    ensures Rpm in Problems(State(ticks, cfg, n), ticks[n - 1].now, cfg)
  {
    forall k | m <= k < n ensures OffAt(ticks, cfg, Rpm, k) {
      StoppedIsOff(ticks[k], Full(ticks, k + 1), cfg);
    }
    OffMeansFault(ticks, cfg, Rpm, m, n);
  }
}
