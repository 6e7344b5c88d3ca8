/** The drift rules of one fan channel: a pruned window of output duties stands in for the
    whole history, and a fault needs a deviation sustained over live readings. */
module FanHealth {
  import opened Wrappers
  import opened RealAlgebra

  datatype Rule = Rpm | Rail | Power

  /** An output duty and when it was read. */
  datatype Entry = Entry(t: real, duty: real)

  /** One channel's reading; a field that is not a number is absent. */
  datatype Reading = Reading(duty: Option<real>, rpm: Option<real>, volts: Option<real>,
                             railReported: bool, power: Option<real>, powerReported: bool)

  /** Thresholds, the fan's curve (airflow share by duty, top speed) and its expected power
      by duty; a channel without a fan model has neither. */
  datatype Config = Config(settle: real, minDuty: real, rpmTolerance: real, rpmFault: real,
                           railMin: real, railMax: real, railFault: real,
                           powerTolerance: real, powerMin: real, powerFault: real,
                           phi: real -> real, rpmMax: Option<real>, watts: Option<real -> real>)

  // -- the duty window -----------------------------------------------------------

  /** One entry per instant. */
  function Push(w: seq<Entry>, now: real, duty: real): (r: seq<Entry>)
    ensures r != []
  {
    if w != [] && w[|w| - 1].t == now then w[..|w| - 1] + [Entry(now, duty)]
    else w + [Entry(now, duty)]
  }

  /** Drops the oldest entry while the one after it is already old enough. */
  function Prune(w: seq<Entry>, cutoff: real): (r: seq<Entry>)
    ensures w != [] ==> r != []
  {
    if |w| >= 2 && w[1].t <= cutoff then Prune(w[1..], cutoff) else w
  }

  function Lowest(w: seq<Entry>): real
    requires w != []
  {
    if |w| == 1 then w[0].duty
    else
      var rest := Lowest(w[1..]);
      if w[0].duty < rest then w[0].duty else rest
  }

  function Highest(w: seq<Entry>): real
    requires w != []
  {
    if |w| == 1 then w[0].duty
    else
      var rest := Highest(w[1..]);
      if rest < w[0].duty then w[0].duty else rest
  }

  function Band(w: seq<Entry>, cutoff: real): Option<(real, real)>
    requires w != []
  {
    if w[0].t > cutoff then None else Some((Lowest(w), Highest(w)))
  }

  // -- one reading ----------------------------------------------------------------

  /** `tick` numbers the update the channel was last read on. */
  datatype Channel = Channel(window: seq<Entry>, since: map<Rule, real>, tick: Option<nat>)

  const FRESH := Channel([], map[], None)

  function Fault(cfg: Config, rule: Rule): real {
    match rule
    case Rpm => cfg.rpmFault
    case Rail => cfg.railFault
    case Power => cfg.powerFault
  }

  /** A rule's timer: started by its first deviation, dropped by the first healthy reading. */
  function Timed(since: map<Rule, real>, rule: Rule, deviating: bool, now: real): map<Rule, real> {
    if !deviating then since - {rule}
    else if rule in since then since
    else since[rule := now]
  }

  predicate Faulted(since: map<Rule, real>, rule: Rule, now: real, cfg: Config) {
    rule in since && now - since[rule] >= Fault(cfg, rule)
  }

  predicate RailOff(r: Reading, cfg: Config) {
    && r.railReported && r.volts.Some? && r.volts.value > 0.0
    && !(cfg.railMin <= r.volts.value <= cfg.railMax)
  }

  predicate RpmOff(r: Reading, band: Option<(real, real)>, cfg: Config) {
    && band.Some? && r.duty.Some? && r.duty.value >= cfg.minDuty
    && cfg.rpmMax.Some? && r.rpm.Some?
    && var top := cfg.rpmMax.value;
       (r.rpm.value < Times(top, cfg.phi(band.value.0)) - Times(cfg.rpmTolerance, top)
        || r.rpm.value > Times(top, cfg.phi(band.value.1)) + Times(cfg.rpmTolerance, top))
  }

  predicate PowerOff(r: Reading, band: Option<(real, real)>, cfg: Config) {
    && band.Some? && r.duty.Some? && r.duty.value >= cfg.minDuty
    && r.powerReported && cfg.watts.Some? && r.power.Some?
    && cfg.watts.value(r.duty.value) >= cfg.powerMin
    && (r.power.value < Times(cfg.watts.value(band.value.0), 1.0 - cfg.powerTolerance)
        || r.power.value > Times(cfg.watts.value(band.value.1), 1.0 + cfg.powerTolerance))
  }

  /** The rule's condition on one reading, given the window after it. */
  predicate Deviating(rule: Rule, r: Reading, w: seq<Entry>, now: real, cfg: Config) {
    match rule
    case Rail => RailOff(r, cfg)
    case Rpm => r.duty.Some? && w != [] && RpmOff(r, Band(w, Cutoff(now, cfg)), cfg)
    case Power => r.duty.Some? && w != [] && PowerOff(r, Band(w, Cutoff(now, cfg)), cfg)
  }

  /** The start of the last `settle` seconds. */
  function Cutoff(now: real, cfg: Config): real {
    now - cfg.settle
  }

  /** The window after a reading that carries a duty. */
  function Pushed(w: seq<Entry>, now: real, duty: real, cfg: Config): (r: seq<Entry>)
    ensures r != []
  {
    Prune(Push(w, now, duty), Cutoff(now, cfg))
  }

  function Check(ch: Channel, r: Reading, now: real, cfg: Config): Channel {
    var rail := Timed(ch.since, Rail, RailOff(r, cfg), now);
    if r.duty.None? then
      Channel([], rail - {Rpm, Power}, ch.tick)
    else
      var w := Pushed(ch.window, now, r.duty.value, cfg);
      var band := Band(w, Cutoff(now, cfg));
      Channel(w, Timed(Timed(rail, Rpm, RpmOff(r, band, cfg), now), Power, PowerOff(r, band, cfg), now),
              ch.tick)
  }

  function Reported(rules: set<Rule>, since: map<Rule, real>, now: real, cfg: Config): set<Rule> {
    set rule | rule in rules && Faulted(since, rule, now, cfg)
  }

  /** The rules a verdict reports. */
  function Problems(ch: Channel, now: real, cfg: Config): set<Rule> {
    Reported({Rpm, Rail, Power}, ch.since, now, cfg)
  }

  // -- runs ------------------------------------------------------------------------

  /** One update of the monitor; the channel may be missing from it. */
  datatype Tick = Tick(now: real, reading: Option<Reading>)

  predicate Live(t: Tick) {
    t.reading.Some? && t.reading.value.duty.Some?
  }

  /** A channel that missed an update starts again at its next reading. */
  function Resumed(ch: Channel, k: nat): Channel {
    if ch.tick.Some? && ch.tick.value + 1 != k then Channel([], map[], Some(k)) else ch.(tick := Some(k))
  }

  /** Update number k. */
  function Step(ch: Channel, k: nat, t: Tick, cfg: Config): Channel {
    if t.reading.None? then ch else Check(Resumed(ch, k), t.reading.value, t.now, cfg)
  }

  function State(ticks: seq<Tick>, cfg: Config, n: nat): Channel
    requires n <= |ticks|
  {
    if n == 0 then FRESH else Step(State(ticks, cfg, n - 1), n, ticks[n - 1], cfg)
  }

  /** Every duty read since the last gap, never pruned. */
  function Extended(full: seq<Entry>, t: Tick): seq<Entry> {
    if Live(t) then Push(full, t.now, t.reading.value.duty.value) else []
  }

  function Full(ticks: seq<Tick>, n: nat): seq<Entry>
    requires n <= |ticks|
  {
    if n == 0 then [] else Extended(Full(ticks, n - 1), ticks[n - 1])
  }

  /** The time of the last of the first n updates. */
  function Clock(ticks: seq<Tick>, n: nat): real
    requires n <= |ticks| && ticks != []
  {
    if n == 0 then ticks[0].now else ticks[n - 1].now
  }

  predicate Chronological(ticks: seq<Tick>) {
    forall n :: 0 <= n < |ticks| ==> Clock(ticks, n) <= ticks[n].now
  }

  // -- the pruned window is the part of the history that still matters --------------

  ghost predicate Increasing(w: seq<Entry>) {
    forall i, j :: 0 <= i < j < |w| ==> w[i].t < w[j].t
  }

  /** The entry was the output duty at some moment after the cutoff. */
  ghost predicate InForce(w: seq<Entry>, i: nat, cutoff: real)
    requires i < |w|
  {
    i == |w| - 1 || w[i + 1].t > cutoff
  }

  lemma {:induction false} LowestIsLeast(w: seq<Entry>) returns (at: nat)
    requires w != []
    ensures at < |w| && w[at].duty == Lowest(w) && forall i :: 0 <= i < |w| ==> Lowest(w) <= w[i].duty
  {
    if |w| == 1 {
      at := 0;
    } else {
      var v := w[1..];
      var k := LowestIsLeast(v);
      at := if w[0].duty < Lowest(v) then 0 else k + 1;
      forall i | 0 <= i < |w| ensures Lowest(w) <= w[i].duty {
        if i > 0 {
          assert Lowest(v) <= v[i - 1].duty;
        }
      }
    }
  }

  lemma {:induction false} HighestIsGreatest(w: seq<Entry>) returns (at: nat)
    requires w != []
    ensures at < |w| && w[at].duty == Highest(w) && forall i :: 0 <= i < |w| ==> w[i].duty <= Highest(w)
  {
    if |w| == 1 {
      at := 0;
    } else {
      var v := w[1..];
      var k := HighestIsGreatest(v);
      at := if Highest(v) < w[0].duty then 0 else k + 1;
      forall i | 0 <= i < |w| ensures w[i].duty <= Highest(w) {
        if i > 0 {
          assert v[i - 1].duty <= Highest(v);
        }
      }
    }
  }

  /** Pruning cuts off exactly the entries that no moment after the cutoff saw. */
  lemma {:induction false} PruneKeepsInForce(w: seq<Entry>, cutoff: real) returns (cut: nat)
    requires Increasing(w) && w != []
    ensures cut < |w| && Prune(w, cutoff) == w[cut..]
    ensures forall i :: 0 <= i < |w| ==> (InForce(w, i, cutoff) <==> i >= cut)
  {
    if |w| >= 2 && w[1].t <= cutoff {
      var v := w[1..];
      var k := PruneKeepsInForce(v, cutoff);
      cut := k + 1;
      assert v[k..] == w[cut..];
      forall i | 0 <= i < |w| ensures InForce(w, i, cutoff) <==> i >= cut {
        if i > 0 {
          assert InForce(w, i, cutoff) == InForce(v, i - 1, cutoff);
        }
      }
    } else {
      cut := 0;
      forall i | 0 <= i < |w| ensures InForce(w, i, cutoff) {
        if 0 < i < |w| - 1 {
          assert w[1].t < w[i + 1].t;
        }
      }
    }
  }

  lemma PushTail(w: seq<Entry>, now: real, duty: real)
    requires |w| >= 2
    ensures |Push(w, now, duty)| >= 2 && Push(w, now, duty)[1].t == w[1].t
    ensures Push(w, now, duty)[1..] == Push(w[1..], now, duty)
  {
  }

  /** Pruning early does not change a later pruning. */
  lemma {:induction false} PruneTwice(w: seq<Entry>, now: real, duty: real, early: real, late: real)
    requires early <= late
    ensures Prune(Push(Prune(w, early), now, duty), late) == Prune(Push(w, now, duty), late)
    decreases |w|
  {
    if |w| >= 2 && w[1].t <= early {
      PruneTwice(w[1..], now, duty, early, late);
      PushTail(w, now, duty);
    }
  }

  lemma PushIncreases(w: seq<Entry>, now: real, duty: real)
    requires Increasing(w) && EndsBy(w, now)
    ensures Increasing(Push(w, now, duty)) && EndsBy(Push(w, now, duty), now)
    ensures w != [] ==> Push(w, now, duty)[0].t == w[0].t
  {
  }

  ghost predicate EndsBy(w: seq<Entry>, now: real) {
    w != [] ==> w[|w| - 1].t <= now
  }

  // -- what every update keeps ---------------------------------------------------------

  /** After k updates: a channel read on the last one holds the pruned history, and any other
      channel has no history. */
  ghost predicate WindowSound(ch: Channel, full: seq<Entry>, k: nat, now: real, cfg: Config) {
    && (ch.tick.Some? ==> ch.tick.value <= k)
    && (ch.tick.None? ==> ch.window == [] && ch.since == map[])
    && (if ch.tick == Some(k) then ch.window == Prune(full, Cutoff(now, cfg)) else full == [])
  }

  /** A running timer of a rule that needs a duty was started when the unbroken history
      already spanned `settle`. */
  ghost predicate TimerSound(ch: Channel, full: seq<Entry>, k: nat, cfg: Config) {
    BackedTimer(Rpm, ch, full, k, cfg) && BackedTimer(Power, ch, full, k, cfg)
  }

  ghost predicate BackedTimer(rule: Rule, ch: Channel, full: seq<Entry>, k: nat, cfg: Config) {
    ch.tick == Some(k) && rule in ch.since ==> full != [] && ch.since[rule] - full[0].t >= cfg.settle
  }

  lemma CheckWindow(ch: Channel, r: Reading, now: real, cfg: Config)
    ensures Check(ch, r, now, cfg).tick == ch.tick
    ensures Check(ch, r, now, cfg).window
      == if r.duty.Some? then Pushed(ch.window, now, r.duty.value, cfg) else []
  {
  }

  /** A timer runs after a reading exactly when the reading deviates, and keeps its start. */
  lemma CheckTimer(ch: Channel, r: Reading, now: real, cfg: Config, rule: Rule)
    ensures var after := Check(ch, r, now, cfg);
      && (rule in after.since <==> Deviating(rule, r, after.window, now, cfg))
      && (rule in after.since ==> after.since[rule] == if rule in ch.since then ch.since[rule] else now)
  {
  }

  lemma CheckKeepsWindow(ch: Channel, full: seq<Entry>, r: Reading, was: real, now: real, cfg: Config)
    requires ch.window == Prune(full, Cutoff(was, cfg)) && was <= now
    ensures Check(ch, r, now, cfg).window == Prune(Extended(full, Tick(now, Some(r))), Cutoff(now, cfg))
  {
    CheckWindow(ch, r, now, cfg);
    if r.duty.Some? {
      PruneTwice(full, now, r.duty.value, Cutoff(was, cfg), Cutoff(now, cfg));
    }
  }

  lemma CheckKeepsTimer(ch: Channel, full: seq<Entry>, r: Reading, was: real, now: real, k: nat, cfg: Config,
                        rule: Rule)
    requires ch.window == Prune(full, Cutoff(was, cfg)) && was <= now && ch.tick == Some(k)
    requires BackedTimer(rule, ch, full, k, cfg) && rule != Rail && Increasing(full) && EndsBy(full, was)
    ensures BackedTimer(rule, Check(ch, r, now, cfg), Extended(full, Tick(now, Some(r))), k, cfg)
  {
    var after := Check(ch, r, now, cfg);
    CheckTimer(ch, r, now, cfg, rule);
    if rule in after.since {
      PushIncreases(full, now, r.duty.value);
      if rule !in ch.since {
        CheckKeepsWindow(ch, full, r, was, now, cfg);
        PruneIsLater(Push(full, now, r.duty.value), Cutoff(now, cfg));
      }
    }
  }

  lemma PruneIsLater(w: seq<Entry>, cutoff: real)
    requires Increasing(w) && w != []
    ensures w[0].t <= Prune(w, cutoff)[0].t
  {
    var cut := PruneKeepsInForce(w, cutoff);
    if cut > 0 {
      assert w[0].t < w[cut].t;
    }
  }

  ghost predicate Sound(ch: Channel, full: seq<Entry>, k: nat, now: real, cfg: Config) {
    && WindowSound(ch, full, k, now, cfg) && TimerSound(ch, full, k, cfg)
    && Increasing(full) && EndsBy(full, now)
  }

  lemma StepIsSound(ch: Channel, full: seq<Entry>, k: nat, was: real, t: Tick, cfg: Config,
                    next: Channel, more: seq<Entry>)
    requires Sound(ch, full, k, was, cfg) && was <= t.now
    requires next == Step(ch, k + 1, t, cfg) && more == Extended(full, t)
    ensures Sound(next, more, k + 1, t.now, cfg)
  {
    if t.reading.Some? {
      var r, base := t.reading.value, Resumed(ch, k + 1);
      CheckWindow(base, r, t.now, cfg);
      CheckKeepsWindow(base, full, r, was, t.now, cfg);
      CheckKeepsTimer(base, full, r, was, t.now, k + 1, cfg, Rpm);
      CheckKeepsTimer(base, full, r, was, t.now, k + 1, cfg, Power);
      assert t == Tick(t.now, Some(r));
      if r.duty.Some? {
        PushIncreases(full, t.now, r.duty.value);
      }
    }
  }

  lemma {:induction false} RunIsSound(ticks: seq<Tick>, cfg: Config, n: nat)
    requires Chronological(ticks) && n <= |ticks| && ticks != []
    ensures Sound(State(ticks, cfg, n), Full(ticks, n), n, Clock(ticks, n), cfg)
  {
    if n > 0 {
      RunIsSound(ticks, cfg, n - 1);
      StepIsSound(State(ticks, cfg, n - 1), Full(ticks, n - 1), n - 1, Clock(ticks, n - 1), ticks[n - 1], cfg,
                  State(ticks, cfg, n), Full(ticks, n));
    }
  }

  lemma ReadIsCurrent(ticks: seq<Tick>, cfg: Config, n: nat)
    requires 0 < n <= |ticks| && ticks[n - 1].reading.Some?
    ensures State(ticks, cfg, n).tick == Some(n)
  {
    CheckWindow(Resumed(State(ticks, cfg, n - 1), n), ticks[n - 1].reading.value, ticks[n - 1].now, cfg);
  }

  /** The least and the greatest duty in force after the cutoff, or none while the history
      does not reach back to it. */
  ghost predicate IsBandOf(band: Option<(real, real)>, full: seq<Entry>, cutoff: real)
    requires full != []
  {
    match band
    case None => full[0].t > cutoff
    case Some(b) =>
      (full[0].t <= cutoff
       && (forall i :: 0 <= i < |full| && InForce(full, i, cutoff) ==> b.0 <= full[i].duty <= b.1)
       && (exists i :: 0 <= i < |full| && InForce(full, i, cutoff) && full[i].duty == b.0)
       && (exists i :: 0 <= i < |full| && InForce(full, i, cutoff) && full[i].duty == b.1))
  }

  lemma PrunedBand(w: seq<Entry>, full: seq<Entry>, cutoff: real)
    requires Increasing(full) && full != [] && w == Prune(full, cutoff)
    ensures w != [] && IsBandOf(Band(w, cutoff), full, cutoff)
  {
    var cut := PruneKeepsInForce(full, cutoff);
    if cut > 0 {
      assert !InForce(full, cut - 1, cutoff);
      assert full[0].t < full[cut].t;
    }
    if w[0].t <= cutoff {
      BandOfSuffix(full, cutoff, w, cut);
    }
  }

  lemma BandOfSuffix(full: seq<Entry>, cutoff: real, w: seq<Entry>, cut: nat)
    requires cut < |full| && w == full[cut..] && full[0].t <= cutoff
    requires forall i :: 0 <= i < |full| ==> (InForce(full, i, cutoff) <==> i >= cut)
    ensures IsBandOf(Some((Lowest(w), Highest(w))), full, cutoff)
  {
    var lo := LowestIsLeast(w);
    var hi := HighestIsGreatest(w);
    assert InForce(full, cut + lo, cutoff) && full[cut + lo].duty == Lowest(w);
    assert InForce(full, cut + hi, cutoff) && full[cut + hi].duty == Highest(w);
    forall i | 0 <= i < |full| && InForce(full, i, cutoff)
      ensures Lowest(w) <= full[i].duty <= Highest(w)
    {
      assert w[i - cut] == full[i];
    }
  }

  /** The band the rules use is the band of every duty in force during the last `settle`
      seconds of the unpruned history, and there is none before that much is on record. */
  lemma BandIsHistory(ticks: seq<Tick>, cfg: Config, n: nat)
    requires Chronological(ticks) && 0 < n <= |ticks| && Live(ticks[n - 1])
    ensures State(ticks, cfg, n).window != [] && Full(ticks, n) != []
    ensures var cutoff := Cutoff(ticks[n - 1].now, cfg);
      IsBandOf(Band(State(ticks, cfg, n).window, cutoff), Full(ticks, n), cutoff)
  {
    RunIsSound(ticks, cfg, n);
    ReadIsCurrent(ticks, cfg, n);
    LiveHasHistory(ticks, n);
    PrunedBand(State(ticks, cfg, n).window, Full(ticks, n), Cutoff(ticks[n - 1].now, cfg));
  }

  lemma LiveHasHistory(ticks: seq<Tick>, n: nat)
    requires 0 < n <= |ticks| && Live(ticks[n - 1])
    ensures Full(ticks, n) != []
  {
  }

  // -- no false alarm, and what an alarm means ------------------------------------------

  ghost predicate Monotone(phi: real -> real) {
    forall x: real, y: real :: x <= y ==> phi(x) <= phi(y)
  }

  /** What a live reading deviates from is the band of the duties in force. */
  lemma TimerNeedsDeviation(ticks: seq<Tick>, cfg: Config, n: nat, rule: Rule)
    requires Chronological(ticks) && 0 < n <= |ticks| && Live(ticks[n - 1])
    ensures State(ticks, cfg, n).window != []
    ensures rule in State(ticks, cfg, n).since <==>
      Deviating(rule, ticks[n - 1].reading.value, State(ticks, cfg, n).window, ticks[n - 1].now, cfg)
  {
    BandIsHistory(ticks, cfg, n);
    CheckTimer(Resumed(State(ticks, cfg, n - 1), n), ticks[n - 1].reading.value, ticks[n - 1].now, cfg, rule);
  }

  /** A speed within the tolerance of the curve, at some duty. */
  predicate NearCurve(rpm: real, duty: real, cfg: Config)
    requires cfg.rpmMax.Some?
  {
    var top := cfg.rpmMax.value;
    Times(top, cfg.phi(duty)) - Times(cfg.rpmTolerance, top) <= rpm
      <= Times(top, cfg.phi(duty)) + Times(cfg.rpmTolerance, top)
  }

  /** A fan whose speed is within the tolerance of its curve, for any duty in force during the
      last `settle` seconds of unbroken readings, does not deviate: its timer is not running. */
  lemma OnTheCurveNeverDeviates(ticks: seq<Tick>, cfg: Config, n: nat, i: nat)
    requires Chronological(ticks) && 0 < n <= |ticks| && Live(ticks[n - 1])
    requires Monotone(cfg.phi) && cfg.rpmMax.Some? && cfg.rpmMax.value > 0.0
    requires i < |Full(ticks, n)| && InForce(Full(ticks, n), i, Cutoff(ticks[n - 1].now, cfg))
    requires ticks[n - 1].reading.value.rpm.Some?
    requires NearCurve(ticks[n - 1].reading.value.rpm.value, Full(ticks, n)[i].duty, cfg)
    ensures Rpm !in State(ticks, cfg, n).since
  {
    var full, cutoff := Full(ticks, n), Cutoff(ticks[n - 1].now, cfg);
    BandIsHistory(ticks, cfg, n);
    NearCurveIsNotOff(full, cutoff, i, ticks[n - 1].reading.value, Band(State(ticks, cfg, n).window, cutoff), cfg);
    TimerNeedsDeviation(ticks, cfg, n, Rpm);
  }

  lemma NearCurveIsNotOff(full: seq<Entry>, cutoff: real, i: nat, r: Reading,
                          band: Option<(real, real)>, cfg: Config)
    requires i < |full| && InForce(full, i, cutoff) && IsBandOf(band, full, cutoff)
    requires Monotone(cfg.phi) && cfg.rpmMax.Some? && cfg.rpmMax.value > 0.0
    requires r.rpm.Some? && NearCurve(r.rpm.value, full[i].duty, cfg)
    ensures !RpmOff(r, band, cfg)
  {
    if band.Some? {
      var top, x := cfg.rpmMax.value, cfg.phi(full[i].duty);
      Scale(top, cfg.phi(band.value.0), x);
      Scale(top, x, cfg.phi(band.value.1));
    }
  }

  /** Power within the tolerance of what the duty is expected to draw. */
  predicate NearPower(power: real, duty: real, cfg: Config)
    requires cfg.watts.Some?
  {
    power >= 0.0
    && Times(cfg.watts.value(duty), 1.0 - cfg.powerTolerance) <= power
         <= Times(cfg.watts.value(duty), 1.0 + cfg.powerTolerance)
  }

  /** The same for the power rule. */
  lemma ExpectedPowerNeverDeviates(ticks: seq<Tick>, cfg: Config, n: nat, i: nat)
    requires Chronological(ticks) && 0 < n <= |ticks| && Live(ticks[n - 1])
    requires cfg.watts.Some? && Monotone(cfg.watts.value) && cfg.powerTolerance >= 0.0
    requires forall duty: real :: cfg.watts.value(duty) >= 0.0
    requires i < |Full(ticks, n)| && InForce(Full(ticks, n), i, Cutoff(ticks[n - 1].now, cfg))
    requires ticks[n - 1].reading.value.power.Some?
    requires NearPower(ticks[n - 1].reading.value.power.value, Full(ticks, n)[i].duty, cfg)
    ensures Power !in State(ticks, cfg, n).since
  {
    var full, cutoff := Full(ticks, n), Cutoff(ticks[n - 1].now, cfg);
    BandIsHistory(ticks, cfg, n);
    NearPowerIsNotOff(full, cutoff, i, ticks[n - 1].reading.value, Band(State(ticks, cfg, n).window, cutoff), cfg);
    TimerNeedsDeviation(ticks, cfg, n, Power);
  }

  lemma NearPowerIsNotOff(full: seq<Entry>, cutoff: real, i: nat, r: Reading,
                          band: Option<(real, real)>, cfg: Config)
    requires i < |full| && InForce(full, i, cutoff) && IsBandOf(band, full, cutoff)
    requires cfg.watts.Some? && Monotone(cfg.watts.value) && cfg.powerTolerance >= 0.0
    requires forall duty: real :: cfg.watts.value(duty) >= 0.0
    requires r.power.Some? && NearPower(r.power.value, full[i].duty, cfg)
    ensures !PowerOff(r, band, cfg)
  {
    if band.Some? {
      var watts, x := cfg.watts.value, cfg.watts.value(full[i].duty);
      LowerShare(watts(band.value.0), x, cfg.powerTolerance, r.power.value);
      UpperShare(watts(band.value.1), x, cfg.powerTolerance, r.power.value);
    }
  }

  lemma LowerShare(low: real, x: real, tolerance: real, power: real)
    requires 0.0 <= low <= x && tolerance >= 0.0 && power >= 0.0 && Times(x, 1.0 - tolerance) <= power
    ensures Times(low, 1.0 - tolerance) <= power
  {
    if tolerance <= 1.0 {
      ProductNonNegative(x - low, 1.0 - tolerance);
    } else {
      ProductNonNegative(low, tolerance - 1.0);
    }
  }

  lemma UpperShare(high: real, x: real, tolerance: real, power: real)
    requires x <= high && tolerance >= 0.0 && power <= Times(x, 1.0 + tolerance)
    ensures power <= Times(high, 1.0 + tolerance)
  {
    ProductNonNegative(high - x, 1.0 + tolerance);
  }

  lemma Scale(c: real, x: real, y: real)
    requires c > 0.0 && x <= y
    ensures Times(c, x) <= Times(c, y)
  {
  }

  /** From tick j to n every update carried a live reading. */
  ghost predicate Unbroken(ticks: seq<Tick>, j: nat, n: nat) {
    j < n <= |ticks| && forall k :: j <= k < n ==> Live(ticks[k])
  }

  lemma {:induction false} OldestIsUnbroken(ticks: seq<Tick>, n: nat) returns (j: nat)
    requires n <= |ticks| && Full(ticks, n) != []
    ensures Unbroken(ticks, j, n) && ticks[j].now == Full(ticks, n)[0].t
  {
    var before := Full(ticks, n - 1);
    if before == [] || |Full(ticks, n)| == 1 {
      j := n - 1;
    } else {
      j := OldestIsUnbroken(ticks, n - 1);
    }
  }

  /** An rpm or power fault means at least `settle` plus the rule's own seconds of live readings
      without a gap. */
  lemma FaultNeedsLiveReadings(ticks: seq<Tick>, cfg: Config, n: nat, rule: Rule) returns (j: nat)
    requires Chronological(ticks) && 0 < n <= |ticks| && ticks[n - 1].reading.Some? && rule != Rail
    requires rule in Problems(State(ticks, cfg, n), ticks[n - 1].now, cfg)
    ensures Unbroken(ticks, j, n) && ticks[n - 1].now - ticks[j].now >= cfg.settle + Fault(cfg, rule)
  {
    RunIsSound(ticks, cfg, n);
    ReadIsCurrent(ticks, cfg, n);
    assert BackedTimer(rule, State(ticks, cfg, n), Full(ticks, n), n, cfg);
    j := OldestIsUnbroken(ticks, n);
  }

  // -- a fault is a deviation without a break --------------------------------------------

  /** Update k read the channel and the rule's condition held. */
  predicate Deviated(ticks: seq<Tick>, cfg: Config, rule: Rule, k: nat) {
    && k < |ticks| && ticks[k].reading.Some?
    && Deviating(rule, ticks[k].reading.value, State(ticks, cfg, k + 1).window, ticks[k].now, cfg)
  }

  lemma {:induction false} TickIsLastRead(ticks: seq<Tick>, cfg: Config, n: nat)
    requires n <= |ticks|
    ensures var ch := State(ticks, cfg, n);
      && (ch.tick.None? ==> ch.since == map[])
      && (ch.tick.Some? ==> ch.tick.value <= n)
      && (ch.tick == Some(n) ==> n > 0 && ticks[n - 1].reading.Some?)
  {
    if n > 0 {
      TickIsLastRead(ticks, cfg, n - 1);
      if ticks[n - 1].reading.Some? {
        ReadIsCurrent(ticks, cfg, n);
      }
    }
  }

  /** A timer that runs on was running at the update before, which read the channel. */
  lemma TimerCarried(ticks: seq<Tick>, cfg: Config, n: nat, rule: Rule, before: Channel)
    requires 0 < n <= |ticks| && before == State(ticks, cfg, n - 1) && rule in Resumed(before, n).since
    ensures n > 1 && ticks[n - 2].reading.Some? && rule in before.since
    ensures Resumed(before, n).since[rule] == before.since[rule]
  {
    TickIsLastRead(ticks, cfg, n - 1);
  }

  /** One rule's view of a run: which updates read the channel and found it deviating, and the
      start of the rule's timer before and after each. */
  datatype Trace = Trace(times: seq<real>, read: seq<bool>, deviating: seq<bool>, starts: seq<Option<real>>)

  ghost predicate Consistent(tr: Trace) {
    && |tr.read| == |tr.times| && |tr.deviating| == |tr.times| && |tr.starts| == |tr.times| + 1
    && forall k :: 0 <= k < |tr.times| ==> Linked(tr, k)
  }

  /** A read update runs the timer exactly when it deviates; a running one is carried over
      unless the channel missed the update before. */
  ghost predicate Linked(tr: Trace, k: nat) {
    && k < |tr.times| == |tr.read| == |tr.deviating| && |tr.starts| == |tr.times| + 1
    && (tr.deviating[k] ==> tr.read[k])
    && (tr.read[k] ==> (tr.starts[k + 1].Some? <==> tr.deviating[k]))
    && (tr.read[k] && tr.starts[k + 1].Some? ==>
          tr.starts[k + 1].value == if k > 0 && tr.read[k - 1] && tr.starts[k].Some? then tr.starts[k].value
                                    else tr.times[k])
  }

  ghost predicate AllDeviate(tr: Trace, m: nat, n: nat) {
    m < n <= |tr.times| == |tr.deviating| && forall k :: m <= k < n ==> tr.deviating[k]
  }

  lemma {:induction false} StartedBy(tr: Trace, n: nat) returns (m: nat)
    requires Consistent(tr) && 0 < n <= |tr.times| && tr.read[n - 1] && tr.starts[n].Some?
    ensures AllDeviate(tr, m, n) && tr.starts[n].value == tr.times[m]
  {
    assert Linked(tr, n - 1);
    if n > 1 && tr.read[n - 2] && tr.starts[n - 1].Some? {
      m := StartedBy(tr, n - 1);
    } else {
      m := n - 1;
    }
  }

  ghost predicate Ordered(times: seq<real>) {
    forall i, j :: 0 <= i <= j < |times| ==> times[i] <= times[j]
  }

  lemma {:induction false} StartsBy(tr: Trace, m: nat, n: nat)
    requires Consistent(tr) && Ordered(tr.times) && AllDeviate(tr, m, n)
    ensures tr.starts[n].Some? && tr.starts[n].value <= tr.times[m]
  {
    assert Linked(tr, n - 1);
    if m < n - 1 {
      StartsBy(tr, m, n - 1);
      assert Linked(tr, n - 2);
    } else if m > 0 && tr.read[m - 1] && tr.starts[m].Some? {
      var first := StartedBy(tr, m);
    }
  }

  function TraceOf(ticks: seq<Tick>, cfg: Config, rule: Rule): Trace {
    Trace(seq(|ticks|, k requires 0 <= k < |ticks| => ticks[k].now),
          seq(|ticks|, k requires 0 <= k < |ticks| => ticks[k].reading.Some?),
          seq(|ticks|, k requires 0 <= k < |ticks| => Deviated(ticks, cfg, rule, k)),
          seq(|ticks| + 1, k requires 0 <= k <= |ticks| => StartOf(State(ticks, cfg, k), rule)))
  }

  function StartOf(ch: Channel, rule: Rule): Option<real> {
    if rule in ch.since then Some(ch.since[rule]) else None
  }

  /** The trace shows update k as the channel's own states do. */
  ghost predicate Shows(tr: Trace, t: Tick, deviated: bool, k: nat, before: Channel, after: Channel, rule: Rule) {
    && k < |tr.times| && |tr.read| == |tr.times| && |tr.deviating| == |tr.times| && |tr.starts| == |tr.times| + 1
    && tr.times[k] == t.now && tr.read[k] == t.reading.Some? && tr.deviating[k] == deviated
    && tr.starts[k] == StartOf(before, rule) && tr.starts[k + 1] == StartOf(after, rule)
  }

  lemma TraceShows(ticks: seq<Tick>, cfg: Config, rule: Rule, k: nat, tr: Trace)
    requires k < |ticks| && tr == TraceOf(ticks, cfg, rule)
    ensures Shows(tr, ticks[k], Deviated(ticks, cfg, rule, k), k,
                  State(ticks, cfg, k), State(ticks, cfg, k + 1), rule)
    ensures k > 0 ==> tr.read[k - 1] == ticks[k - 1].reading.Some?
  {
  }

  lemma ShownIsLinked(tr: Trace, t: Tick, deviated: bool, k: nat, before: Channel, after: Channel, rule: Rule)
    requires Shows(tr, t, deviated, k, before, after, rule) && (deviated ==> t.reading.Some?)
    requires t.reading.Some? ==> (rule in after.since <==> deviated)
    requires t.reading.Some? && rule in after.since ==>
      after.since[rule] == if k > 0 && tr.read[k - 1] && rule in before.since then before.since[rule] else t.now
    ensures Linked(tr, k)
  {
  }

  lemma TraceIsConsistent(ticks: seq<Tick>, cfg: Config, rule: Rule, tr: Trace)
    requires tr == TraceOf(ticks, cfg, rule)
    ensures Consistent(tr)
  {
    forall k | 0 <= k < |ticks| ensures Linked(tr, k) {
      TraceShows(ticks, cfg, rule, k, tr);
      var before, after := State(ticks, cfg, k), State(ticks, cfg, k + 1);
      if ticks[k].reading.Some? {
        TimerStep(ticks, cfg, k + 1, rule, before, after);
      }
      ShownIsLinked(tr, ticks[k], Deviated(ticks, cfg, rule, k), k, before, after, rule);
    }
  }

  lemma TimerStep(ticks: seq<Tick>, cfg: Config, n: nat, rule: Rule, before: Channel, after: Channel)
    requires 0 < n <= |ticks| && before == State(ticks, cfg, n - 1) && after == State(ticks, cfg, n)
    requires ticks[n - 1].reading.Some?
    ensures rule in after.since <==> Deviated(ticks, cfg, rule, n - 1)
    ensures rule in after.since ==>
      after.since[rule] == if n > 1 && ticks[n - 2].reading.Some? && rule in before.since then before.since[rule]
                           else ticks[n - 1].now
  {
    CheckTimer(Resumed(before, n), ticks[n - 1].reading.value, ticks[n - 1].now, cfg, rule);
    if rule in Resumed(before, n).since {
      TimerCarried(ticks, cfg, n, rule, before);
    } else if n > 1 && ticks[n - 2].reading.Some? {
      ReadIsCurrent(ticks, cfg, n - 1);
    }
  }

  lemma DeviationsShown(ticks: seq<Tick>, cfg: Config, rule: Rule, m: nat, n: nat, tr: Trace)
    requires m < n <= |ticks| && tr == TraceOf(ticks, cfg, rule)
    ensures |tr.times| == |tr.deviating| == |ticks|
    ensures AllDeviate(tr, m, n) <==> forall k :: m <= k < n ==> Deviated(ticks, cfg, rule, k)
  {
    forall k | m <= k < n ensures tr.deviating[k] == Deviated(ticks, cfg, rule, k) {
      TraceShows(ticks, cfg, rule, k, tr);
    }
  }

  lemma ProblemHasStart(ch: Channel, rule: Rule, now: real, cfg: Config)
    requires rule in Problems(ch, now, cfg)
    ensures StartOf(ch, rule).Some? && now - StartOf(ch, rule).value >= Fault(cfg, rule)
  {
  }

  /** A running timer was started by an update since which every one deviated. */
  lemma StartIsDeviation(ticks: seq<Tick>, cfg: Config, n: nat, rule: Rule, start: Option<real>) returns (m: nat)
    requires 0 < n <= |ticks| && ticks[n - 1].reading.Some?
    requires start == StartOf(State(ticks, cfg, n), rule) && start.Some?
    ensures m < n && ticks[m].now == start.value
    ensures forall k :: m <= k < n ==> Deviated(ticks, cfg, rule, k)
  {
    var tr := TraceOf(ticks, cfg, rule);
    TraceIsConsistent(ticks, cfg, rule, tr);
    m := StartedBy(tr, n);
    DeviationsShown(ticks, cfg, rule, m, n, tr);
  }

  /** A fault of any rule is a deviation found by every update over at least the rule's
      seconds. */
  lemma FaultIsSustained(ticks: seq<Tick>, cfg: Config, n: nat, rule: Rule) returns (m: nat)
    requires 0 < n <= |ticks| && ticks[n - 1].reading.Some?
    requires rule in Problems(State(ticks, cfg, n), ticks[n - 1].now, cfg)
    ensures m < n && ticks[n - 1].now - ticks[m].now >= Fault(cfg, rule)
    ensures forall k :: m <= k < n ==> Deviated(ticks, cfg, rule, k)
  {
    var ch := State(ticks, cfg, n);
    ProblemHasStart(ch, rule, ticks[n - 1].now, cfg);
    m := StartIsDeviation(ticks, cfg, n, rule, StartOf(ch, rule));
  }

  /** And a deviation found by every update over that long always is a fault. */
  lemma SustainedIsFault(ticks: seq<Tick>, cfg: Config, m: nat, n: nat, rule: Rule)
    requires m < n <= |ticks| && forall k :: m <= k < n ==> Deviated(ticks, cfg, rule, k)
    requires Chronological(ticks) && ticks[n - 1].now - ticks[m].now >= Fault(cfg, rule)
    ensures rule in Problems(State(ticks, cfg, n), ticks[n - 1].now, cfg)
  {
    var tr := TraceOf(ticks, cfg, rule);
    TraceIsConsistent(ticks, cfg, rule, tr);
    TimesOrdered(ticks, tr.times);
    DeviationsShown(ticks, cfg, rule, m, n, tr);
    StartsBy(tr, m, n);
    TraceShows(ticks, cfg, rule, n - 1, tr);
    TraceShows(ticks, cfg, rule, m, tr);
    StartIsFault(State(ticks, cfg, n), rule, ticks[m].now, ticks[n - 1].now, cfg);
  }

  lemma StartIsFault(ch: Channel, rule: Rule, from: real, now: real, cfg: Config)
    requires StartOf(ch, rule).Some? && StartOf(ch, rule).value <= from && now - from >= Fault(cfg, rule)
    ensures rule in Problems(ch, now, cfg)
  {
    assert rule in {Rpm, Rail, Power};
  }

  lemma TimesOrdered(ticks: seq<Tick>, times: seq<real>)
    requires Chronological(ticks) && |times| == |ticks| && forall k :: 0 <= k < |ticks| ==> times[k] == ticks[k].now
    ensures Ordered(times)
  {
    forall i, j | 0 <= i <= j < |times| ensures times[i] <= times[j] {
      LaterIsLater(ticks, i, j);
    }
  }

  lemma {:induction false} LaterIsLater(ticks: seq<Tick>, i: nat, j: nat)
    requires Chronological(ticks) && i <= j < |ticks|
    ensures ticks[i].now <= ticks[j].now
    decreases j
  {
    if i < j {
      LaterIsLater(ticks, i, j - 1);
      assert Clock(ticks, j) <= ticks[j].now;
    }
  }

  // -- the state updated in place --------------------------------------------------------

  class ChannelState {
    var window: seq<Entry>
    var since: map<Rule, real>
    var tick: Option<nat>

    ghost function View(): Channel
      reads this
    {
      Channel(window, since, tick)
    }

    constructor ()
      ensures View() == FRESH
    {
      window, since, tick := [], map[], None;
    }

    method Forget()
      modifies this`window, this`since
      ensures window == [] && since == map[]
    {
      window, since := [], map[];
    }

    method ForgetDuty()
      modifies this`window, this`since
      ensures window == [] && since == old(since) - {Rpm, Power}
    {
      window := [];
      since := since - {Rpm};
      since := since - {Power};
    }

    method DutyBand(duty: real, now: real, settle: real) returns (band: Option<(real, real)>)
      modifies this`window
      ensures window != []
      ensures window == Prune(Push(old(window), now, duty), now - settle)
      ensures band == Band(window, now - settle)
    {
      window := Push(window, now, duty);
      ghost var pushed := window;
      var cutoff := now - settle;
      while |window| >= 2 && window[1].t <= cutoff
        invariant window != [] && Prune(window, cutoff) == Prune(pushed, cutoff)
        decreases |window|
      {
        window := window[1..];
      }
      if window[0].t > cutoff {
        return None;
      }
      band := Some((Lowest(window), Highest(window)));
    }

    method Sustained(rule: Rule, deviating: bool, now: real, window: real) returns (held: Option<real>)
      modifies this`since
      ensures since == Timed(old(since), rule, deviating, now)
      ensures held.Some? <==> rule in since && now - since[rule] >= window
      ensures held.Some? ==> held.value == now - since[rule]
    {
      if !deviating {
        since := since - {rule};
        return None;
      }
      if rule !in since {
        since := since[rule := now];
      }
      var h := now - since[rule];
      held := if h >= window then Some(h) else None;
    }

    /** The two rules that need an output duty. */
    method JudgeDuty(r: Reading, now: real, cfg: Config) returns (problems: set<Rule>)
      requires r.duty.Some?
      modifies this`window, this`since
      ensures window == Pushed(old(window), now, r.duty.value, cfg)
      ensures var band := Band(window, Cutoff(now, cfg));
        since == Timed(Timed(old(since), Rpm, RpmOff(r, band, cfg), now), Power, PowerOff(r, band, cfg), now)
      ensures problems == Reported({Rpm, Power}, since, now, cfg)
    {
      var band := DutyBand(r.duty.value, now, cfg.settle);
      var rpm := Sustained(Rpm, RpmOff(r, band, cfg), now, cfg.rpmFault);
      var power := Sustained(Power, PowerOff(r, band, cfg), now, cfg.powerFault);
      problems := (if rpm.Some? then {Rpm} else {}) + (if power.Some? then {Power} else {});
    }

    method CheckChannel(r: Reading, now: real, cfg: Config) returns (problems: set<Rule>)
      modifies this`window, this`since
      ensures View() == Check(old(View()), r, now, cfg)
      ensures problems == Problems(View(), now, cfg)
    {
      problems := {};
      var held := Sustained(Rail, RailOff(r, cfg), now, cfg.railFault);
      if held.Some? {
        problems := problems + {Rail};
      }
      if r.duty.None? {
        ForgetDuty();
        return;
      }
      var more := JudgeDuty(r, now, cfg);
      problems := problems + more;
    }

    /** Update number k of the monitor. */
    method Update(k: nat, t: Tick, cfg: Config) returns (problems: set<Rule>)
      modifies this
      ensures View() == Step(old(View()), k, t, cfg)
      ensures problems == if t.reading.Some? then Problems(View(), t.now, cfg) else {}
    {
      if t.reading.None? {
        return {};
      }
      if tick.Some? && tick.value + 1 != k {
        Forget();
      }
      tick := Some(k);
      problems := CheckChannel(t.reading.value, t.now, cfg);
    }
  }
}
