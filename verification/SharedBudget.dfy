/** The two machines that share a bay's settling budget, run together: a deliberate widening
    opens a window, the swap verdict is judged with what the budget has left, and the tick is
    charged. */
module SharedBudget {
  import opened RealAlgebra
  import opened Wrappers
  import opened BaySettling
  import opened Marks
  import opened SwapEvents

  /** One tick of a bay: its readings jumped, their mean stepped, its occupancy crossed
      `empty`, its zone has a filter, the exemption stood in for a sigma check, sigma was over
      its threshold. */
  datatype BayTick = BayTick(ts: real, jumped: bool, stepped: bool, crossed: bool, ready: bool,
                             checked: bool, over: bool)

  /** A stepped mean counts as a jump. */
  predicate Proper(t: BayTick) {
    t.stepped ==> t.jumped
  }

  /** What opens a window; a crossing is marked after a jump, so its reason stays. */
  function Widened(t: BayTick): Option<Reason> {
    if t.crossed && t.ready then Some(Occupancy) else if t.jumped then Some(Jump) else None
  }

  function SettleTick(t: BayTick): Tick {
    Tick(t.ts, Widened(t), t.checked, t.over)
  }

  datatype Shared = Shared(settle: Settle, swaps: Swaps)

  /** The verdict a tick asks for: a crossing's is never limited. */
  function Asked(t: BayTick, spent: real): Option<Call> {
    if t.crossed then Some(Call(t.ts, spent, Occupancy, false))
    else if t.stepped then Some(Call(t.ts, spent, Jump, true))
    else None
  }

  function Answered(s: Swaps, asked: Option<Call>, lim: Limits): (Swaps, Option<Verdict>) {
    match asked
    case None => (s, None)
    case Some(c) =>
      var (swaps, v) := Judged(s, c.ts, c.spent, lim, c.why, c.limited);
      (swaps, Some(v))
  }

  function Ruled(s: Shared, t: BayTick, lim: Limits): (Swaps, Option<Verdict>) {
    Answered(s.swaps, Asked(t, s.settle.spent), lim)
  }

  function Next(s: Shared, t: BayTick, h: real, lim: Limits): Shared {
    Shared(After(s.settle, SettleTick(t), h, lim), Ruled(s, t, lim).0)
  }

  // -- runs ------------------------------------------------------------------------

  /** The bay record, the time of the last tick, and since the last refund: statistical events,
      charged time and uncharged time inside windows. */
  datatype Tally = Tally(shared: Shared, now: Option<real>, events: nat, charged: real, uncharged: real)

  const START := Tally(Shared(FRESH, NONE_YET), None, 0, 0.0, 0.0)

  function Gap(now: Option<real>, ts: real): real {
    if now.None? || ts < now.value then 0.0 else Min(ts - now.value, MAX_PREDICT)
  }

  predicate Inside(s: Shared, t: BayTick, lim: Limits) {
    Settling(Opened(s.settle, SettleTick(t), lim.budget), t.ts, lim.window)
  }

  predicate Refunds(s: Shared, t: BayTick, h: real, lim: Limits) {
    !Inside(s, t, lim) && !t.over && s.settle.clean + h >= lim.budget
  }

  predicate StatisticalEvent(s: Shared, t: BayTick, lim: Limits) {
    !t.crossed && Ruled(s, t, lim).1 == Some(Event)
  }

  function Counted(a: Tally, t: BayTick, h: real, lim: Limits): Tally {
    var next := Next(a.shared, t, h, lim);
    if Refunds(a.shared, t, h, lim) then Tally(next, Some(t.ts), 0, 0.0, 0.0)
    else
      var inside := Inside(a.shared, t, lim);
      Tally(next, Some(t.ts),
            a.events + (if StatisticalEvent(a.shared, t, lim) then 1 else 0),
            a.charged + (if inside && t.checked then h else 0.0),
            a.uncharged + (if inside && !t.checked then h else 0.0))
  }

  ghost predicate StepsTo(a: Tally, t: BayTick, lim: Limits, b: Tally) {
    b == Counted(a, t, Gap(a.now, t.ts), lim)
  }

  /** The tallies of a run: each is the step of the one before it. */
  ghost predicate IsRun(tallies: seq<Tally>, ticks: seq<BayTick>, lim: Limits) {
    && |tallies| == |ticks| + 1 && tallies[0] == START
    && forall k :: 0 <= k < |ticks| ==> StepsTo(tallies[k], ticks[k], lim, tallies[k + 1])
  }

  // -- each machine sees its own run -------------------------------------------------

  function SettleTicks(ticks: seq<BayTick>): seq<Tick> {
    seq(|ticks|, k requires 0 <= k < |ticks| => SettleTick(ticks[k]))
  }

  /** The verdicts asked for, each with what the settling machine has spent by then. */
  function Verdicts(tallies: seq<Tally>, ticks: seq<BayTick>, n: nat): seq<Call>
    requires n <= |ticks| <= |tallies|
  {
    if n == 0 then []
    else
      var asked := Asked(ticks[n - 1], tallies[n - 1].shared.settle.spent);
      Verdicts(tallies, ticks, n - 1) + if asked.Some? then [asked.value] else []
  }

  lemma AnswersAreRecorded(calls: seq<Call>, asked: Option<Call>, lim: Limits)
    ensures Answered(Record(calls, lim), asked, lim).0
         == Record(calls + if asked.Some? then [asked.value] else [], lim)
  {
    if asked.Some? {
      assert (calls + [asked.value])[..|calls|] == calls;
    } else {
      assert calls + [] == calls;
    }
  }

  lemma {:induction false} SwapsAreRecord(tallies: seq<Tally>, ticks: seq<BayTick>, lim: Limits, n: nat)
    requires IsRun(tallies, ticks, lim) && n <= |ticks|
    ensures tallies[n].shared.swaps == Record(Verdicts(tallies, ticks, n), lim)
  {
    if n > 0 {
      SwapsAreRecord(tallies, ticks, lim, n - 1);
      assert StepsTo(tallies[n - 1], ticks[n - 1], lim, tallies[n - 1 + 1]);
      AnswersAreRecorded(Verdicts(tallies, ticks, n - 1),
                         Asked(ticks[n - 1], tallies[n - 1].shared.settle.spent), lim);
    }
  }

  ghost predicate Matches(a: Tally, st: seq<Tick>, lim: Limits) {
    && a.shared.settle == State(st, lim) && a.charged == Exempted(st, lim)
    && a.now == if st == [] then None else Some(st[|st| - 1].ts)
  }

  lemma MatchStep(a: Tally, t: BayTick, b: Tally, st: seq<Tick>, rest: seq<Tick>, lim: Limits)
    requires st == rest + [SettleTick(t)] && Matches(a, rest, lim) && StepsTo(a, t, lim, b)
    ensures Matches(b, st, lim)
  {
    assert st[..|rest|] == rest;
    assert Gap(a.now, t.ts) == Interval(st, |rest|);
  }

  lemma {:induction false} SettlingIsState(tallies: seq<Tally>, ticks: seq<BayTick>, lim: Limits, n: nat)
    requires IsRun(tallies, ticks, lim) && n <= |ticks|
    ensures Matches(tallies[n], SettleTicks(ticks)[..n], lim)
  {
    if n > 0 {
      SettlingIsState(tallies, ticks, lim, n - 1);
      assert StepsTo(tallies[n - 1], ticks[n - 1], lim, tallies[n - 1 + 1]);
      var st := SettleTicks(ticks);
      MatchStep(tallies[n - 1], ticks[n - 1], tallies[n], st[..n], st[..n - 1], lim);
    }
  }

  /** The combined run is one run of the settling machine and one of the swap machine, the
      second asked with what the first has spent. */
  lemma RunIsBoth(tallies: seq<Tally>, ticks: seq<BayTick>, lim: Limits, n: nat)
    requires IsRun(tallies, ticks, lim) && n <= |ticks|
    ensures tallies[n].shared.settle == State(SettleTicks(ticks)[..n], lim)
    ensures tallies[n].charged == Exempted(SettleTicks(ticks)[..n], lim)
    ensures tallies[n].shared.swaps == Record(Verdicts(tallies, ticks, n), lim)
  {
    SettlingIsState(tallies, ticks, lim, n);
    SwapsAreRecord(tallies, ticks, lim, n);
  }

  // -- what a tick does, from the ticks alone -------------------------------------------

  /** What one tick does to the record of swap events. */
  ghost predicate SwapsFollow(a: Swaps, t: BayTick, spent: real, lim: Limits, b: Swaps) {
    if t.crossed then b == a.(count := a.count + 1, last := Some(t.ts), why := Some(Occupancy))
    else if t.stepped && spent < lim.budget && (a.last.Some? ==> !(0.0 <= t.ts - a.last.value < lim.window)) then
      b == a.(count := a.count + 1, last := Some(t.ts), why := Some(Jump))
    else
      && b.(held := a.held, heldAt := a.heldAt) == a
      && (!t.stepped || spent < lim.budget ==> b == a)
  }

  /** What one tick does to the window on record. */
  ghost predicate WindowFollows(a: Settle, t: BayTick, lim: Limits, b: Settle) {
    if a.spent >= lim.budget || !(t.jumped || (t.crossed && t.ready)) then (b.disturb, b.why) == (a.disturb, a.why)
    else (b.disturb, b.why) == (Some(t.ts), Some(if t.crossed && t.ready then Occupancy else Jump))
  }

  lemma TickFollows(a: Shared, t: BayTick, h: real, lim: Limits)
    ensures SwapsFollow(a.swaps, t, a.settle.spent, lim, Next(a, t, h, lim).swaps)
    ensures WindowFollows(a.settle, t, lim, Next(a, t, h, lim).settle)
  {
  }

  /** Tick k is an event: it is counted. */
  ghost predicate Declares(tallies: seq<Tally>, k: nat) {
    k + 1 < |tallies| && tallies[k + 1].shared.swaps.count == tallies[k].shared.swaps.count + 1
  }

  function Stamps(ticks: seq<BayTick>): seq<real> {
    seq(|ticks|, k requires 0 <= k < |ticks| => ticks[k].ts)
  }

  ghost function DeclaresTest(tallies: seq<Tally>): int -> bool {
    k => 0 <= k && Declares(tallies, k)
  }

  lemma StepFollows(tallies: seq<Tally>, ticks: seq<BayTick>, lim: Limits, k: nat)
    requires IsRun(tallies, ticks, lim) && k < |ticks|
    ensures SwapsFollow(tallies[k].shared.swaps, ticks[k], tallies[k].shared.settle.spent, lim,
                        tallies[k + 1].shared.swaps)
    ensures WindowFollows(tallies[k].shared.settle, ticks[k], lim, tallies[k + 1].shared.settle)
  {
    assert StepsTo(tallies[k], ticks[k], lim, tallies[k + 1]);
    TickFollows(tallies[k].shared, ticks[k], Gap(tallies[k].now, ticks[k].ts), lim);
  }

  lemma LastIsLatest(tallies: seq<Tally>, ticks: seq<BayTick>, lim: Limits, n: nat)
    requires IsRun(tallies, ticks, lim) && InOrder(Stamps(ticks)) && n <= |ticks|
    ensures MarksLatest(Stamps(ticks), n, tallies[n].shared.swaps.last, DeclaresTest(tallies))
  {
    var times, p := Stamps(ticks), DeclaresTest(tallies);
    var marks := seq(|tallies|, k requires 0 <= k < |tallies| => tallies[k].shared.swaps.last);
    forall k | 0 <= k < |times| ensures Moves(times, marks, p, k) {
      StepFollows(tallies, ticks, lim, k);
    }
    FollowsLatest(times, marks, p, n);
  }

  /** A crossing of `empty` is an event in every run, whatever came before it. */
  lemma CrossingIsDeclared(tallies: seq<Tally>, ticks: seq<BayTick>, lim: Limits, k: nat)
    requires IsRun(tallies, ticks, lim) && k < |ticks| && ticks[k].crossed
    ensures tallies[k + 1].shared.swaps.count == tallies[k].shared.swaps.count + 1
    ensures tallies[k + 1].shared.swaps.last == Some(ticks[k].ts)
    ensures tallies[k + 1].shared.swaps.why == Some(Occupancy)
  {
    StepFollows(tallies, ticks, lim, k);
  }

  /** A stepped mean without a crossing is an event exactly when no event of the run lies within
      the window before it and the budget is not spent. */
  lemma StepIsDeclaredExactly(tallies: seq<Tally>, ticks: seq<BayTick>, lim: Limits, k: nat)
    requires IsRun(tallies, ticks, lim) && InOrder(Stamps(ticks)) && k < |ticks|
    requires ticks[k].stepped && !ticks[k].crossed
    ensures Declares(tallies, k) <==>
      && (forall i :: 0 <= i < k && Declares(tallies, i) ==> ticks[k].ts - ticks[i].ts >= lim.window)
      && tallies[k].shared.settle.spent < lim.budget
    ensures Declares(tallies, k) ==> tallies[k + 1].shared.swaps.last == Some(ticks[k].ts)
                                     && tallies[k + 1].shared.swaps.why == Some(Jump)
  {
    LastIsLatest(tallies, ticks, lim, k);
    StepFollows(tallies, ticks, lim, k);
    LatestDecides(Stamps(ticks), k, tallies[k].shared.swaps.last, DeclaresTest(tallies), lim.window);
    assert forall i :: 0 <= i < k ==> (DeclaresTest(tallies)(i) <==> Declares(tallies, i));
  }

  /** No other tick touches the record of swap events. */
  lemma QuietTick(tallies: seq<Tally>, ticks: seq<BayTick>, lim: Limits, k: nat)
    requires IsRun(tallies, ticks, lim) && k < |ticks| && !ticks[k].stepped && !ticks[k].crossed
    ensures tallies[k + 1].shared.swaps == tallies[k].shared.swaps
  {
    StepFollows(tallies, ticks, lim, k);
  }

  /** The tally counts the events of ticks without a crossing since the last refund. */
  lemma EventsAreTallied(tallies: seq<Tally>, ticks: seq<BayTick>, lim: Limits, k: nat)
    requires IsRun(tallies, ticks, lim) && k < |ticks|
    ensures var refund := Refund(SettleTicks(ticks), lim, k);
      tallies[k + 1].events
        == if refund then 0 else tallies[k].events + if Declares(tallies, k) && !ticks[k].crossed then 1 else 0
  {
    StepFollows(tallies, ticks, lim, k);
    SettlingIsState(tallies, ticks, lim, k);
    var a, t := tallies[k], ticks[k];
    assert StepsTo(a, t, lim, tallies[k + 1]);
    assert Gap(a.now, t.ts) == Interval(SettleTicks(ticks), k);
    EventRaises(a.shared, t, lim);
  }

  lemma EventRaises(a: Shared, t: BayTick, lim: Limits)
    ensures StatisticalEvent(a, t, lim) <==> !t.crossed && Ruled(a, t, lim).0.count == a.swaps.count + 1
  {
  }

  // -- statistical events between two refunds ------------------------------------------

  /** The clock never goes back and no two ticks are further apart than `longest`, itself no
      more than one tick may be charged for. */
  ghost predicate Steady(ticks: seq<BayTick>, longest: real) {
    && 0.0 <= longest <= MAX_PREDICT
    && (forall k :: 0 <= k < |ticks| ==> Proper(ticks[k]))
    && (forall k :: 1 <= k < |ticks| ==> 0.0 <= ticks[k].ts - ticks[k - 1].ts <= longest)
  }

  /** n events, all but the last of them with this much room. */
  function Spacing(n: nat, room: real): real {
    if n == 0 then 0.0 else (n - 1) as real * room
  }

  lemma SpacingGrows(n: nat, room: real)
    requires n >= 1
    ensures Spacing(n + 1, room) == Spacing(n, room) + room
  {
  }

  ghost predicate Funded(a: Tally, lim: Limits) {
    && a.charged >= 0.0 && a.uncharged >= 0.0 && a.shared.settle.spent >= 0.0
    && (a.shared.settle.spent < lim.budget ==> a.charged == a.shared.settle.spent)
  }

  /** After a run whose last statistical event was at t: window and record are not older, and
      each earlier event has had its window. */
  ghost predicate Spread(a: Tally, t: real, now: real, lim: Limits, room: real) {
    a.events >= 1 ==>
      && a.shared.settle.disturb.Some? && t <= a.shared.settle.disturb.value <= now
      && a.shared.swaps.last.Some? && t <= a.shared.swaps.last.value <= now
      && a.charged + a.uncharged >= Spacing(a.events, room) + Min(now - t, room)
      && Spacing(a.events, room) < lim.budget + a.uncharged
  }

  lemma FundedStep(a: Tally, t: BayTick, h: real, lim: Limits)
    requires Valid(lim) && Funded(a, lim) && h >= 0.0
    ensures Funded(Counted(a, t, h, lim), lim)
  {
  }

  /** A tick that is no statistical event. */
  lemma SpreadKept(a: Tally, t: real, now: real, tick: BayTick, h: real, lim: Limits, longest: real)
    requires Valid(lim) && Spread(a, t, now, lim, lim.window - longest)
    requires h == tick.ts - now && 0.0 <= h <= longest && !StatisticalEvent(a.shared, tick, lim)
    ensures Spread(Counted(a, tick, h, lim), t, tick.ts, lim, lim.window - longest)
  {
  }

  /** A new event finds the last one's window over, and charged or gone uncharged. */
  lemma WindowOver(a: Tally, t: real, now: real, tick: BayTick, h: real, lim: Limits, room: real, n: nat)
    requires Spread(a, t, now, lim, room) && Funded(a, lim) && a.events >= 1 && n == a.events + 1
    requires h == tick.ts - now && 0.0 <= h <= lim.window - room && StatisticalEvent(a.shared, tick, lim)
    ensures Spacing(n, room) <= a.charged + a.uncharged
  {
    SpacingGrows(a.events, room);
  }

  /** A statistical event. */
  lemma SpreadGrows(a: Tally, t: real, now: real, tick: BayTick, h: real, lim: Limits, longest: real, b: Tally)
    requires Valid(lim) && Funded(a, lim) && Spread(a, t, now, lim, lim.window - longest)
    requires h == tick.ts - now && 0.0 <= h <= longest && StatisticalEvent(a.shared, tick, lim) && Proper(tick)
    requires b == Counted(a, tick, h, lim)
    ensures Spread(b, tick.ts, tick.ts, lim, lim.window - longest)
  {
    if b.events > 1 {
      WindowOver(a, t, now, tick, h, lim, lim.window - longest, b.events);
    }
  }

  lemma {:induction false} EventsAreSpread(tallies: seq<Tally>, ticks: seq<BayTick>, lim: Limits, longest: real,
                                           n: nat) returns (t: real)
    requires Valid(lim) && IsRun(tallies, ticks, lim) && Steady(ticks, longest) && 0 < n <= |ticks|
    ensures Funded(tallies[n], lim) && tallies[n].now == Some(ticks[n - 1].ts)
    ensures Spread(tallies[n], t, ticks[n - 1].ts, lim, lim.window - longest)
  {
    var k := n - 1;
    var a, tick := tallies[k], ticks[k];
    assert StepsTo(a, tick, lim, tallies[k + 1]);
    t := tick.ts;
    var now := tick.ts;
    if k > 0 {
      t := EventsAreSpread(tallies, ticks, lim, longest, k);
      now := ticks[k - 1].ts;
    }
    var h := Gap(a.now, tick.ts);
    FundedStep(a, tick, h, lim);
    if StatisticalEvent(a.shared, tick, lim) {
      SpreadGrows(a, t, now, tick, h, lim, longest, tallies[k + 1]);
      t := tick.ts;
    } else {
      SpreadKept(a, t, now, tick, h, lim, longest);
    }
  }

  /** Between two refunds the budget bounds the statistical events: all but the last have had a
      window of their own, less one tick, inside the budget and the time that went uncharged. */
  lemma EventsAreBounded(tallies: seq<Tally>, ticks: seq<BayTick>, lim: Limits, longest: real, n: nat)
    requires Valid(lim) && IsRun(tallies, ticks, lim) && Steady(ticks, longest) && n <= |ticks|
    requires tallies[n].events >= 1
    ensures (tallies[n].events - 1) as real * (lim.window - longest) < lim.budget + tallies[n].uncharged
  {
    var t := EventsAreSpread(tallies, ticks, lim, longest, n);
    assert Spacing(tallies[n].events, lim.window - longest) < lim.budget + tallies[n].uncharged;
  }
}
