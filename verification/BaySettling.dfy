/** The settling exemption of one bay: windows opened by deliberate widenings, charged
    against a budget that only a clean run earns back. */
module BaySettling {
  import opened RealAlgebra
  import opened Wrappers
  import opened Marks

  const MAX_PREDICT := 3600.0

  datatype Reason = Jump | Occupancy

  /** `disturb` is when the last window was opened, `why` what opened it. */
  datatype Settle = Settle(disturb: Option<real>, why: Option<Reason>, spent: real, clean: real)

  const FRESH := Settle(None, None, 0.0, 0.0)

  /** `window` is bay_settle_s, `budget` bay_settle_max_s. */
  datatype Limits = Limits(window: real, budget: real)

  predicate Valid(lim: Limits) {
    0.0 <= lim.window <= lim.budget
  }

  predicate Settling(s: Settle, ts: real, window: real) {
    s.disturb.Some? && 0.0 <= ts - s.disturb.value < window
  }

  function Marked(s: Settle, ts: real, budget: real, why: Reason): Settle {
    if s.spent < budget then s.(disturb := Some(ts), why := Some(why)) else s
  }

  function Accounted(s: Settle, settling: bool, checked: bool, over: bool, h: real, budget: real): Settle {
    if settling then
      s.(spent := if checked then Min(s.spent + h, budget) else s.spent, clean := 0.0)
    else if over then
      s.(clean := 0.0)
    else if s.clean + h >= budget then
      s.(spent := 0.0, clean := budget)
    else
      s.(clean := s.clean + h)
  }

  // -- runs ------------------------------------------------------------------------

  /** One tick of a bay: its time, whether it was widened on purpose (and why), whether the
      exemption stood in for a sigma check, and whether sigma was over its threshold. */
  datatype Tick = Tick(ts: real, marked: Option<Reason>, checked: bool, over: bool)

  predicate Chronological(ticks: seq<Tick>) {
    forall i, j :: 0 <= i < j < |ticks| ==> ticks[i].ts <= ticks[j].ts
  }

  /** The charged interval of tick k: the time since the tick before it, at most an hour. */
  function Interval(ticks: seq<Tick>, k: nat): (h: real)
    requires k < |ticks|
    ensures 0.0 <= h <= 3600.0
    ensures k > 0 && 0.0 <= ticks[k].ts - ticks[k - 1].ts <= 3600.0 ==> ticks[k - 1].ts + h == ticks[k].ts
  {
    if k == 0 || ticks[k].ts < ticks[k - 1].ts then 0.0
    else Min(ticks[k].ts - ticks[k - 1].ts, MAX_PREDICT)
  }

  function Opened(s: Settle, t: Tick, budget: real): Settle {
    match t.marked
    case None => s
    case Some(why) => Marked(s, t.ts, budget, why)
  }

  function After(s: Settle, t: Tick, h: real, lim: Limits): Settle {
    var o := Opened(s, t, lim.budget);
    Accounted(o, Settling(o, t.ts, lim.window), t.checked, t.over, h, lim.budget)
  }

  function State(ticks: seq<Tick>, lim: Limits): Settle {
    if ticks == [] then FRESH
    else
      var k := |ticks| - 1;
      After(State(ticks[..k], lim), ticks[k], Interval(ticks, k), lim)
  }

  /** The bay is inside a window at tick k. */
  predicate InWindow(ticks: seq<Tick>, lim: Limits, k: nat) {
    k < |ticks| && Settling(Opened(State(ticks[..k], lim), ticks[k], lim.budget), ticks[k].ts, lim.window)
  }

  /** Tick k neither settles nor has a sigma over its threshold. */
  predicate CleanTick(ticks: seq<Tick>, lim: Limits, k: nat) {
    k < |ticks| && !InWindow(ticks, lim, k) && !ticks[k].over
  }

  /** Tick k earns the budget back. */
  predicate Refund(ticks: seq<Tick>, lim: Limits, k: nat) {
    && CleanTick(ticks, lim, k)
    && State(ticks[..k], lim).clean + Interval(ticks, k) >= lim.budget
  }

  /** Exempt time really charged since the last refund, with no cap. */
  function Exempted(ticks: seq<Tick>, lim: Limits): real {
    if ticks == [] then 0.0
    else
      var k := |ticks| - 1;
      if Refund(ticks, lim, k) then 0.0
      else
        Exempted(ticks[..k], lim)
        + if InWindow(ticks, lim, k) && ticks[k].checked then Interval(ticks, k) else 0.0
  }

  /** Length of the unbroken run of clean ticks at the end. */
  function CleanRun(ticks: seq<Tick>, lim: Limits): real {
    if ticks == [] then 0.0
    else
      var k := |ticks| - 1;
      if CleanTick(ticks, lim, k) then CleanRun(ticks[..k], lim) + Interval(ticks, k) else 0.0
  }

  /** No tick is longer than `longest`. */
  ghost predicate Paced(ticks: seq<Tick>, longest: real) {
    longest >= 0.0 && forall k :: 0 <= k < |ticks| ==> Interval(ticks, k) <= longest
  }

  ghost predicate Bounded(ticks: seq<Tick>, lim: Limits, longest: real) {
    var s, c := State(ticks, lim), Exempted(ticks, lim);
    && 0.0 <= s.spent <= lim.budget
    && (s.spent < lim.budget ==> c == s.spent)
    && (s.disturb.None? ==> c == 0.0)
    && (s.disturb.Some? ==> ticks != [] && s.disturb.value <= ticks[|ticks| - 1].ts)
    && (s.disturb.Some? && s.spent == lim.budget ==>
         && c <= lim.budget + longest + lim.window
         && c <= lim.budget + longest + (ticks[|ticks| - 1].ts - s.disturb.value))
  }

  lemma PrefixFacts(ticks: seq<Tick>, k: nat, longest: real)
    requires k < |ticks| && Chronological(ticks) && Paced(ticks, longest)
    ensures Chronological(ticks[..k]) && Paced(ticks[..k], longest)
    ensures k > 0 ==> ticks[..k][k - 1] == ticks[k - 1] && ticks[k - 1].ts <= ticks[k].ts
    ensures 0.0 <= Interval(ticks, k) <= longest
    ensures k > 0 ==> Interval(ticks, k) <= ticks[k].ts - ticks[k - 1].ts
  {
    forall i | 0 <= i < k ensures Interval(ticks[..k], i) <= longest {
      assert Interval(ticks[..k], i) == Interval(ticks, i);
    }
  }

  lemma {:induction false} ExemptionInvariant(ticks: seq<Tick>, lim: Limits, longest: real)
    requires Valid(lim) && Chronological(ticks) && Paced(ticks, longest)
    ensures Bounded(ticks, lim, longest)
  {
    if ticks != [] {
      var k := |ticks| - 1;
      PrefixFacts(ticks, k, longest);
      ExemptionInvariant(ticks[..k], lim, longest);
    }
  }

  /** Between two refunds the exemption charged is at most the budget, one window and one
      tick. */
  lemma ExemptionBound(ticks: seq<Tick>, lim: Limits, longest: real)
    requires Valid(lim) && Chronological(ticks) && Paced(ticks, longest)
    ensures Exempted(ticks, lim) <= lim.budget + lim.window + longest
  {
    ExemptionInvariant(ticks, lim, longest);
  }

  /** The budget alone is not a bound: a window opened just before it ran out stays open. */
  lemma BudgetAloneIsNoBound(ticks: seq<Tick>)
    requires ticks == [Tick(0.0, None, true, false), Tick(0.5, Some(Jump), true, true),
                       Tick(9.0, Some(Jump), true, true), Tick(18.0, Some(Jump), true, true),
                       Tick(27.0, None, true, true)]
    ensures Chronological(ticks) && Paced(ticks, 9.0)
    ensures Exempted(ticks, Limits(10.0, 10.0)) == 27.0
  {
    var lim := Limits(10.0, 10.0);
    var t1, t2, t3, t4 := ticks[..1], ticks[..2], ticks[..3], ticks[..4];
    assert t1[..0] == [] && t2[..1] == t1 && t3[..2] == t2 && t4[..3] == t3 && ticks[..4] == t4;
    assert State(t1, lim) == Settle(None, None, 0.0, 0.0);
    assert State(t2, lim) == Settle(Some(0.5), Some(Jump), 0.5, 0.0);
    assert State(t3, lim) == Settle(Some(9.0), Some(Jump), 9.0, 0.0);
    assert State(t4, lim) == Settle(Some(18.0), Some(Jump), 10.0, 0.0);
    assert Exempted(t1, lim) == 0.0;
    assert Exempted(t2, lim) == 0.5;
    assert Exempted(t3, lim) == 9.0;
    assert Exempted(t4, lim) == 18.0;
  }

  /** Tick k is charged more than the budget has left. */
  predicate Overdraws(ticks: seq<Tick>, lim: Limits, k: nat) {
    && InWindow(ticks, lim, k) && ticks[k].checked
    && State(ticks[..k], lim).spent + Interval(ticks, k) > lim.budget
  }

  predicate Overdrawn(ticks: seq<Tick>, lim: Limits) {
    ticks != [] &&
      var k := |ticks| - 1;
      !Refund(ticks, lim, k) && (Overdrawn(ticks[..k], lim) || Overdraws(ticks, lim, k))
  }

  /** The budget bounds the exemption exactly as long as no tick since the last refund was
      charged more than it had left. */
  lemma {:induction false} WithinBudgetExactly(ticks: seq<Tick>, lim: Limits)
    requires Valid(lim)
    ensures Exempted(ticks, lim) <= lim.budget <==> !Overdrawn(ticks, lim)
    ensures !Overdrawn(ticks, lim) ==> Exempted(ticks, lim) == State(ticks, lim).spent
    ensures State(ticks, lim).spent <= lim.budget
  {
    if ticks != [] {
      WithinBudgetExactly(ticks[..|ticks| - 1], lim);
    }
  }

  lemma {:induction false} CleanIsRun(ticks: seq<Tick>, lim: Limits)
    requires Valid(lim)
    ensures State(ticks, lim).clean == Min(CleanRun(ticks, lim), lim.budget)
  {
    if ticks != [] {
      CleanIsRun(ticks[..|ticks| - 1], lim);
    }
  }

  /** A tick earns the budget back exactly when it ends an unbroken clean run as long as the
      whole budget, and then all of it. */
  lemma RefundExactly(ticks: seq<Tick>, lim: Limits, k: nat)
    requires Valid(lim) && k < |ticks|
    ensures Refund(ticks, lim, k) <==> CleanTick(ticks, lim, k) && CleanRun(ticks[..k + 1], lim) >= lim.budget
    ensures Refund(ticks, lim, k) ==> State(ticks[..k + 1], lim).spent == 0.0
  {
    CleanIsRun(ticks[..k], lim);
    var upto := ticks[..k + 1];
    assert upto[..k] == ticks[..k];
    assert Interval(upto, k) == Interval(ticks, k);
    assert CleanTick(upto, lim, k) == CleanTick(ticks, lim, k);
  }

  /** The window on record was opened, for the reason on record, by the last deliberate
      widening that found budget left; later ones found none. */
  lemma {:induction false} WindowOrigin(ticks: seq<Tick>, lim: Limits) returns (k: nat)
    requires State(ticks, lim).disturb.Some?
    ensures k < |ticks| && ticks[k].marked.Some? && State(ticks[..k], lim).spent < lim.budget
    ensures State(ticks, lim).disturb == Some(ticks[k].ts) && State(ticks, lim).why == ticks[k].marked
    ensures forall i :: k < i < |ticks| && ticks[i].marked.Some? ==> State(ticks[..i], lim).spent >= lim.budget
  {
    var n := |ticks| - 1;
    var rest := ticks[..n];
    if ticks[n].marked.Some? && State(rest, lim).spent < lim.budget {
      k := n;
    } else {
      k := WindowOrigin(rest, lim);
      assert rest[..k] == ticks[..k];
      forall i | k < i < |ticks| && ticks[i].marked.Some?
        ensures State(ticks[..i], lim).spent >= lim.budget
      {
        if i < n {
          assert rest[..i] == ticks[..i];
        }
      }
    }
  }

  /** Tick i widened the bay while budget was left. */
  predicate Opens(ticks: seq<Tick>, lim: Limits, i: nat) {
    i < |ticks| && ticks[i].marked.Some? && State(ticks[..i], lim).spent < lim.budget
  }

  function Stamps(ticks: seq<Tick>): seq<real> {
    seq(|ticks|, k requires 0 <= k < |ticks| => ticks[k].ts)
  }

  ghost function OpensTest(ticks: seq<Tick>, lim: Limits): int -> bool {
    i => 0 <= i < |ticks| && Opens(ticks, lim, i)
  }

  lemma DisturbMoves(ticks: seq<Tick>, lim: Limits, k: nat)
    requires k < |ticks|
    ensures State(ticks[..k + 1], lim).disturb
         == if Opens(ticks, lim, k) then Some(ticks[k].ts) else State(ticks[..k], lim).disturb
  {
    assert ticks[..k + 1][..k] == ticks[..k];
  }

  lemma DisturbIsLatest(ticks: seq<Tick>, lim: Limits, n: nat)
    requires Chronological(ticks) && n <= |ticks|
    ensures MarksLatest(Stamps(ticks), n, State(ticks[..n], lim).disturb, OpensTest(ticks, lim))
  {
    var times, p := Stamps(ticks), OpensTest(ticks, lim);
    var marks := seq(|ticks| + 1, k requires 0 <= k <= |ticks| => State(ticks[..k], lim).disturb);
    forall k | 0 <= k < |times| ensures Moves(times, marks, p, k) {
      DisturbMoves(ticks, lim, k);
    }
    FollowsLatest(times, marks, p, n);
  }

  /** A tick is exempt exactly when a widening that found budget left, its own included, lies
      less than a window back. */
  lemma InWindowExactly(ticks: seq<Tick>, lim: Limits, k: nat)
    requires Valid(lim) && Chronological(ticks) && k < |ticks|
    ensures InWindow(ticks, lim, k) <==>
      exists i :: 0 <= i <= k && Opens(ticks, lim, i) && ticks[k].ts - ticks[i].ts < lim.window
  {
    DisturbIsLatest(ticks, lim, k + 1);
    WindowOfDisturb(ticks, lim, k, State(ticks[..k + 1], lim).disturb);
    assert ticks[..k + 1][..k] == ticks[..k];
  }

  lemma WindowOfDisturb(ticks: seq<Tick>, lim: Limits, k: nat, disturb: Option<real>)
    requires Chronological(ticks) && k < |ticks|
    requires MarksLatest(Stamps(ticks), k + 1, disturb, OpensTest(ticks, lim))
    ensures (disturb.Some? && 0.0 <= ticks[k].ts - disturb.value < lim.window) <==>
      exists i :: 0 <= i <= k && Opens(ticks, lim, i) && ticks[k].ts - ticks[i].ts < lim.window
  {
    var p, times := OpensTest(ticks, lim), Stamps(ticks);
    if disturb.Some? {
      var i :| 0 <= i < k + 1 && p(i) && times[i] == disturb.value;
      assert Opens(ticks, lim, i) && ticks[i].ts == disturb.value;
    }
    forall i | 0 <= i <= k && Opens(ticks, lim, i) ensures disturb.Some? && ticks[i].ts <= disturb.value {
      assert p(i) && times[i] == ticks[i].ts;
    }
  }

  /** A budget of 0 never opens a window. */
  lemma {:induction false} NoBudgetNoWindow(ticks: seq<Tick>, lim: Limits)
    requires Valid(lim) && lim.budget == 0.0
    ensures State(ticks, lim).disturb.None?
    ensures forall k :: 0 <= k < |ticks| ==> !InWindow(ticks, lim, k)
    ensures State(ticks, lim).spent == 0.0
  {
    if ticks != [] {
      var k := |ticks| - 1;
      var rest := ticks[..k];
      NoBudgetNoWindow(rest, lim);
      forall i | 0 <= i < |ticks| ensures !InWindow(ticks, lim, i) {
        if i < k {
          assert rest[..i] == ticks[..i];
          assert !InWindow(rest, lim, i);
        }
      }
    }
  }
}
