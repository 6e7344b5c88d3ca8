/** The swap-event rate limit of one bay: which verdicts become events, and the record they
    leave. */
module SwapEvents {
  import opened Wrappers
  import opened BaySettling
  import opened Marks

  datatype Verdict = Event | Refractory | Held

  /** Events declared, the last one's time and reason; refusals counted, the last one's time. */
  datatype Swaps = Swaps(count: nat, last: Option<real>, why: Option<Reason>,
                         held: nat, heldAt: Option<real>)

  const NONE_YET := Swaps(0, None, None, 0, None)

  predicate Within(mark: Option<real>, ts: real, window: real) {
    mark.Some? && 0.0 <= ts - mark.value < window
  }

  /** One verdict: `spent` is the exemption already charged, `limited` the statistical half. */
  function Judged(s: Swaps, ts: real, spent: real, lim: Limits, why: Reason, limited: bool): (Swaps, Verdict) {
    if limited && Within(s.last, ts, lim.window) then
      (s, Refractory)
    else if limited && spent >= lim.budget then
      (if Within(s.heldAt, ts, lim.window) then s else s.(held := s.held + 1, heldAt := Some(ts)),
       Held)
    else
      (s.(count := s.count + 1, last := Some(ts), why := Some(why)), Event)
  }

  // -- runs ------------------------------------------------------------------------

  datatype Call = Call(ts: real, spent: real, why: Reason, limited: bool)

  predicate Ordered(calls: seq<Call>) {
    forall i, j :: 0 <= i < j < |calls| ==> calls[i].ts <= calls[j].ts
  }

  function Record(calls: seq<Call>, lim: Limits): Swaps {
    if calls == [] then NONE_YET
    else
      var k := |calls| - 1;
      Judged(Record(calls[..k], lim), calls[k].ts, calls[k].spent, lim, calls[k].why,
             calls[k].limited).0
  }

  function VerdictAt(calls: seq<Call>, lim: Limits, k: nat): Verdict
    requires k < |calls|
  {
    var c := calls[k];
    Judged(Record(calls[..k], lim), c.ts, c.spent, lim, c.why, c.limited).1
  }

  predicate IsEvent(calls: seq<Call>, lim: Limits, k: nat) {
    k < |calls| && VerdictAt(calls, lim, k) == Event
  }

  /** A refusal that was counted. */
  predicate IsCounted(calls: seq<Call>, lim: Limits, k: nat) {
    && k < |calls| && VerdictAt(calls, lim, k) == Held
    && !Within(Record(calls[..k], lim).heldAt, calls[k].ts, lim.window)
  }

  function EventsUpTo(calls: seq<Call>, lim: Limits, n: nat): nat
    requires n <= |calls|
  {
    if n == 0 then 0
    else EventsUpTo(calls, lim, n - 1) + if IsEvent(calls, lim, n - 1) then 1 else 0
  }

  function CountedUpTo(calls: seq<Call>, lim: Limits, n: nat): nat
    requires n <= |calls|
  {
    if n == 0 then 0
    else CountedUpTo(calls, lim, n - 1) + if IsCounted(calls, lim, n - 1) then 1 else 0
  }

  function Stamps(calls: seq<Call>): seq<real> {
    seq(|calls|, k requires 0 <= k < |calls| => calls[k].ts)
  }

  ghost function EventTest(calls: seq<Call>, lim: Limits): int -> bool {
    k => 0 <= k < |calls| && IsEvent(calls, lim, k)
  }

  ghost function CountedTest(calls: seq<Call>, lim: Limits): int -> bool {
    k => 0 <= k < |calls| && IsCounted(calls, lim, k)
  }

  lemma RecordStep(calls: seq<Call>, lim: Limits, k: nat, before: Swaps, after: Swaps)
    requires k < |calls| && before == Record(calls[..k], lim) && after == Record(calls[..k + 1], lim)
    ensures after.count == before.count + if IsEvent(calls, lim, k) then 1 else 0
    ensures after.held == before.held + if IsCounted(calls, lim, k) then 1 else 0
    ensures after.last == if IsEvent(calls, lim, k) then Some(calls[k].ts) else before.last
    ensures after.heldAt == if IsCounted(calls, lim, k) then Some(calls[k].ts) else before.heldAt
  {
    assert calls[..k + 1][..k] == calls[..k];
  }

  lemma {:induction false} CountsAreHistory(calls: seq<Call>, lim: Limits, n: nat)
    requires n <= |calls|
    ensures Record(calls[..n], lim).count == EventsUpTo(calls, lim, n)
    ensures Record(calls[..n], lim).held == CountedUpTo(calls, lim, n)
  {
    if n > 0 {
      CountsAreHistory(calls, lim, n - 1);
      RecordStep(calls, lim, n - 1, Record(calls[..n - 1], lim), Record(calls[..n], lim));
    }
  }

  lemma LastIsLatest(calls: seq<Call>, lim: Limits, n: nat)
    requires Ordered(calls) && n <= |calls|
    ensures MarksLatest(Stamps(calls), n, Record(calls[..n], lim).last, EventTest(calls, lim))
  {
    var times, p := Stamps(calls), EventTest(calls, lim);
    var marks := seq(|calls| + 1, k requires 0 <= k <= |calls| => Record(calls[..k], lim).last);
    forall k | 0 <= k < |times| ensures Moves(times, marks, p, k) {
      RecordStep(calls, lim, k, Record(calls[..k], lim), Record(calls[..k + 1], lim));
    }
    FollowsLatest(times, marks, p, n);
  }

  lemma HeldIsLatest(calls: seq<Call>, lim: Limits, n: nat)
    requires Ordered(calls) && n <= |calls|
    ensures MarksLatest(Stamps(calls), n, Record(calls[..n], lim).heldAt, CountedTest(calls, lim))
  {
    var times, p := Stamps(calls), CountedTest(calls, lim);
    var marks := seq(|calls| + 1, k requires 0 <= k <= |calls| => Record(calls[..k], lim).heldAt);
    forall k | 0 <= k < |times| ensures Moves(times, marks, p, k) {
      RecordStep(calls, lim, k, Record(calls[..k], lim), Record(calls[..k + 1], lim));
    }
    FollowsLatest(times, marks, p, n);
  }

  /** The record is exactly the history: how many events and counted refusals there were,
      and when the last of each was. */
  lemma RecordIsHistory(calls: seq<Call>, lim: Limits, n: nat)
    requires Ordered(calls) && n <= |calls|
    ensures var r := Record(calls[..n], lim);
      && r.count == EventsUpTo(calls, lim, n)
      && r.held == CountedUpTo(calls, lim, n)
      && MarksLatest(Stamps(calls), n, r.last, EventTest(calls, lim))
      && MarksLatest(Stamps(calls), n, r.heldAt, CountedTest(calls, lim))
  {
    CountsAreHistory(calls, lim, n);
    LastIsLatest(calls, lim, n);
    HeldIsLatest(calls, lim, n);
  }

  /** Time and reason on record are those of the last event, and no event came after it. */
  lemma {:induction false} LastEventOnRecord(calls: seq<Call>, lim: Limits, n: nat) returns (k: nat)
    requires n <= |calls| && Record(calls[..n], lim).count > 0
    ensures k < n && IsEvent(calls, lim, k) && forall i :: k < i < n ==> !IsEvent(calls, lim, i)
    ensures Record(calls[..n], lim).last == Some(calls[k].ts)
    ensures Record(calls[..n], lim).why == Some(calls[k].why)
  {
    assert calls[..n][..n - 1] == calls[..n - 1];
    if IsEvent(calls, lim, n - 1) {
      k := n - 1;
    } else {
      k := LastEventOnRecord(calls, lim, n - 1);
    }
  }

  lemma VerdictFromMarks(calls: seq<Call>, lim: Limits, k: nat)
    requires Ordered(calls) && k < |calls| && calls[k].limited
    ensures IsEvent(calls, lim, k) <==>
      NoneWithin(Stamps(calls), k, EventTest(calls, lim), lim.window) && calls[k].spent < lim.budget
    ensures IsCounted(calls, lim, k) <==>
      && NoneWithin(Stamps(calls), k, EventTest(calls, lim), lim.window) && calls[k].spent >= lim.budget
      && NoneWithin(Stamps(calls), k, CountedTest(calls, lim), lim.window)
  {
    RecordIsHistory(calls, lim, k);
    var r := Record(calls[..k], lim);
    LatestDecides(Stamps(calls), k, r.last, EventTest(calls, lim), lim.window);
    LatestDecides(Stamps(calls), k, r.heldAt, CountedTest(calls, lim), lim.window);
  }

  /** What a statistical verdict becomes, from the history alone: an event exactly when no
      event lies within the window before it and the budget is not spent. */
  lemma LimitedVerdict(calls: seq<Call>, lim: Limits, k: nat)
    requires Ordered(calls) && k < |calls| && calls[k].limited
    ensures IsEvent(calls, lim, k) <==>
      && (forall i :: 0 <= i < k && IsEvent(calls, lim, i) ==> calls[k].ts - calls[i].ts >= lim.window)
      && calls[k].spent < lim.budget
    ensures IsCounted(calls, lim, k) <==>
      && (forall i :: 0 <= i < k && IsEvent(calls, lim, i) ==> calls[k].ts - calls[i].ts >= lim.window)
      && calls[k].spent >= lim.budget
      && (forall i :: 0 <= i < k && IsCounted(calls, lim, i) ==> calls[k].ts - calls[i].ts >= lim.window)
  {
    VerdictFromMarks(calls, lim, k);
    assert forall i :: 0 <= i < k ==> (EventTest(calls, lim)(i) <==> IsEvent(calls, lim, i));
    assert forall i :: 0 <= i < k ==> (CountedTest(calls, lim)(i) <==> IsCounted(calls, lim, i));
  }

  /** An occupancy crossing is always an event. */
  lemma CrossingIsEvent(calls: seq<Call>, lim: Limits, k: nat)
    requires k < |calls| && !calls[k].limited
    ensures IsEvent(calls, lim, k)
  {
  }
}
