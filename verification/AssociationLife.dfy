/** The life of serial-to-bay associations over whole runs of the estimator: declared serials
    win, silent and swapped pairs end, new pairs need consecutive acceptances, standing pairs
    are re-checked. */
module AssociationLife {
  import opened Wrappers
  import opened Associate

  /** What the estimator remembers: the correlation pairs, the counts toward new ones, and
      per pair the failed re-checks in a row and whether one has passed. */
  datatype Memory = Memory(assoc: map<BayName, Serial>, pending: Pending,
                           rejected: map<BayName, nat>, verified: set<BayName>)

  const FRESH := Memory(map[], map[], map[], {})

  /** One tick: the owner's declarations, the serials with a fresh reading, the bays whose
      occupancy crossed `empty`, the bays whose sensor jumped, the empty bays, whether an
      evaluation is due, and the scores it would see (of new pairs and of standing ones). */
  datatype Tick = Tick(declared: map<BayName, Serial>, heard: set<Serial>,
                       crossed: set<BayName>, jumped: set<BayName>, empty: set<BayName>,
                       due: bool, scores: Scores, rechecks: map<BayName, real>)

  datatype Rules = Rules(bays: seq<BayName>, minCorr: real, margin: real,
                         dropCorr: real, dropChecks: nat)

  predicate Valid(r: Rules) {
    r.margin > 0.0 && r.dropChecks >= 1
  }

  predicate Proper(t: Tick) {
    Injective(t.declared)
  }

  function Forget(m: Memory, gone: set<BayName>): Memory {
    Memory(m.assoc - gone, m.pending - gone, m.rejected - gone, m.verified - gone)
  }

  /** Declared bays carry no pair of their own; a silent or declared serial ends its pair. */
  function BeforeFilter(m: Memory, t: Tick): Memory {
    var silent := set b | b in m.assoc && b !in t.declared
      && (m.assoc[b] !in t.heard || m.assoc[b] in t.declared.Values);
    var f := Forget(m, silent);
    Memory(f.assoc - t.declared.Keys, f.pending, f.rejected - t.declared.Keys,
           f.verified - t.declared.Keys)
  }

  /** A crossing of `empty` ends a bay's pair and its pending count; a jump ends its pair. */
  function AfterSwaps(m: Memory, t: Tick): Memory {
    Forget(m, t.crossed + (t.jumped * m.assoc.Keys))
  }

  function Unassigned(m: Memory, t: Tick): set<Serial> {
    t.heard - m.assoc.Values - t.declared.Values
  }

  function Candidates(m: Memory, t: Tick, r: Rules): set<BayName> {
    (set b | b in r.bays) - m.assoc.Keys - t.empty - t.declared.Keys
  }

  /** The score matrix is built over unassigned serials and candidate bays only. */
  function Scored(m: Memory, t: Tick, r: Rules): Scores {
    map p | p in t.scores && p.0 in Unassigned(m, t) && p.1 in Candidates(m, t, r) :: t.scores[p]
  }

  predicate Scoring(m: Memory, t: Tick, r: Rules) {
    Unassigned(m, t) != {} && Candidates(m, t, r) != {}
  }

  /** One standing pair re-scored against its own bay. */
  function RecheckedPair(m: Memory, b: BayName, t: Tick, r: Rules): Memory {
    if b !in t.rechecks then m
    else if t.rechecks[b] >= r.dropCorr then
      Memory(m.assoc, m.pending, m.rejected[b := 0], m.verified + {b})
    else
      var failures := (if b in m.rejected then m.rejected[b] else 0) + 1;
      var counted := Memory(m.assoc, m.pending, m.rejected[b := failures], m.verified);
      if failures >= r.dropChecks then Forget(counted, {b}) else counted
  }

  /** Every pair held when the evaluation began, in the topology's order. */
  function Rechecked(m: Memory, held: set<BayName>, bays: seq<BayName>, t: Tick, r: Rules): Memory {
    if bays == [] then m
    else
      var b := bays[|bays| - 1];
      var before := Rechecked(m, held, bays[..|bays| - 1], t, r);
      if b in held then RecheckedPair(before, b, t, r) else before
  }

  lemma {:induction false} RecheckOnlyDrops(m: Memory, held: set<BayName>, bays: seq<BayName>, t: Tick, r: Rules)
    ensures var n := Rechecked(m, held, bays, t, r);
      && (forall b :: b in n.assoc ==> b in m.assoc && m.assoc[b] == n.assoc[b])
      && (forall b :: b in n.pending ==> b in m.pending && m.pending[b] == n.pending[b])
  {
    if bays != [] {
      RecheckOnlyDrops(m, held, bays[..|bays| - 1], t, r);
    }
  }

  /** `accepted` is what the matcher made of the tick's score matrix. */
  function Installed(m: Memory, accepted: map<BayName, Serial>): Memory {
    var (pending, confirmed) := Confirm(m.pending, accepted);
    Memory(m.assoc + confirmed, pending,
           m.rejected + (map b | b in confirmed :: 0), m.verified - confirmed.Keys)
  }

  /** The memory when the evaluation begins. */
  function Ready(m: Memory, t: Tick): Memory {
    AfterSwaps(BeforeFilter(m, t), t)
  }

  ghost predicate MatcherResult(m: Memory, t: Tick, r: Rules, accepted: map<BayName, Serial>) {
    Matches(accepted, Scored(Ready(m, t), t, r), r.minCorr, r.margin)
  }

  function Step(m: Memory, t: Tick, r: Rules, accepted: map<BayName, Serial>): Memory {
    var s := Ready(m, t);
    var held := s.assoc.Keys;
    if !Scoring(s, t, r) && held == {} then s.(pending := map[])
    else if !t.due then s
    else
      var n := if Scoring(s, t, r) then Installed(s, accepted) else s.(pending := map[]);
      Rechecked(n, held, r.bays, t, r)
  }

  // -- runs ------------------------------------------------------------------------

  /** State after n ticks; accepted[k] is the matcher's result at tick k. */
  function State(ticks: seq<Tick>, r: Rules, accepted: seq<map<BayName, Serial>>, n: nat): Memory
    requires n <= |ticks| == |accepted|
  {
    if n == 0 then FRESH
    else Step(State(ticks, r, accepted, n - 1), ticks[n - 1], r, accepted[n - 1])
  }

  ghost predicate Run(ticks: seq<Tick>, r: Rules, accepted: seq<map<BayName, Serial>>) {
    Valid(r) && |ticks| == |accepted| && forall k :: 0 <= k < |ticks| ==> Regular(ticks, r, accepted, k)
  }

  ghost predicate Regular(ticks: seq<Tick>, r: Rules, accepted: seq<map<BayName, Serial>>, k: nat)
    requires k < |ticks| == |accepted|
  {
    Proper(ticks[k]) && MatcherResult(State(ticks, r, accepted, k), ticks[k], r, accepted[k])
  }

  ghost predicate StepsTo(m: Memory, t: Tick, r: Rules, accepted: map<BayName, Serial>, next: Memory) {
    next == Step(m, t, r, accepted) && Proper(t) && MatcherResult(m, t, r, accepted)
  }

  lemma RunSteps(ticks: seq<Tick>, r: Rules, accepted: seq<map<BayName, Serial>>, k: nat, m: Memory, next: Memory)
    requires Run(ticks, r, accepted) && k < |ticks|
    requires m == State(ticks, r, accepted, k) && next == State(ticks, r, accepted, k + 1)
    ensures StepsTo(m, ticks[k], r, accepted[k], next)
  {
    assert Regular(ticks, r, accepted, k);
  }

  /** The states of a run: each is the step of the one before it. */
  ghost predicate IsRun(states: seq<Memory>, ticks: seq<Tick>, r: Rules, accepted: seq<map<BayName, Serial>>) {
    && Valid(r) && |accepted| == |ticks| && |states| == |ticks| + 1 && states[0] == FRESH
    && forall k :: 0 <= k < |ticks| ==> Ran(states, ticks, r, accepted, k)
  }

  ghost predicate Ran(states: seq<Memory>, ticks: seq<Tick>, r: Rules, accepted: seq<map<BayName, Serial>>, k: nat)
    requires k < |ticks| == |accepted| < |states|
  {
    StepsTo(states[k], ticks[k], r, accepted[k], states[k + 1])
  }

  lemma StatesAreRun(states: seq<Memory>, ticks: seq<Tick>, r: Rules, accepted: seq<map<BayName, Serial>>)
    requires Run(ticks, r, accepted) && |states| == |ticks| + 1
    requires forall k :: 0 <= k <= |ticks| ==> states[k] == State(ticks, r, accepted, k)
    ensures IsRun(states, ticks, r, accepted)
  {
    forall k | 0 <= k < |ticks| ensures Ran(states, ticks, r, accepted, k) {
      RunSteps(ticks, r, accepted, k, states[k], states[k + 1]);
    }
  }

  function States(ticks: seq<Tick>, r: Rules, accepted: seq<map<BayName, Serial>>): (states: seq<Memory>)
    requires |ticks| == |accepted|
  {
    seq(|ticks| + 1, k requires 0 <= k <= |ticks| => State(ticks, r, accepted, k))
  }

  // -- no serial in two bays -----------------------------------------------------

  /** After the drops at the start of a tick no pair touches a declared serial or bay. */
  ghost predicate Apart(m: Memory, t: Tick) {
    forall b :: b in m.assoc ==> b !in t.declared && m.assoc[b] !in t.declared.Values
  }

  lemma ReadyIsApart(m: Memory, t: Tick)
    requires Injective(m.assoc)
    ensures Injective(Ready(m, t).assoc) && Apart(Ready(m, t), t)
  {
  }

  lemma NewPairsAreApart(s: Memory, t: Tick, r: Rules, accepted: map<BayName, Serial>)
    requires Valid(r) && Injective(s.assoc) && Apart(s, t)
    requires Matches(accepted, Scored(s, t, r), r.minCorr, r.margin)
    ensures Injective(Installed(s, accepted).assoc) && Apart(Installed(s, accepted), t)
  {
    MatchIsInjective(accepted, Scored(s, t, r), r.minCorr, r.margin);
    forall b | b in accepted
      ensures b in Candidates(s, t, r) && accepted[b] in Unassigned(s, t)
    {
      assert Wins(Scored(s, t, r), r.minCorr, r.margin, accepted[b], b);
    }
    var n := Installed(s, accepted).assoc;
    forall b, c | b in n && c in n && n[b] == n[c] ensures b == c {
      assert b in s.assoc ==> s.assoc[b] in s.assoc.Values;
      assert c in s.assoc ==> s.assoc[c] in s.assoc.Values;
    }
  }

  lemma StepKeepsApart(m: Memory, t: Tick, r: Rules, accepted: map<BayName, Serial>, next: Memory)
    requires Valid(r) && Injective(m.assoc) && StepsTo(m, t, r, accepted, next)
    ensures Injective(next.assoc) && Apart(next, t)
  {
    var s := Ready(m, t);
    ReadyIsApart(m, t);
    NewPairsAreApart(s, t, r, accepted);
    RecheckOnlyDrops(Installed(s, accepted), s.assoc.Keys, r.bays, t, r);
    RecheckOnlyDrops(s.(pending := map[]), s.assoc.Keys, r.bays, t, r);
  }

  lemma {:induction false} InjectiveThroughout(states: seq<Memory>, ticks: seq<Tick>, r: Rules,
                                               accepted: seq<map<BayName, Serial>>, n: nat)
    requires IsRun(states, ticks, r, accepted) && n <= |ticks|
    ensures Injective(states[n].assoc)
    ensures n > 0 ==> Apart(states[n], ticks[n - 1])
  {
    if n > 0 {
      InjectiveThroughout(states, ticks, r, accepted, n - 1);
      assert Ran(states, ticks, r, accepted, n - 1);
      StepKeepsApart(states[n - 1], ticks[n - 1], r, accepted[n - 1], states[n]);
    }
  }

  lemma PairsStayInjective(ticks: seq<Tick>, r: Rules, accepted: seq<map<BayName, Serial>>, n: nat)
    requires Run(ticks, r, accepted) && n <= |ticks|
    ensures Injective(State(ticks, r, accepted, n).assoc)
  {
    var states := States(ticks, r, accepted);
    StatesAreRun(states, ticks, r, accepted);
    InjectiveThroughout(states, ticks, r, accepted, n);
  }

  lemma ApartFromDeclared(m: Memory, t: Tick)
    requires Injective(m.assoc) && Apart(m, t) && Proper(t)
    ensures Injective(m.assoc + t.declared)
  {
    var f := m.assoc + t.declared;
    forall b, c | b in f && c in f && f[b] == f[c] ensures b == c {
      assert b in t.declared ==> t.declared[b] in t.declared.Values;
      assert c in t.declared ==> t.declared[c] in t.declared.Values;
    }
  }

  /** No reachable state has one serial in two bays, declared or correlated: the pairs in force
      after a tick are those two together, the declared first. */
  lemma NoSerialInTwoBays(ticks: seq<Tick>, r: Rules, accepted: seq<map<BayName, Serial>>, k: nat)
    requires Run(ticks, r, accepted) && k < |ticks|
    ensures Injective(State(ticks, r, accepted, k + 1).assoc + ticks[k].declared)
  {
    var states := States(ticks, r, accepted);
    StatesAreRun(states, ticks, r, accepted);
    assert Ran(states, ticks, r, accepted, k);
    InjectiveThroughout(states, ticks, r, accepted, k + 1);
    ApartFromDeclared(states[k + 1], ticks[k]);
  }

  // -- three acceptances in a row ---------------------------------------------------

  /** Tick k ran the matcher. */
  predicate Evaluated(ticks: seq<Tick>, r: Rules, accepted: seq<map<BayName, Serial>>, k: nat)
    requires k < |ticks| == |accepted|
  {
    ticks[k].due && Scoring(Ready(State(ticks, r, accepted, k), ticks[k]), ticks[k], r)
  }

  function Evaluations(ticks: seq<Tick>, r: Rules, accepted: seq<map<BayName, Serial>>, j: nat, n: nat): nat
    requires j <= n <= |ticks| == |accepted|
    decreases n
  {
    if n == j then 0
    else Evaluations(ticks, r, accepted, j, n - 1)
         + if Evaluated(ticks, r, accepted, n - 1) then 1 else 0
  }

  /** Every evaluation from j to n accepted the pair. */
  ghost predicate AllAccept(ticks: seq<Tick>, r: Rules, accepted: seq<map<BayName, Serial>>,
                            j: nat, n: nat, b: BayName, s: Serial)
    requires j <= n <= |ticks| == |accepted|
  {
    forall k :: j <= k < n && Evaluated(ticks, r, accepted, k) ==>
      b in accepted[k] && accepted[k][b] == s
  }

  /** Where a pending count comes from: this evaluation, or untouched from before. */
  lemma PendingOrigin(m: Memory, t: Tick, r: Rules, accepted: map<BayName, Serial>, b: BayName)
    requires b in Step(m, t, r, accepted).pending
    ensures var ready, (s, c) := Ready(m, t), Step(m, t, r, accepted).pending[b];
      if t.due && Scoring(ready, t, r) then
        b in accepted && accepted[b] == s && c == CountOf(ready.pending, b, s) < CONFIRM_EVALUATIONS
      else
        b in m.pending && m.pending[b] == (s, c)
    ensures b in Ready(m, t).pending ==> b in m.pending && m.pending[b] == Ready(m, t).pending[b]
  {
    var s := Ready(m, t);
    RecheckOnlyDrops(Installed(s, accepted), s.assoc.Keys, r.bays, t, r);
    RecheckOnlyDrops(s.(pending := map[]), s.assoc.Keys, r.bays, t, r);
  }

  /** Where a new pair comes from: a count that this evaluation completed. */
  lemma PairOrigin(m: Memory, t: Tick, r: Rules, accepted: map<BayName, Serial>, b: BayName, next: Memory)
    requires next == Step(m, t, r, accepted) && b in next.assoc && b !in Ready(m, t).assoc
    ensures var ready, s := Ready(m, t), next.assoc[b];
      && t.due && Scoring(ready, t, r)
      && b in accepted && accepted[b] == s
      && CountOf(ready.pending, b, s) >= CONFIRM_EVALUATIONS
    ensures b in Ready(m, t).pending ==> b in m.pending && m.pending[b] == Ready(m, t).pending[b]
  {
    var s := Ready(m, t);
    RecheckOnlyDrops(Installed(s, accepted), s.assoc.Keys, r.bays, t, r);
    RecheckOnlyDrops(s.(pending := map[]), s.assoc.Keys, r.bays, t, r);
  }

  lemma OneMoreAccepts(ticks: seq<Tick>, r: Rules, accepted: seq<map<BayName, Serial>>,
                       j: nat, k: nat, b: BayName, s: Serial)
    requires j <= k < |ticks| == |accepted| && AllAccept(ticks, r, accepted, j, k, b, s)
    requires Evaluated(ticks, r, accepted, k) ==> b in accepted[k] && accepted[k][b] == s
    ensures AllAccept(ticks, r, accepted, j, k + 1, b, s)
  {
  }

  /** A pending count is that many acceptances in a row. */
  lemma {:induction false} CountIsConsecutive(ticks: seq<Tick>, r: Rules,
      accepted: seq<map<BayName, Serial>>, n: nat, b: BayName) returns (j: nat)
    requires |ticks| == |accepted| && n <= |ticks|
    requires b in State(ticks, r, accepted, n).pending
    ensures var (s, c) := State(ticks, r, accepted, n).pending[b];
      && j <= n && 1 <= c < CONFIRM_EVALUATIONS
      && AllAccept(ticks, r, accepted, j, n, b, s) && Evaluations(ticks, r, accepted, j, n) == c
  {
    var k := n - 1;
    var m, t := State(ticks, r, accepted, k), ticks[k];
    var s := State(ticks, r, accepted, n).pending[b].0;
    PendingOrigin(m, t, r, accepted[k], b);
    if Evaluated(ticks, r, accepted, k) && CountOf(Ready(m, t).pending, b, s) == 1
       && !(b in Ready(m, t).pending && Ready(m, t).pending[b].0 == s) {
      j := k;
    } else {
      j := CountIsConsecutive(ticks, r, accepted, k, b);
    }
    OneMoreAccepts(ticks, r, accepted, j, k, b, s);
  }

  /** A pair that was not in force and is after tick k was accepted by this evaluation and by
      the two before it, with none in between refusing it. */
  lemma AssociationNeedsThree(ticks: seq<Tick>, r: Rules, accepted: seq<map<BayName, Serial>>,
                              k: nat, b: BayName) returns (j: nat)
    requires |ticks| == |accepted| && k < |ticks|
    requires b in State(ticks, r, accepted, k + 1).assoc
    requires b !in Ready(State(ticks, r, accepted, k), ticks[k]).assoc
    ensures j <= k && Evaluated(ticks, r, accepted, k)
    ensures AllAccept(ticks, r, accepted, j, k + 1, b, State(ticks, r, accepted, k + 1).assoc[b])
    ensures Evaluations(ticks, r, accepted, j, k + 1) == CONFIRM_EVALUATIONS
  {
    var m, t := State(ticks, r, accepted, k), ticks[k];
    var s := State(ticks, r, accepted, k + 1).assoc[b];
    PairOrigin(m, t, r, accepted[k], b, State(ticks, r, accepted, k + 1));
    assert Ready(m, t).pending[b].0 == s;
    j := CountIsConsecutive(ticks, r, accepted, k, b);
    OneMoreAccepts(ticks, r, accepted, j, k, b, s);
  }

  // -- a standing pair ends by failing its re-checks ---------------------------------

  predicate Distinct(bays: seq<BayName>) {
    forall i, j :: 0 <= i < j < |bays| ==> bays[i] != bays[j]
  }

  /** Failed re-checks on record for the bay's pair. */
  function Failures(m: Memory, b: BayName): nat {
    if b in m.rejected then m.rejected[b] else 0
  }

  /** The bay's pair and failures are the same in both. */
  ghost predicate SameAt(m: Memory, n: Memory, b: BayName) {
    && (b in m.assoc <==> b in n.assoc) && (b in m.assoc ==> m.assoc[b] == n.assoc[b])
    && Failures(m, b) == Failures(n, b)
  }

  lemma {:induction false} OtherBaysKeep(m: Memory, held: set<BayName>, bays: seq<BayName>, t: Tick, r: Rules,
                                         b: BayName)
    requires b !in bays || b !in held || b !in t.rechecks
    ensures SameAt(m, Rechecked(m, held, bays, t, r), b)
  {
    if bays != [] {
      OtherBaysKeep(m, held, bays[..|bays| - 1], t, r, b);
      assert bays[|bays| - 1] in bays;
    }
  }

  /** One evaluation's re-check of a held pair. */
  ghost predicate RecheckEffect(m: Memory, n: Memory, t: Tick, r: Rules, b: BayName) {
    b in t.rechecks &&
    if t.rechecks[b] >= r.dropCorr then
      (b in m.assoc <==> b in n.assoc) && (b in m.assoc ==> m.assoc[b] == n.assoc[b]) && Failures(n, b) == 0
    else if Failures(m, b) + 1 >= r.dropChecks then
      b !in n.assoc && Failures(n, b) == 0
    else
      && (b in m.assoc <==> b in n.assoc) && (b in m.assoc ==> m.assoc[b] == n.assoc[b])
      && Failures(n, b) == Failures(m, b) + 1
  }

  lemma {:induction false} RecheckAt(m: Memory, held: set<BayName>, bays: seq<BayName>, t: Tick, r: Rules, b: BayName)
    requires Distinct(bays) && b in bays && b in held && b in t.rechecks
    ensures RecheckEffect(m, Rechecked(m, held, bays, t, r), t, r, b)
  {
    var k := |bays| - 1;
    if bays[k] == b {
      OtherBaysKeep(m, held, bays[..k], t, r, b);
    } else {
      RecheckAt(m, held, bays[..k], t, r, b);
    }
  }

  /** Tick k re-scored the pair the bay held, and it failed, or passed. */
  predicate Rescored(m: Memory, t: Tick, r: Rules, b: BayName) {
    t.due && b in Ready(m, t).assoc && b in r.bays && b in t.rechecks
  }

  predicate Fails(m: Memory, t: Tick, r: Rules, b: BayName) {
    Rescored(m, t, r, b) && t.rechecks[b] < r.dropCorr
  }

  predicate Passes(m: Memory, t: Tick, r: Rules, b: BayName) {
    Rescored(m, t, r, b) && t.rechecks[b] >= r.dropCorr
  }

  /** Failures belong to a pair. */
  ghost predicate FailuresHavePair(m: Memory, b: BayName) {
    Failures(m, b) > 0 ==> b in m.assoc
  }

  /** The memory the re-checks of an evaluation start from. */
  function Base(s: Memory, t: Tick, r: Rules, accepted: map<BayName, Serial>): Memory {
    if Scoring(s, t, r) then Installed(s, accepted) else s.(pending := map[])
  }

  lemma RecheckedAt(s: Memory, base: Memory, t: Tick, r: Rules, b: BayName, n: Memory)
    requires Distinct(r.bays) && n == Rechecked(base, s.assoc.Keys, r.bays, t, r)
    requires b in s.assoc ==> SameAt(s, base, b)
    requires b !in s.assoc ==> Failures(base, b) == 0
    ensures if b in s.assoc && b in r.bays && b in t.rechecks then RecheckEffect(s, n, t, r, b)
            else Failures(n, b) == (if b in s.assoc then Failures(s, b) else 0)
                 && (b in s.assoc ==> b in n.assoc && n.assoc[b] == s.assoc[b])
  {
    if b in s.assoc && b in r.bays && b in t.rechecks {
      RecheckAt(base, s.assoc.Keys, r.bays, t, r, b);
    } else {
      OtherBaysKeep(base, s.assoc.Keys, r.bays, t, r, b);
    }
  }

  /** What a tick does to the failures on record: a failed re-check adds one, nothing else adds
      any, and what is left belongs to the pair that was there. */
  lemma FailuresStep(m: Memory, t: Tick, r: Rules, accepted: map<BayName, Serial>, b: BayName, n: Memory)
    requires Distinct(r.bays) && n == Step(m, t, r, accepted) && MatcherResult(m, t, r, accepted)
    requires FailuresHavePair(m, b)
    ensures FailuresHavePair(n, b)
    ensures Failures(n, b) > 0 ==>
      && !Passes(m, t, r, b) && b in Ready(m, t).assoc && n.assoc[b] == Ready(m, t).assoc[b]
      && Failures(n, b) == Failures(Ready(m, t), b) + if Fails(m, t, r, b) then 1 else 0
    ensures b in Ready(m, t).assoc && b !in n.assoc ==>
      Fails(m, t, r, b) && Failures(Ready(m, t), b) + 1 >= r.dropChecks
  {
    var s := Ready(m, t);
    if (Scoring(s, t, r) || s.assoc.Keys != {}) && t.due {
      var base := Base(s, t, r, accepted);
      assert n == Rechecked(base, s.assoc.Keys, r.bays, t, r);
      RecheckedAt(s, base, t, r, b, n);
    }
  }

  /** One bay's view of a run: the pair and the failures on record after each number of ticks,
      what is left of the failures when tick k begins, whether tick k fails the pair, and the
      pair it leaves unpassed. */
  datatype Trace = Trace(pair: seq<Option<Serial>>, failures: seq<nat>, kept: seq<nat>, fails: seq<bool>,
                         unpassed: seq<Option<Serial>>)

  function PairOf(m: Memory, b: BayName): Option<Serial> {
    if b in m.assoc then Some(m.assoc[b]) else None
  }

  function Unpassed(m: Memory, t: Tick, r: Rules, b: BayName): Option<Serial> {
    if Passes(m, t, r, b) then None else PairOf(Ready(m, t), b)
  }

  ghost predicate Sized(tr: Trace, n: nat) {
    |tr.pair| == |tr.failures| == n + 1 && |tr.kept| == |tr.fails| == |tr.unpassed| == n
  }

  ghost predicate Linked(tr: Trace, n: nat, k: nat) {
    && Sized(tr, n) && k < n
    && (tr.failures[k + 1] > 0 ==>
          tr.pair[k + 1].Some? && tr.unpassed[k] == tr.pair[k + 1]
          && tr.failures[k + 1] == tr.kept[k] + if tr.fails[k] then 1 else 0)
    && (tr.kept[k] > 0 ==> tr.kept[k] == tr.failures[k] && (tr.unpassed[k].Some? ==> tr.unpassed[k] == tr.pair[k]))
  }

  ghost predicate Consistent(tr: Trace, n: nat) {
    Sized(tr, n) && tr.failures[0] == 0 && forall k :: 0 <= k < n ==> Linked(tr, n, k)
  }

  function CountTrue(flags: seq<bool>, j: nat, n: nat): nat
    requires j <= n <= |flags|
    decreases n
  {
    if n == j then 0 else CountTrue(flags, j, n - 1) + if flags[n - 1] then 1 else 0
  }

  ghost predicate AllUnpassed(tr: Trace, s: Option<Serial>, j: nat, n: nat) {
    j <= n <= |tr.unpassed| && forall k :: j <= k < n ==> tr.unpassed[k] == s
  }

  lemma {:induction false} FailuresCount(tr: Trace, all: nat, n: nat) returns (j: nat)
    requires Consistent(tr, all) && n <= all
    ensures j <= n && CountTrue(tr.fails, j, n) == tr.failures[n]
    ensures tr.failures[n] > 0 ==> AllUnpassed(tr, tr.pair[n], j, n)
  {
    j := n;
    if n > 0 && tr.failures[n] > 0 {
      assert Linked(tr, all, n - 1);
      j := n - 1;
      if tr.kept[n - 1] > 0 {
        j := FailuresCount(tr, all, n - 1);
      }
    }
  }

  function TraceOf(states: seq<Memory>, ticks: seq<Tick>, r: Rules, b: BayName): Trace
    requires |states| == |ticks| + 1
  {
    Trace(seq(|states|, k requires 0 <= k < |states| => PairOf(states[k], b)),
          seq(|states|, k requires 0 <= k < |states| => Failures(states[k], b)),
          seq(|ticks|, k requires 0 <= k < |ticks| => Failures(Ready(states[k], ticks[k]), b)),
          seq(|ticks|, k requires 0 <= k < |ticks| => Fails(states[k], ticks[k], r, b)),
          seq(|ticks|, k requires 0 <= k < |ticks| => Unpassed(states[k], ticks[k], r, b)))
  }

  ghost predicate Shows(tr: Trace, n: nat, k: nat, m: Memory, t: Tick, r: Rules, b: BayName, next: Memory) {
    && Sized(tr, n) && k < n
    && tr.pair[k] == PairOf(m, b) && tr.pair[k + 1] == PairOf(next, b)
    && tr.failures[k] == Failures(m, b) && tr.failures[k + 1] == Failures(next, b)
    && tr.kept[k] == Failures(Ready(m, t), b)
    && tr.fails[k] == Fails(m, t, r, b) && tr.unpassed[k] == Unpassed(m, t, r, b)
  }

  lemma ShownIsLinked(tr: Trace, n: nat, k: nat, m: Memory, t: Tick, r: Rules, accepted: map<BayName, Serial>,
                      b: BayName, next: Memory)
    requires Shows(tr, n, k, m, t, r, b, next) && StepsTo(m, t, r, accepted, next) && FailuresHavePair(m, b)
    requires Distinct(r.bays)
    ensures Linked(tr, n, k)
  {
    FailuresStep(m, t, r, accepted, b, next);
  }

  lemma {:induction false} FailuresAlwaysHavePair(states: seq<Memory>, ticks: seq<Tick>, r: Rules,
                                                  accepted: seq<map<BayName, Serial>>, n: nat, b: BayName)
    requires IsRun(states, ticks, r, accepted) && Distinct(r.bays) && n <= |ticks|
    ensures FailuresHavePair(states[n], b)
  {
    if n > 0 {
      var k := n - 1;
      FailuresAlwaysHavePair(states, ticks, r, accepted, k, b);
      assert Ran(states, ticks, r, accepted, k);
      FailuresStep(states[k], ticks[k], r, accepted[k], b, states[n]);
    }
  }

  lemma TraceIsConsistent(states: seq<Memory>, ticks: seq<Tick>, r: Rules, accepted: seq<map<BayName, Serial>>,
                          b: BayName, tr: Trace)
    requires IsRun(states, ticks, r, accepted) && Distinct(r.bays) && tr == TraceOf(states, ticks, r, b)
    ensures Consistent(tr, |ticks|)
  {
    forall k | 0 <= k < |ticks| ensures Linked(tr, |ticks|, k) {
      FailuresAlwaysHavePair(states, ticks, r, accepted, k, b);
      assert Ran(states, ticks, r, accepted, k);
      ShownIsLinked(tr, |ticks|, k, states[k], ticks[k], r, accepted[k], b, states[k + 1]);
    }
  }

  /** The failures on record are the failed re-checks of the bay's pair since it last passed
      one, or since it was made. */
  lemma FailuresAreConsecutive(states: seq<Memory>, ticks: seq<Tick>, r: Rules, accepted: seq<map<BayName, Serial>>,
                               n: nat, b: BayName) returns (j: nat)
    requires IsRun(states, ticks, r, accepted) && Distinct(r.bays) && n <= |ticks|
    ensures var tr := TraceOf(states, ticks, r, b);
      && j <= n && CountTrue(tr.fails, j, n) == Failures(states[n], b)
      && (Failures(states[n], b) > 0 ==> AllUnpassed(tr, PairOf(states[n], b), j, n))
  {
    var tr := TraceOf(states, ticks, r, b);
    TraceIsConsistent(states, ticks, r, accepted, b, tr);
    j := FailuresCount(tr, |ticks|, n);
  }

  /** A pair that a tick's re-check ends had failed at least `dropChecks` re-checks and passed
      none in between. */
  lemma PairEndsByFailures(states: seq<Memory>, ticks: seq<Tick>, r: Rules, accepted: seq<map<BayName, Serial>>,
                           k: nat, b: BayName) returns (j: nat)
    requires IsRun(states, ticks, r, accepted) && Distinct(r.bays) && k < |ticks|
    requires b in Ready(states[k], ticks[k]).assoc && b !in states[k + 1].assoc
    ensures var tr := TraceOf(states, ticks, r, b);
      && j <= k && tr.fails[k] && CountTrue(tr.fails, j, k + 1) >= r.dropChecks
      && AllUnpassed(tr, PairOf(Ready(states[k], ticks[k]), b), j, k + 1)
  {
    var tr := TraceOf(states, ticks, r, b);
    TraceIsConsistent(states, ticks, r, accepted, b, tr);
    FailuresAlwaysHavePair(states, ticks, r, accepted, k, b);
    assert Ran(states, ticks, r, accepted, k);
    FailuresStep(states[k], ticks[k], r, accepted[k], b, states[k + 1]);
    j := DropCount(tr, |ticks|, k, r.dropChecks);
  }

  lemma DropCount(tr: Trace, all: nat, k: nat, limit: nat) returns (j: nat)
    requires Consistent(tr, all) && k < all && tr.fails[k] && tr.kept[k] + 1 >= limit && tr.unpassed[k].Some?
    ensures j <= k && CountTrue(tr.fails, j, k + 1) >= limit && AllUnpassed(tr, tr.unpassed[k], j, k + 1)
  {
    assert Linked(tr, all, k);
    j := k;
    if tr.kept[k] > 0 {
      j := FailuresCount(tr, all, k);
    }
  }

  // -- the records updated in place --------------------------------------------------

  /** The SMART samples kept per serial, as (time, temperature). */
  type History = map<Serial, seq<(real, real)>>

  /** A serial whose pair ended starts its history over. */
  function Emptied(h: History, s: Option<Serial>): History {
    if s.Some? && s.value in h then h[s.value := []] else h
  }

  predicate Ended(before: map<BayName, Serial>, after: map<BayName, Serial>, s: Serial) {
    exists b :: b in before && b !in after && before[b] == s
  }

  /** Exactly the serials whose pairs ended have lost their samples. */
  ghost predicate Forgotten(before: map<BayName, Serial>, after: map<BayName, Serial>, h0: History, h: History) {
    h.Keys == h0.Keys && forall s :: s in h0 ==> h[s] == if Ended(before, after, s) then [] else h0[s]
  }

  lemma OneMoreForgotten(before: map<BayName, Serial>, after: map<BayName, Serial>, h0: History, h: History,
                         b: BayName, next: map<BayName, Serial>)
    requires Forgotten(before, after, h0, h) && next == after - {b}
    requires forall c :: c in after ==> c in before && before[c] == after[c]
    ensures Forgotten(before, next, h0, Emptied(h, if b in after then Some(after[b]) else None))
  {
    forall s | s in h0 ensures Ended(before, next, s) <==> Ended(before, after, s) || (b in after && after[b] == s) {
      if b in after && after[b] == s {
        assert b in before && b !in next;
      }
      if Ended(before, after, s) {
        var c :| c in before && c !in after && before[c] == s;
        assert c !in next;
      }
    }
  }

  class Associations {
    var assoc: map<BayName, Serial>
    var pending: Pending
    var rejected: map<BayName, nat>
    var verified: set<BayName>
    var history: History

    ghost function View(): Memory
      reads this
    {
      Memory(assoc, pending, rejected, verified)
    }

    constructor ()
      ensures View() == FRESH && history == map[]
    {
      assoc, pending, rejected, verified, history := map[], map[], map[], {}, map[];
    }

    method ForgetPair(b: BayName, s: Option<Serial>)
      modifies this
      ensures View() == Forget(old(View()), {b}) && history == Emptied(old(history), s)
    {
      if s.Some? && s.value in history {
        history := history[s.value := []];
      }
      assoc := assoc - {b};
      rejected := rejected - {b};
      verified := verified - {b};
      pending := pending - {b};
    }

    /** Re-scores every standing pair against its own bay, one bay after the other. */
    method Recheck(held: set<BayName>, t: Tick, r: Rules)
      modifies this
      ensures View() == Rechecked(old(View()), held, r.bays, t, r)
      ensures Forgotten(old(assoc), assoc, old(history), history)
    {
      ghost var m := View();
      for k := 0 to |r.bays|
        invariant View() == Rechecked(m, held, r.bays[..k], t, r)
        invariant Forgotten(m.assoc, assoc, old(history), history)
      {
        var b := r.bays[k];
        assert r.bays[..k + 1][..k] == r.bays[..k];
        if b in held && b in t.rechecks {
          if t.rechecks[b] >= r.dropCorr {
            rejected := rejected[b := 0];
            verified := verified + {b};
          } else {
            var failures := (if b in rejected then rejected[b] else 0) + 1;
            rejected := rejected[b := failures];
            if failures >= r.dropChecks {
              RecheckOnlyDrops(m, held, r.bays[..k], t, r);
              OneMoreForgotten(m.assoc, assoc, old(history), history, b, assoc - {b});
              ForgetPair(b, if b in assoc then Some(assoc[b]) else None);
            }
          }
        }
      }
      assert r.bays[..|r.bays|] == r.bays;
    }
  }
}
