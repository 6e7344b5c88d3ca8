/** What one tick does to each bay's association, from the tick and what the bay had alone:
    exactly when a pair ends, when one is made, and what becomes of its counts. */
module AssociationLaws {
  import opened Wrappers
  import opened Associate
  import opened AssociationLife

  /** Nothing but a re-check can end the bay's pair at this tick: the bay is not declared, has
      not crossed `empty` and has not jumped, and the serial is heard and not declared. */
  predicate Survives(m: Memory, t: Tick, b: BayName) {
    && b in m.assoc && b !in t.declared && b !in t.crossed && b !in t.jumped
    && m.assoc[b] in t.heard && m.assoc[b] !in t.declared.Values
  }

  predicate FreeSerial(m: Memory, t: Tick, s: Serial) {
    s in t.heard && s !in t.declared.Values && forall b :: b in m.assoc && Survives(m, t, b) ==> m.assoc[b] != s
  }

  predicate FreeBay(m: Memory, t: Tick, r: Rules, b: BayName) {
    b in r.bays && !Survives(m, t, b) && b !in t.empty && b !in t.declared
  }

  /** A bay in every reachable state: no count beside a pair, and nothing on record of a pair
      that is not there. */
  ghost predicate Tidy(m: Memory, b: BayName) {
    (b in m.assoc ==> b !in m.pending) && (b !in m.assoc ==> Failures(m, b) == 0 && b !in m.verified)
  }

  /** The bay's part of the memory when the evaluation begins. */
  ghost predicate ReadyFrom(m: Memory, t: Tick, b: BayName, s: Memory) {
    && Tidy(m, b) && Tidy(s, b) && (b in s.assoc <==> Survives(m, t, b))
    && (b in s.assoc ==> s.assoc[b] == m.assoc[b] && Failures(s, b) == Failures(m, b)
                         && (b in s.verified <==> b in m.verified))
    && (b in s.pending <==> b in m.pending && b !in t.crossed)
    && (b in s.pending ==> s.pending[b] == m.pending[b])
  }

  lemma ReadyAt(m: Memory, t: Tick, b: BayName)
    requires Tidy(m, b)
    ensures ReadyFrom(m, t, b, Ready(m, t))
  {
  }

  lemma ReadyPairs(m: Memory, t: Tick)
    ensures Ready(m, t).assoc == map b | b in m.assoc && Survives(m, t, b) :: m.assoc[b]
  {
  }

  /** There is a serial to place and a bay to place it in. */
  ghost predicate CanScore(m: Memory, t: Tick, r: Rules) {
    (exists s :: FreeSerial(m, t, s)) && (exists b :: FreeBay(m, t, r, b))
  }

  /** The matcher is shown exactly the scores of serials and bays that are free. */
  lemma MatrixExactly(m: Memory, t: Tick, r: Rules)
    ensures Scoring(Ready(m, t), t, r) <==> CanScore(m, t, r)
    ensures Scored(Ready(m, t), t, r)
         == map p | p in t.scores && FreeSerial(m, t, p.0) && FreeBay(m, t, r, p.1) :: t.scores[p]
  {
    var s := Ready(m, t);
    ReadyPairs(m, t);
    forall b | b in m.assoc && Survives(m, t, b) ensures m.assoc[b] in s.assoc.Values {
      assert s.assoc[b] == m.assoc[b];
    }
    forall x ensures x in Unassigned(s, t) <==> FreeSerial(m, t, x) {
      if x in s.assoc.Values {
        var b :| b in s.assoc && s.assoc[b] == x;
        assert Survives(m, t, b);
      }
    }
    forall b ensures b in Candidates(s, t, r) <==> FreeBay(m, t, r, b) {
    }
    assert Unassigned(s, t) != {} ==> exists x :: x in Unassigned(s, t);
    assert Candidates(s, t, r) != {} ==> exists b :: b in Candidates(s, t, r);
  }

  lemma AcceptedIsFree(m: Memory, t: Tick, r: Rules, accepted: map<BayName, Serial>, b: BayName)
    requires MatcherResult(m, t, r, accepted) && b in accepted
    ensures FreeBay(m, t, r, b) && FreeSerial(m, t, accepted[b]) && (accepted[b], b) in t.scores
  {
    MatrixExactly(m, t, r);
    assert Wins(Scored(Ready(m, t), t, r), r.minCorr, r.margin, accepted[b], b);
  }

  /** How often in a row the bay has now been given the serial. */
  function Row(m: Memory, t: Tick, b: BayName, s: Serial): int {
    if b !in t.crossed && b in m.pending && m.pending[b].0 == s && m.pending[b].1 > 0 then m.pending[b].1 + 1 else 1
  }

  /** The tick re-scores the bay's pair. */
  predicate Checked(m: Memory, t: Tick, r: Rules, b: BayName) {
    t.due && Survives(m, t, b) && b in r.bays && b in t.rechecks
  }

  lemma InstalledAt(s: Memory, accepted: map<BayName, Serial>, b: BayName)
    requires Tidy(s, b)
    ensures var n := Installed(s, accepted);
      if b in accepted && CountOf(s.pending, b, accepted[b]) >= 3 then
        && b in n.assoc && n.assoc[b] == accepted[b] && b !in n.pending && b !in n.verified && Failures(n, b) == 0
      else
        && SameAt(s, n, b) && (b in n.verified <==> b in s.verified)
        && (b in n.pending <==> b in accepted)
        && (b in accepted ==> n.pending[b] == (accepted[b], CountOf(s.pending, b, accepted[b])))
  {
  }

  lemma {:induction false} UncheckedBay(m: Memory, held: set<BayName>, bays: seq<BayName>, t: Tick, r: Rules,
                                        b: BayName)
    requires b !in bays || b !in held || b !in t.rechecks
    ensures var n := Rechecked(m, held, bays, t, r);
      && SameAt(m, n, b) && (b in n.verified <==> b in m.verified)
      && (b in n.pending <==> b in m.pending) && (b in n.pending ==> n.pending[b] == m.pending[b])
  {
    if bays != [] {
      UncheckedBay(m, held, bays[..|bays| - 1], t, r, b);
      assert bays[|bays| - 1] in bays;
    }
  }

  lemma {:induction false} CheckedBay(m: Memory, held: set<BayName>, bays: seq<BayName>, t: Tick, r: Rules, b: BayName)
    requires Distinct(bays) && b in bays && b in held && b in t.rechecks && b in m.assoc && b !in m.pending
    ensures var n := Rechecked(m, held, bays, t, r);
      && b !in n.pending
      && if t.rechecks[b] >= r.dropCorr then
           b in n.assoc && n.assoc[b] == m.assoc[b] && Failures(n, b) == 0 && b in n.verified
         else if Failures(m, b) + 1 >= r.dropChecks then
           b !in n.assoc && Failures(n, b) == 0 && b !in n.verified
         else
           b in n.assoc && n.assoc[b] == m.assoc[b] && Failures(n, b) == Failures(m, b) + 1
           && (b in n.verified <==> b in m.verified)
  {
    var k := |bays| - 1;
    if bays[k] == b {
      UncheckedBay(m, held, bays[..k], t, r, b);
    } else {
      CheckedBay(m, held, bays[..k], t, r, b);
    }
  }

  /** What a tick makes of a bay that has a pair. It ends exactly when the bay is declared, has
      crossed `empty` or jumped, its serial is silent or declared, or a re-check fails for the
      last time it may; what stays is what was there, with its re-check on record. */
  ghost predicate PairFollows(m: Memory, t: Tick, r: Rules, accepted: map<BayName, Serial>, b: BayName, n: Memory)
    requires b in m.assoc
  {
    var failed := Checked(m, t, r, b) && t.rechecks[b] < r.dropCorr;
    var passed := Checked(m, t, r, b) && t.rechecks[b] >= r.dropCorr;
    if Survives(m, t, b) && !(failed && Failures(m, b) + 1 >= r.dropChecks) then
      && b in n.assoc && n.assoc[b] == m.assoc[b]
      && Failures(n, b) == (if failed then Failures(m, b) + 1 else if passed then 0 else Failures(m, b))
      && (b in n.verified <==> b in m.verified || passed)
    else
      b !in n.assoc && (b in n.pending ==> t.due && b in accepted && n.pending[b] == (accepted[b], 1))
  }

  /** What a tick makes of a bay without a pair: the third acceptance in a row makes one, and an
      earlier one, or none, is what is left of its count. */
  ghost predicate CountFollows(m: Memory, t: Tick, r: Rules, accepted: map<BayName, Serial>, b: BayName, n: Memory) {
    if t.due && CanScore(m, t, r) then
      if b in accepted && Row(m, t, b, accepted[b]) >= 3 then
        b in n.assoc && n.assoc[b] == accepted[b] && b !in n.pending && b !in n.verified && Failures(n, b) == 0
      else
        && b !in n.assoc && (b in n.pending <==> b in accepted)
        && (b in accepted ==> n.pending[b] == (accepted[b], Row(m, t, b, accepted[b])))
    else
      && b !in n.assoc
      && (b in n.pending ==> !t.due && b in m.pending && n.pending[b] == m.pending[b] && b !in t.crossed)
  }

  /** An evaluation seen from one bay. */
  ghost predicate EvaluationFollows(s: Memory, t: Tick, r: Rules, scoring: bool, accepted: map<BayName, Serial>,
                                    b: BayName, n: Memory) {
    if b !in s.assoc then
      if scoring && b in accepted && CountOf(s.pending, b, accepted[b]) >= 3 then
        b in n.assoc && n.assoc[b] == accepted[b] && Failures(n, b) == 0 && b !in n.verified && b !in n.pending
      else
        && b !in n.assoc && (b in n.pending <==> scoring && b in accepted)
        && (b in n.pending ==> n.pending[b] == (accepted[b], CountOf(s.pending, b, accepted[b])))
    else if !(b in r.bays && b in t.rechecks) then
      SameAt(s, n, b) && (b in n.verified <==> b in s.verified)
    else if t.rechecks[b] >= r.dropCorr then
      b in n.assoc && n.assoc[b] == s.assoc[b] && Failures(n, b) == 0 && b in n.verified
    else if Failures(s, b) + 1 >= r.dropChecks then
      b !in n.assoc && b !in n.pending
    else
      && b in n.assoc && n.assoc[b] == s.assoc[b] && Failures(n, b) == Failures(s, b) + 1
      && (b in n.verified <==> b in s.verified)
  }

  lemma EvaluationAt(s: Memory, t: Tick, r: Rules, accepted: map<BayName, Serial>, b: BayName, n: Memory)
    requires Distinct(r.bays) && Tidy(s, b) && n == Rechecked(Base(s, t, r, accepted), s.assoc.Keys, r.bays, t, r)
    requires b in s.assoc ==> b !in accepted
    ensures Tidy(n, b) && EvaluationFollows(s, t, r, Scoring(s, t, r), accepted, b, n)
  {
    var base := Base(s, t, r, accepted);
    InstalledAt(s, accepted, b);
    if b in s.assoc && b in r.bays && b in t.rechecks {
      CheckedBay(base, s.assoc.Keys, r.bays, t, r, b);
    } else {
      UncheckedBay(base, s.assoc.Keys, r.bays, t, r, b);
    }
  }

  lemma EvaluationStep(m: Memory, s: Memory, t: Tick, r: Rules, accepted: map<BayName, Serial>, b: BayName, n: Memory)
    requires StepsTo(m, t, r, accepted, n) && Distinct(r.bays) && s == Ready(m, t) && Tidy(s, b)
    requires t.due && (Scoring(s, t, r) || s.assoc.Keys != {})
    ensures Tidy(n, b) && EvaluationFollows(s, t, r, Scoring(s, t, r), accepted, b, n)
  {
    if b in accepted {
      AcceptedIsFree(m, t, r, accepted, b);
      ReadyPairs(m, t);
    }
    EvaluationAt(s, t, r, accepted, b, n);
  }

  lemma NoEvaluation(m: Memory, s: Memory, t: Tick, r: Rules, accepted: map<BayName, Serial>, b: BayName, n: Memory)
    requires n == Step(m, t, r, accepted) && s == Ready(m, t) && Tidy(s, b)
    requires !t.due || (!Scoring(s, t, r) && s.assoc.Keys == {})
    ensures Tidy(n, b) && SameAt(s, n, b) && (b in n.verified <==> b in s.verified)
    ensures b in n.pending ==> !t.due && b in s.pending && n.pending[b] == s.pending[b]
  {
  }

  lemma StepAt(m: Memory, t: Tick, r: Rules, accepted: map<BayName, Serial>, b: BayName, n: Memory)
    requires StepsTo(m, t, r, accepted, n) && Distinct(r.bays) && Tidy(m, b)
    ensures Tidy(n, b)
    ensures b in m.assoc ==> PairFollows(m, t, r, accepted, b, n)
    ensures b !in m.assoc ==> CountFollows(m, t, r, accepted, b, n)
  {
    var s := Ready(m, t);
    ReadyAt(m, t, b);
    MatrixExactly(m, t, r);
    if t.due && (Scoring(s, t, r) || s.assoc.Keys != {}) {
      EvaluationStep(m, s, t, r, accepted, b, n);
      EvaluatedBay(m, s, t, r, accepted, b, n, Scoring(s, t, r));
    } else {
      NoEvaluation(m, s, t, r, accepted, b, n);
    }
  }

  lemma EvaluatedBay(m: Memory, s: Memory, t: Tick, r: Rules, accepted: map<BayName, Serial>, b: BayName, n: Memory,
                     scoring: bool)
    requires t.due && ReadyFrom(m, t, b, s) && EvaluationFollows(s, t, r, scoring, accepted, b, n)
    requires scoring == CanScore(m, t, r)
    ensures b in m.assoc ==> PairFollows(m, t, r, accepted, b, n)
    ensures b !in m.assoc ==> CountFollows(m, t, r, accepted, b, n)
  {
  }

  lemma {:induction false} TidyThroughout(states: seq<Memory>, ticks: seq<Tick>, r: Rules,
                                          accepted: seq<map<BayName, Serial>>, n: nat, b: BayName)
    requires IsRun(states, ticks, r, accepted) && Distinct(r.bays) && n <= |ticks|
    ensures Tidy(states[n], b)
  {
    if n > 0 {
      var k := n - 1;
      TidyThroughout(states, ticks, r, accepted, k, b);
      assert Ran(states, ticks, r, accepted, k);
      StepAt(states[k], ticks[k], r, accepted[k], b, states[n]);
    }
  }

  /** Every tick of every run treats every bay so. */
  lemma TickFollows(states: seq<Memory>, ticks: seq<Tick>, r: Rules, accepted: seq<map<BayName, Serial>>,
                    k: nat, b: BayName)
    requires IsRun(states, ticks, r, accepted) && Distinct(r.bays) && k < |ticks|
    ensures b in states[k].assoc ==> PairFollows(states[k], ticks[k], r, accepted[k], b, states[k + 1])
    ensures b !in states[k].assoc ==> CountFollows(states[k], ticks[k], r, accepted[k], b, states[k + 1])
  {
    TidyThroughout(states, ticks, r, accepted, k, b);
    assert Ran(states, ticks, r, accepted, k);
    StepAt(states[k], ticks[k], r, accepted[k], b, states[k + 1]);
  }

  /** A crossing of `empty` ends the bay's pair and its count; a jump ends its pair. */
  lemma SwapEndsPair(states: seq<Memory>, ticks: seq<Tick>, r: Rules, accepted: seq<map<BayName, Serial>>,
                     k: nat, b: BayName)
    requires IsRun(states, ticks, r, accepted) && Distinct(r.bays) && k < |ticks|
    requires b in ticks[k].crossed || (b in ticks[k].jumped && b in states[k].assoc)
    ensures b !in states[k + 1].assoc
    ensures b in states[k + 1].pending ==> ticks[k].due && states[k + 1].pending[b].1 == 1
  {
    TickFollows(states, ticks, r, accepted, k, b);
  }

  /** Tick k evaluates, and gives the bay the serial. */
  ghost predicate Gives(states: seq<Memory>, ticks: seq<Tick>, r: Rules, accepted: seq<map<BayName, Serial>>,
                        k: nat, b: BayName, s: Serial)
    requires k < |ticks| && |accepted| == |ticks| < |states|
  {
    && ticks[k].due && CanScore(states[k], ticks[k], r) && b in accepted[k] && accepted[k][b] == s
  }

  /** Three evaluations in a row that give a bay the same serial, without a crossing between
      them, make the pair: the count is not only necessary. */
  lemma ThreeInARowMakePair(states: seq<Memory>, ticks: seq<Tick>, r: Rules, accepted: seq<map<BayName, Serial>>,
                            k: nat, b: BayName, s: Serial)
    requires IsRun(states, ticks, r, accepted) && Distinct(r.bays) && k + 3 <= |ticks|
    requires b !in states[k].assoc && b !in states[k].pending
    requires Gives(states, ticks, r, accepted, k, b, s)
    requires Gives(states, ticks, r, accepted, k + 1, b, s) && b !in ticks[k + 1].crossed
    requires Gives(states, ticks, r, accepted, k + 2, b, s) && b !in ticks[k + 2].crossed
    ensures b in states[k + 3].assoc && states[k + 3].assoc[b] == s
  {
    GivenOnce(states, ticks, r, accepted, k, b, s, 0);
    GivenOnce(states, ticks, r, accepted, k + 1, b, s, 1);
    GivenOnce(states, ticks, r, accepted, k + 2, b, s, 2);
  }

  lemma GivenOnce(states: seq<Memory>, ticks: seq<Tick>, r: Rules, accepted: seq<map<BayName, Serial>>,
                  k: nat, b: BayName, s: Serial, count: nat)
    requires IsRun(states, ticks, r, accepted) && Distinct(r.bays) && k < |ticks|
    requires b !in states[k].assoc && Gives(states, ticks, r, accepted, k, b, s)
    requires if count == 0 then b !in states[k].pending
             else b in states[k].pending && states[k].pending[b] == (s, count) && b !in ticks[k].crossed
    ensures if count + 1 >= 3 then b in states[k + 1].assoc && states[k + 1].assoc[b] == s
            else b !in states[k + 1].assoc && b in states[k + 1].pending && states[k + 1].pending[b] == (s, count + 1)
  {
    TickFollows(states, ticks, r, accepted, k, b);
  }
}
