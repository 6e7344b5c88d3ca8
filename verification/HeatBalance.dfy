/** What one step of the air rollout solves, from the zone's inputs: the heat balance at the end
    of the step, and what the airflow and the bays' sensors stand for in it. */
module HeatBalance {
  import opened AirRollout
  import opened RealAlgebra

  /** Heat into air at temperature x. */
  function Exchange(drives: seq<Drive>, x: real): real {
    if drives == [] then 0.0
    else Exchange(drives[..|drives| - 1], x) + Times(drives[|drives| - 1].k, drives[|drives| - 1].t - x)
  }

  lemma {:induction false} ExchangeIs(drives: seq<Drive>, x: real)
    ensures Exchange(drives, x) == SumKT(drives) - Times(x, SumK(drives))
  {
    if drives != [] {
      var rest, d := drives[..|drives| - 1], drives[|drives| - 1];
      ExchangeIs(rest, x);
      Distribute(x, SumK(rest), d.k);
    }
  }

  lemma BalanceSolved(h: real, ta: real, k: real, kt: real, power: real, x: real, d: real, m: real)
    requires d == 1.0 + Times(h, k) / 200.0 && d != 0.0 && m == Times(h, kt + power) / 200.0
    ensures 200.0 * (x - ta) == Times(h, kt - Times(x, k) + power) <==> x == (ta + m) / d
  {
    assert h * (kt - x * k + power) == h * (kt + power) - x * (h * k);
    assert x * d == x + x * (h * k) / 200.0;
    if x * d == ta + m {
      Divide(d, x, ta + m);
    }
    QuotientTimes(ta + m, d);
  }

  /** The air after a step is the one temperature at which the heat stored over the step is
      what the sources and the power bring in at that temperature. */
  lemma NextBalances(ta: real, s: Step, x: real)
    requires Solvable(s)
    ensures 200.0 * (x - ta) == Times(s.h, Exchange(Drives(s.inputs), x) + s.inputs.power) <==> x == Next(ta, s)
  {
    var drives := Drives(s.inputs);
    ExchangeIs(drives, x);
    BalanceSolved(s.h, ta, SumK(drives), SumKT(drives), s.inputs.power, x, Stiffness(s), Times(s.h, Heat(s)) / 200.0);
  }

  /** The drive temperatures that the bays' sensors read. */
  predicate Reads(bays: seq<Bay>, temps: seq<real>) {
    && |temps| == |bays|
    && forall i :: 0 <= i < |bays| ==> Times(bays[i].slope, temps[i]) + bays[i].offset == bays[i].sensor
  }

  /** Heat into air at temperature x from bays at these temperatures. */
  function BayHeat(bays: seq<Bay>, temps: seq<real>, share: real, x: real): real
    requires |temps| == |bays|
  {
    if bays == [] then 0.0
    else
      var k := |bays| - 1;
      BayHeat(bays[..k], temps[..k], share, x) + Times(bays[k].g0 + Times(bays[k].k, share), temps[k] - x)
  }

  lemma ExchangeExtends(drives: seq<Drive>, d: Drive, x: real)
    ensures Exchange(drives + [d], x) == Exchange(drives, x) + Times(d.k, d.t - x)
  {
    assert (drives + [d])[..|drives|] == drives;
  }

  lemma {:induction false} ExchangeSplits(a: seq<Drive>, b: seq<Drive>, x: real)
    ensures Exchange(a + b, x) == Exchange(a, x) + Exchange(b, x)
  {
    if b == [] {
      assert a + b == a;
    } else {
      var k := |b| - 1;
      ExchangeSplits(a, b[..k], x);
      assert a + b == (a + b[..k]) + [b[k]];
      ExchangeExtends(a + b[..k], b[k], x);
    }
  }

  lemma OneMoreBay(bays: seq<Bay>, k: nat, rest: seq<real>, d: Drive, temps: seq<real>, share: real, x: real)
    requires k < |bays| && |bays| == k + 1 && bays[k].slope != 0.0 && d == BayDrive(bays[k], share)
    requires Reads(bays[..k], rest) && temps == rest + [d.t]
    ensures Reads(bays, temps)
    ensures BayHeat(bays, temps, share, x) == BayHeat(bays[..k], rest, share, x) + Times(d.k, d.t - x)
  {
    QuotientTimes(bays[k].sensor - bays[k].offset, bays[k].slope);
    assert temps[..k] == rest;
    forall i | 0 <= i < |bays| ensures Times(bays[i].slope, temps[i]) + bays[i].offset == bays[i].sensor {
      if i < k {
        assert bays[..k][i] == bays[i] && rest[i] == temps[i];
      }
    }
  }

  lemma {:induction false} BaysExchange(bays: seq<Bay>, share: real, x: real) returns (temps: seq<real>)
    requires forall b :: b in bays ==> b.slope != 0.0
    ensures Reads(bays, temps) && BayHeat(bays, temps, share, x) == Exchange(BayDrives(bays, share), x)
  {
    temps := [];
    if bays != [] {
      var k := |bays| - 1;
      var rest := BaysExchange(bays[..k], share, x);
      var d := BayDrive(bays[k], share);
      ExchangeExtends(BayDrives(bays[..k], share), d, x);
      temps := rest + [d.t];
      OneMoreBay(bays, k, rest, d, temps, share, x);
    }
  }

  /** What the sources of a zone are: the inlet through the airflow and the leak, the coupled
      zones, and its bays, each at the drive temperature that its sensor reads. */
  lemma SourcesAre(inp: Inputs, x: real) returns (temps: seq<real>)
    requires Mapped(inp)
    ensures Reads(inp.bays, temps)
    ensures Exchange(Drives(inp), x)
         == Times(Flow(inp.groups) + inp.leak, inp.inlet - x) + Exchange(inp.coupled, x)
            + BayHeat(inp.bays, temps, Share(inp.groups), x)
  {
    var inlet, share := Drive(Flow(inp.groups) + inp.leak, inp.inlet), Share(inp.groups);
    temps := BaysExchange(inp.bays, share, x);
    ExchangeExtends([], inlet, x);
    assert [] + [inlet] == [inlet];
    ExchangeSplits([inlet], inp.coupled, x);
    ExchangeSplits([inlet] + inp.coupled, BayDrives(inp.bays, share), x);
  }

  // -- the normalised airflow --------------------------------------------------------

  /** Each group's airflow measured by its prior; a group without one has none. */
  predicate Measured(groups: seq<Group>, ratios: seq<real>) {
    && |ratios| == |groups|
    && forall i :: 0 <= i < |groups| ==>
         if groups[i].prior > 0.0 then Times(ratios[i], groups[i].prior) == groups[i].phi else ratios[i] == 0.0
  }

  /** How they lie against q, each weighted by its group's effectiveness. */
  function Against(groups: seq<Group>, ratios: seq<real>, q: real): real
    requires |ratios| == |groups|
  {
    if groups == [] then 0.0
    else
      var k := |groups| - 1;
      Against(groups[..k], ratios[..k], q) + Times(groups[k].e, ratios[k] - q)
  }

  lemma {:induction false} FlowAgainst(groups: seq<Group>, q: real) returns (ratios: seq<real>)
    ensures Measured(groups, ratios)
    ensures Against(groups, ratios, q) == Flow(groups) - Times(q, Effectiveness(groups))
  {
    ratios := [];
    if groups != [] {
      var k := |groups| - 1;
      var g := groups[k];
      var rest := FlowAgainst(groups[..k], q);
      var ratio := if g.prior > 0.0 then g.phi / g.prior else 0.0;
      GroupRatio(g, ratio);
      Distribute(q, Effectiveness(groups[..k]), g.e);
      assert Times(g.e, ratio - q) == Times(g.e, ratio) - Times(q, g.e);
      ratios := rest + [ratio];
      assert ratios[..k] == rest;
    }
  }

  lemma GroupRatio(g: Group, ratio: real)
    requires ratio == if g.prior > 0.0 then g.phi / g.prior else 0.0
    ensures g.prior > 0.0 ==> Times(ratio, g.prior) == g.phi
    ensures GroupFlow(g) == Times(g.e, ratio)
  {
    if g.prior > 0.0 {
      QuotientTimes(g.phi, g.prior);
      assert g.e * (g.phi / g.prior) * g.prior == g.e * g.phi;
      Divide(g.prior, g.e * (g.phi / g.prior), g.e * g.phi);
    }
  }

  /** The zone's normalised airflow is the mean of its groups' airflow, each measured by its own
      prior and weighted by its effectiveness, and its flow is that share of all it could
      have. */
  lemma ShareIsMean(groups: seq<Group>) returns (ratios: seq<real>)
    ensures Effectiveness(groups) <= 0.000000001 ==> Share(groups) == 0.0
    ensures Effectiveness(groups) > 0.000000001 ==>
      && Measured(groups, ratios) && Against(groups, ratios, Share(groups)) == 0.0
      && Flow(groups) == Times(Share(groups), Effectiveness(groups))
  {
    if Effectiveness(groups) > 0.000000001 {
      QuotientTimes(Flow(groups), Effectiveness(groups));
    }
    ratios := FlowAgainst(groups, Share(groups));
  }

  // -- the score -----------------------------------------------------------------------

  /** A recording that the rollout misses by d at every step has the error n d^2; a recording it
      follows has none. */
  lemma {:induction false} ErrorOfMiss(ta: real, steps: seq<Step>, d: real)
    requires AllSolvable(steps)
    requires forall k :: 0 <= k < |steps| ==> Misses(ta, steps, k, d)
    ensures SquaredError(ta, steps) == Times(|steps| as real, Times(d, d))
  {
    if steps != [] {
      var k := |steps| - 1;
      var rest := steps[..k];
      forall i | 0 <= i < k ensures Misses(ta, rest, i, d) {
        assert Misses(ta, steps, i, d) && rest[..i + 1] == steps[..i + 1];
      }
      ErrorOfMiss(ta, rest, d);
      assert Misses(ta, steps, k, d) && steps[..k + 1] == steps;
      assert (k + 1) as real * (d * d) == k as real * (d * d) + d * d;
    }
  }

  ghost predicate Misses(ta: real, steps: seq<Step>, k: nat, d: real)
    requires k < |steps|
  {
    AllSolvable(steps[..k + 1]) && Air(ta, steps[..k + 1]) - steps[k].measured == d
  }

  /** The error is 0 exactly when the rollout meets every measured value. */
  lemma {:induction false} NoErrorExactly(ta: real, steps: seq<Step>)
    requires AllSolvable(steps)
    ensures SquaredError(ta, steps) == 0.0 <==> forall k :: 0 <= k < |steps| ==> Misses(ta, steps, k, 0.0)
  {
    if steps != [] {
      var k := |steps| - 1;
      var rest := steps[..k];
      var e := Air(ta, steps) - steps[k].measured;
      assert steps[..k + 1] == steps && (Misses(ta, steps, k, 0.0) <==> e == 0.0);
      NoErrorExactly(ta, rest);
      SquaredErrorNonNegative(ta, rest);
      SquareNonNegative(e);
      assert e == 0.0 ==> Times(e, e) == 0.0;
      forall i | 0 <= i < k ensures Misses(ta, rest, i, 0.0) <==> Misses(ta, steps, i, 0.0) {
        assert rest[..i + 1] == steps[..i + 1];
      }
    }
  }
}
