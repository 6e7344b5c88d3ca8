/** The zone-air rollout of the offline fit: implicit Euler steps towards driving
    temperatures, scored against the measured air. */
module AirRollout {
  import opened RealAlgebra
  import opened Wrappers

  const C_AIR := 200.0
  const FLOW_EPS := 0.000000001

  /** One airflow group: its identified effectiveness, the prior it is scaled by and the
      weighted airflow share of its fans. */
  datatype Group = Group(e: real, prior: real, phi: real)

  /** A conductance to something at a temperature. */
  datatype Drive = Drive(k: real, t: real)

  /** A bay whose proximal sensor was read, with the map from drive to sensor. */
  datatype Bay = Bay(g0: real, k: real, sensor: real, slope: real, offset: real)

  /** What one step of the rollout uses of the sample it starts from. */
  datatype Inputs = Inputs(groups: seq<Group>, leak: real, inlet: real, coupled: seq<Drive>,
                           power: real, bays: seq<Bay>)

  /** A step to the next sample, `h` seconds later, and the air measured there. */
  datatype Step = Step(h: real, inputs: Inputs, measured: real)

  function GroupFlow(g: Group): real {
    if g.prior <= 0.0 then 0.0 else g.e * g.phi / g.prior
  }

  function Flow(groups: seq<Group>): real {
    if groups == [] then 0.0 else Flow(groups[..|groups| - 1]) + GroupFlow(groups[|groups| - 1])
  }

  function Effectiveness(groups: seq<Group>): real {
    if groups == [] then 0.0 else Effectiveness(groups[..|groups| - 1]) + groups[|groups| - 1].e
  }

  /** The normalised airflow of the zone. */
  function Share(groups: seq<Group>): real {
    if Effectiveness(groups) > FLOW_EPS then Flow(groups) / Effectiveness(groups) else 0.0
  }

  function BayDrive(b: Bay, share: real): Drive
    requires b.slope != 0.0
  {
    Drive(b.g0 + Times(b.k, share), (b.sensor - b.offset) / b.slope)
  }

  function BayDrives(bays: seq<Bay>, share: real): (d: seq<Drive>)
    requires forall b :: b in bays ==> b.slope != 0.0
    ensures |d| == |bays|
  {
    if bays == [] then []
    else BayDrives(bays[..|bays| - 1], share) + [BayDrive(bays[|bays| - 1], share)]
  }

  predicate Mapped(inp: Inputs) {
    forall b :: b in inp.bays ==> b.slope != 0.0
  }

  /** Everything the zone's air exchanges heat with. */
  function Drives(inp: Inputs): seq<Drive>
    requires Mapped(inp)
  {
    [Drive(Flow(inp.groups) + inp.leak, inp.inlet)] + inp.coupled + BayDrives(inp.bays, Share(inp.groups))
  }

  function SumK(drives: seq<Drive>): real {
    if drives == [] then 0.0 else SumK(drives[..|drives| - 1]) + drives[|drives| - 1].k
  }

  function SumKT(drives: seq<Drive>): real {
    if drives == [] then 0.0
    else SumKT(drives[..|drives| - 1]) + Times(drives[|drives| - 1].k, drives[|drives| - 1].t)
  }

  // -- the signs of the conductances ----------------------------------------------

  predicate Passive(drives: seq<Drive>) {
    forall d :: d in drives ==> d.k >= 0.0
  }

  /** The bounds the parameter table gives: no negative coefficient, a positive map slope. */
  predicate InBounds(inp: Inputs) {
    && (forall g :: g in inp.groups ==> g.e >= 0.0 && g.phi >= 0.0)
    && inp.leak >= 0.0
    && (forall d :: d in inp.coupled ==> d.k >= 0.0)
    && (forall b :: b in inp.bays ==> b.g0 >= 0.0 && b.k >= 0.0 && b.slope > 0.0)
  }

  lemma {:induction false} FlowNonNegative(groups: seq<Group>)
    requires forall g :: g in groups ==> g.e >= 0.0 && g.phi >= 0.0
    ensures Flow(groups) >= 0.0
  {
    if groups != [] {
      var g := groups[|groups| - 1];
      FlowNonNegative(groups[..|groups| - 1]);
      GroupFlowNonNegative(g);
    }
  }

  lemma GroupFlowNonNegative(g: Group)
    requires g.e >= 0.0 && g.phi >= 0.0
    ensures GroupFlow(g) >= 0.0
  {
    if g.prior > 0.0 {
      ProductNonNegative(g.e, g.phi);
      QuotientNonNegative(g.e * g.phi, g.prior);
    }
  }

  lemma ShareNonNegative(groups: seq<Group>)
    requires forall g :: g in groups ==> g.e >= 0.0 && g.phi >= 0.0
    ensures Share(groups) >= 0.0
  {
    FlowNonNegative(groups);
    if Effectiveness(groups) > FLOW_EPS {
      QuotientNonNegative(Flow(groups), Effectiveness(groups));
    }
  }

  lemma {:induction false} BayDrivesPassive(bays: seq<Bay>, share: real)
    requires share >= 0.0 && forall b :: b in bays ==> b.g0 >= 0.0 && b.k >= 0.0 && b.slope > 0.0
    ensures Passive(BayDrives(bays, share))
  {
    if bays != [] {
      var b := bays[|bays| - 1];
      BayDrivesPassive(bays[..|bays| - 1], share);
      ProductNonNegative(b.k, share);
    }
  }

  lemma DrivesPassive(inp: Inputs)
    requires InBounds(inp)
    ensures Mapped(inp) && Passive(Drives(inp))
  {
    FlowNonNegative(inp.groups);
    ShareNonNegative(inp.groups);
    BayDrivesPassive(inp.bays, Share(inp.groups));
  }

  lemma {:induction false} SumNonNegative(drives: seq<Drive>)
    requires Passive(drives)
    ensures SumK(drives) >= 0.0
  {
    if drives != [] {
      SumNonNegative(drives[..|drives| - 1]);
    }
  }

  // -- one step ---------------------------------------------------------------------

  /** 1 + h K / C */
  function Stiffness(s: Step): real
    requires Mapped(s.inputs)
  {
    1.0 + Times(s.h, SumK(Drives(s.inputs))) / C_AIR
  }

  /** The step divides by nothing that is zero. */
  predicate Solvable(s: Step) {
    Mapped(s.inputs) && Stiffness(s) != 0.0
  }

  /** The heat the step's sources bring in. */
  function Heat(s: Step): real
    requires Mapped(s.inputs)
  {
    SumKT(Drives(s.inputs)) + s.inputs.power
  }

  /** Implicit Euler. */
  function Next(ta: real, s: Step): real
    requires Solvable(s)
  {
    (ta + Times(s.h, Heat(s)) / C_AIR) / Stiffness(s)
  }

  predicate AllSolvable(steps: seq<Step>) {
    forall s :: s in steps ==> Solvable(s)
  }

  function Air(ta: real, steps: seq<Step>): real
    requires AllSolvable(steps)
  {
    if steps == [] then ta else Next(Air(ta, steps[..|steps| - 1]), steps[|steps| - 1])
  }

  function SquaredError(ta: real, steps: seq<Step>): real
    requires AllSolvable(steps)
  {
    if steps == [] then 0.0
    else
      var e := Air(ta, steps) - steps[|steps| - 1].measured;
      SquaredError(ta, steps[..|steps| - 1]) + Times(e, e)
  }

  lemma {:induction false} SquaredErrorNonNegative(ta: real, steps: seq<Step>)
    requires AllSolvable(steps)
    ensures SquaredError(ta, steps) >= 0.0
  {
    if steps != [] {
      SquaredErrorNonNegative(ta, steps[..|steps| - 1]);
      SquareNonNegative(Air(ta, steps) - steps[|steps| - 1].measured);
    }
  }

  lemma StiffnessAtLeastOne(s: Step)
    requires InBounds(s.inputs) && s.h >= 0.0
    ensures Solvable(s) && Stiffness(s) >= 1.0
  {
    DrivesPassive(s.inputs);
    SumNonNegative(Drives(s.inputs));
    ProductNonNegative(s.h, SumK(Drives(s.inputs)));
    QuotientNonNegative(Times(s.h, SumK(Drives(s.inputs))), C_AIR);
  }

  /** Parameters inside their bounds and time running forward: then every step is solvable. */
  predicate AllInBounds(steps: seq<Step>): (all: bool)
    ensures all ==> AllSolvable(steps)
  {
    InBoundsAreSolvable(steps);
    forall s :: s in steps ==> InBounds(s.inputs) && s.h >= 0.0
  }

  lemma InBoundsAreSolvable(steps: seq<Step>)
    ensures (forall s :: s in steps ==> InBounds(s.inputs) && s.h >= 0.0) ==> AllSolvable(steps)
  {
    forall s | s in steps && InBounds(s.inputs) && s.h >= 0.0 ensures Solvable(s) {
      StiffnessAtLeastOne(s);
    }
  }

  // -- what the rollout keeps -----------------------------------------------------------

  lemma Shrinks(a: real, b: real, m: real, d: real)
    requires d >= 1.0
    ensures (a + m) / d - (b + m) / d == (a - b) / d
    ensures a <= b ==> (a + m) / d <= (b + m) / d && (b - a) / d <= b - a
  {
    QuotientOfDifference(a + m, b + m, d);
    if a <= b {
      QuotientNonNegative(b - a, d);
      QuotientTimes(b - a, d);
      AtLeastOne((b - a) / d, d);
    }
  }

  lemma QuotientOfDifference(x: real, y: real, d: real)
    requires d != 0.0
    ensures x / d - y / d == (x - y) / d
  {
    QuotientTimes(x, d);
    QuotientTimes(y, d);
    assert (x / d - y / d) * d == x - y;
    Divide(d, x / d - y / d, x - y);
  }

  lemma AtLeastOne(q: real, d: real)
    requires q >= 0.0 && d >= 1.0
    ensures q <= Times(q, d)
  {
    ProductNonNegative(q, d - 1.0);
  }

  /** The product of the stiffnesses. */
  function Contraction(steps: seq<Step>): real
    requires AllSolvable(steps)
  {
    if steps == [] then 1.0
    else
      var s := steps[|steps| - 1];
      assert s in steps;
      Times(Contraction(steps[..|steps| - 1]), Stiffness(s))
  }

  lemma {:induction false} ContractionAtLeastOne(steps: seq<Step>)
    requires AllInBounds(steps)
    ensures Contraction(steps) >= 1.0
  {
    if steps != [] {
      var rest, s := steps[..|steps| - 1], steps[|steps| - 1];
      ContractionAtLeastOne(rest);
      StiffnessAtLeastOne(s);
      AtLeastOne(Contraction(rest), Stiffness(s));
    }
  }

  /** Two rollouts over the same steps are apart by their starts over the product of the
      stiffnesses, whatever the parameters. */
  lemma {:induction false} RolloutsContract(a: real, b: real, steps: seq<Step>)
    requires AllSolvable(steps)
    ensures Times(Air(b, steps) - Air(a, steps), Contraction(steps)) == b - a
  {
    if steps != [] {
      var rest, s := steps[..|steps| - 1], steps[|steps| - 1];
      assert s in steps;
      RolloutsContract(a, b, rest);
      StepContracts(Air(a, rest), Air(b, rest), s, Contraction(rest), b - a);
    }
  }

  /** Inside the bounds they keep their order. */
  lemma {:induction false} RolloutsKeepOrder(a: real, b: real, steps: seq<Step>)
    requires AllInBounds(steps) && a <= b
    ensures Air(a, steps) <= Air(b, steps)
  {
    if steps != [] {
      var rest, s := steps[..|steps| - 1], steps[|steps| - 1];
      RolloutsKeepOrder(a, b, rest);
      StiffnessAtLeastOne(s);
      Shrinks(Air(a, rest), Air(b, rest), Times(s.h, Heat(s)) / C_AIR, Stiffness(s));
    }
  }

  /** And no further step moves them apart again. */
  lemma NeverMoveApart(a: real, b: real, steps: seq<Step>, s: Step)
    requires AllInBounds(steps) && AllInBounds([s]) && a <= b
    ensures AllInBounds(steps + [s])
    ensures 0.0 <= Air(b, steps + [s]) - Air(a, steps + [s]) <= Air(b, steps) - Air(a, steps)
  {
    var all := steps + [s];
    assert all[..|steps|] == steps && s in [s];
    RolloutsKeepOrder(a, b, steps);
    StiffnessAtLeastOne(s);
    Shrinks(Air(a, steps), Air(b, steps), Times(s.h, Heat(s)) / C_AIR, Stiffness(s));
  }

  lemma StepContracts(x: real, y: real, s: Step, c: real, v: real)
    requires Solvable(s) && Times(y - x, c) == v
    ensures Times(Next(y, s) - Next(x, s), Times(c, Stiffness(s))) == v
  {
    var d, m := Stiffness(s), Times(s.h, Heat(s)) / C_AIR;
    QuotientOfDifference(y + m, x + m, d);
    QuotientTimes(y - x, d);
    Regroup(Next(y, s) - Next(x, s), c, d, y - x);
  }

  lemma Regroup(w: real, c: real, d: real, v: real)
    requires Times(w, d) == v
    ensures Times(w, Times(c, d)) == Times(v, c)
  {
    assert w * (c * d) == (w * d) * c;
  }

  predicate Within(drives: seq<Drive>, lo: real, hi: real) {
    forall d :: d in drives ==> lo <= d.t <= hi
  }

  lemma {:induction false} HeatWithin(drives: seq<Drive>, lo: real, hi: real)
    requires Passive(drives) && Within(drives, lo, hi)
    ensures Times(lo, SumK(drives)) <= SumKT(drives) <= Times(hi, SumK(drives))
  {
    if drives != [] {
      var rest, d := drives[..|drives| - 1], drives[|drives| - 1];
      HeatWithin(rest, lo, hi);
      assert d in drives;
      Scaled(d.k, lo, d.t);
      Scaled(d.k, d.t, hi);
      Distribute(lo, SumK(rest), d.k);
      Distribute(hi, SumK(rest), d.k);
    }
  }

  lemma Scaled(k: real, x: real, y: real)
    requires k >= 0.0 && x <= y
    ensures Times(x, k) <= Times(k, y) && Times(k, x) <= Times(y, k)
  {
    ProductNonNegative(k, y - x);
  }

  lemma Distribute(x: real, a: real, b: real)
    ensures Times(x, a + b) == Times(x, a) + Times(x, b)
  {
  }

  lemma AverageWithin(ta: real, h: real, kt: real, k: real, lo: real, hi: real, m: real, d: real)
    requires lo <= ta <= hi && h >= 0.0 && Times(lo, k) <= kt <= Times(hi, k)
    requires m == Times(h, kt) / C_AIR && d == 1.0 + Times(h, k) / C_AIR && d >= 1.0
    ensures lo <= (ta + m) / d <= hi
  {
    ScaledHeat(h, Times(lo, k), kt);
    ScaledHeat(h, kt, Times(hi, k));
    StiffTimes(lo, h, k, d);
    StiffTimes(hi, h, k, d);
    Bounded(ta + m, d, lo, hi);
  }

  lemma ScaledHeat(h: real, x: real, y: real)
    requires h >= 0.0 && x <= y
    ensures Times(h, x) <= Times(h, y)
  {
    ProductNonNegative(h, y - x);
  }

  lemma StiffTimes(t: real, h: real, k: real, d: real)
    requires d == 1.0 + Times(h, k) / C_AIR
    ensures t * d == t + Times(h, Times(t, k)) / C_AIR
  {
    assert h * (t * k) == t * (h * k);
  }

  lemma Bounded(x: real, d: real, lo: real, hi: real)
    requires d >= 1.0 && lo * d <= x <= hi * d
    ensures lo <= x / d <= hi
  {
    QuotientTimes(x, d);
    var q := x / d;
    assert q * d == x;
    if q < lo {
      ProductPositive(lo - q, d);
      assert false;
    }
    if q > hi {
      ProductPositive(q - hi, d);
      assert false;
    }
  }

  /** Without a constant heat input the air stays between the coldest and the warmest of its
      start and everything that drives it. */
  lemma {:induction false} AirStaysWithin(ta: real, steps: seq<Step>, lo: real, hi: real)
    requires AllInBounds(steps) && lo <= ta <= hi
    requires forall s :: s in steps ==> s.inputs.power == 0.0 && Mapped(s.inputs) && Within(Drives(s.inputs), lo, hi)
    ensures lo <= Air(ta, steps) <= hi
  {
    if steps != [] {
      var rest, s := steps[..|steps| - 1], steps[|steps| - 1];
      AirStaysWithin(ta, rest, lo, hi);
      var drives := Drives(s.inputs);
      DrivesPassive(s.inputs);
      StiffnessAtLeastOne(s);
      HeatWithin(drives, lo, hi);
      AverageWithin(Air(ta, rest), s.h, SumKT(drives), SumK(drives), lo, hi,
                    Times(s.h, SumKT(drives)) / C_AIR, Stiffness(s));
    }
  }

  // -- the loops ---------------------------------------------------------------------------

  method ZoneFlow(groups: seq<Group>) returns (flow: real, share: real)
    ensures flow == Flow(groups) && share == Share(groups)
  {
    var total := 0.0;
    flow := 0.0;
    for i := 0 to |groups|
      invariant flow == Flow(groups[..i]) && total == Effectiveness(groups[..i])
    {
      assert groups[..i + 1][..i] == groups[..i];
      var g := groups[i];
      total := total + g.e;
      if g.prior > 0.0 {
        flow := flow + g.e * g.phi / g.prior;
      }
    }
    assert groups[..|groups|] == groups;
    share := if total > FLOW_EPS then flow / total else 0.0;
  }

  lemma SumsExtend(drives: seq<Drive>, d: Drive)
    ensures SumK(drives + [d]) == SumK(drives) + d.k
    ensures SumKT(drives + [d]) == SumKT(drives) + Times(d.k, d.t)
  {
    assert (drives + [d])[..|drives|] == drives;
  }

  /** The conductances and the heat of all sources, in the order they are listed. */
  method Totals(inp: Inputs) returns (kTotal: real, mTotal: real)
    requires Mapped(inp)
    ensures kTotal == SumK(Drives(inp)) && mTotal == SumKT(Drives(inp)) + inp.power
  {
    var flow, share := ZoneFlow(inp.groups);
    kTotal := flow + inp.leak;
    mTotal := Times(kTotal, inp.inlet);
    ghost var done := [Drive(kTotal, inp.inlet)];
    SumsExtend([], done[0]);
    assert [] + done == done;
    for i := 0 to |inp.coupled|
      invariant done == [Drive(flow + inp.leak, inp.inlet)] + inp.coupled[..i]
      invariant kTotal == SumK(done) && mTotal == SumKT(done)
    {
      var d := inp.coupled[i];
      SumsExtend(done, d);
      kTotal := kTotal + d.k;
      mTotal := mTotal + Times(d.k, d.t);
      done := done + [d];
    }
    mTotal := mTotal + inp.power;
    ghost var before := done;
    for i := 0 to |inp.bays|
      invariant done == before + BayDrives(inp.bays[..i], share)
      invariant kTotal == SumK(done) && mTotal == SumKT(done) + inp.power
    {
      assert inp.bays[..i + 1][..i] == inp.bays[..i];
      var d := BayDrive(inp.bays[i], share);
      SumsExtend(done, d);
      kTotal := kTotal + d.k;
      mTotal := mTotal + Times(d.k, d.t);
      done := done + [d];
    }
    assert inp.bays[..|inp.bays|] == inp.bays && inp.coupled[..|inp.coupled|] == inp.coupled;
    assert done == Drives(inp);
  }

  /** One step; nothing when it would divide by zero. */
  method Advance(ta: real, s: Step) returns (next: Option<real>)
    ensures next == if Solvable(s) then Some(Next(ta, s)) else None
  {
    if !Mapped(s.inputs) {
      return None;
    }
    var kTotal, mTotal := Totals(s.inputs);
    var d := 1.0 + Times(s.h, kTotal) / C_AIR;
    assert d == Stiffness(s);
    if d == 0.0 {
      return None;
    }
    next := Some((ta + Times(s.h, mTotal) / C_AIR) / d);
  }

  /** The squared error of a rollout and the steps scored; nothing when it divides by zero. */
  method RolloutError(start: real, steps: seq<Step>) returns (r: Option<(real, nat)>)
    ensures r == if AllSolvable(steps) then Some((SquaredError(start, steps), |steps|)) else None
    ensures r.Some? ==> r.value.0 >= 0.0
  {
    var ta, err2, n := start, 0.0, 0;
    for k := 0 to |steps|
      invariant n == k && AllSolvable(steps[..k])
      invariant ta == Air(start, steps[..k]) && err2 == SquaredError(start, steps[..k])
      invariant err2 >= 0.0
    {
      assert steps[..k + 1] == steps[..k] + [steps[k]] && steps[..k + 1][..k] == steps[..k];
      var next := Advance(ta, steps[k]);
      if next.None? {
        return None;
      }
      ta := next.value;
      var e := ta - steps[k].measured;
      SquareNonNegative(e);
      err2 := err2 + Times(e, e);
      n := n + 1;
    }
    assert steps[..|steps|] == steps;
    r := Some((err2, n));
  }
}
