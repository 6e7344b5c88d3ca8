/** When refining one zone disturbs another: exactly when the two share a parameter that the
    rollouts read. A single step in which everything but that parameter's drive is as warm as
    the air tells its value from zero. */
module ZoneInterference {
  import opened RealAlgebra
  import opened AirRollout
  import opened RefineAir
  import opened ZoneError

  // -- drives that are as warm as the air, or cold -----------------------------------------

  ghost predicate HotOrCold(drives: seq<Drive>) {
    forall d :: d in drives ==> d.k >= 0.0 && (d.t == 0.0 || d.t == 1.0)
  }

  ghost predicate ColdAreIdle(drives: seq<Drive>) {
    forall d :: d in drives && d.t == 0.0 ==> d.k == 0.0
  }

  lemma {:induction false} HeatOfHotOrCold(drives: seq<Drive>)
    requires HotOrCold(drives)
    ensures 0.0 <= SumKT(drives) <= SumK(drives)
    ensures SumKT(drives) == SumK(drives) <==> ColdAreIdle(drives)
  {
    if drives != [] {
      var rest, d := drives[..|drives| - 1], drives[|drives| - 1];
      HeatOfHotOrCold(rest);
      assert d in drives && Times(d.k, d.t) == if d.t == 0.0 then 0.0 else d.k;
      assert forall e :: e in drives <==> e in rest || e == d;
    }
  }

  /** A step of one time constant that starts at 1. */
  lemma StepOfHotOrCold(s: Step, drives: seq<Drive>)
    requires Mapped(s.inputs) && s.h == C_AIR && s.inputs.power == 0.0
    requires drives == Drives(s.inputs) && HotOrCold(drives)
    ensures Solvable(s) && 0.0 < Next(1.0, s) <= 1.0
    ensures Next(1.0, s) == 1.0 <==> ColdAreIdle(drives)
  {
    HeatOfHotOrCold(drives);
    var k, kt := SumK(drives), SumKT(drives);
    assert Stiffness(s) == 1.0 + k && Heat(s) == kt;
    assert Times(s.h, Heat(s)) / C_AIR == kt;
    ShareOfOne(k, kt);
  }

  lemma ShareOfOne(k: real, kt: real)
    requires 0.0 <= kt <= k
    ensures 0.0 < (1.0 + kt) / (1.0 + k) <= 1.0
    ensures (1.0 + kt) / (1.0 + k) == 1.0 <==> kt == k
  {
    QuotientTimes(1.0 + kt, 1.0 + k);
  }

  // -- the telling step of a parameter -----------------------------------------------------

  /** A parameter two zones can share: a group's, or a coupling's. */
  datatype Lever = OfGroup(g: nat) | OfCoupling(c: nat)

  predicate Has(z: Zone, l: Lever) {
    match l
    case OfGroup(g) => g < |z.groups|
    case OfCoupling(c) => c < |z.coupled|
  }

  function KeyOf(z: Zone, l: Lever): string
    requires Has(z, l)
  {
    match l
    case OfGroup(g) => GroupKey(z.name, z.groups[g].name)
    case OfCoupling(c) => KappaKey(z.name, z.coupled[c])
  }

  /** Only what the parameter conducts to is cold. */
  function Telling(z: Zone, l: Lever, measured: real): (r: Reading)
    requires Has(z, l)
    ensures Fits(r, z) && Sane(r)
  {
    Reading(C_AIR, seq(|z.groups|, j requires 0 <= j < |z.groups| => if l == OfGroup(j) then 1.0 else 0.0),
            if l.OfGroup? then 0.0 else 1.0,
            seq(|z.coupled|, j requires 0 <= j < |z.coupled| => if l == OfCoupling(j) then 0.0 else 1.0), [], measured)
  }

  /** Groups move air, as the structure makes them. */
  predicate Regular(z: Zone) {
    forall g :: g in z.groups ==> g.prior > 0.0
  }

  /** The zone adds no heat, and a cold inlet is reached through the group only. */
  ghost predicate Quiet(theta: Theta, z: Zone, l: Lever) {
    && InTable(theta) && Value(theta, PowerKey(z.name)) == 0.0
    && (l.OfGroup? ==> Value(theta, LeakKey(z.name)) == 0.0)
  }

  lemma {:induction false} FlowOfOne(groups: seq<Group>, i: nat)
    requires i < |groups| && groups[i].prior > 0.0 && groups[i].phi == 1.0
    requires forall j :: 0 <= j < |groups| && j != i ==> groups[j].phi == 0.0
    ensures Flow(groups) == groups[i].e / groups[i].prior
  {
    var k := |groups| - 1;
    if i < k {
      FlowOfOne(groups[..k], i);
    } else {
      FlowOfNone(groups[..k]);
    }
  }

  lemma {:induction false} FlowOfNone(groups: seq<Group>)
    requires forall j :: 0 <= j < |groups| ==> groups[j].phi == 0.0
    ensures Flow(groups) == 0.0
  {
    if groups != [] {
      FlowOfNone(groups[..|groups| - 1]);
    }
  }

  lemma FirstIsCold(drives: seq<Drive>, first: Drive, rest: seq<Drive>)
    requires drives == [first] + rest && Passive(drives) && first.t == 0.0
    requires forall d :: d in rest ==> d.t == 1.0
    ensures HotOrCold(drives) && (ColdAreIdle(drives) <==> first.k == 0.0)
  {
    assert first in drives;
  }

  lemma OneIsCold(drives: seq<Drive>, first: Drive, rest: seq<Drive>, c: nat)
    requires drives == [first] + rest && Passive(drives) && first.t == 1.0 && c < |rest| && rest[c].t == 0.0
    requires forall j :: 0 <= j < |rest| && j != c ==> rest[j].t == 1.0
    ensures HotOrCold(drives) && (ColdAreIdle(drives) <==> rest[c].k == 0.0)
  {
    assert rest[c] in drives;
  }

  lemma QuotientIsZero(x: real, s: real)
    requires s > 0.0
    ensures x / s == 0.0 <==> x == 0.0
  {
    QuotientTimes(x, s);
  }

  /** The drives of a telling step. */
  lemma TellingDrives(theta: Theta, z: Zone, l: Lever, r: Reading, inp: Inputs)
    requires Regular(z) && Has(z, l) && Quiet(theta, z, l)
    requires r == Telling(z, l, r.measured) && inp == InputsOf(theta, z, r)
    ensures Mapped(inp) && HotOrCold(Drives(inp))
    ensures ColdAreIdle(Drives(inp)) <==> Value(theta, KeyOf(z, l)) == 0.0
  {
    TableIsInBounds(theta, z, r);
    DrivesPassive(inp);
    var first := Drive(Flow(inp.groups) + inp.leak, inp.inlet);
    assert Drives(inp) == [first] + inp.coupled;
    if l.OfGroup? {
      FlowOfOne(inp.groups, l.g);
      QuotientIsZero(inp.groups[l.g].e, inp.groups[l.g].prior);
      FirstIsCold(Drives(inp), first, inp.coupled);
    } else {
      OneIsCold(Drives(inp), first, inp.coupled, l.c);
    }
  }

  function TellingChunk(z: Zone, l: Lever, measured: real): (c: Chunk)
    requires Has(z, l)
    ensures Recorded([c], z)
  {
    Chunk(1.0, [Telling(z, l, measured)])
  }

  /** Where the step ends, and the error it makes. */
  lemma TellingError(theta: Theta, z: Zone, l: Lever, measured: real) returns (air: real)
    requires Regular(z) && Has(z, l) && Quiet(theta, z, l)
    ensures 0.0 < air <= 1.0 && (air == 1.0 <==> Value(theta, KeyOf(z, l)) == 0.0)
    ensures TotalError(theta, z, [TellingChunk(z, l, measured)]) == Times(air - measured, air - measured)
  {
    var c, r := TellingChunk(z, l, measured), Telling(z, l, measured);
    var inp := InputsOf(theta, z, r);
    TellingDrives(theta, z, l, r, inp);
    var s := Step(C_AIR, inp, measured);
    StepOfHotOrCold(s, Drives(inp));
    air := Next(1.0, s);
    var steps := StepsOf(theta, z, c.readings);
    assert steps == [s];
    OneStep(steps, s, measured);
    assert [c][..0] == [];
  }

  lemma OneStep(steps: seq<Step>, s: Step, measured: real)
    requires steps == [s] && Solvable(s) && s.measured == measured
    ensures AllSolvable(steps)
    ensures SquaredError(1.0, steps) == Times(Next(1.0, s) - measured, Next(1.0, s) - measured)
  {
    assert steps[..0] == [];
    assert Air(1.0, steps[..0]) == 1.0 && SquaredError(1.0, steps[..0]) == 0.0;
    assert Air(1.0, steps) == Next(1.0, s);
  }

  lemma Squares(y: real)
    requires 0.0 < y <= 1.0
    ensures if y == 1.0 then Times(y - 1.0, y - 1.0) == 0.0 else Times(y - 1.0, y - 1.0) > 0.0
    ensures if y == 1.0 then Times(y - 0.0, y - 0.0) == 1.0 else Times(y - 0.0, y - 0.0) < 1.0
  {
    SquareNonNegative(y - 1.0);
    if y < 1.0 {
      ProductPositive(y, 1.0 - y);
      assert Times(y, 1.0 - y) == y - Times(y, y);
      assert y - 0.0 == y;
    }
  }

  /** Measured at 1 the error is 0 exactly while the parameter is. */
  lemma WarmReadingTells(theta: Theta, z: Zone, l: Lever)
    requires Regular(z) && Has(z, l) && Quiet(theta, z, l)
    ensures var e := TotalError(theta, z, [TellingChunk(z, l, 1.0)]);
      if Value(theta, KeyOf(z, l)) == 0.0 then e == 0.0 else e > 0.0
  {
    var y := TellingError(theta, z, l, 1.0);
    Squares(y);
  }

  /** Measured at 0 it is 1 exactly then, and otherwise less. */
  lemma ColdReadingTells(theta: Theta, z: Zone, l: Lever)
    requires Regular(z) && Has(z, l) && Quiet(theta, z, l)
    ensures var e := TotalError(theta, z, [TellingChunk(z, l, 0.0)]);
      if Value(theta, KeyOf(z, l)) == 0.0 then e == 1.0 else e < 1.0
  {
    var y := TellingError(theta, z, l, 0.0);
    Squares(y);
  }

  // -- which parameters two zones share ----------------------------------------------------

  predicate Starts(key: string, a: char, b: char) {
    |key| >= 2 && key[0] == a && key[1] == b
  }

  lemma NamesStart(zone: string, x: string, y: string)
    ensures Starts(GroupKey(zone, x), 'E', '.') && Starts(SplitKey(zone, Split(x, y)), 'E', 's')
    ensures Starts(LeakKey(zone), 'l', 'e') && Starts(KappaKey(zone, x), 'k', 'a')
    ensures Starts(PowerKey(zone), 'p', '_')
  {
  }

  /** The first two letters of a parameter's name say its kind. */
  lemma KindOfKey(z: Zone, key: string)
    requires key in AirKeys(z)
    ensures key in GroupKeys(z) ==> Starts(key, 'E', '.')
    ensures key in SplitKeys(z) ==> Starts(key, 'E', 's')
    ensures key == LeakKey(z.name) ==> Starts(key, 'l', 'e')
    ensures key in KappaKeys(z) ==> Starts(key, 'k', 'a')
    ensures key == PowerKey(z.name) ==> Starts(key, 'p', '_')
  {
    NamesStart(z.name, "", "");
    if key in GroupKeys(z) {
      var i :| 0 <= i < |z.groups| && key == GroupKeys(z)[i];
      NamesStart(z.name, z.groups[i].name, "");
    }
    if key in SplitKeys(z) {
      var i :| 0 <= i < |z.splits| && key == SplitKeys(z)[i];
      NamesStart(z.name, z.splits[i].group, z.splits[i].channel);
    }
    if key in KappaKeys(z) {
      var i :| 0 <= i < |z.coupled| && key == KappaKeys(z)[i];
      NamesStart(z.name, z.coupled[i], "");
    }
  }

  lemma LeakTellsZone(x: string, y: string)
    requires LeakKey(x) == LeakKey(y)
    ensures x == y
  {
    assert LeakKey(x)[5..] == x && LeakKey(y)[5..] == y;
  }

  lemma PowerTellsZone(x: string, y: string)
    requires PowerKey(x) == PowerKey(y)
    ensures x == y
  {
    assert PowerKey(x)[6..] == x && PowerKey(y)[6..] == y;
  }

  /** A zone's own leak and power are never another's. */
  lemma OwnKeysNotShared(z: Zone, other: Zone)
    requires z.name != other.name
    ensures LeakKey(z.name) !in AirKeys(other) && PowerKey(z.name) !in AirKeys(other)
  {
    NamesStart(z.name, "", "");
    if LeakKey(z.name) in AirKeys(other) {
      KindOfKey(other, LeakKey(z.name));
      LeakTellsZone(z.name, other.name);
    }
    if PowerKey(z.name) in AirKeys(other) {
      KindOfKey(other, PowerKey(z.name));
      PowerTellsZone(z.name, other.name);
    }
  }

  /** What two zones share is a group's parameter in both or a coupling's in both. */
  lemma SharedLevers(z: Zone, other: Zone, key: string) returns (l: Lever, m: Lever)
    requires z.name != other.name && key in ReadKeys(z) && key in AirKeys(other)
    ensures Has(z, l) && Has(other, m) && KeyOf(z, l) == key == KeyOf(other, m)
    ensures l.OfGroup? <==> m.OfGroup?
  {
    OwnKeysNotShared(z, other);
    ReadKeysAreAirKeys(z, key);
    KindOfKey(z, key);
    KindOfKey(other, key);
    NamesStart(other.name, "", "");
    if key in GroupKeys(z) {
      var i :| 0 <= i < |z.groups| && key == GroupKeys(z)[i];
      var j :| 0 <= j < |other.groups| && key == GroupKeys(other)[j];
      l, m := OfGroup(i), OfGroup(j);
    } else {
      var i :| 0 <= i < |z.coupled| && key == KappaKeys(z)[i];
      var j :| 0 <= j < |other.coupled| && key == KappaKeys(other)[j];
      l, m := OfCoupling(i), OfCoupling(j);
    }
  }

  // -- a zone whose refinement moves the parameter -------------------------------------------

  lemma LeverSpec(z: Zone, l: Lever)
    requires Has(z, l)
    ensures SpecOf(KeyOf(z, l)).lo == 0.0 && SpecOf(KeyOf(z, l)).hi >= 1.0 && SpecOf(KeyOf(z, l)).scale == 1.0
  {
    PrefixesKept(z);
    match l
    case OfGroup(g) => NamesStart(z.name, z.groups[g].name, "");
    case OfCoupling(c) => NamesStart(z.name, z.coupled[c], "");
  }

  lemma ZeroIsInTable(z: Zone, key: string)
    requires key in AirKeys(z)
    ensures SpecOf(key).lo <= 0.0 <= SpecOf(key).hi
  {
    KindOfKey(z, key);
  }

  /** How much of a zone's parameters is refined up to the lever and a quiet zone keeps. */
  function Upto(z: Zone, l: Lever): (n: nat)
    requires Has(z, l)
    ensures n <= |AirKeys(z)|
  {
    if l.OfGroup? then |z.groups| else |AirKeys(z)| - 1
  }

  lemma LeverAmong(z: Zone, l: Lever)
    requires Has(z, l)
    ensures var keys, n := AirKeys(z), Upto(z, l);
      && KeyOf(z, l) in keys[..n] && KeyOf(z, l) !in keys[n..]
      && PowerKey(z.name) !in keys[..n] && (l.OfGroup? ==> LeakKey(z.name) !in keys[..n])
  {
    var keys, n := AirKeys(z), Upto(z, l);
    NamesStart(z.name, "", "");
    forall key | key in keys
      ensures key in GroupKeys(z) ==> Starts(key, 'E', '.')
      ensures key in SplitKeys(z) ==> Starts(key, 'E', 's')
      ensures key in KappaKeys(z) ==> Starts(key, 'k', 'a')
    {
      KindOfKey(z, key);
    }
    if l.OfGroup? {
      assert keys[..n] == GroupKeys(z) && GroupKeys(z)[l.g] == KeyOf(z, l);
      assert keys[n..] == SplitKeys(z) + [LeakKey(z.name)] + KappaKeys(z) + [PowerKey(z.name)];
    } else {
      assert keys[..n] == GroupKeys(z) + SplitKeys(z) + [LeakKey(z.name)] + KappaKeys(z);
      assert KappaKeys(z)[l.c] == KeyOf(z, l) && keys[n..] == [PowerKey(z.name)];
    }
  }

  /** Later turns of other keys leave a parameter alone. */
  lemma {:induction false} SweptFrame(theta: Theta, keys: seq<string>, specs: map<string, Spec>, fracs: seq<real>,
                                      err: Error, n: nat, key: string)
    requires Ready(theta, keys, specs) && n <= |keys| && key in theta && key !in keys[n..]
    ensures Ready(theta, keys[..n], specs)
    ensures Swept(theta, keys, specs, fracs, err)[key] == Swept(theta, keys[..n], specs, fracs, err)[key]
    decreases |keys|
  {
    if n == |keys| {
      assert keys[..n] == keys;
    } else {
      var k := |keys| - 1;
      assert keys[n..][k - n] == keys[k] && keys[..k][..n] == keys[..n];
      assert keys[..k][n..] == keys[n..][..k - n];
      SweptFrame(theta, keys[..k], specs, fracs, err, n, key);
    }
  }

  /** A table of zeros with the zone's parameters. */
  ghost predicate Blank(theta: Theta, z: Zone) {
    && InTable(theta) && (forall key :: key in theta ==> theta[key] == 0.0)
    && forall key :: key in AirKeys(z) ==> key in theta
  }

  lemma SweptStaysInTable(theta: Theta, keys: seq<string>, fracs: seq<real>, err: Error)
    requires InTable(theta) && Ready(theta, keys, SpecsFor(theta.Keys))
    ensures InTable(Swept(theta, keys, SpecsFor(theta.Keys), fracs, err))
  {
    SweptResult(theta, keys, SpecsFor(theta.Keys), fracs, err);
  }

  const FRAC := 0.15

  lemma FirstStep(theta: Theta, z: Zone, l: Lever, key: string, err: Error)
    requires Regular(z) && Has(z, l) && Blank(theta, z) && key == KeyOf(z, l) && key in theta
    requires err == ErrorOf(Problem(z, [TellingChunk(z, l, 0.0)]))
    ensures err(theta) == 1.0 && !OptimalAt(theta, key, SpecOf(key), Steps(FRAC), err)
  {
    LeverSpec(z, l);
    ColdReadingTells(theta, z, l);
    var cand := Candidate(theta[key], FRAC, SpecOf(key));
    var moved := Moved(theta, key, cand);
    CandidateStaysInTable(theta, key, FRAC);
    OtherKeysQuiet(theta, moved, z, l, key);
    ColdReadingTells(moved, z, l);
    assert Steps(FRAC)[3] == FRAC;
  }

  lemma OtherKeysQuiet(theta: Theta, moved: Theta, z: Zone, l: Lever, key: string)
    requires Has(z, l) && key == KeyOf(z, l) && Blank(theta, z) && InTable(moved) && key in theta
    requires moved.Keys == theta.Keys && forall k :: k in theta && k != key ==> moved[k] == theta[k]
    ensures Quiet(moved, z, l)
  {
    LeverAmong(z, l);
    NamesStart(z.name, "", "");
    match l
    case OfGroup(g) => NamesStart(z.name, z.groups[g].name, "");
    case OfCoupling(c) => NamesStart(z.name, z.coupled[c], "");
  }

  /** Nothing but keys of the list has changed, and the zone stays quiet. */
  lemma PassStaysQuiet(theta: Theta, t: Theta, z: Zone, l: Lever, keys: seq<string>)
    requires Has(z, l) && Blank(theta, z) && InTable(t) && Agree(t, theta, keys)
    requires PowerKey(z.name) !in keys && (l.OfGroup? ==> LeakKey(z.name) !in keys)
    ensures Quiet(t, z, l)
  {
    assert LeakKey(z.name) in AirKeys(z) && PowerKey(z.name) in AirKeys(z);
  }

  /** One pass over the zone's parameters moves this one up from zero. */
  lemma PassMoves(theta: Theta, z: Zone, l: Lever, err: Error, r: Theta)
    requires Regular(z) && Has(z, l) && Blank(theta, z) && Ready(theta, AirKeys(z), SpecsFor(theta.Keys))
    requires err == ErrorOf(Problem(z, [TellingChunk(z, l, 0.0)]))
    requires r == Swept(theta, AirKeys(z), SpecsFor(theta.Keys), Steps(FRAC), err)
    ensures KeyOf(z, l) in r && r[KeyOf(z, l)] > 0.0
  {
    var keys, n, key, specs, fracs := AirKeys(z), Upto(z, l), KeyOf(z, l), SpecsFor(theta.Keys), Steps(FRAC);
    LeverAmong(z, l);
    LeverSpec(z, l);
    assert key in keys;
    SweptFrame(theta, keys, specs, fracs, err, n, key);
    var t := Swept(theta, keys[..n], specs, fracs, err);
    SweptResult(theta, keys[..n], specs, fracs, err);
    SweptStaysInTable(theta, keys[..n], fracs, err);
    PassStaysQuiet(theta, t, z, l, keys[..n]);
    FirstStep(theta, z, l, key, err);
    ColdReadingTells(t, z, l);
    assert specs[key] == SpecOf(key);
  }

  // -- a whole refinement ------------------------------------------------------------------

  ghost predicate Distinct(zones: seq<Zone>) {
    forall i, j :: 0 <= i < |zones| && 0 <= j < |zones| && i != j ==> zones[i].name != zones[j].name
  }

  /** What the structure guarantees: different names, groups that move air. */
  ghost predicate Structured(zones: seq<Zone>) {
    Distinct(zones) && forall z :: z in zones ==> Regular(z)
  }

  /** Problems on these zones, with sane recordings. */
  ghost predicate Poses(problems: seq<Problem>, zones: seq<Zone>) {
    Zones(problems) == zones && forall p :: p in problems ==> SaneProblem(p)
  }

  ghost predicate NoneRaised(theta0: Theta, problems: seq<Problem>, maxFrac: real, sweeps: nat)
    requires Complete(theta0, problems)
  {
    forall p :: p in problems ==> NotRaised(p, Outcome(theta0, problems, maxFrac, sweeps), theta0)
  }

  /** No refinement of these zones, from any table inside its bounds, raises an error. */
  ghost predicate Safe(zones: seq<Zone>) {
    forall theta0, problems, maxFrac, sweeps ::
      Poses(problems, zones) && Complete(theta0, problems) && InTable(theta0) ==>
        NoneRaised(theta0, problems, maxFrac, sweeps)
  }

  lemma ApartIsSafe(zones: seq<Zone>)
    requires KeysApart(zones)
    ensures Safe(zones)
  {
    forall theta0, problems, maxFrac, sweeps
      | Poses(problems, zones) && Complete(theta0, problems) && InTable(theta0)
      ensures NoneRaised(theta0, problems, maxFrac, sweeps)
    {
      forall p | p in problems ensures NotRaised(p, Outcome(theta0, problems, maxFrac, sweeps), theta0) {
        OutcomeIsNoWorse(theta0, problems, maxFrac, sweeps, p);
      }
    }
  }

  /** Zone `a` is measured where a blank table puts it, zone `b` elsewhere, the others nowhere. */
  ghost function Conflict(zones: seq<Zone>, a: nat, l: Lever, b: nat, m: Lever): (problems: seq<Problem>)
    requires a < b < |zones| && Has(zones[a], l) && Has(zones[b], m)
    ensures |problems| == |zones|
  {
    seq(|zones|, k requires 0 <= k < |zones| =>
          Problem(zones[k], if k == a then [TellingChunk(zones[a], l, 1.0)]
                            else if k == b then [TellingChunk(zones[b], m, 0.0)] else []))
  }

  lemma TellingIsSane(z: Zone, l: Lever, measured: real)
    requires Has(z, l)
    ensures SaneProblem(Problem(z, [TellingChunk(z, l, measured)])) && SaneProblem(Problem(z, []))
  {
  }

  lemma ConflictPoses(zones: seq<Zone>, a: nat, l: Lever, b: nat, m: Lever, problems: seq<Problem>)
    requires a < b < |zones| && Has(zones[a], l) && Has(zones[b], m) && problems == Conflict(zones, a, l, b, m)
    ensures Poses(problems, zones)
  {
    TellingIsSane(zones[a], l, 1.0);
    TellingIsSane(zones[b], m, 0.0);
    forall p | p in problems ensures SaneProblem(p) {
      var k :| 0 <= k < |problems| && p == problems[k];
      if k != a && k != b {
        assert p == Problem(zones[k], []);
      }
    }
  }

  ghost function AllKeys(zones: seq<Zone>): set<string> {
    set z, k | z in zones && k in AirKeys(z) :: k
  }

  ghost function BlankTable(zones: seq<Zone>): Theta {
    map key | key in AllKeys(zones) :: 0.0
  }

  lemma BlankTableIsBlank(zones: seq<Zone>, z: Zone)
    requires z in zones
    ensures Blank(BlankTable(zones), z)
  {
    var theta := BlankTable(zones);
    forall key | key in theta ensures SpecOf(key).lo <= theta[key] <= SpecOf(key).hi {
      var w :| w in zones && key in AirKeys(w);
      ZeroIsInTable(w, key);
    }
  }

  /** A refinement of a zone whose error is 0 leaves the table as it is. */
  lemma ContentZoneStays(theta: Theta, p: Problem, fracs: seq<real>, sweeps: nat)
    requires Posed(p) && Ready(theta, AirKeys(p.zone), SpecsFor(theta.Keys)) && ErrorOf(p)(theta) == 0.0
    ensures Refined(theta, AirKeys(p.zone), SpecsFor(theta.Keys), fracs, sweeps, ErrorOf(p)) == theta
  {
    var r := Refined(theta, AirKeys(p.zone), SpecsFor(theta.Keys), fracs, sweeps, ErrorOf(p));
    RefinedResult(theta, AirKeys(p.zone), SpecsFor(theta.Keys), fracs, sweeps, ErrorOf(p));
    TotalErrorNonNegative(r, p.zone, p.chunks);
  }

  ghost predicate Idle(theta: Theta, z: Block, specs: map<string, Spec>, fracs: seq<real>, sweeps: nat)
    requires Ready(theta, z.keys, specs)
  {
    z.scored ==> Refined(theta, z.keys, specs, fracs, sweeps, z.err) == theta
  }

  lemma {:induction false} IdleBlocksStay(theta: Theta, zones: seq<Block>, specs: map<string, Spec>, fracs: seq<real>,
                                          sweeps: nat)
    requires AllReady(theta, zones, specs) && forall z :: z in zones ==> Idle(theta, z, specs, fracs, sweeps)
    ensures RefinedAll(theta, zones, specs, fracs, sweeps) == theta
  {
    if zones != [] {
      var k := |zones| - 1;
      IdleBlocksStay(theta, zones[..k], specs, fracs, sweeps);
      assert zones[k] in zones && Idle(theta, zones[k], specs, fracs, sweeps);
    }
  }

  lemma {:induction false} UnscoredBlocksStay(theta: Theta, zones: seq<Block>, after: seq<Block>,
                                              specs: map<string, Spec>, fracs: seq<real>, sweeps: nat)
    requires AllReady(theta, zones + after, specs) && AllReady(theta, zones, specs)
    requires forall z :: z in after ==> !z.scored
    ensures RefinedAll(theta, zones + after, specs, fracs, sweeps) == RefinedAll(theta, zones, specs, fracs, sweeps)
  {
    if after == [] {
      assert zones + after == zones;
    } else {
      var k, all := |after| - 1, zones + after;
      assert all[..|all| - 1] == zones + after[..k] && all[|all| - 1] == after[k];
      assert after[k] in after;
      UnscoredBlocksStay(theta, zones, after[..k], specs, fracs, sweeps);
    }
  }

  /** One block at work among idle ones before it and unscored ones after it. */
  lemma OneBlockWorks(theta: Theta, before: seq<Block>, z: Block, after: seq<Block>, all: seq<Block>,
                      specs: map<string, Spec>, fracs: seq<real>, sweeps: nat)
    requires all == before + [z] + after && AllReady(theta, all, specs) && z.scored
    requires forall y :: y in before ==> Ready(theta, y.keys, specs) && Idle(theta, y, specs, fracs, sweeps)
    requires forall y :: y in after ==> !y.scored
    ensures Ready(theta, z.keys, specs)
    ensures RefinedAll(theta, all, specs, fracs, sweeps) == Refined(theta, z.keys, specs, fracs, sweeps, z.err)
  {
    var upto := before + [z];
    assert z in all && upto[..|before|] == before;
    IdleBlocksStay(theta, before, specs, fracs, sweeps);
    UnscoredBlocksStay(theta, upto, after, specs, fracs, sweeps);
  }

  lemma OnePass(theta: Theta, keys: seq<string>, specs: map<string, Spec>, fracs: seq<real>, err: Error)
    requires Ready(theta, keys, specs)
    ensures Refined(theta, keys, specs, fracs, 1, err) == Swept(theta, keys, specs, fracs, err)
  {
    assert Refined(Swept(theta, keys, specs, fracs, err), keys, specs, fracs, 0, err)
        == Swept(theta, keys, specs, fracs, err);
  }

  lemma ContentBlockIsIdle(theta: Theta, p: Problem, z: Block, specs: map<string, Spec>, fracs: seq<real>, sweeps: nat)
    requires Posed(p) && z == ToRefine(p) && specs == SpecsFor(theta.Keys) && Ready(theta, z.keys, specs)
    requires p.chunks == [] || ErrorOf(p)(theta) == 0.0
    ensures Idle(theta, z, specs, fracs, sweeps)
  {
    if p.chunks != [] {
      ContentZoneStays(theta, p, fracs, sweeps);
    }
  }

  /** Among problems that are content before `b` and without chunks after it, only `b` moves
      the table. */
  lemma OnlyOneMoves(theta: Theta, problems: seq<Problem>, b: nat, maxFrac: real, sweeps: nat)
    requires Complete(theta, problems) && b < |problems| && problems[b].chunks != []
    requires forall k :: 0 <= k < b ==> problems[k].chunks == [] || ErrorOf(problems[k])(theta) == 0.0
    requires forall k :: b < k < |problems| ==> problems[k].chunks == []
    ensures Ready(theta, AirKeys(problems[b].zone), SpecsFor(theta.Keys))
    ensures Outcome(theta, problems, maxFrac, sweeps)
         == Refined(theta, AirKeys(problems[b].zone), SpecsFor(theta.Keys), Steps(maxFrac), sweeps,
                    ErrorOf(problems[b]))
  {
    CompleteIsReady(theta, problems);
    var all, specs, fracs := AllToRefine(problems), SpecsFor(theta.Keys), Steps(maxFrac);
    forall k | 0 <= k < b ensures Ready(theta, all[k].keys, specs) && Idle(theta, all[k], specs, fracs, sweeps) {
      assert all[k] in all;
      ContentBlockIsIdle(theta, problems[k], all[k], specs, fracs, sweeps);
    }
    SplitAt(all, b);
    OneBlockWorks(theta, all[..b], all[b], all[b + 1..], all, specs, fracs, sweeps);
  }

  lemma SplitAt<T>(s: seq<T>, b: nat)
    requires b < |s|
    ensures s == s[..b] + [s[b]] + s[b + 1..]
  {
  }

  // -- the exact condition -----------------------------------------------------------------

  /** After the one pass the other zone's error is no longer 0. */
  lemma VictimSuffers(theta: Theta, r: Theta, z: Zone, l: Lever, other: Zone)
    requires Regular(z) && Has(z, l) && Blank(theta, z) && z.name != other.name
    requires InTable(r) && Agree(r, theta, AirKeys(other)) && KeyOf(z, l) in r && r[KeyOf(z, l)] > 0.0
    ensures Quiet(r, z, l) && TotalError(r, z, [TellingChunk(z, l, 1.0)]) > 0.0
  {
    OwnKeysNotShared(z, other);
    PassStaysQuiet(theta, r, z, l, AirKeys(other));
    WarmReadingTells(r, z, l);
  }

  lemma MoverMoves(theta: Theta, w: Zone, m: Lever, err: Error, r: Theta)
    requires Regular(w) && Has(w, m) && Blank(theta, w) && Ready(theta, AirKeys(w), SpecsFor(theta.Keys))
    requires err == ErrorOf(Problem(w, [TellingChunk(w, m, 0.0)]))
    requires r == Refined(theta, AirKeys(w), SpecsFor(theta.Keys), Steps(FRAC), 1, err)
    ensures InTable(r) && Agree(r, theta, AirKeys(w)) && KeyOf(w, m) in r && r[KeyOf(w, m)] > 0.0
  {
    OnePass(theta, AirKeys(w), SpecsFor(theta.Keys), Steps(FRAC), err);
    PassMoves(theta, w, m, err, r);
    SweptResult(theta, AirKeys(w), SpecsFor(theta.Keys), Steps(FRAC), err);
    SweptStaysInTable(theta, AirKeys(w), Steps(FRAC), err);
  }

  lemma BlankIsComplete(zones: seq<Zone>, problems: seq<Problem>)
    requires Poses(problems, zones)
    ensures Complete(BlankTable(zones), problems)
  {
    forall p | p in problems ensures Posed(p) && forall key :: key in AirKeys(p.zone) ==> key in BlankTable(zones) {
      var k :| 0 <= k < |problems| && p == problems[k];
      assert Zones(problems)[k] == p.zone;
    }
  }

  lemma LaterZoneDisturbs(zones: seq<Zone>, a: nat, l: Lever, b: nat, m: Lever, problems: seq<Problem>, theta: Theta)
    requires Structured(zones) && a < b < |zones| && Has(zones[a], l) && Has(zones[b], m)
    requires KeyOf(zones[a], l) == KeyOf(zones[b], m) && theta == BlankTable(zones)
    requires problems == Conflict(zones, a, l, b, m)
    ensures Poses(problems, zones) && Complete(theta, problems) && InTable(theta)
    ensures !NotRaised(problems[a], Outcome(theta, problems, FRAC, 1), theta)
  {
    var z, w := zones[a], zones[b];
    ConflictPoses(zones, a, l, b, m, problems);
    BlankIsComplete(zones, problems);
    BlankTableIsBlank(zones, z);
    BlankTableIsBlank(zones, w);
    WarmReadingTells(theta, z, l);
    OnlyOneMoves(theta, problems, b, FRAC, 1);
    var r := Outcome(theta, problems, FRAC, 1);
    MoverMoves(theta, w, m, ErrorOf(problems[b]), r);
    VictimSuffers(theta, r, z, l, w);
  }

  /** A parameter that one zone's rollouts read and another's refinement may change: there are
      sane recordings and a table inside its bounds, with every parameter of the zones, from
      which one pass over the zones raises an error. */
  lemma SharedParameterRaises(zones: seq<Zone>, i: nat, j: nat, key: string)
    returns (problems: seq<Problem>, theta: Theta, a: nat)
    requires Structured(zones) && i < |zones| && j < |zones| && i != j
    requires key in ReadKeys(zones[i]) && key in AirKeys(zones[j])
    ensures Poses(problems, zones) && Complete(theta, problems) && InTable(theta) && a < |problems|
    ensures !NotRaised(problems[a], Outcome(theta, problems, FRAC, 1), theta)
  {
    var l, m := SharedLevers(zones[i], zones[j], key);
    theta := BlankTable(zones);
    if i < j {
      a, problems := i, Conflict(zones, i, l, j, m);
      LaterZoneDisturbs(zones, i, l, j, m, problems, theta);
    } else {
      a, problems := j, Conflict(zones, j, m, i, l);
      LaterZoneDisturbs(zones, j, m, i, l, problems, theta);
    }
  }

  /** The refinement never raises an error, on these zones, exactly when no zone's rollouts read
      a parameter that another zone's refinement may change. */
  lemma SafeExactly(zones: seq<Zone>)
    requires Structured(zones)
    ensures Safe(zones) <==> KeysApart(zones)
  {
    if KeysApart(zones) {
      ApartIsSafe(zones);
    } else {
      var i, j :| 0 <= i < |zones| && 0 <= j < |zones| && i != j && !NoneShared(zones[i], zones[j]);
      var key :| key in ReadKeys(zones[i]) && key in AirKeys(zones[j]);
      var problems, theta, a := SharedParameterRaises(zones, i, j, key);
      assert !NoneRaised(theta, problems, FRAC, 1);
    }
  }

  // -- by the zones' names -----------------------------------------------------------------

  /** However they are grouped and coupled, zones of these names refine safely together. */
  ghost predicate SafeNames(x: string, y: string) {
    forall z: Zone, w: Zone :: z.name == x && w.name == y && Structured([z, w]) ==> Safe([z, w])
  }

  /** No rollout error of a zone named x reads what the refinement of a zone named y may
      change. */
  ghost predicate Independent(x: string, y: string) {
    forall p: Problem, w: Zone :: Posed(p) && p.zone.name == x && w.name == y ==> Ignores(ErrorOf(p), AirKeys(w))
  }

  /** A group for the longer name and one for the shorter that give both zones one parameter. */
  lemma ContinuedZonesShare(longer: string, shorter: string) returns (z: Zone, w: Zone, key: string)
    requires Continues(longer, shorter)
    ensures z.name == longer && w.name == shorter && Regular(z) && Regular(w)
    ensures key in ReadKeys(z) && key in AirKeys(z) && key in ReadKeys(w) && key in AirKeys(w)
  {
    z := Zone(longer, [GroupSpec("c", 1.0)], [], []);
    w := Zone(shorter, [GroupSpec(longer[|shorter| + 1..] + "." + "c", 1.0)], [], []);
    ContinuedNamesShare(longer, shorter, "c");
    key := GroupKey(longer, "c");
    assert GroupKeys(z)[0] == key == GroupKeys(w)[0];
  }

  /** A parameter that another zone's refinement may change changes the error: both tables hold
      every parameter of the zones, inside its bounds. */
  lemma SharedParameterMatters(z: Zone, w: Zone, key: string) returns (p: Problem, theta: Theta, other: Theta)
    requires Regular(z) && z.name != w.name && key in ReadKeys(z) && key in AirKeys(w)
    ensures SaneProblem(p) && p.zone == z && InTable(theta) && InTable(other) && Agree(theta, other, AirKeys(w))
    ensures forall k :: k in AirKeys(z) || k in AirKeys(w) ==> k in theta
    ensures ErrorOf(p)(theta) != ErrorOf(p)(other)
  {
    var l, m := SharedLevers(z, w, key);
    p := Problem(z, [TellingChunk(z, l, 0.0)]);
    TellingIsSane(z, l, 0.0);
    theta := BlankTable([z, w]);
    BlankTableIsBlank([z, w], z);
    BlankTableIsBlank([z, w], w);
    LeverSpec(z, l);
    other := Moved(theta, key, 1.0);
    OtherKeysQuiet(theta, other, z, l, key);
    ColdReadingTells(theta, z, l);
    ColdReadingTells(other, z, l);
  }

  lemma ContinuedNamesDepend(x: string, y: string)
    requires Continues(x, y) || Continues(y, x)
    ensures !Independent(x, y)
  {
    if Continues(x, y) {
      var z, w, key := ContinuedZonesShare(x, y);
      var p, theta, other := SharedParameterMatters(z, w, key);
    } else {
      var w, z, key := ContinuedZonesShare(y, x);
      var p, theta, other := SharedParameterMatters(z, w, key);
    }
  }

  /** Zones of two names are independent, whatever their groups and couplings, exactly when
      neither name continues the other. */
  lemma IndependentExactly(x: string, y: string)
    requires x != y
    ensures Independent(x, y) <==> !Continues(x, y) && !Continues(y, x)
  {
    if Continues(x, y) || Continues(y, x) {
      ContinuedNamesDepend(x, y);
    } else {
      forall p: Problem, w: Zone | Posed(p) && p.zone.name == x && w.name == y
        ensures Ignores(ErrorOf(p), AirKeys(w))
      {
        NamesApartNoneShared(p.zone, w);
        OtherZoneIsIgnored(p, w);
      }
    }
  }

  lemma SharingIsUnsafe(z: Zone, w: Zone, key: string)
    requires Structured([z, w]) && key in ReadKeys(z) && key in AirKeys(w)
    ensures !Safe([z, w])
  {
    var zones := [z, w];
    assert !NoneShared(zones[0], zones[1]);
    SafeExactly(zones);
  }

  /** And they refine safely together exactly then. */
  lemma SafeNamesExactly(x: string, y: string)
    requires x != y
    ensures SafeNames(x, y) <==> !Continues(x, y) && !Continues(y, x)
  {
    if Continues(x, y) {
      var z, w, key := ContinuedZonesShare(x, y);
      SharingIsUnsafe(z, w, key);
    } else if Continues(y, x) {
      var w, z, key := ContinuedZonesShare(y, x);
      SharingIsUnsafe(z, w, key);
    } else {
      forall z: Zone, w: Zone | z.name == x && w.name == y && Structured([z, w]) ensures Safe([z, w]) {
        var zones := [z, w];
        assert Apart(zones);
        ApartNamesKeysApart(zones);
        SafeExactly(zones);
      }
    }
  }

  /** Zone "a" with group "b.c" and zone "a.b" with group "c" do not. */
  lemma DottedNamesInterfere(z: Zone, w: Zone)
    requires z == Zone("a", [GroupSpec("b.c", 1.0)], [], []) && w == Zone("a.b", [GroupSpec("c", 1.0)], [], [])
    ensures !Safe([z, w])
  {
    var key := GroupKey("a", "b.c");
    assert GroupKeys(z)[0] == key && GroupKeys(w)[0] == GroupKey("a.b", "c") == key;
    assert Structured([z, w]);
    SharingIsUnsafe(z, w, key);
  }

  /** With groups "x" and "c" the same two names are harmless. */
  lemma DottedNamesMayBeSafe(z: Zone, w: Zone)
    requires z == Zone("a", [GroupSpec("x", 1.0)], [], []) && w == Zone("a.b", [GroupSpec("c", 1.0)], [], [])
    ensures !Apart([z, w]) && Safe([z, w])
  {
    var zones := [z, w];
    assert "a.b"[..2] == "a" + ".";
    assert Continues(zones[1].name, zones[0].name);
    OwnKeysNotShared(z, w);
    assert GroupKeys(z) == [GroupKey("a", "x")] && GroupKeys(w) == [GroupKey("a.b", "c")];
    assert GroupKey("a", "x")[4] == 'x' && GroupKey("a.b", "c")[4] == 'b';
    forall key | key in AirKeys(z) ensures key !in AirKeys(w) {
      KindOfKey(z, key);
      if key in AirKeys(w) {
        KindOfKey(w, key);
      }
    }
    forall key | key in ReadKeys(w) ensures key !in AirKeys(z) {
      ReadKeysAreAirKeys(w, key);
    }
    assert NoneShared(z, w) && NoneShared(w, z);
    assert KeysApart(zones);
    ApartIsSafe(zones);
  }
}
