/** The error the refinement minimises: a zone's rollouts over its chunks, as a function of the
    parameter table. Parameter names carry the zone, so the zones' errors are independent
    unless two zones' parameters share a name. */
module ZoneError {
  import opened RealAlgebra
  import opened AirRollout
  import opened RefineAir
  import opened Strings

  /** A zone of the structure: its airflow groups and their priors, its split channels, the
      zones it exchanges air with. */
  datatype Zone = Zone(name: string, groups: seq<GroupSpec>, splits: seq<Split>, coupled: seq<string>)

  datatype GroupSpec = GroupSpec(name: string, prior: real)

  datatype Split = Split(group: string, channel: string)

  // -- names of parameters ----------------------------------------------------------

  function GroupKey(zone: string, group: string): string {
    "E." + zone + "." + group
  }

  function SplitKey(zone: string, s: Split): string {
    "Es." + zone + "." + s.group + "." + s.channel
  }

  function LeakKey(zone: string): string {
    "leak." + zone
  }

  function KappaKey(zone: string, other: string): string {
    "kappa." + zone + "." + other
  }

  function PowerKey(zone: string): string {
    "p_air." + zone
  }

  function BaseKey(bay: string): string {
    "g0." + bay
  }

  function SlopeKey(bay: string): string {
    "k." + bay
  }

  function GroupKeys(z: Zone): seq<string> {
    seq(|z.groups|, i requires 0 <= i < |z.groups| => GroupKey(z.name, z.groups[i].name))
  }

  function SplitKeys(z: Zone): seq<string> {
    seq(|z.splits|, i requires 0 <= i < |z.splits| => SplitKey(z.name, z.splits[i]))
  }

  function KappaKeys(z: Zone): seq<string> {
    seq(|z.coupled|, i requires 0 <= i < |z.coupled| => KappaKey(z.name, z.coupled[i]))
  }

  /** The parameters the refinement of a zone may change. */
  function AirKeys(z: Zone): seq<string> {
    GroupKeys(z) + SplitKeys(z) + [LeakKey(z.name)] + KappaKeys(z) + [PowerKey(z.name)]
  }

  /** Those its error reads: the split of a group moves no air of its own. */
  function ReadKeys(z: Zone): seq<string> {
    GroupKeys(z) + [LeakKey(z.name)] + KappaKeys(z) + [PowerKey(z.name)]
  }

  /** The parameters refined are those of the zone's groups, splits, leak, couplings and power,
      and no others. */
  lemma AirKeysExactly(z: Zone, key: string)
    ensures key in AirKeys(z) <==>
      || (exists g :: g in z.groups && key == GroupKey(z.name, g.name))
      || (exists sp :: sp in z.splits && key == SplitKey(z.name, sp))
      || key == LeakKey(z.name) || (exists other :: other in z.coupled && key == KappaKey(z.name, other))
      || key == PowerKey(z.name)
  {
    forall i | 0 <= i < |z.groups| ensures GroupKeys(z)[i] == GroupKey(z.name, z.groups[i].name) {
    }
    if g :| g in z.groups && key == GroupKey(z.name, g.name) {
      var i :| 0 <= i < |z.groups| && z.groups[i] == g;
      assert GroupKeys(z)[i] == key;
    }
    if sp :| sp in z.splits && key == SplitKey(z.name, sp) {
      var i :| 0 <= i < |z.splits| && z.splits[i] == sp;
      assert SplitKeys(z)[i] == key;
    }
    if other :| other in z.coupled && key == KappaKey(z.name, other) {
      var i :| 0 <= i < |z.coupled| && z.coupled[i] == other;
      assert KappaKeys(z)[i] == key;
    }
  }

  // -- the error ----------------------------------------------------------------------

  /** A bay whose proximal sensor was read. */
  datatype BayReading = BayReading(bay: string, sensor: real, slope: real, offset: real)

  /** One rollout step of a recording: its length, the airflow share of each group, the inlet,
      the neighbours' air, the bays, and the zone's air at its end. */
  datatype Reading = Reading(h: real, phi: seq<real>, inlet: real, neighbours: seq<real>,
                             bays: seq<BayReading>, measured: real)

  datatype Chunk = Chunk(start: real, readings: seq<Reading>)

  predicate Fits(r: Reading, z: Zone) {
    |r.phi| == |z.groups| && |r.neighbours| == |z.coupled|
  }

  function Value(theta: Theta, key: string): real {
    if key in theta then theta[key] else 0.0
  }

  function InputsOf(theta: Theta, z: Zone, r: Reading): Inputs
    requires Fits(r, z)
  {
    Inputs(
      seq(|z.groups|, i requires 0 <= i < |z.groups| =>
            Group(Value(theta, GroupKey(z.name, z.groups[i].name)), z.groups[i].prior, r.phi[i])),
      Value(theta, LeakKey(z.name)), r.inlet,
      seq(|z.coupled|, i requires 0 <= i < |z.coupled| =>
            Drive(Value(theta, KappaKey(z.name, z.coupled[i])), r.neighbours[i])),
      Value(theta, PowerKey(z.name)),
      seq(|r.bays|, i requires 0 <= i < |r.bays| =>
            Bay(Value(theta, BaseKey(r.bays[i].bay)), Value(theta, SlopeKey(r.bays[i].bay)),
                r.bays[i].sensor, r.bays[i].slope, r.bays[i].offset)))
  }

  predicate Recorded(chunks: seq<Chunk>, z: Zone) {
    forall c :: c in chunks ==> forall r :: r in c.readings ==> Fits(r, z)
  }

  function StepsOf(theta: Theta, z: Zone, readings: seq<Reading>): (steps: seq<Step>)
    requires forall r :: r in readings ==> Fits(r, z)
    ensures |steps| == |readings|
  {
    seq(|readings|, i requires 0 <= i < |readings| =>
          Step(readings[i].h, InputsOf(theta, z, readings[i]), readings[i].measured))
  }

  /** The squared error of a chunk's rollout; 0 where it would divide by zero. */
  function ChunkError(theta: Theta, z: Zone, c: Chunk): real
    requires forall r :: r in c.readings ==> Fits(r, z)
  {
    var steps := StepsOf(theta, z, c.readings);
    if AllSolvable(steps) then SquaredError(c.start, steps) else 0.0
  }

  function TotalError(theta: Theta, z: Zone, chunks: seq<Chunk>): real
    requires Recorded(chunks, z)
  {
    if chunks == [] then 0.0
    else TotalError(theta, z, chunks[..|chunks| - 1]) + ChunkError(theta, z, chunks[|chunks| - 1])
  }

  lemma {:induction false} TotalErrorNonNegative(theta: Theta, z: Zone, chunks: seq<Chunk>)
    requires Recorded(chunks, z)
    ensures TotalError(theta, z, chunks) >= 0.0
  {
    if chunks != [] {
      var c := chunks[|chunks| - 1];
      TotalErrorNonNegative(theta, z, chunks[..|chunks| - 1]);
      var steps := StepsOf(theta, z, c.readings);
      if AllSolvable(steps) {
        SquaredErrorNonNegative(c.start, steps);
      }
    }
  }

  // -- what it reads --------------------------------------------------------------------

  /** Two tables give the zone and every bay the same parameters. */
  ghost predicate SameFor(a: Theta, b: Theta, z: Zone) {
    && (forall k :: k in ReadKeys(z) ==> Value(a, k) == Value(b, k))
    && (forall bay :: Value(a, BaseKey(bay)) == Value(b, BaseKey(bay)))
    && (forall bay :: Value(a, SlopeKey(bay)) == Value(b, SlopeKey(bay)))
  }

  lemma KeysOfZone(z: Zone)
    ensures forall i :: 0 <= i < |z.groups| ==> GroupKey(z.name, z.groups[i].name) in ReadKeys(z)
    ensures forall i :: 0 <= i < |z.coupled| ==> KappaKey(z.name, z.coupled[i]) in ReadKeys(z)
    ensures LeakKey(z.name) in ReadKeys(z) && PowerKey(z.name) in ReadKeys(z)
  {
    forall i | 0 <= i < |z.groups| ensures GroupKey(z.name, z.groups[i].name) in ReadKeys(z) {
      assert GroupKeys(z)[i] in GroupKeys(z);
    }
    forall i | 0 <= i < |z.coupled| ensures KappaKey(z.name, z.coupled[i]) in ReadKeys(z) {
      assert KappaKeys(z)[i] in KappaKeys(z);
    }
  }

  lemma InputsAgree(a: Theta, b: Theta, z: Zone, r: Reading)
    requires SameFor(a, b, z) && Fits(r, z)
    ensures InputsOf(a, z, r) == InputsOf(b, z, r)
  {
    KeysOfZone(z);
    var x, y := InputsOf(a, z, r), InputsOf(b, z, r);
    assert x.groups == y.groups;
    assert x.coupled == y.coupled;
    assert x.bays == y.bays;
  }

  /** A zone's error reads those parameters of its own and the bays', and nothing else. */
  lemma {:induction false} ErrorReads(a: Theta, b: Theta, z: Zone, chunks: seq<Chunk>)
    requires SameFor(a, b, z) && Recorded(chunks, z)
    ensures TotalError(a, z, chunks) == TotalError(b, z, chunks)
  {
    if chunks != [] {
      var c := chunks[|chunks| - 1];
      ErrorReads(a, b, z, chunks[..|chunks| - 1]);
      forall i | 0 <= i < |c.readings|
        ensures InputsOf(a, z, c.readings[i]) == InputsOf(b, z, c.readings[i])
      {
        InputsAgree(a, b, z, c.readings[i]);
      }
      assert StepsOf(a, z, c.readings) == StepsOf(b, z, c.readings);
    }
  }

  // -- whose parameter it is -------------------------------------------------------------

  const KINDS := ["E", "Es", "leak", "kappa", "p_air"]

  /** The name says the zone: kind, dot, zone, and nothing or a dot after it. */
  ghost predicate Owned(key: string, zone: string) {
    exists kind, tail :: OwnedAs(key, zone, kind, tail)
  }

  predicate OwnedAs(key: string, zone: string, kind: string, tail: string) {
    kind in KINDS && (tail == "" || tail[0] == '.') && key == kind + "." + (zone + tail)
  }

  /** A zone's name that continues another's with a dot. */
  predicate Continues(longer: string, shorter: string) {
    shorter + "." <= longer
  }

  lemma OwnedTail(zone: string, kind: string, tail: string, key: string)
    requires kind in KINDS && (tail == "" || tail[0] == '.') && key == kind + "." + zone + tail
    ensures Owned(key, zone)
  {
    Associative(kind + ".", zone, tail);
    assert OwnedAs(key, zone, kind, tail);
  }

  lemma NamedKeysAreOwned(zone: string, x: string, y: string)
    ensures Owned(GroupKey(zone, x), zone) && Owned(SplitKey(zone, Split(x, y)), zone)
    ensures Owned(LeakKey(zone), zone) && Owned(KappaKey(zone, x), zone) && Owned(PowerKey(zone), zone)
  {
    assert GroupKey(zone, x) == "E" + "." + zone + ("." + x);
    OwnedTail(zone, "E", "." + x, GroupKey(zone, x));
    assert SplitKey(zone, Split(x, y)) == "Es" + "." + zone + ("." + x + "." + y);
    OwnedTail(zone, "Es", "." + x + "." + y, SplitKey(zone, Split(x, y)));
    assert KappaKey(zone, x) == "kappa" + "." + zone + ("." + x);
    OwnedTail(zone, "kappa", "." + x, KappaKey(zone, x));
    assert LeakKey(zone) == "leak" + "." + zone + "";
    OwnedTail(zone, "leak", "", LeakKey(zone));
    assert PowerKey(zone) == "p_air" + "." + zone + "";
    OwnedTail(zone, "p_air", "", PowerKey(zone));
  }

  lemma ListedKeysAreOwned(z: Zone, key: string)
    requires key in GroupKeys(z) || key in SplitKeys(z) || key in KappaKeys(z)
    ensures Owned(key, z.name)
  {
    if key in GroupKeys(z) {
      var i :| 0 <= i < |z.groups| && key == GroupKeys(z)[i];
      NamedKeysAreOwned(z.name, z.groups[i].name, "");
    } else if key in SplitKeys(z) {
      var i :| 0 <= i < |z.splits| && key == SplitKeys(z)[i];
      NamedKeysAreOwned(z.name, z.splits[i].group, z.splits[i].channel);
    } else {
      var i :| 0 <= i < |z.coupled| && key == KappaKeys(z)[i];
      NamedKeysAreOwned(z.name, z.coupled[i], "");
    }
  }

  lemma AirKeysAreOwned(z: Zone, key: string)
    requires key in AirKeys(z)
    ensures Owned(key, z.name)
  {
    if key == LeakKey(z.name) || key == PowerKey(z.name) {
      NamedKeysAreOwned(z.name, "", "");
    } else {
      ListedKeysAreOwned(z, key);
    }
  }

  predicate NoDot(kind: string) {
    forall i :: 0 <= i < |kind| ==> kind[i] != '.'
  }

  /** A kind ends at the first dot. */
  lemma KindIsUnique(a: string, x: string, b: string, y: string)
    requires NoDot(a) && NoDot(b) && a + "." + x == b + "." + y
    ensures a == b && x == y
  {
    var key := a + "." + x;
    assert key[|a|] == '.' && key[|b|] == '.';
    assert forall i :: 0 <= i < |a| ==> key[i] == a[i];
    assert forall i :: 0 <= i < |b| ==> key[i] == b[i];
    assert |a| == |b|;
    assert a == key[..|a|] && b == key[..|b|];
    assert x == key[|a| + 1..] && y == key[|b| + 1..];
  }

  lemma KindsHaveNoDot(kind: string)
    requires kind in KINDS
    ensures NoDot(kind) && kind != "g0" && kind != "k"
  {
  }

  lemma TailsApart(x: string, t: string, y: string, u: string)
    requires x + t == y + u && (t == "" || t[0] == '.') && (u == "" || u[0] == '.')
    ensures x == y || Continues(x, y) || Continues(y, x)
  {
    var both := x + t;
    assert x == both[..|x|] && y == both[..|y|];
    if |x| < |y| {
      assert both[|x|] == t[0];
      assert x + "." == both[..|x| + 1] == y[..|x| + 1];
    } else if |y| < |x| {
      assert both[|y|] == u[0];
      assert y + "." == both[..|y| + 1] == x[..|y| + 1];
    }
  }

  /** A parameter of two zones: one zone's name continues the other's. */
  lemma OwnersRelated(key: string, x: string, y: string)
    requires Owned(key, x) && Owned(key, y)
    ensures x == y || Continues(x, y) || Continues(y, x)
  {
    var k, t :| OwnedAs(key, x, k, t);
    var l, u :| OwnedAs(key, y, l, u);
    KindsHaveNoDot(k);
    KindsHaveNoDot(l);
    KindIsUnique(k, x + t, l, y + u);
    TailsApart(x, t, y, u);
  }

  /** No bay's parameter belongs to a zone. */
  lemma BayKeysAreFree(key: string, zone: string, bay: string)
    requires Owned(key, zone)
    ensures key != BaseKey(bay) && key != SlopeKey(bay)
  {
    var k, t :| OwnedAs(key, zone, k, t);
    KindsHaveNoDot(k);
    if key == BaseKey(bay) {
      assert BaseKey(bay) == "g0" + "." + bay;
      KindIsUnique(k, zone + t, "g0", bay);
    }
    if key == SlopeKey(bay) {
      assert SlopeKey(bay) == "k" + "." + bay;
      KindIsUnique(k, zone + t, "k", bay);
    }
  }

  /** Two zones can never share a group parameter, whatever the groups are called, exactly
      when neither zone's name continues the other's. */
  lemma SharedNamesExactly(x: string, y: string)
    requires x != y
    ensures (exists g, h :: GroupKey(x, g) == GroupKey(y, h)) <==> Continues(x, y) || Continues(y, x)
  {
    if g, h :| GroupKey(x, g) == GroupKey(y, h) {
      NamedKeysAreOwned(x, g, "");
      NamedKeysAreOwned(y, h, "");
      OwnersRelated(GroupKey(x, g), x, y);
    }
    if Continues(x, y) {
      ContinuedNamesShare(x, y, "");
    }
    if Continues(y, x) {
      ContinuedNamesShare(y, x, "");
      assert GroupKey(x, y[|x| + 1..] + "." + "") == GroupKey(y, "");
    }
  }

  lemma ContinuedNamesShare(longer: string, shorter: string, group: string)
    requires Continues(longer, shorter)
    ensures GroupKey(longer, group) == GroupKey(shorter, longer[|shorter| + 1..] + "." + group)
  {
    var rest := longer[|shorter| + 1..];
    assert longer == shorter + "." + rest;
  }

  // -- the zones' errors are independent ---------------------------------------------------

  /** No two zones share a name, and none continues another's. */
  ghost predicate Apart(zones: seq<Zone>) {
    forall i, j :: 0 <= i < |zones| && 0 <= j < |zones| && i != j ==>
      zones[i].name != zones[j].name && !Continues(zones[i].name, zones[j].name)
  }

  /** A zone to refine, with the chunks that score it. */
  datatype Problem = Problem(zone: Zone, chunks: seq<Chunk>)

  predicate Posed(p: Problem) {
    Recorded(p.chunks, p.zone)
  }

  function ErrorOf(p: Problem): Error
    requires Posed(p)
  {
    (theta: Theta) => TotalError(theta, p.zone, p.chunks)
  }

  function ToRefine(p: Problem): Block
    requires Posed(p)
  {
    Block(AirKeys(p.zone), p.chunks != [], ErrorOf(p))
  }

  /** The one zone's error reads no parameter the other's refinement may change. */
  ghost predicate NoneShared(z: Zone, other: Zone) {
    forall key :: key in ReadKeys(z) ==> key !in AirKeys(other)
  }

  ghost predicate KeysApart(zones: seq<Zone>) {
    forall i, j :: 0 <= i < |zones| && 0 <= j < |zones| && i != j ==> NoneShared(zones[i], zones[j])
  }

  lemma ReadKeysAreAirKeys(z: Zone, key: string)
    requires key in ReadKeys(z)
    ensures key in AirKeys(z)
  {
  }

  lemma NamesApartNoneShared(z: Zone, other: Zone)
    requires z.name != other.name && !Continues(z.name, other.name) && !Continues(other.name, z.name)
    ensures NoneShared(z, other)
  {
    forall key | key in ReadKeys(z) ensures key !in AirKeys(other) {
      ReadKeysAreAirKeys(z, key);
      AirKeysAreOwned(z, key);
      if key in AirKeys(other) {
        AirKeysAreOwned(other, key);
        OwnersRelated(key, z.name, other.name);
        assert false;
      }
    }
  }

  /** The check on the names alone is enough. */
  lemma ApartNamesKeysApart(zones: seq<Zone>)
    requires Apart(zones)
    ensures KeysApart(zones)
  {
    forall i, j | 0 <= i < |zones| && 0 <= j < |zones| && i != j ensures NoneShared(zones[i], zones[j]) {
      NamesApartNoneShared(zones[i], zones[j]);
    }
  }

  lemma OtherZoneIsIgnored(p: Problem, other: Zone)
    requires Posed(p) && NoneShared(p.zone, other)
    ensures Ignores(ErrorOf(p), AirKeys(other))
  {
    forall a: Theta, b: Theta | Agree(a, b, AirKeys(other)) ensures ErrorOf(p)(a) == ErrorOf(p)(b) {
      forall key | key in ReadKeys(p.zone) ensures Value(a, key) == Value(b, key) {
        assert key !in AirKeys(other);
      }
      BaysAgree(a, b, other);
      ErrorReads(a, b, p.zone, p.chunks);
    }
  }

  lemma BayKeysAreNotAir(z: Zone, bay: string)
    ensures BaseKey(bay) !in AirKeys(z) && SlopeKey(bay) !in AirKeys(z)
  {
    if BaseKey(bay) in AirKeys(z) {
      AirKeysAreOwned(z, BaseKey(bay));
      BayKeysAreFree(BaseKey(bay), z.name, bay);
    }
    if SlopeKey(bay) in AirKeys(z) {
      AirKeysAreOwned(z, SlopeKey(bay));
      BayKeysAreFree(SlopeKey(bay), z.name, bay);
    }
  }

  lemma BaysAgree(a: Theta, b: Theta, z: Zone)
    requires Agree(a, b, AirKeys(z))
    ensures forall bay :: Value(a, BaseKey(bay)) == Value(b, BaseKey(bay))
    ensures forall bay :: Value(a, SlopeKey(bay)) == Value(b, SlopeKey(bay))
  {
    forall bay ensures BaseKey(bay) !in AirKeys(z) && SlopeKey(bay) !in AirKeys(z) {
      BayKeysAreNotAir(z, bay);
    }
  }

  function AllToRefine(problems: seq<Problem>): (zones: seq<Block>)
    requires forall p :: p in problems ==> Posed(p)
    ensures |zones| == |problems|
  {
    seq(|problems|, i requires 0 <= i < |problems| => ToRefine(problems[i]))
  }

  function Zones(problems: seq<Problem>): seq<Zone> {
    seq(|problems|, i requires 0 <= i < |problems| => problems[i].zone)
  }

  /** No zone's error reads another zone's air parameters. */
  lemma ZonesAreSeparate(problems: seq<Problem>)
    requires (forall p :: p in problems ==> Posed(p)) && KeysApart(Zones(problems))
    ensures Separate(AllToRefine(problems))
  {
    var zones := AllToRefine(problems);
    forall i, j | 0 <= i < |zones| && 0 <= j < |zones| && i != j ensures Ignores(zones[i].err, zones[j].keys) {
      assert Zones(problems)[i] == problems[i].zone && Zones(problems)[j] == problems[j].zone;
      OtherZoneIsIgnored(problems[i], problems[j].zone);
    }
  }

  // -- the parameter table ------------------------------------------------------------------

  /** Bounds and step scale of a parameter, by its kind. */
  function SpecOf(key: string): (spec: Spec)
    ensures spec.lo <= spec.hi
  {
    if "E." <= key then Spec(0.0, 200.0, 1.0)
    else if "Es." <= key then Spec(-200.0, 200.0, 33.0)
    else if "leak." <= key then Spec(0.0, 20.0, 1.0)
    else if "kappa." <= key then Spec(0.0, 50.0, 1.0)
    else if "p_air." <= key then Spec(-100.0, 100.0, 10.0)
    else if "g0." <= key || "k." <= key then Spec(0.05, 5.0, 1.0)
    else Spec(-0.2, 0.2, 0.01)
  }

  /** Whatever the zones, groups and bays are called, each key is bounded as its kind. */
  lemma TableByKind(zone: string, group: string, split: Split, other: string, bay: string)
    ensures SpecOf(GroupKey(zone, group)) == Spec(0.0, 200.0, 1.0)
    ensures SpecOf(SplitKey(zone, split)) == Spec(-200.0, 200.0, 33.0)
    ensures SpecOf(LeakKey(zone)) == Spec(0.0, 20.0, 1.0)
    ensures SpecOf(KappaKey(zone, other)) == Spec(0.0, 50.0, 1.0)
    ensures SpecOf(PowerKey(zone)) == Spec(-100.0, 100.0, 10.0)
    ensures SpecOf(BaseKey(bay)) == Spec(0.05, 5.0, 1.0) && SpecOf(SlopeKey(bay)) == Spec(0.05, 5.0, 1.0)
    ensures SpecOf("q_s." + bay) == Spec(-0.2, 0.2, 0.01)
  {
    assert GroupKey(zone, group) == "E." + (zone + "." + group);
    assert SplitKey(zone, split) == "Es." + (zone + "." + split.group + "." + split.channel);
    assert KappaKey(zone, other) == "kappa." + (zone + "." + other);
    assert SplitKey(zone, split)[1] == 's' && KappaKey(zone, other)[0] == 'k' && LeakKey(zone)[0] == 'l';
    assert PowerKey(zone)[0] == 'p' && BaseKey(bay)[0] == 'g' && SlopeKey(bay)[0] == 'k' && SlopeKey(bay)[1] == '.';
    assert !("kappa." <= SlopeKey(bay)) && ("q_s." + bay)[0] == 'q';
  }

  ghost predicate InTable(theta: Theta) {
    forall key :: key in theta ==> SpecOf(key).lo <= theta[key] <= SpecOf(key).hi
  }

  /** Trying a step never leaves the table. */
  lemma CandidateStaysInTable(theta: Theta, key: string, frac: real)
    requires InTable(theta) && key in theta
    ensures InTable(Moved(theta, key, Candidate(theta[key], frac, SpecOf(key))))
  {
  }

  /** Time runs forward, airflow shares are not negative, sensor maps rise. */
  predicate Sane(r: Reading) {
    && r.h >= 0.0 && (forall i :: 0 <= i < |r.phi| ==> r.phi[i] >= 0.0)
    && (forall i :: 0 <= i < |r.bays| ==> r.bays[i].slope > 0.0)
  }

  lemma TableIsInBounds(theta: Theta, z: Zone, r: Reading)
    requires InTable(theta) && Fits(r, z) && Sane(r)
    ensures InBounds(InputsOf(theta, z, r))
  {
    forall key ensures "E." <= key || "leak." <= key || "kappa." <= key || "g0." <= key || "k." <= key ==>
      Value(theta, key) >= 0.0
    {
      if key in theta {
        assert SpecOf(key).lo <= theta[key];
      }
    }
    PrefixesKept(z);
  }

  lemma PrefixesKept(z: Zone)
    ensures forall g :: "E." <= GroupKey(z.name, g)
    ensures "leak." <= LeakKey(z.name)
    ensures forall o :: "kappa." <= KappaKey(z.name, o)
    ensures forall b :: "g0." <= BaseKey(b) && "k." <= SlopeKey(b)
  {
  }

  /** So no rollout of a table inside its bounds divides by zero. */
  lemma TableIsSolvable(theta: Theta, z: Zone, c: Chunk)
    requires InTable(theta) && (forall r :: r in c.readings ==> Fits(r, z))
    requires forall r :: r in c.readings ==> Sane(r)
    ensures AllSolvable(StepsOf(theta, z, c.readings))
    ensures ChunkError(theta, z, c) == SquaredError(c.start, StepsOf(theta, z, c.readings))
  {
    var steps := StepsOf(theta, z, c.readings);
    forall s | s in steps ensures Solvable(s) {
      var i :| 0 <= i < |steps| && s == steps[i];
      TableIsInBounds(theta, z, c.readings[i]);
      StiffnessAtLeastOne(s);
    }
  }

  function SpecsFor(keys: set<string>): map<string, Spec> {
    map key | key in keys :: SpecOf(key)
  }

  // -- the refinement ------------------------------------------------------------------------

  ghost predicate NotRaised(p: Problem, theta: Theta, theta0: Theta) {
    Posed(p) && TotalError(theta, p.zone, p.chunks) <= TotalError(theta0, p.zone, p.chunks)
  }

  ghost predicate SameBay(theta: Theta, theta0: Theta, bay: string) {
    Value(theta, BaseKey(bay)) == Value(theta0, BaseKey(bay))
    && Value(theta, SlopeKey(bay)) == Value(theta0, SlopeKey(bay))
  }

  /** No rollout of the chunks divides by zero. */
  ghost predicate Runs(theta: Theta, z: Zone, chunks: seq<Chunk>) {
    Recorded(chunks, z) && forall c :: c in chunks ==> AllSolvable(StepsOf(theta, z, c.readings))
  }

  /** Then this is their squared error. */
  ghost function RolloutErrors(theta: Theta, z: Zone, chunks: seq<Chunk>): real
    requires Runs(theta, z, chunks)
  {
    if chunks == [] then 0.0
    else
      var c := chunks[|chunks| - 1];
      RolloutErrors(theta, z, chunks[..|chunks| - 1]) + SquaredError(c.start, StepsOf(theta, z, c.readings))
  }

  lemma {:induction false} TotalIsRolloutErrors(theta: Theta, z: Zone, chunks: seq<Chunk>)
    requires Runs(theta, z, chunks)
    ensures TotalError(theta, z, chunks) == RolloutErrors(theta, z, chunks)
  {
    if chunks != [] {
      TotalIsRolloutErrors(theta, z, chunks[..|chunks| - 1]);
    }
  }

  predicate SaneProblem(p: Problem) {
    Posed(p) && forall c :: c in p.chunks ==> forall r :: r in c.readings ==> Sane(r)
  }

  lemma TableRuns(theta: Theta, p: Problem)
    requires InTable(theta) && SaneProblem(p)
    ensures Runs(theta, p.zone, p.chunks)
    ensures TotalError(theta, p.zone, p.chunks) == RolloutErrors(theta, p.zone, p.chunks)
  {
    forall c | c in p.chunks ensures AllSolvable(StepsOf(theta, p.zone, c.readings)) {
      TableIsSolvable(theta, p.zone, c);
    }
    TotalIsRolloutErrors(theta, p.zone, p.chunks);
  }

  /** Both tables run, and the squared error has not risen. */
  ghost predicate RunsNoWorse(p: Problem, theta: Theta, theta0: Theta) {
    && Runs(theta, p.zone, p.chunks) && Runs(theta0, p.zone, p.chunks)
    && RolloutErrors(theta, p.zone, p.chunks) <= RolloutErrors(theta0, p.zone, p.chunks)
  }

  lemma TableRunsNoWorse(p: Problem, theta: Theta, theta0: Theta)
    requires InTable(theta) && InTable(theta0) && SaneProblem(p) && NotRaised(p, theta, theta0)
    ensures RunsNoWorse(p, theta, theta0)
  {
    TableRuns(theta, p);
    TableRuns(theta0, p);
  }

  lemma BayIsNoZones(problems: seq<Problem>, bay: string)
    requires forall p :: p in problems ==> Posed(p)
    ensures forall z :: z in AllToRefine(problems) ==> BaseKey(bay) !in z.keys && SlopeKey(bay) !in z.keys
  {
    forall z | z in AllToRefine(problems) ensures BaseKey(bay) !in z.keys && SlopeKey(bay) !in z.keys {
      var i :| 0 <= i < |problems| && z == AllToRefine(problems)[i];
      BayKeysAreNotAir(problems[i].zone, bay);
    }
  }

  lemma RefinedStaysInTable(theta: Theta, theta0: Theta)
    requires InTable(theta0) && theta.Keys == theta0.Keys && InRange(theta, theta0, SpecsFor(theta0.Keys))
    ensures InTable(theta)
  {
  }

  /** The table holds every parameter of the zones. */
  ghost predicate Complete(theta: Theta, problems: seq<Problem>) {
    forall p :: p in problems ==> Posed(p) && forall key :: key in AirKeys(p.zone) ==> key in theta
  }

  lemma CompleteIsReady(theta: Theta, problems: seq<Problem>)
    requires Complete(theta, problems)
    ensures AllReady(theta, AllToRefine(problems), SpecsFor(theta.Keys))
  {
  }

  /** What the refinement of every zone leaves. */
  ghost function Outcome(theta0: Theta, problems: seq<Problem>, maxFrac: real, sweeps: nat): Theta
    requires Complete(theta0, problems)
  {
    CompleteIsReady(theta0, problems);
    RefinedAll(theta0, AllToRefine(problems), SpecsFor(theta0.Keys), Steps(maxFrac), sweeps)
  }

  lemma OutcomeIsNoWorse(theta0: Theta, problems: seq<Problem>, maxFrac: real, sweeps: nat, p: Problem)
    requires Complete(theta0, problems) && KeysApart(Zones(problems)) && p in problems
    ensures NotRaised(p, Outcome(theta0, problems, maxFrac, sweeps), theta0)
  {
    var zones, specs := AllToRefine(problems), SpecsFor(theta0.Keys);
    CompleteIsReady(theta0, problems);
    ZonesAreSeparate(problems);
    SeparateZonesImprove(theta0, zones, specs, Steps(maxFrac), sweeps, zones);
    var i :| 0 <= i < |problems| && p == problems[i];
    assert zones[i] == ToRefine(p);
  }

  lemma OutcomeStays(theta0: Theta, problems: seq<Problem>, maxFrac: real, sweeps: nat)
    requires Complete(theta0, problems)
    ensures var theta := Outcome(theta0, problems, maxFrac, sweeps);
      && (forall bay :: SameBay(theta, theta0, bay))
      && (InTable(theta0) ==> InTable(theta))
  {
    var zones, theta := AllToRefine(problems), Outcome(theta0, problems, maxFrac, sweeps);
    CompleteIsReady(theta0, problems);
    RefinedAllTouches(theta0, zones, SpecsFor(theta0.Keys), Steps(maxFrac), sweeps);
    forall bay ensures SameBay(theta, theta0, bay) {
      BayIsNoZones(problems, bay);
    }
    if InTable(theta0) {
      RefinedStaysInTable(theta, theta0);
    }
  }

  /** The refinement of every zone. No bay's parameter moves and a table inside its bounds stays
      inside them. When no zone's error reads what another's refinement may change, no zone's
      error rises, and with sane readings and a table inside its bounds this is the squared
      error of rollouts that all run. */
  method RefineAll(theta0: Theta, problems: seq<Problem>, maxFrac: real, sweeps: nat) returns (theta: Theta)
    requires Complete(theta0, problems)
    ensures theta == Outcome(theta0, problems, maxFrac, sweeps)
    ensures KeysApart(Zones(problems)) ==> forall p :: p in problems ==> NotRaised(p, theta, theta0)
    ensures KeysApart(Zones(problems)) && InTable(theta0) ==>
      forall p :: p in problems && SaneProblem(p) ==> RunsNoWorse(p, theta, theta0)
    ensures forall bay :: SameBay(theta, theta0, bay)
    ensures InTable(theta0) ==> InTable(theta)
  {
    CompleteIsReady(theta0, problems);
    theta := Refine(theta0, AllToRefine(problems), SpecsFor(theta0.Keys), maxFrac, sweeps);
    assert theta == Outcome(theta0, problems, maxFrac, sweeps);
    OutcomeStays(theta0, problems, maxFrac, sweeps);
    if KeysApart(Zones(problems)) {
      forall p | p in problems
        ensures NotRaised(p, theta, theta0)
        ensures InTable(theta0) && SaneProblem(p) ==> RunsNoWorse(p, theta, theta0)
      {
        OutcomeIsNoWorse(theta0, problems, maxFrac, sweeps, p);
        if InTable(theta0) && SaneProblem(p) {
          TableRunsNoWorse(p, theta, theta0);
        }
      }
    }
  }
}
