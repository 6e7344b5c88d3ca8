/** Output-error refinement: coordinate descent over a zone's air parameters, for any error
    function of the parameters. */
module RefineAir {
  import opened RealAlgebra

  type Theta = map<string, real>
  type Error = Theta -> real

  /** The bounds of a parameter and the step to use where its value is zero. */
  datatype Spec = Spec(lo: real, hi: real, scale: real)

  const ZERO := 0.000000001

  /** The tried relative steps. */
  function Steps(maxFrac: real): (fracs: seq<real>)
    ensures maxFrac != 0.0 ==> fracs == [-maxFrac, -maxFrac / 2.0, maxFrac / 2.0, maxFrac]
    ensures maxFrac == 0.0 ==> fracs == []
  {
    if maxFrac != 0.0 then [-maxFrac, -maxFrac / 2.0, maxFrac / 2.0, maxFrac] else []
  }

  function Candidate(base: real, frac: real, spec: Spec): (c: real)
    requires spec.lo <= spec.hi
    ensures spec.lo <= c <= spec.hi
  {
    var delta := if base > ZERO || -base > ZERO then base * frac else frac * spec.scale;
    var x := base + delta;
    if x < spec.lo then spec.lo else if x > spec.hi then spec.hi else x
  }

  /** A tried value is as far from the value in force as the fraction says, of that value or,
      where it is zero to within a nanounit, of the scale; at a bound it is nearer, and then a
      full step would have reached the bound. */
  lemma CandidateExactly(base: real, frac: real, spec: Spec)
    requires spec.lo <= base <= spec.hi
    ensures var c := Candidate(base, frac, spec);
      var step := Times(frac, if -0.000000001 <= base <= 0.000000001 then spec.scale else base);
      && (c - base == step || (c == spec.hi && 0.0 <= c - base <= step) || (c == spec.lo && step <= c - base <= 0.0))
      && (spec.lo <= base + step <= spec.hi ==> c - base == step)
  {
  }

  function Moved(theta: Theta, key: string, value: real): Theta {
    theta[key := value]
  }

  /** The value is kept or was tried. */
  ghost predicate Reachable(theta: Theta, key: string, value: real, spec: Spec, fracs: seq<real>)
    requires key in theta && spec.lo <= spec.hi
  {
    value == theta[key] || exists f :: f in fracs && value == Candidate(theta[key], f, spec)
  }

  /** No tried step in one parameter lowers the error. */
  ghost predicate OptimalAt(theta: Theta, key: string, spec: Spec, fracs: seq<real>, err: Error)
    requires key in theta && spec.lo <= spec.hi
  {
    forall f :: f in fracs ==> err(theta) <= err(Moved(theta, key, Candidate(theta[key], f, spec)))
  }

  ghost predicate Ready(theta: Theta, keys: seq<string>, specs: map<string, Spec>) {
    forall k :: k in keys ==> k in theta && k in specs && specs[k].lo <= specs[k].hi
  }

  /** No tried step in any single parameter lowers the error. */
  ghost predicate CoordinateMinimum(theta: Theta, keys: seq<string>, specs: map<string, Spec>, fracs: seq<real>,
                                    err: Error)
    requires Ready(theta, keys, specs)
  {
    forall k :: k in keys ==> OptimalAt(theta, k, specs[k], fracs, err)
  }

  /** The first best of the kept value and the tried ones. */
  ghost function Searched(theta: Theta, key: string, spec: Spec, fracs: seq<real>, err: Error): real
    requires key in theta && spec.lo <= spec.hi
  {
    if fracs == [] then theta[key]
    else
      var k := |fracs| - 1;
      var best := Searched(theta, key, spec, fracs[..k], err);
      var cand := Candidate(theta[key], fracs[k], spec);
      if err(Moved(theta, key, cand)) < err(Moved(theta, key, best)) then cand else best
  }

  lemma {:induction false} SearchedIsBest(theta: Theta, key: string, spec: Spec, fracs: seq<real>, err: Error)
    requires key in theta && spec.lo <= spec.hi
    ensures var best := Searched(theta, key, spec, fracs, err);
      && Reachable(theta, key, best, spec, fracs)
      && (forall f :: f in fracs ==>
            err(Moved(theta, key, best)) <= err(Moved(theta, key, Candidate(theta[key], f, spec))))
      && (best == theta[key] || err(Moved(theta, key, best)) < err(theta))
  {
    assert Moved(theta, key, theta[key]) == theta;
    if fracs != [] {
      var k := |fracs| - 1;
      SearchedIsBest(theta, key, spec, fracs[..k], err);
      assert forall f :: f in fracs ==> f in fracs[..k] || f == fracs[k];
    }
  }

  /** The best of the kept value and the tried ones; the kept one wins a tie. */
  method LineSearch(theta: Theta, key: string, spec: Spec, fracs: seq<real>, err: Error) returns (best: real)
    requires key in theta && spec.lo <= spec.hi
    ensures best == Searched(theta, key, spec, fracs, err)
    ensures Reachable(theta, key, best, spec, fracs)
    ensures forall f :: f in fracs ==>
      err(Moved(theta, key, best)) <= err(Moved(theta, key, Candidate(theta[key], f, spec)))
    ensures best == theta[key] || err(Moved(theta, key, best)) < err(theta)
  {
    var base := theta[key];
    best := base;
    assert Moved(theta, key, base) == theta;
    var bestErr := err(theta);
    for i := 0 to |fracs|
      invariant best == Searched(theta, key, spec, fracs[..i], err) && bestErr == err(Moved(theta, key, best))
    {
      assert fracs[..i + 1][..i] == fracs[..i];
      var cand := Candidate(base, fracs[i], spec);
      var e := err(Moved(theta, key, cand));
      if e < bestErr {
        bestErr, best := e, cand;
      }
    }
    assert fracs[..|fracs|] == fracs;
    SearchedIsBest(theta, key, spec, fracs, err);
  }

  ghost predicate Agree(a: Theta, b: Theta, keys: seq<string>) {
    a.Keys == b.Keys && forall k :: k in a && k !in keys ==> a[k] == b[k]
  }

  /** Changed parameters are inside their bounds. */
  ghost predicate Bounded(theta: Theta, theta0: Theta, keys: seq<string>, specs: map<string, Spec>) {
    forall k :: k in keys && k in theta && k in theta0 && k in specs ==>
      theta[k] == theta0[k] || specs[k].lo <= theta[k] <= specs[k].hi
  }

  /** One key's turn in a pass. */
  ghost function Tuned(theta: Theta, key: string, specs: map<string, Spec>, fracs: seq<real>, err: Error): (r: Theta)
    requires key in theta && key in specs && specs[key].lo <= specs[key].hi
    ensures r.Keys == theta.Keys
  {
    Moved(theta, key, Searched(theta, key, specs[key], fracs, err))
  }

  lemma TunedIsBetter(theta: Theta, key: string, specs: map<string, Spec>, fracs: seq<real>, err: Error, r: Theta)
    requires key in theta && key in specs && specs[key].lo <= specs[key].hi
    requires r == Tuned(theta, key, specs, fracs, err)
    ensures forall k :: k in theta && k != key ==> r[k] == theta[k]
    ensures r[key] == theta[key] || specs[key].lo <= r[key] <= specs[key].hi
    ensures if r[key] == theta[key] then r == theta && OptimalAt(theta, key, specs[key], fracs, err)
            else err(r) < err(theta)
  {
    SearchedIsBest(theta, key, specs[key], fracs, err);
    assert Moved(theta, key, theta[key]) == theta;
  }

  /** One pass over the keys. */
  ghost function Swept(theta: Theta, keys: seq<string>, specs: map<string, Spec>, fracs: seq<real>, err: Error)
    : (r: Theta)
    requires Ready(theta, keys, specs)
    ensures r.Keys == theta.Keys
  {
    if keys == [] then theta
    else
      var k := |keys| - 1;
      assert keys[k] in keys;
      Tuned(Swept(theta, keys[..k], specs, fracs, err), keys[k], specs, fracs, err)
  }

  /** A pass that changes nothing has shown a coordinate minimum; any other lowers the error. */
  ghost predicate PassResult(theta: Theta, theta0: Theta, keys: seq<string>, specs: map<string, Spec>,
                             fracs: seq<real>, err: Error)
    requires Ready(theta0, keys, specs)
  {
    && Agree(theta, theta0, keys) && Bounded(theta, theta0, keys, specs)
    && (if theta == theta0 then CoordinateMinimum(theta0, keys, specs, fracs, err) else err(theta) < err(theta0))
  }

  lemma PassOneMore(theta0: Theta, keys: seq<string>, specs: map<string, Spec>, fracs: seq<real>, err: Error,
                    before: Theta, key: string, after: Theta)
    requires Ready(theta0, keys + [key], specs) && Ready(theta0, keys, specs)
    requires PassResult(before, theta0, keys, specs, fracs, err) && key in before && key in specs
    requires specs[key].lo <= specs[key].hi && after == Tuned(before, key, specs, fracs, err)
    ensures PassResult(after, theta0, keys + [key], specs, fracs, err)
  {
    TunedIsBetter(before, key, specs, fracs, err, after);
  }

  lemma {:induction false} SweptResult(theta0: Theta, keys: seq<string>, specs: map<string, Spec>, fracs: seq<real>,
                                       err: Error)
    requires Ready(theta0, keys, specs)
    ensures PassResult(Swept(theta0, keys, specs, fracs, err), theta0, keys, specs, fracs, err)
  {
    if keys != [] {
      var k := |keys| - 1;
      var before := Swept(theta0, keys[..k], specs, fracs, err);
      SweptResult(theta0, keys[..k], specs, fracs, err);
      assert keys == keys[..k] + [keys[k]] && keys[k] in keys;
      PassOneMore(theta0, keys[..k], specs, fracs, err, before, keys[k], Swept(theta0, keys, specs, fracs, err));
    }
  }

  /** One pass over the keys; without an improvement it has shown a coordinate minimum. */
  method Sweep(theta0: Theta, keys: seq<string>, specs: map<string, Spec>, fracs: seq<real>, err: Error)
    returns (theta: Theta, improved: bool)
    requires Ready(theta0, keys, specs)
    ensures theta == Swept(theta0, keys, specs, fracs, err) && (improved <==> theta != theta0)
    ensures Agree(theta, theta0, keys) && Bounded(theta, theta0, keys, specs)
    ensures if improved then err(theta) < err(theta0)
            else theta == theta0 && CoordinateMinimum(theta, keys, specs, fracs, err)
  {
    theta, improved := theta0, false;
    for i := 0 to |keys|
      invariant theta == Swept(theta0, keys[..i], specs, fracs, err)
      invariant if improved then err(theta) < err(theta0) else theta == theta0
    {
      var key := keys[i];
      assert key in keys && keys[..i + 1][..i] == keys[..i];
      var best := LineSearch(theta, key, specs[key], fracs, err);
      assert Moved(theta, key, theta[key]) == theta;
      if best != theta[key] {
        theta := Moved(theta, key, best);
        improved := true;
      }
    }
    assert keys[..|keys|] == keys;
    SweptResult(theta0, keys, specs, fracs, err);
  }

  /** Passes until one changes nothing, at most so many. */
  ghost function Refined(theta: Theta, keys: seq<string>, specs: map<string, Spec>, fracs: seq<real>,
                         sweeps: nat, err: Error): (r: Theta)
    requires Ready(theta, keys, specs)
    ensures r.Keys == theta.Keys
  {
    if sweeps == 0 then theta
    else
      var next := Swept(theta, keys, specs, fracs, err);
      if next == theta then theta else Refined(next, keys, specs, fracs, sweeps - 1, err)
  }

  lemma {:induction false} RefinedResult(theta: Theta, keys: seq<string>, specs: map<string, Spec>, fracs: seq<real>,
                                         sweeps: nat, err: Error)
    requires Ready(theta, keys, specs)
    ensures var r := Refined(theta, keys, specs, fracs, sweeps, err);
      && Agree(r, theta, keys) && Bounded(r, theta, keys, specs)
      && (r == theta || err(r) < err(theta))
  {
    if sweeps > 0 {
      var next := Swept(theta, keys, specs, fracs, err);
      SweptResult(theta, keys, specs, fracs, err);
      if next != theta {
        RefinedResult(next, keys, specs, fracs, sweeps - 1, err);
      }
    }
  }

  lemma RefinedStep(theta: Theta, keys: seq<string>, specs: map<string, Spec>, fracs: seq<real>, sweeps: nat,
                    err: Error, next: Theta, end: Theta, fewer: nat)
    requires Ready(theta, keys, specs) && sweeps == fewer + 1 && next == Swept(theta, keys, specs, fracs, err)
    requires end == Refined(theta, keys, specs, fracs, sweeps, err)
    ensures Ready(next, keys, specs)
    ensures end == if next == theta then theta else Refined(next, keys, specs, fracs, fewer, err)
  {
  }

  /** At most `sweeps` passes over one zone. The error never rises; stopping early means a
      coordinate minimum, and otherwise every pass lowered it. */
  method RefineZone(theta0: Theta, keys: seq<string>, specs: map<string, Spec>, fracs: seq<real>, sweeps: nat,
                    err: Error)
    returns (theta: Theta, settled: bool)
    requires Ready(theta0, keys, specs)
    ensures theta == Refined(theta0, keys, specs, fracs, sweeps, err)
    ensures Agree(theta, theta0, keys) && Bounded(theta, theta0, keys, specs)
    ensures err(theta) <= err(theta0)
    ensures settled ==> Ready(theta, keys, specs) && CoordinateMinimum(theta, keys, specs, fracs, err)
    ensures !settled && sweeps > 0 ==> err(theta) < err(theta0)
  {
    RefinedResult(theta0, keys, specs, fracs, sweeps, err);
    theta, settled := theta0, false;
    ghost var end, left := Refined(theta0, keys, specs, fracs, sweeps, err), sweeps;
    for n := 0 to sweeps
      invariant theta.Keys == theta0.Keys && !settled && left == sweeps - n
      invariant if n == 0 then theta == theta0 else err(theta) < err(theta0)
      invariant end == Refined(theta, keys, specs, fracs, left, err)
    {
      ghost var fewer := left - 1;
      var next, improved := Sweep(theta, keys, specs, fracs, err);
      RefinedStep(theta, keys, specs, fracs, left, err, next, end, fewer);
      if !improved {
        settled := true;
        break;
      }
      theta, left := next, fewer;
    }
  }

  // -- all zones -------------------------------------------------------------------------

  /** A zone to refine: its air parameters and its error, absent when no chunk scores it. */
  datatype Block = Block(keys: seq<string>, scored: bool, err: Error)

  /** A zone's error does not read these parameters. */
  ghost predicate Ignores(err: Error, keys: seq<string>) {
    forall a, b :: Agree(a, b, keys) ==> err(a) == err(b)
  }

  /** No zone's error reads another one's parameters. */
  ghost predicate Separate(zones: seq<Block>) {
    forall i, j :: 0 <= i < |zones| && 0 <= j < |zones| && i != j ==> Ignores(zones[i].err, zones[j].keys)
  }

  /** Every parameter is as it was or inside its bounds. */
  ghost predicate InRange(theta: Theta, theta0: Theta, specs: map<string, Spec>) {
    forall k :: k in theta && k in theta0 ==>
      theta[k] == theta0[k] || (k in specs && specs[k].lo <= theta[k] <= specs[k].hi)
  }

  ghost predicate AllReady(theta: Theta, zones: seq<Block>, specs: map<string, Spec>) {
    forall z :: z in zones ==> Ready(theta, z.keys, specs)
  }

  /** The zones in turn. */
  ghost function RefinedAll(theta: Theta, zones: seq<Block>, specs: map<string, Spec>, fracs: seq<real>, sweeps: nat)
    : (r: Theta)
    requires AllReady(theta, zones, specs)
    ensures r.Keys == theta.Keys
  {
    if zones == [] then theta
    else
      var k := |zones| - 1;
      var before, z := RefinedAll(theta, zones[..k], specs, fracs, sweeps), zones[k];
      assert z in zones;
      if z.scored then Refined(before, z.keys, specs, fracs, sweeps, z.err) else before
  }

  /** A change to a parameter is within its bounds and is some zone's. */
  ghost predicate Touched(theta: Theta, theta0: Theta, zones: seq<Block>, specs: map<string, Spec>) {
    && theta.Keys == theta0.Keys && InRange(theta, theta0, specs)
    && forall k :: k in theta && (forall z :: z in zones ==> k !in z.keys) ==> theta[k] == theta0[k]
  }

  lemma {:induction false} RefinedAllTouches(theta: Theta, zones: seq<Block>, specs: map<string, Spec>,
                                             fracs: seq<real>, sweeps: nat)
    requires AllReady(theta, zones, specs)
    ensures Touched(RefinedAll(theta, zones, specs, fracs, sweeps), theta, zones, specs)
  {
    if zones != [] {
      var k := |zones| - 1;
      var before, z := RefinedAll(theta, zones[..k], specs, fracs, sweeps), zones[k];
      assert z in zones;
      RefinedAllTouches(theta, zones[..k], specs, fracs, sweeps);
      if z.scored {
        RefinedResult(before, z.keys, specs, fracs, sweeps, z.err);
      }
    }
  }

  /** When no zone's error reads another one's parameters, no error is raised by its own
      refinement or by another's. */
  lemma {:induction false} SeparateZonesImprove(theta: Theta, zones: seq<Block>, specs: map<string, Spec>,
                                                fracs: seq<real>, sweeps: nat, all: seq<Block>)
    requires zones <= all && Separate(all) && AllReady(theta, zones, specs)
    ensures var r := RefinedAll(theta, zones, specs, fracs, sweeps);
      forall i :: 0 <= i < |all| ==>
        if i < |zones| then all[i].err(r) <= all[i].err(theta) else all[i].err(r) == all[i].err(theta)
  {
    if zones != [] {
      var k := |zones| - 1;
      var before, z := RefinedAll(theta, zones[..k], specs, fracs, sweeps), zones[k];
      assert z in zones && z == all[k];
      SeparateZonesImprove(theta, zones[..k], specs, fracs, sweeps, all);
      if z.scored {
        RefinedResult(before, z.keys, specs, fracs, sweeps, z.err);
        var r := Refined(before, z.keys, specs, fracs, sweeps, z.err);
        forall i | 0 <= i < |all| && i != k ensures all[i].err(r) == all[i].err(before) {
          assert Ignores(all[i].err, all[k].keys);
        }
      }
    }
  }

  lemma RefinedAllNext(theta0: Theta, zones: seq<Block>, specs: map<string, Spec>, fracs: seq<real>, sweeps: nat,
                       n: nat, theta: Theta)
    requires AllReady(theta0, zones, specs) && n < |zones|
    requires theta == RefinedAll(theta0, zones[..n], specs, fracs, sweeps)
    ensures Ready(theta, zones[n].keys, specs)
    ensures RefinedAll(theta0, zones[..n + 1], specs, fracs, sweeps)
         == if zones[n].scored then Refined(theta, zones[n].keys, specs, fracs, sweeps, zones[n].err) else theta
  {
    assert zones[..n + 1][..n] == zones[..n] && zones[n] in zones;
  }

  /** The zones in turn. */
  method Refine(theta0: Theta, zones: seq<Block>, specs: map<string, Spec>, maxFrac: real, sweeps: nat)
    returns (theta: Theta)
    requires AllReady(theta0, zones, specs)
    ensures theta == RefinedAll(theta0, zones, specs, Steps(maxFrac), sweeps)
    ensures Separate(zones) ==> forall z :: z in zones ==> z.err(theta) <= z.err(theta0)
    ensures theta.Keys == theta0.Keys && InRange(theta, theta0, specs)
    ensures forall k :: k in theta && (forall z :: z in zones ==> k !in z.keys) ==> theta[k] == theta0[k]
  {
    theta := theta0;
    for n := 0 to |zones|
      invariant theta == RefinedAll(theta0, zones[..n], specs, Steps(maxFrac), sweeps)
    {
      var z := zones[n];
      RefinedAllNext(theta0, zones, specs, Steps(maxFrac), sweeps, n, theta);
      if z.scored {
        var next, settled := RefineZone(theta, z.keys, specs, Steps(maxFrac), sweeps, z.err);
        theta := next;
      }
    }
    assert zones[..|zones|] == zones;
    RefinedAllTouches(theta0, zones, specs, Steps(maxFrac), sweeps);
    if Separate(zones) {
      SeparateZonesImprove(theta0, zones, specs, Steps(maxFrac), sweeps, zones);
    }
  }
}
