/** The occupancy machine of one bay: occupied, empty or unknown, with debounce in every
    direction. Ticks that saw nothing neither confirm nor contradict a pending change. */
module OccupancyMachine {

  const EMPTY_HEAT := 1.0
  const RISE_TICKS := 3

  datatype Occ = Occupied | Empty | Unknown

  /** The owner's statement about the bay this tick. */
  datatype Declared = Yes | No | Auto

  /** One tick of evidence: a zone filter exists, a proximal member reports, a drive reading
      (SMART or manual) arrived, zone air is measured, T_s - T_a, attributed heat, the bay's
      serial is fresh, the tick's length. */
  datatype Tick = Tick(declared: Declared, zoneReady: bool, sensorOk: bool, driveRead: bool,
                       airOk: bool, dT: real, heat: real, serialFresh: bool, h: real)

  datatype Thresholds = Thresholds(occupiedDT: real, emptyDT: real, confirm: real, hold: real)

  /** Pending counts: seconds toward empty, rising ticks toward occupied, blind seconds. */
  datatype Bay = Bay(occ: Occ, low: real, rise: nat, blind: real)

  const FRESH := Bay(Unknown, 0.0, 0, 0.0)

  // -- one tick ------------------------------------------------------------------

  predicate Blind(t: Tick) {
    t.declared.Auto? && t.zoneReady && !t.sensorOk && !t.driveRead
  }

  /** Evidence for "no drive". */
  predicate Cold(t: Tick, th: Thresholds) {
    && t.airOk && t.dT < th.emptyDT && t.heat < EMPTY_HEAT && !t.serialFresh
  }

  function Settled(before: Bay, counted: Bay, after: Occ): Bay {
    if after != before.occ then Bay(after, 0.0, 0, 0.0) else counted
  }

  function Step(b: Bay, t: Tick, th: Thresholds): Bay {
    if t.declared.Yes? then
      Settled(b, b.(blind := 0.0), Occupied)
    else if t.declared.No? then
      Settled(b, b.(blind := 0.0), Empty)
    else if !t.zoneReady then
      Settled(b, Bay(b.occ, 0.0, 0, 0.0), Unknown)
    else if !t.sensorOk && !t.driveRead then
      if b.occ.Unknown? then b.(blind := 0.0)
      else
        var waited := b.(blind := b.blind + t.h);
        if waited.blind >= th.hold then Settled(b, waited, Unknown) else waited
    else if b.occ.Empty? then
      if t.driveRead || (t.sensorOk && t.dT > th.occupiedDT) then
        var risen := Bay(b.occ, 0.0, b.rise + 1, 0.0);
        if t.driveRead || risen.rise >= RISE_TICKS then Settled(b, risen, Occupied) else risen
      else Bay(b.occ, 0.0, 0, 0.0)
    else if t.driveRead || t.dT > th.occupiedDT then
      Settled(b, Bay(b.occ, 0.0, 0, 0.0), Occupied)
    else if Cold(t, th) then
      var cold := Bay(b.occ, b.low + t.h, 0, 0.0);
      if cold.low >= th.confirm then Settled(b, cold, Empty) else cold
    else Bay(b.occ, 0.0, 0, 0.0)
  }

  // -- runs ------------------------------------------------------------------------

  function State(ticks: seq<Tick>, th: Thresholds, n: nat): Bay
    requires n <= |ticks|
  {
    if n == 0 then FRESH else Step(State(ticks, th, n - 1), ticks[n - 1], th)
  }

  /** Neither confirms nor contradicts: the bay is declared, or nothing saw it. */
  predicate Neutral(t: Tick) {
    !t.declared.Auto? || Blind(t)
  }

  /** A tick of a bay that is not empty, with evidence for no drive and none against. */
  predicate ColdTick(t: Tick, th: Thresholds) {
    && t.declared.Auto? && t.zoneReady && t.sensorOk && t.airOk && !t.driveRead && !t.serialFresh
    && t.dT <= th.occupiedDT && t.dT < th.emptyDT && t.heat < 1.0
  }

  /** A tick of an empty bay whose reading stands above the air. */
  predicate RisingTick(t: Tick, th: Thresholds) {
    t.declared.Auto? && t.zoneReady && !t.driveRead && t.sensorOk && t.dT > th.occupiedDT
  }

  function ColdTime(ticks: seq<Tick>, th: Thresholds, j: nat, n: nat): real
    requires j <= n <= |ticks|
    decreases n
  {
    if n == j then 0.0
    else ColdTime(ticks, th, j, n - 1) + if ColdTick(ticks[n - 1], th) then ticks[n - 1].h else 0.0
  }

  function Rises(ticks: seq<Tick>, th: Thresholds, j: nat, n: nat): nat
    requires j <= n <= |ticks|
    decreases n
  {
    if n == j then 0
    else Rises(ticks, th, j, n - 1) + if RisingTick(ticks[n - 1], th) then 1 else 0
  }

  function BlindTime(ticks: seq<Tick>, j: nat, n: nat): real
    requires j <= n <= |ticks|
    decreases n
  {
    if n == j then 0.0 else BlindTime(ticks, j, n - 1) + ticks[n - 1].h
  }

  /** From j to n the bay was never empty and no tick spoke against "no drive". */
  ghost predicate ColdWindow(ticks: seq<Tick>, th: Thresholds, j: nat, n: nat) {
    && j <= n <= |ticks|
    && forall m :: j <= m < n ==>
         !State(ticks, th, m).occ.Empty? && (ColdTick(ticks[m], th) || Neutral(ticks[m]))
  }

  /** From j to n the bay was empty and no tick spoke against a rising reading. */
  ghost predicate RisingWindow(ticks: seq<Tick>, th: Thresholds, j: nat, n: nat) {
    && j <= n <= |ticks|
    && forall m :: j <= m < n ==>
         State(ticks, th, m).occ.Empty? && (RisingTick(ticks[m], th) || Neutral(ticks[m]))
  }

  ghost predicate BlindWindow(ticks: seq<Tick>, j: nat, n: nat) {
    j <= n <= |ticks| && forall m :: j <= m < n ==> Blind(ticks[m])
  }

  // Every pending count is the evidence of some uncontradicted window ending now.

  /** The tick adds to the window toward empty that the count stands for, or starts a new one. */
  predicate KeepsCold(b: Bay, t: Tick, th: Thresholds, n: Bay) {
    n.occ == b.occ && !b.occ.Empty? && (ColdTick(t, th) || Neutral(t))
  }

  lemma LowStep(b: Bay, t: Tick, th: Thresholds, n: Bay)
    requires n == Step(b, t, th) && (b.occ.Empty? ==> b.low == 0.0)
    ensures n.occ.Empty? ==> n.low == 0.0
    ensures KeepsCold(b, t, th, n) ==> n.low == b.low + if ColdTick(t, th) then t.h else 0.0
    ensures !KeepsCold(b, t, th, n) ==> n.low == 0.0
  {
  }

  lemma {:induction false} LowIsWindow(ticks: seq<Tick>, th: Thresholds, n: nat) returns (j: nat)
    requires n <= |ticks|
    ensures State(ticks, th, n).occ.Empty? ==> State(ticks, th, n).low == 0.0
    ensures ColdWindow(ticks, th, j, n) && State(ticks, th, n).low == ColdTime(ticks, th, j, n)
  {
    j := n;
    if n > 0 {
      var was, t, now := State(ticks, th, n - 1), ticks[n - 1], State(ticks, th, n);
      var i := LowIsWindow(ticks, th, n - 1);
      LowStep(was, t, th, now);
      if KeepsCold(was, t, th, now) {
        j := i;
      }
    }
  }

  predicate KeepsRising(b: Bay, t: Tick, th: Thresholds, n: Bay) {
    n.occ == b.occ && b.occ.Empty? && (RisingTick(t, th) || Neutral(t))
  }

  lemma RiseStep(b: Bay, t: Tick, th: Thresholds, n: Bay)
    requires n == Step(b, t, th) && (!b.occ.Empty? ==> b.rise == 0)
    ensures !n.occ.Empty? ==> n.rise == 0
    ensures KeepsRising(b, t, th, n) ==> n.rise == b.rise + if RisingTick(t, th) then 1 else 0
    ensures !KeepsRising(b, t, th, n) ==> n.rise == 0
  {
  }

  lemma {:induction false} RiseIsWindow(ticks: seq<Tick>, th: Thresholds, n: nat) returns (r: nat)
    requires n <= |ticks|
    ensures !State(ticks, th, n).occ.Empty? ==> State(ticks, th, n).rise == 0
    ensures RisingWindow(ticks, th, r, n) && State(ticks, th, n).rise == Rises(ticks, th, r, n)
  {
    r := n;
    if n > 0 {
      var was, t, now := State(ticks, th, n - 1), ticks[n - 1], State(ticks, th, n);
      var i := RiseIsWindow(ticks, th, n - 1);
      RiseStep(was, t, th, now);
      if KeepsRising(was, t, th, now) {
        r := i;
      }
    }
  }

  lemma {:induction false} BlindIsWindow(ticks: seq<Tick>, th: Thresholds, n: nat) returns (b: nat)
    requires n <= |ticks|
    ensures BlindWindow(ticks, b, n) && State(ticks, th, n).blind == BlindTime(ticks, b, n)
  {
    b := n;
    if n > 0 {
      var i := BlindIsWindow(ticks, th, n - 1);
      var was, t := State(ticks, th, n - 1), ticks[n - 1];
      if State(ticks, th, n).occ == was.occ && Blind(t) && !was.occ.Unknown? {
        b := i;
      }
    }
  }

  // -- the promises --------------------------------------------------------------

  /** Tick k changes the state of an undeclared bay. */
  ghost predicate Changes(ticks: seq<Tick>, th: Thresholds, k: nat, to: Occ) {
    && k < |ticks| && ticks[k].declared.Auto?
    && State(ticks, th, k).occ != to && State(ticks, th, k + 1).occ == to
  }

  /** A bay becomes empty only after `confirm` seconds of evidence that nothing in between
      contradicted; ticks that saw nothing neither added nor reset. */
  lemma EmptyNeedsEvidence(ticks: seq<Tick>, th: Thresholds, k: nat) returns (j: nat)
    requires k < |ticks| && Changes(ticks, th, k, Empty)
    ensures ColdWindow(ticks, th, j, k + 1) && ColdTick(ticks[k], th)
    ensures ColdTime(ticks, th, j, k + 1) >= th.confirm
  {
    j := LowIsWindow(ticks, th, k);
  }

  /** An empty bay becomes occupied only on a drive reading or on the third rising tick that
      nothing in between contradicted. */
  lemma OccupiedNeedsRises(ticks: seq<Tick>, th: Thresholds, k: nat) returns (r: nat)
    requires k < |ticks| && Changes(ticks, th, k, Occupied) && State(ticks, th, k).occ.Empty?
    ensures ticks[k].driveRead ||
      (RisingWindow(ticks, th, r, k + 1) && RisingTick(ticks[k], th)
       && Rises(ticks, th, r, k + 1) >= 3)
  {
    r := RiseIsWindow(ticks, th, k);
  }

  /** A bay becomes unknown only with no zone filter or after `hold` seconds of nothing but
      blind ticks. */
  lemma UnknownNeedsBlindness(ticks: seq<Tick>, th: Thresholds, k: nat) returns (b: nat)
    requires k < |ticks| && Changes(ticks, th, k, Unknown)
    ensures !ticks[k].zoneReady ||
      (BlindWindow(ticks, b, k + 1) && BlindTime(ticks, b, k + 1) >= th.hold)
  {
    b := BlindIsWindow(ticks, th, k);
  }

  /** Every change of state zeroes every pending count. */
  lemma ChangeClearsCounts(ticks: seq<Tick>, th: Thresholds, k: nat)
    requires k < |ticks| && State(ticks, th, k).occ != State(ticks, th, k + 1).occ
    ensures State(ticks, th, k + 1) == Bay(State(ticks, th, k + 1).occ, 0.0, 0, 0.0)
  {
  }

  // -- and they are kept: the evidence is also enough -----------------------------

  ghost predicate NoChange(ticks: seq<Tick>, th: Thresholds, j: nat, n: nat) {
    && j <= n <= |ticks|
    && forall m :: j <= m < n ==> State(ticks, th, m + 1).occ == State(ticks, th, m).occ
  }

  lemma {:induction false} LowCoversWindow(ticks: seq<Tick>, th: Thresholds, j: nat, n: nat)
    requires ColdWindow(ticks, th, j, n) && NoChange(ticks, th, j, n)
    requires forall t :: t in ticks ==> t.h >= 0.0
    ensures State(ticks, th, n).low >= ColdTime(ticks, th, j, n)
    decreases n
  {
    if n > j {
      LowCoversWindow(ticks, th, j, n - 1);
      LowStep(State(ticks, th, n - 1), ticks[n - 1], th, State(ticks, th, n));
    } else {
      LowNonNegative(ticks, th, n);
    }
  }

  lemma {:induction false} LowNonNegative(ticks: seq<Tick>, th: Thresholds, n: nat)
    requires n <= |ticks| && forall t :: t in ticks ==> t.h >= 0.0
    ensures State(ticks, th, n).low >= 0.0
  {
    if n > 0 {
      LowNonNegative(ticks, th, n - 1);
    }
  }

  /** `confirm` seconds of uncontradicted evidence always empty the bay. */
  lemma EvidenceEmpties(ticks: seq<Tick>, th: Thresholds, j: nat, k: nat)
    requires k < |ticks| && forall t :: t in ticks ==> t.h >= 0.0
    requires ColdWindow(ticks, th, j, k + 1) && NoChange(ticks, th, j, k) && j <= k
    requires ColdTick(ticks[k], th) && ColdTime(ticks, th, j, k + 1) >= th.confirm
    ensures State(ticks, th, k + 1).occ == Empty
  {
    LowCoversWindow(ticks, th, j, k);
  }

  lemma {:induction false} RiseCoversWindow(ticks: seq<Tick>, th: Thresholds, r: nat, n: nat)
    requires RisingWindow(ticks, th, r, n) && NoChange(ticks, th, r, n)
    ensures State(ticks, th, n).rise >= Rises(ticks, th, r, n)
    decreases n
  {
    if n > r {
      RiseCoversWindow(ticks, th, r, n - 1);
      RiseStep(State(ticks, th, n - 1), ticks[n - 1], th, State(ticks, th, n));
    }
  }

  /** The third uncontradicted rising tick always occupies the bay. */
  lemma RisesOccupy(ticks: seq<Tick>, th: Thresholds, r: nat, k: nat)
    requires r <= k < |ticks| && RisingWindow(ticks, th, r, k + 1) && NoChange(ticks, th, r, k)
    requires RisingTick(ticks[k], th) && Rises(ticks, th, r, k + 1) >= 3
    ensures State(ticks, th, k + 1).occ == Occupied
  {
    RiseCoversWindow(ticks, th, r, k);
  }

  /** `hold` seconds of nothing but blind ticks always make the bay unknown. */
  lemma BlindnessForgets(ticks: seq<Tick>, th: Thresholds, j: nat, k: nat)
    requires j <= k < |ticks| && forall t :: t in ticks ==> t.h >= 0.0
    requires BlindWindow(ticks, j, k + 1) && NoChange(ticks, th, j, k) && BlindTime(ticks, j, k + 1) >= th.hold
    ensures State(ticks, th, k + 1).occ == Unknown
  {
    BlindCoversWindow(ticks, th, j, k);
  }

  lemma {:induction false} BlindCoversWindow(ticks: seq<Tick>, th: Thresholds, j: nat, n: nat)
    requires BlindWindow(ticks, j, n) && NoChange(ticks, th, j, n)
    requires forall t :: t in ticks ==> t.h >= 0.0
    ensures State(ticks, th, n).blind >= BlindTime(ticks, j, n) || State(ticks, th, n).occ == Unknown
    decreases n
  {
    if n > j {
      BlindCoversWindow(ticks, th, j, n - 1);
    } else {
      BlindNonNegative(ticks, th, n);
    }
  }

  lemma {:induction false} BlindNonNegative(ticks: seq<Tick>, th: Thresholds, n: nat)
    requires n <= |ticks| && forall t :: t in ticks ==> t.h >= 0.0
    ensures State(ticks, th, n).blind >= 0.0
  {
    if n > 0 {
      BlindNonNegative(ticks, th, n - 1);
    }
  }

  /** A declared bay is at once what its owner says. */
  lemma DeclaredIsKnown(ticks: seq<Tick>, th: Thresholds, k: nat)
    requires k < |ticks| && !ticks[k].declared.Auto?
    ensures State(ticks, th, k + 1).occ == if ticks[k].declared.Yes? then Occupied else Empty
  {
  }

  /** What one tick can make of an undeclared bay: without a zone filter it is unknown, a blind
      tick can only forget it, a drive reading always occupies it, and so does a reading above
      the air unless the bay is empty, which takes three; anything else can only empty it. */
  lemma TickLeadsTo(ticks: seq<Tick>, th: Thresholds, k: nat)
    requires k < |ticks| && ticks[k].declared.Auto?
    ensures var (t, was, now) := (ticks[k], State(ticks, th, k).occ, State(ticks, th, k + 1).occ);
      if !t.zoneReady then now == Unknown
      else if !t.sensorOk && !t.driveRead then now == was || now == Unknown
      else if t.driveRead then now == Occupied
      else if was == Empty then now == Empty || (now == Occupied && t.dT > th.occupiedDT)
      else if t.dT > th.occupiedDT then now == Occupied
      else now == was || now == Empty
  {
  }
}
