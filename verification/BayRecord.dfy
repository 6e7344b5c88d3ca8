/** The bay record the estimator keeps, with the settling, swap and occupancy fields it
    updates in place. Each method is the pure step of its own state machine on those fields. */
module BayRecord {
  import opened RealAlgebra
  import opened Wrappers
  import opened BaySettling
  import opened SwapEvents
  import OM = OccupancyMachine
  import SharedBudget

  class Bay {
    var disturb: Option<real>
    var why: Option<Reason>
    var spent: real
    var clean: real
    var swaps: nat
    var swapTs: Option<real>
    var swapWhy: Option<Reason>
    var swapHeld: nat
    var holdTs: Option<real>
    var occ: OM.Occ
    var low: real
    var rise: nat
    var blind: real

    ghost function Settle(): BaySettling.Settle
      reads this
    {
      BaySettling.Settle(disturb, why, spent, clean)
    }

    ghost function Swaps(): SwapEvents.Swaps
      reads this
    {
      SwapEvents.Swaps(swaps, swapTs, swapWhy, swapHeld, holdTs)
    }

    ghost function Occupied(): OM.Bay
      reads this
    {
      OM.Bay(occ, low, rise, blind)
    }

    constructor ()
      ensures Settle() == FRESH && Swaps() == NONE_YET && Occupied() == OM.FRESH
    {
      occ, low, rise, blind := OM.Unknown, 0.0, 0, 0.0;
      disturb, why, spent, clean := None, None, 0.0, 0.0;
      swaps, swapTs, swapWhy, swapHeld, holdTs := 0, None, None, 0, None;
    }

    method MarkDisturbed(ts: real, budget: real, reason: Reason)
      modifies this`disturb, this`why
      ensures Settle() == Marked(old(Settle()), ts, budget, reason)
    {
      if spent < budget {
        disturb := Some(ts);
        why := Some(reason);
      }
    }

    method AccountSettle(settling: bool, checked: bool, over: bool, h: real, budget: real)
      modifies this`spent, this`clean
      ensures Settle() == Accounted(old(Settle()), settling, checked, over, h, budget)
    {
      if settling {
        if checked {
          spent := Min(spent + h, budget);
        }
        clean := 0.0;
        return;
      }
      if over {
        clean := 0.0;
        return;
      }
      clean := clean + h;
      if clean >= budget {
        spent := 0.0;
        clean := budget;
      }
    }

    /** The settling half of one tick. */
    method Tick(ts: real, marked: Option<Reason>, checked: bool, over: bool, h: real, lim: Limits)
      modifies this`disturb, this`why, this`spent, this`clean
      ensures Settle() == After(old(Settle()), BaySettling.Tick(ts, marked, checked, over), h, lim)
    {
      if marked.Some? {
        MarkDisturbed(ts, lim.budget, marked.value);
      }
      var settling := disturb.Some? && 0.0 <= ts - disturb.value < lim.window;
      AccountSettle(settling, checked, over, h, lim.budget);
    }

    method SwapEvent(ts: real, lim: Limits, reason: Reason, limited: bool) returns (v: Verdict)
      modifies this`swaps, this`swapTs, this`swapWhy, this`swapHeld, this`holdTs
      ensures (Swaps(), v) == Judged(old(Swaps()), ts, spent, lim, reason, limited)
    {
      if limited {
        if swapTs.Some? && 0.0 <= ts - swapTs.value < lim.window {
          return Refractory;
        }
        if spent >= lim.budget {
          if holdTs.None? || !(0.0 <= ts - holdTs.value < lim.window) {
            swapHeld := swapHeld + 1;
            holdTs := Some(ts);
          }
          return Held;
        }
      }
      swaps := swaps + 1;
      swapTs, swapWhy := Some(ts), Some(reason);
      return Event;
    }

    /** Settling and swap events of one tick, in the order that lets the verdict see the window
        opened and the charge come last. */
    method Advance(t: SharedBudget.BayTick, h: real, lim: Limits)
      modifies this`disturb, this`why, this`spent, this`clean
      modifies this`swaps, this`swapTs, this`swapWhy, this`swapHeld, this`holdTs
      ensures SharedBudget.Shared(Settle(), Swaps())
           == SharedBudget.Next(SharedBudget.Shared(old(Settle()), old(Swaps())), t, h, lim)
      ensures SharedBudget.SwapsFollow(old(Swaps()), t, old(spent), lim, Swaps())
      ensures SharedBudget.WindowFollows(old(Settle()), t, lim, Settle())
      ensures t.crossed ==> swaps == old(swaps) + 1 && swapTs == Some(t.ts) && swapWhy == Some(Occupancy)
    {
      SharedBudget.TickFollows(SharedBudget.Shared(Settle(), Swaps()), t, h, lim);
      if t.jumped {
        MarkDisturbed(t.ts, lim.budget, Jump);
      }
      if t.crossed && t.ready {
        MarkDisturbed(t.ts, lim.budget, Occupancy);
      }
      if t.crossed || t.stepped {
        var _ := SwapEvent(t.ts, lim, if t.crossed then Occupancy else Jump, !t.crossed);
      }
      var settling := disturb.Some? && 0.0 <= t.ts - disturb.value < lim.window;
      AccountSettle(settling, t.checked, t.over, h, lim.budget);
    }

    /** The occupancy half of one tick; true when the state crossed the empty boundary. */
    method Occupy(t: OM.Tick, th: OM.Thresholds) returns (crossed: bool)
      modifies this`occ, this`low, this`rise, this`blind
      ensures Occupied() == OM.Step(old(Occupied()), t, th)
      ensures crossed == (old(occ).Empty? != occ.Empty?)
    {
      var before, after := occ, occ;
      if t.declared.Yes? {
        after, blind := OM.Occupied, 0.0;
      } else if t.declared.No? {
        after, blind := OM.Empty, 0.0;
      } else if !t.zoneReady {
        after := OM.Unknown;
        low, rise, blind := 0.0, 0, 0.0;
      } else if !t.sensorOk && !t.driveRead {
        if before.Unknown? {
          blind := 0.0;
        } else {
          blind := blind + t.h;
          if blind >= th.hold {
            after := OM.Unknown;
            low, rise := 0.0, 0;
          }
        }
      } else {
        blind := 0.0;
        if before.Empty? {
          low := 0.0;
          if t.driveRead || (t.sensorOk && t.dT > th.occupiedDT) {
            rise := rise + 1;
            if t.driveRead || rise >= OM.RISE_TICKS {
              after := OM.Occupied;
            }
          } else {
            rise := 0;
          }
        } else {
          rise := 0;
          if t.driveRead || t.dT > th.occupiedDT {
            after, low := OM.Occupied, 0.0;
          } else if t.airOk && t.dT < th.emptyDT && t.heat < OM.EMPTY_HEAT && !t.serialFresh {
            low := low + t.h;
            if low >= th.confirm {
              after := OM.Empty;
            }
          } else {
            low := 0.0;
          }
        }
      }
      if after != before {
        low, rise, blind := 0.0, 0, 0.0;
        occ := after;
      }
      crossed := before.Empty? != after.Empty?;
    }
  }
}
