/** The FIFO sale algorithm shared by both engines
    (PortfolioEngine.HandleSell and `_handle_sell`): a sale draws its
    quantity from the oldest open lots first, allocating proceeds and fees
    pro rata and releasing each lot's acquisition cost and accumulated
    Vorabpauschale in proportion to the units taken. */
module Fifo {
  import opened Models
  import opened Decimals

  /** Remaining quantity at or below which a lot counts as used up. */
  const Epsilon: real := 0.000001

  /** What a sale transaction contributes to every draw: the quantity to
      sell, the absolute gross proceeds, the fees and the exemption quota. */
  datatype Sale = Sale(quantity: real, proceeds: real, fees: real, tfsQuote: real)

  /** One draw of `take` units against `lot`, the lot as it was before. */
  datatype Draw = Draw(lot: TaxLot, take: real)

  /** The queue after the sale, what could not be sold, and the draws made. */
  datatype Outcome = Outcome(lots: seq<TaxLot>, unsold: real, draws: seq<Draw>)

  /** Every lot can be divided by its original quantity. */
  predicate Divisible(lots: seq<TaxLot>) {
    forall l <- lots :: l.originalQuantity != 0.0
  }

  /** A lot as the engine keeps it: bought in a positive quantity, partly
      sold at most, and with a non-negative accrued Vorabpauschale. */
  predicate ValidLot(l: TaxLot) {
    0.0 < l.remainingQuantity <= l.originalQuantity && 0.0 <= l.accumulatedVap
  }

  predicate AllValid(lots: seq<TaxLot>) {
    forall l <- lots :: ValidLot(l)
  }

  // What one draw realises. The sale's proceeds and fees are allocated in
  // proportion to the units taken; the cost is the lot's original unit cost
  // per unit taken; the Vorabpauschale share is the lot's accrual per unit
  // still held, taken before the quantity shrinks.

  function ProceedsShare(d: Draw, sale: Sale): real
    requires sale.quantity != 0.0
  {
    sale.proceeds * (d.take / sale.quantity)
  }

  function FeesShare(d: Draw, sale: Sale): real
    requires sale.quantity != 0.0
  {
    sale.fees * (d.take / sale.quantity)
  }

  function CostShare(d: Draw): real
    requires d.lot.originalQuantity != 0.0
  {
    UnitCost(d.lot) * d.take
  }

  function VapShare(d: Draw): real {
    if d.lot.remainingQuantity > 0.0 then (d.lot.accumulatedVap / d.lot.remainingQuantity) * d.take else 0.0
  }

  /** The gain under section 20 EStG: proceeds less selling costs,
      acquisition costs and the Vorabpauschale already taxed. */
  function RawProfit(d: Draw, sale: Sale): real
    requires sale.quantity != 0.0 && d.lot.originalQuantity != 0.0
  {
    ProceedsShare(d, sale) - FeesShare(d, sale) - CostShare(d) - VapShare(d)
  }

  /** The gain after the partial exemption. */
  function TaxableProfit(d: Draw, sale: Sale): real
    requires sale.quantity != 0.0 && d.lot.originalQuantity != 0.0
  {
    RawProfit(d, sale) * (1.0 - sale.tfsQuote)
  }

  /** The lot after a draw: the units and the Vorabpauschale share taken
      are subtracted through the setters. */
  function Drawn(d: Draw): TaxLot {
    SetHolding(d.lot, d.lot.remainingQuantity - d.take, d.lot.accumulatedVap - VapShare(d))
  }

  /** The draw-down loop. Each step takes `min(remaining, held)` from the
      head lot only, and drops the head once at most `Epsilon` is left in it;
      the loop stops when nothing is left to sell or the queue is empty. */
  function DrawDown(lots: seq<TaxLot>, remaining: real): (r: Outcome)
    ensures |r.draws| <= |lots|
    decreases |lots|
  {
    if remaining <= 0.0 || |lots| == 0 then Outcome(lots, remaining, [])
    else
      var d := Draw(lots[0], Min(remaining, lots[0].remainingQuantity));
      var lot := Drawn(d);
      if lot.remainingQuantity <= Epsilon then
        var r := DrawDown(lots[1..], remaining - d.take);
        Outcome(r.lots, r.unsold, [d] + r.draws)
      else
        // The head lot keeps more than Epsilon, so the draw took everything
        // still to sell and the loop ends with the lot back at the head.
        Outcome([lot] + lots[1..], remaining - d.take, [d])
  }

  /** The loop runs only while something is left to sell, and what it
      leaves unsold is the quantity asked for less the units taken. */
  lemma {:induction false} DrawDownUnsold(lots: seq<TaxLot>, remaining: real)
    ensures var r := DrawDown(lots, remaining);
      && (r.draws != [] ==> remaining > 0.0)
      && r.unsold == remaining - TotalTake(r.draws)
    decreases |lots|
  {
    if remaining > 0.0 && |lots| > 0 {
      var d := Draw(lots[0], Min(remaining, lots[0].remainingQuantity));
      if Drawn(d).remainingQuantity <= Epsilon {
        DrawDownUnsold(lots[1..], remaining - d.take);
        var r' := DrawDown(lots[1..], remaining - d.take);
        assert DrawDown(lots, remaining).draws == [d] + r'.draws;
        assert ([d] + r'.draws)[1..] == r'.draws;
      }
    }
  }

  /** The i-th draw is against the i-th lot of the queue, and every draw
      but the last empties its lot. */
  lemma {:induction false} DrawDownInOrder(lots: seq<TaxLot>, remaining: real)
    ensures var r := DrawDown(lots, remaining);
      && (forall i :: 0 <= i < |r.draws| ==> r.draws[i].lot == lots[i])
      && (forall i :: 0 <= i < |r.draws| - 1 ==> r.draws[i].take == lots[i].remainingQuantity)
    decreases |lots|
  {
    if remaining > 0.0 && |lots| > 0 {
      var d := Draw(lots[0], Min(remaining, lots[0].remainingQuantity));
      if Drawn(d).remainingQuantity <= Epsilon {
        DrawDownInOrder(lots[1..], remaining - d.take);
        var r' := DrawDown(lots[1..], remaining - d.take);
        var ds := [d] + r'.draws;
        assert DrawDown(lots, remaining).draws == ds;
        assert forall i :: 1 <= i < |ds| ==> ds[i] == r'.draws[i - 1] && lots[i] == lots[1..][i - 1];
        if r'.draws != [] {
          DrawDownUnsold(lots[1..], remaining - d.take);
          assert d.take == lots[0].remainingQuantity;
        }
      }
    }
  }

  /** The loop stops only on an empty queue or a complete sale, and a sale
      that draws nothing leaves the queue as it was. */
  lemma {:induction false} DrawDownStops(lots: seq<TaxLot>, remaining: real)
    ensures var r := DrawDown(lots, remaining);
      && (r.unsold <= 0.0 || r.lots == [])
      && (r.draws == [] ==> r.lots == lots)
    decreases |lots|
  {
    if remaining > 0.0 && |lots| > 0 {
      var d := Draw(lots[0], Min(remaining, lots[0].remainingQuantity));
      if Drawn(d).remainingQuantity <= Epsilon {
        DrawDownStops(lots[1..], remaining - d.take);
      }
    }
  }

  /** The last draw takes what was still to sell or the whole lot,
      whichever is less. */
  lemma {:induction false} DrawDownLastTake(lots: seq<TaxLot>, remaining: real)
    ensures var r := DrawDown(lots, remaining);
      r.draws != [] ==>
        var last := r.draws[|r.draws| - 1];
        last.take == Min(r.unsold + last.take, last.lot.remainingQuantity)
    decreases |lots|
  {
    if remaining > 0.0 && |lots| > 0 {
      var d := Draw(lots[0], Min(remaining, lots[0].remainingQuantity));
      if Drawn(d).remainingQuantity <= Epsilon {
        var r' := DrawDown(lots[1..], remaining - d.take);
        var ds := [d] + r'.draws;
        assert DrawDown(lots, remaining) == Outcome(r'.lots, r'.unsold, ds);
        if r'.draws != [] {
          DrawDownLastTake(lots[1..], remaining - d.take);
          assert ds[|ds| - 1] == r'.draws[|r'.draws| - 1];
        } else {
          DrawDownUnsold(lots[1..], remaining - d.take);
        }
      }
    }
  }

  /** The last lot drawn stays at the head only if more than `Epsilon` is
      left in it, and then the sale is complete; the lots after it remain
      untouched. */
  lemma {:induction false} DrawDownLastLot(lots: seq<TaxLot>, remaining: real)
    ensures var r := DrawDown(lots, remaining);
      r.draws != [] ==>
        var last := Drawn(r.draws[|r.draws| - 1]);
        if last.remainingQuantity <= Epsilon then r.lots == lots[|r.draws|..]
        else r.lots == [last] + lots[|r.draws|..] && r.unsold == 0.0
  {
    DrawDownDrainedLast(lots, remaining);
    DrawDownKeptLast(lots, remaining);
  }

  lemma {:induction false} DrawDownDrainedLast(lots: seq<TaxLot>, remaining: real)
    ensures var r := DrawDown(lots, remaining);
      r.draws != [] && Drawn(r.draws[|r.draws| - 1]).remainingQuantity <= Epsilon ==>
        r.lots == lots[|r.draws|..]
    decreases |lots|
  {
    if remaining > 0.0 && |lots| > 0 {
      var d := Draw(lots[0], Min(remaining, lots[0].remainingQuantity));
      if Drawn(d).remainingQuantity <= Epsilon {
        var r' := DrawDown(lots[1..], remaining - d.take);
        var ds := [d] + r'.draws;
        assert DrawDown(lots, remaining) == Outcome(r'.lots, r'.unsold, ds);
        if r'.draws != [] {
          DrawDownDrainedLast(lots[1..], remaining - d.take);
          assert ds[|ds| - 1] == r'.draws[|r'.draws| - 1];
          assert lots[|ds|..] == lots[1..][|r'.draws|..];
        } else {
          DrawDownStops(lots[1..], remaining - d.take);
        }
      }
    }
  }

  lemma {:induction false} DrawDownKeptLast(lots: seq<TaxLot>, remaining: real)
    ensures var r := DrawDown(lots, remaining);
      r.draws != [] && Drawn(r.draws[|r.draws| - 1]).remainingQuantity > Epsilon ==>
        r.lots == [Drawn(r.draws[|r.draws| - 1])] + lots[|r.draws|..] && r.unsold == 0.0
    decreases |lots|
  {
    if remaining > 0.0 && |lots| > 0 {
      var d := Draw(lots[0], Min(remaining, lots[0].remainingQuantity));
      if Drawn(d).remainingQuantity <= Epsilon {
        var r' := DrawDown(lots[1..], remaining - d.take);
        var ds := [d] + r'.draws;
        assert DrawDown(lots, remaining) == Outcome(r'.lots, r'.unsold, ds);
        if r'.draws != [] {
          DrawDownKeptLast(lots[1..], remaining - d.take);
          assert ds[|ds| - 1] == r'.draws[|r'.draws| - 1];
          assert lots[|ds|..] == lots[1..][|r'.draws|..];
        }
      } else {
        assert d.take == remaining;
        assert DrawDown(lots, remaining) == Outcome([Drawn(d)] + lots[1..], 0.0, [d]);
      }
    }
  }

  // Sums over the draws of one sale and over a queue

  function TotalTake(ds: seq<Draw>): real {
    if ds == [] then 0.0 else ds[0].take + TotalTake(ds[1..])
  }

  function TotalProceeds(ds: seq<Draw>, sale: Sale): real
    requires sale.quantity != 0.0
  {
    if ds == [] then 0.0 else ProceedsShare(ds[0], sale) + TotalProceeds(ds[1..], sale)
  }

  function TotalFees(ds: seq<Draw>, sale: Sale): real
    requires sale.quantity != 0.0
  {
    if ds == [] then 0.0 else FeesShare(ds[0], sale) + TotalFees(ds[1..], sale)
  }

  function TotalCost(ds: seq<Draw>): real
    requires forall d <- ds :: d.lot.originalQuantity != 0.0
  {
    if ds == [] then 0.0 else CostShare(ds[0]) + TotalCost(ds[1..])
  }

  function TotalVap(ds: seq<Draw>): real {
    if ds == [] then 0.0 else VapShare(ds[0]) + TotalVap(ds[1..])
  }

  function TotalRaw(ds: seq<Draw>, sale: Sale): real
    requires sale.quantity != 0.0 && forall d <- ds :: d.lot.originalQuantity != 0.0
  {
    if ds == [] then 0.0 else RawProfit(ds[0], sale) + TotalRaw(ds[1..], sale)
  }

  /** Units still held in a queue. */
  function Held(lots: seq<TaxLot>): real {
    if lots == [] then 0.0 else lots[0].remainingQuantity + Held(lots[1..])
  }

  /** Acquisition cost still attached to the units held, at each lot's
      original unit cost. */
  function OpenCost(lots: seq<TaxLot>): real
    requires Divisible(lots)
  {
    if lots == [] then 0.0 else UnitCost(lots[0]) * lots[0].remainingQuantity + OpenCost(lots[1..])
  }

  /** Vorabpauschale accrued on the units held and not yet used by a sale. */
  function AccruedVap(lots: seq<TaxLot>): real {
    if lots == [] then 0.0 else lots[0].accumulatedVap + AccruedVap(lots[1..])
  }

  /** Total acquisition cost as bought. */
  function BookedCost(lots: seq<TaxLot>): real {
    if lots == [] then 0.0 else lots[0].acquisitionCostTotal + BookedCost(lots[1..])
  }

  lemma {:induction false} HeldNonNegative(lots: seq<TaxLot>)
    requires AllValid(lots)
    ensures Held(lots) >= 0.0
    ensures lots != [] ==> Held(lots) > 0.0
  {
    if lots != [] {
      assert ValidLot(lots[0]);
      assert AllValid(lots[1..]) by { assert forall l <- lots[1..] :: l in lots; }
      HeldNonNegative(lots[1..]);
    }
  }

  lemma ValidDivisible(lots: seq<TaxLot>)
    requires AllValid(lots)
    ensures Divisible(lots)
  {
    forall l <- lots ensures l.originalQuantity != 0.0 {
      assert ValidLot(l);
    }
  }

  // Small steps of real arithmetic, kept apart so that each proof sees only
  // the products it needs.

  lemma ShareOfWhole(v: real, h: real)
    requires h != 0.0
    ensures (v / h) * h == v
  {
  }

  lemma ShareAdds(total: real, t: real, s: real, q: real)
    requires q != 0.0
    ensures total * (t / q) + total * (s / q) == total * ((t + s) / q)
  {
    assert (t + s) / q == t / q + s / q;
  }

  lemma ScaleAdds(a: real, b: real, k: real)
    ensures a * k + b * k == (a + b) * k
  {
  }

  /** The share of the Vorabpauschale a draw releases lies between zero and
      the lot's whole accrual. */
  lemma VapShareBounded(vap: real, held: real, take: real)
    requires 0.0 <= vap && 0.0 < take <= held
    ensures 0.0 <= (vap / held) * take <= vap
  {
    var q := vap / held;
    assert q >= 0.0;
    assert q * take <= q * held;
    ShareOfWhole(vap, held);
  }

  /** A single draw keeps the lot's books: units, cost basis at the original
      unit cost, and Vorabpauschale are each split exactly between what the
      draw realises and what stays on the lot. */
  lemma DrawConserves(d: Draw)
    requires d.lot.originalQuantity != 0.0
    ensures Drawn(d).originalQuantity == d.lot.originalQuantity
    ensures Drawn(d).remainingQuantity + d.take == d.lot.remainingQuantity
    ensures CostShare(d) + UnitCost(Drawn(d)) * Drawn(d).remainingQuantity == UnitCost(d.lot) * d.lot.remainingQuantity
    ensures VapShare(d) + Drawn(d).accumulatedVap == d.lot.accumulatedVap
  {
    UnitCostFixed(d.lot, Drawn(d));
    ScaleAdds(d.take, d.lot.remainingQuantity - d.take, UnitCost(d.lot));
  }

  /** Selling part of a lot leaves the same accrued Vorabpauschale per
      remaining unit: the share is computed before the quantity shrinks. */
  lemma PartialDrawKeepsVapPerUnit(d: Draw)
    requires 0.0 < d.take < d.lot.remainingQuantity
    ensures Drawn(d).remainingQuantity > 0.0
    ensures Drawn(d).accumulatedVap / Drawn(d).remainingQuantity == d.lot.accumulatedVap / d.lot.remainingQuantity
  {
    var l := Drawn(d);
    var q := d.lot.accumulatedVap / d.lot.remainingQuantity;
    var left := d.lot.remainingQuantity - d.take;
    ShareOfWhole(d.lot.accumulatedVap, d.lot.remainingQuantity);
    ScaleAdds(left, d.take, q);
    assert l.accumulatedVap == q * left;
  }

  /** On lots the engine keeps, a sale takes `min(remaining, held)` units
      in all and never goes short. */
  lemma {:induction false} DrawDownTakes(lots: seq<TaxLot>, remaining: real)
    requires AllValid(lots) && 0.0 <= remaining
    ensures TotalTake(DrawDown(lots, remaining).draws) == Min(remaining, Held(lots))
    ensures 0.0 <= DrawDown(lots, remaining).unsold == remaining - Min(remaining, Held(lots))
    decreases |lots|
  {
    HeldNonNegative(lots);
    if remaining > 0.0 && |lots| > 0 {
      var l0 := lots[0];
      assert ValidLot(l0);
      assert AllValid(lots[1..]) by { assert forall l <- lots[1..] :: l in lots; }
      HeldNonNegative(lots[1..]);
      var take := Min(remaining, l0.remainingQuantity);
      var d := Draw(l0, take);
      if Drawn(d).remainingQuantity <= Epsilon {
        DrawDownTakes(lots[1..], remaining - take);
        var ds' := DrawDown(lots[1..], remaining - take).draws;
        assert DrawDown(lots, remaining).draws == [d] + ds';
        assert ([d] + ds')[1..] == ds';
        assert remaining - take > 0.0 ==> take == l0.remainingQuantity;
      } else {
        assert DrawDown(lots, remaining).draws == [d];
        assert take == remaining;
      }
    }
  }

  /** On lots the engine keeps, every draw takes a positive quantity no
      larger than its lot holds, and the lots left behind are valid. */
  lemma {:induction false} DrawDownKeepsValid(lots: seq<TaxLot>, remaining: real)
    requires AllValid(lots)
    ensures forall d <- DrawDown(lots, remaining).draws :: 0.0 < d.take <= d.lot.remainingQuantity
    ensures AllValid(DrawDown(lots, remaining).lots)
    decreases |lots|
  {
    if remaining > 0.0 && |lots| > 0 {
      var l0 := lots[0];
      assert ValidLot(l0);
      assert AllValid(lots[1..]) by { assert forall l <- lots[1..] :: l in lots; }
      var take := Min(remaining, l0.remainingQuantity);
      var d := Draw(l0, take);
      var lot := Drawn(d);
      if lot.remainingQuantity <= Epsilon {
        DrawDownKeepsValid(lots[1..], remaining - take);
        var r' := DrawDown(lots[1..], remaining - take);
        assert DrawDown(lots, remaining) == Outcome(r'.lots, r'.unsold, [d] + r'.draws);
      } else {
        VapShareBounded(l0.accumulatedVap, l0.remainingQuantity, take);
        UnitCostFixed(l0, lot);
        assert ValidLot(lot);
        assert DrawDown(lots, remaining) == Outcome([lot] + lots[1..], remaining - take, [d]);
      }
    }
  }

  /** On lots the engine keeps, the units left in the queue are those held
      before less those sold, except for at most `Epsilon` units the
      cut-off drops with the last lot drawn. */
  lemma {:induction false} DrawDownHeld(lots: seq<TaxLot>, remaining: real)
    requires AllValid(lots)
    ensures var r := DrawDown(lots, remaining);
      Held(lots) - TotalTake(r.draws) - Epsilon <= Held(r.lots) <= Held(lots) - TotalTake(r.draws)
    decreases |lots|
  {
    if remaining > 0.0 && |lots| > 0 {
      var l0 := lots[0];
      assert ValidLot(l0);
      assert AllValid(lots[1..]) by { assert forall l <- lots[1..] :: l in lots; }
      var take := Min(remaining, l0.remainingQuantity);
      var d := Draw(l0, take);
      var lot := Drawn(d);
      if lot.remainingQuantity <= Epsilon {
        DrawDownHeld(lots[1..], remaining - take);
        var r' := DrawDown(lots[1..], remaining - take);
        assert DrawDown(lots, remaining) == Outcome(r'.lots, r'.unsold, [d] + r'.draws);
        assert ([d] + r'.draws)[1..] == r'.draws;
        if remaining - take > 0.0 {
          assert take == l0.remainingQuantity;
        } else {
          assert r'.draws == [] && r'.lots == lots[1..];
        }
      } else {
        assert DrawDown(lots, remaining) == Outcome([lot] + lots[1..], remaining - take, [d]);
        assert ([lot] + lots[1..])[1..] == lots[1..];
      }
    }
  }

  /** Proceeds and fees are allocated in proportion to the units taken, so
      over any set of draws they add up to the same fraction of the
      transaction's totals as the fraction of its quantity taken. */
  lemma {:induction false} AllocationIsProRata(ds: seq<Draw>, sale: Sale)
    requires sale.quantity != 0.0
    ensures TotalProceeds(ds, sale) == sale.proceeds * (TotalTake(ds) / sale.quantity)
    ensures TotalFees(ds, sale) == sale.fees * (TotalTake(ds) / sale.quantity)
  {
    if ds != [] {
      AllocationIsProRata(ds[1..], sale);
      ShareAdds(sale.proceeds, ds[0].take, TotalTake(ds[1..]), sale.quantity);
      ShareAdds(sale.fees, ds[0].take, TotalTake(ds[1..]), sale.quantity);
    }
  }

  lemma WholeShare(total: real, q: real)
    requires q != 0.0
    ensures total * (q / q) == total
  {
  }

  /** When a sale is filled completely its draws' allocations add up to
      exactly the transaction's proceeds and fees. */
  lemma FilledSaleAllocatesAll(lots: seq<TaxLot>, sale: Sale)
    requires sale.quantity > 0.0
    requires DrawDown(lots, sale.quantity).unsold == 0.0
    ensures TotalProceeds(DrawDown(lots, sale.quantity).draws, sale) == sale.proceeds
    ensures TotalFees(DrawDown(lots, sale.quantity).draws, sale) == sale.fees
  {
    var ds := DrawDown(lots, sale.quantity).draws;
    DrawDownUnsold(lots, sale.quantity);
    assert TotalTake(ds) == sale.quantity;
    AllocationIsProRata(ds, sale);
    WholeShare(sale.proceeds, sale.quantity);
    WholeShare(sale.fees, sale.quantity);
  }

  /** Each lot drawn down in full, in queue order. */
  function WholeDraws(lots: seq<TaxLot>): (ds: seq<Draw>)
    ensures |ds| == |lots|
  {
    if lots == [] then [] else [Draw(lots[0], lots[0].remainingQuantity)] + WholeDraws(lots[1..])
  }

  /** A sale of at least everything held takes every lot whole, in queue
      order, and empties the queue. */
  lemma {:induction false} FullDrawDown(lots: seq<TaxLot>, remaining: real)
    requires AllValid(lots) && Held(lots) <= remaining
    ensures var r := DrawDown(lots, remaining);
      && r.lots == [] && r.draws == WholeDraws(lots) && r.unsold == remaining - Held(lots)
    decreases |lots|
  {
    HeldNonNegative(lots);
    if lots != [] {
      var l0 := lots[0];
      assert ValidLot(l0);
      assert AllValid(lots[1..]) by { assert forall l <- lots[1..] :: l in lots; }
      HeldNonNegative(lots[1..]);
      FullDrawDown(lots[1..], remaining - l0.remainingQuantity);
    }
  }

  lemma {:induction false} WholeDrawsDivisible(lots: seq<TaxLot>)
    requires AllValid(lots)
    ensures forall d <- WholeDraws(lots) :: d.lot.originalQuantity != 0.0 && d.lot in lots
  {
    if lots != [] {
      assert ValidLot(lots[0]);
      assert AllValid(lots[1..]) by { assert forall l <- lots[1..] :: l in lots; }
      WholeDrawsDivisible(lots[1..]);
      var ds := WholeDraws(lots);
      assert forall d <- ds :: d == ds[0] || d in WholeDraws(lots[1..]);
      assert forall l <- lots[1..] :: l in lots;
    }
  }

  /** Taking every lot whole releases each lot's whole open cost. */
  lemma {:induction false} WholeDrawsCost(lots: seq<TaxLot>)
    requires AllValid(lots)
    ensures Divisible(lots)
    ensures forall d <- WholeDraws(lots) :: d.lot.originalQuantity != 0.0
    ensures TotalCost(WholeDraws(lots)) == OpenCost(lots)
  {
    ValidDivisible(lots);
    WholeDrawsDivisible(lots);
    if lots != [] {
      assert AllValid(lots[1..]) by { assert forall l <- lots[1..] :: l in lots; }
      var rest := lots[1..];
      WholeDrawsCost(rest);
      var ds := WholeDraws(lots);
      assert ds[1..] == WholeDraws(rest);
      assert TotalCost(ds) == CostShare(ds[0]) + TotalCost(WholeDraws(rest));
      assert OpenCost(lots) == UnitCost(lots[0]) * lots[0].remainingQuantity + OpenCost(rest);
    }
  }

  /** Taking every lot whole releases each lot's whole accrued
      Vorabpauschale. */
  lemma {:induction false} WholeDrawsVap(lots: seq<TaxLot>)
    requires AllValid(lots)
    ensures TotalVap(WholeDraws(lots)) == AccruedVap(lots)
  {
    if lots != [] {
      assert ValidLot(lots[0]);
      assert AllValid(lots[1..]) by { assert forall l <- lots[1..] :: l in lots; }
      WholeDrawsVap(lots[1..]);
      assert WholeDraws(lots)[1..] == WholeDraws(lots[1..]);
      ShareOfWhole(lots[0].accumulatedVap, lots[0].remainingQuantity);
    }
  }

  /** Over the draws of a sale, the raw profit is net proceeds less the
      released cost and Vorabpauschale. */
  lemma {:induction false} RawProfitTotal(ds: seq<Draw>, sale: Sale)
    requires sale.quantity != 0.0 && forall d <- ds :: d.lot.originalQuantity != 0.0
    ensures TotalRaw(ds, sale) == TotalProceeds(ds, sale) - TotalFees(ds, sale) - TotalCost(ds) - TotalVap(ds)
  {
    if ds != [] {
      assert forall d <- ds[1..] :: d in ds;
      RawProfitTotal(ds[1..], sale);
    }
  }

  /** For lots not yet sold from, the open cost is the booked cost. */
  lemma {:induction false} UntouchedOpenCost(lots: seq<TaxLot>)
    requires forall l <- lots :: l.originalQuantity != 0.0 && l.remainingQuantity == l.originalQuantity
    ensures Divisible(lots)
    ensures OpenCost(lots) == BookedCost(lots)
  {
    if lots != [] {
      assert lots[0] in lots;
      assert forall l <- lots[1..] :: l in lots;
      UntouchedOpenCost(lots[1..]);
      ShareOfWhole(lots[0].acquisitionCostTotal, lots[0].originalQuantity);
    }
  }
}
