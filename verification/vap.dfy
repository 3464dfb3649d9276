/** The year-end Vorabpauschale rule of both engines, per unit held: 70
    percent of the base rate on the unit acquisition cost, pro rata for the
    months held in the year of purchase, capped at the year's price gain
    and reduced by the distributions per unit already taxed that year. */
module Vorabpauschale {
  import opened Decimals
  import opened Dates

  /** The Basisertrag factor: 70 percent of the base rate. */
  function BasisFactor(rate: real): real {
    rate * 0.7
  }

  /** Months counted for a lot in the year being closed: from the month of
      purchase through December for a lot bought that year, a full twelve
      for any other lot. */
  function MonthsHeld(acquired: Date, year: int): (m: real)
    ensures 1 <= acquired.month <= 12 ==> 1.0 <= m <= 12.0
    ensures m == 12.0 <==> acquired.year != year || acquired.month == 1
  {
    if acquired.year == year then 12.0 - acquired.month as real + 1.0 else 12.0
  }

  function BasisReturn(unitCost: real, rate: real, months: real): real {
    unitCost * BasisFactor(rate) * (months / 12.0)
  }

  function PriceGain(price: real, unitCost: real): (g: real)
    ensures g >= 0.0 && g >= price - unitCost
    ensures g > 0.0 <==> price > unitCost
  {
    Max(0.0, price - unitCost)
  }

  /** The Vorabpauschale per unit. It is never negative; with non-negative
      distributions it is capped by the price gain and by the basis return. */
  function VapPerShare(unitCost: real, rate: real, months: real, price: real, dist: real): (v: real)
    ensures v >= 0.0
    ensures dist >= 0.0 ==> v <= PriceGain(price, unitCost) && v <= Max(0.0, BasisReturn(unitCost, rate, months))
    ensures v > 0.0 <==> Min(BasisReturn(unitCost, rate, months), PriceGain(price, unitCost)) > dist
  {
    Max(0.0, Min(BasisReturn(unitCost, rate, months), PriceGain(price, unitCost)) - dist)
  }

  /** No Vorabpauschale on a lot that has not gained in value. */
  lemma NoVapWithoutGain(unitCost: real, rate: real, months: real, price: real, dist: real)
    requires price <= unitCost && dist >= 0.0
    ensures VapPerShare(unitCost, rate, months, price, dist) == 0.0
  {
  }

  /** A higher year-end price never lowers the Vorabpauschale. */
  lemma VapMonotoneInPrice(unitCost: real, rate: real, months: real, p1: real, p2: real, dist: real)
    requires p1 <= p2
    ensures VapPerShare(unitCost, rate, months, p1, dist) <= VapPerShare(unitCost, rate, months, p2, dist)
  {
  }

  /** Distributions already taxed never raise the Vorabpauschale. */
  lemma VapAntitoneInDistributions(unitCost: real, rate: real, months: real, price: real, d1: real, d2: real)
    requires d1 <= d2
    ensures VapPerShare(unitCost, rate, months, price, d2) <= VapPerShare(unitCost, rate, months, price, d1)
  {
  }

  /** Holding longer in the year of purchase never lowers the
      Vorabpauschale, for a non-negative cost and rate. */
  lemma VapMonotoneInMonths(unitCost: real, rate: real, m1: real, m2: real, price: real, dist: real)
    requires 0.0 <= unitCost && 0.0 <= rate && m1 <= m2
    ensures VapPerShare(unitCost, rate, m1, price, dist) <= VapPerShare(unitCost, rate, m2, price, dist)
  {
    var k := unitCost * BasisFactor(rate);
    assert k >= 0.0;
    assert m1 / 12.0 <= m2 / 12.0;
    assert k * (m1 / 12.0) <= k * (m2 / 12.0);
    assert BasisReturn(unitCost, rate, m1) == k * (m1 / 12.0);
    assert BasisReturn(unitCost, rate, m2) == k * (m2 / 12.0);
    var g := PriceGain(price, unitCost);
    assert Min(BasisReturn(unitCost, rate, m1), g) <= Min(BasisReturn(unitCost, rate, m2), g);
  }

  /** A negative distribution (a reversed dividend) lifts the amount above
      the price-gain cap: the cap only holds for non-negative distributions. */
  lemma NegativeDistributionExceedsCap()
    ensures VapPerShare(10.0, 0.0255, 12.0, 10.0, -1.0) == 1.0
    ensures PriceGain(10.0, 10.0) == 0.0
  {
  }

  /** The worked example: unit cost 10, base rate 2.55 percent, a full
      year, year-end price 12 and no distributions give 0.1785 per unit. */
  lemma WorkedExample()
    ensures BasisFactor(0.0255) == 0.01785
    ensures MonthsHeld(Date(2022, 1, 1), 2022) == 12.0
    ensures VapPerShare(10.0, 0.0255, 12.0, 12.0, 0.0) == 0.1785
    ensures VapPerShare(10.0, 0.0255, 12.0, 12.0, 0.0) * 100.0 == 17.85
  {
  }
}
