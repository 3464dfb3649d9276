/** The tax estimate at the foot of the annual report (ConsoleReporting
    and `generate_annual_report`): 25 % flat tax plus 5.5 % solidarity
    surcharge on it, less the creditable foreign withholding tax. */
module Estimate {
  /** The solidarity surcharge factor on the flat tax. */
  const Soli := 1.055

  function EstimatedTax(totalIncome: real, withheld: real): (t: real)
    ensures t + withheld == totalIncome * 0.26375
  {
    (totalIncome * 0.25) * Soli - withheld
  }

  /** More income never lowers the estimate, and every euro withheld abroad
      lowers it by one euro. */
  lemma EstimateMonotone(income1: real, income2: real, withheld1: real, withheld2: real)
    requires income1 <= income2 && withheld2 <= withheld1
    ensures EstimatedTax(income1, withheld1) <= EstimatedTax(income2, withheld2)
    ensures EstimatedTax(income1, withheld1) - EstimatedTax(income1, withheld2) == withheld2 - withheld1
  {
  }
}
