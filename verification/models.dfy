/** The records the C# engine works on: raw transactions, instruments, tax
    lots and tax events (TaxAlpha/Core/Models). */
module Models {
  import opened Wrappers
  import opened Dates

  /** The action a loaded transaction carries. */
  datatype TransactionAction = Buy | Sell | Div | Wht | Int | Unknown

  /** One normalised broker record; amounts already converted to EUR. */
  datatype RawTransaction = RawTransaction(
    transId: string,
    symbol: string,
    isin: string,
    assetClass: string,
    dateTime: DateTime,
    action: TransactionAction,
    description: string,
    quantity: real,
    amountEur: real,
    feesEur: real,
    fxRateToBase: real,
    priceOrigin: real)

  /** Reference data; `tfsQuote` is the partial-exemption quota
      (Teilfreistellungsquote) of section 20 InvStG. */
  datatype Instrument = Instrument(isin: string, symbol: string, name: string, tfsQuote: real)

  /** One acquisition batch. Only `remainingQuantity` and `accumulatedVap`
      change after construction. */
  datatype TaxLot = TaxLot(
    id: string,
    symbol: string,
    isin: string,
    dateAcquired: Date,
    originalQuantity: real,
    remainingQuantity: real,
    acquisitionCostTotal: real,
    accumulatedVap: real,
    acquisitionPriceOrigin: real,
    acquisitionFxRate: real)

  /** The TaxLot constructor. */
  function NewLot(id: string, symbol: string, isin: string, dateAcquired: Date,
                  originalQty: real, costTotal: real, priceOrigin: real, fxRate: real): (lot: TaxLot)
    ensures lot.remainingQuantity == lot.originalQuantity == originalQty
    ensures lot.accumulatedVap == 0.0
    ensures lot.acquisitionCostTotal == costTotal && lot.dateAcquired == dateAcquired
    ensures lot.id == id && lot.symbol == symbol && lot.isin == isin
  {
    TaxLot(id, symbol, isin, dateAcquired, originalQty, originalQty, costTotal, 0.0, priceOrigin, fxRate)
  }

  /** `b` is `a` after changes through the two setters only: every
      get-only property is the same. */
  predicate SameLot(a: TaxLot, b: TaxLot) {
    a.(remainingQuantity := b.remainingQuantity, accumulatedVap := b.accumulatedVap) == b
  }

  /** The two setters of TaxLot, the only way the engine changes a lot. */
  function SetHolding(lot: TaxLot, remaining: real, vap: real): (l: TaxLot)
    ensures SameLot(lot, l)
    ensures l.remainingQuantity == remaining && l.accumulatedVap == vap
  {
    lot.(remainingQuantity := remaining, accumulatedVap := vap)
  }

  /** Average cost per unit of the lot as bought; the engine divides by
      `originalQuantity`, so it must be nonzero. */
  function UnitCost(lot: TaxLot): real
    requires lot.originalQuantity != 0.0
  {
    lot.acquisitionCostTotal / lot.originalQuantity
  }

  /** Unit cost is fixed for a lot's whole life: changing holdings through
      the setters never moves it. */
  lemma UnitCostFixed(a: TaxLot, b: TaxLot)
    requires a.originalQuantity != 0.0 && SameLot(a, b)
    ensures b.originalQuantity == a.originalQuantity
    ensures UnitCost(b) == UnitCost(a)
  {
    assert b.originalQuantity == a.(remainingQuantity := b.remainingQuantity, accumulatedVap := b.accumulatedVap).originalQuantity;
    assert b.acquisitionCostTotal == a.(remainingQuantity := b.remainingQuantity, accumulatedVap := b.accumulatedVap).acquisitionCostTotal;
  }

  /** The kinds of tax event, a closed set. */
  datatype TaxEventType = SELL | DIVIDEND | INTEREST | VORABPAUSCHALE | WITHHOLDINGTAX

  /** The integer value of each enum member. */
  function Ordinal(t: TaxEventType): (n: int)
    ensures 1 <= n <= 5
    ensures FromOrdinal(n) == Some(t)
  {
    match t
    case SELL => 1
    case DIVIDEND => 2
    case INTEREST => 3
    case VORABPAUSCHALE => 4
    case WITHHOLDINGTAX => 5
  }

  /** The member with a given integer value, if there is one. */
  function FromOrdinal(n: int): (t: Option<TaxEventType>)
    ensures t.Some? <==> 1 <= n <= 5
  {
    if n == 1 then Some(SELL)
    else if n == 2 then Some(DIVIDEND)
    else if n == 3 then Some(INTEREST)
    else if n == 4 then Some(VORABPAUSCHALE)
    else if n == 5 then Some(WITHHOLDINGTAX)
    else None
  }

  /** Distinct members have distinct values. */
  lemma OrdinalInjective(a: TaxEventType, b: TaxEventType)
    ensures Ordinal(a) == Ordinal(b) ==> a == b
  {
    if Ordinal(a) == Ordinal(b) {
      assert Some(a) == FromOrdinal(Ordinal(a)) == FromOrdinal(Ordinal(b)) == Some(b);
    }
  }

  /** An immutable tax event. */
  datatype TaxEvent = TaxEvent(
    year: int,
    date: Date,
    eventType: TaxEventType,
    symbol: string,
    isin: string,
    rawProfit: real,
    taxableProfit: real,
    usedVap: real,
    foreignWht: real,
    quantitySold: real,
    saleProceeds: real,
    acquisitionCosts: real)

  /** The positional TaxEvent constructor with every optional argument left
      at its default. */
  function NewEvent(year: int, date: Date, eventType: TaxEventType, symbol: string, isin: string,
                    rawProfit: real, taxableProfit: real): (e: TaxEvent)
    ensures e.usedVap == 0.0 && e.foreignWht == 0.0
    ensures e.quantitySold == 0.0 && e.saleProceeds == 0.0 && e.acquisitionCosts == 0.0
    ensures e.year == year && e.date == date && e.eventType == eventType
    ensures e.rawProfit == rawProfit && e.taxableProfit == taxableProfit
    ensures e.symbol == symbol && e.isin == isin
  {
    TaxEvent(year, date, eventType, symbol, isin, rawProfit, taxableProfit, 0.0, 0.0, 0.0, 0.0, 0.0)
  }
}
