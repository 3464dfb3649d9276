/** The records of the Python twin (models.py and the RawTransaction of
    loader.py). The Python tax lot is the C# TaxLot; the raw transaction
    and the tax event differ and are given here with their projections onto
    the C# records. */
module PyModels {
  import opened Wrappers
  import opened Dates
  import opened Decimals
  import opened Models
  import opened Providers

  /** A Python RawTransaction. `transId` is missing on cash rows without
      a transactionID attribute, and `action` is missing on trade rows
      without buySell; both are plain strings otherwise. */
  datatype PyRawTransaction = PyRawTransaction(
    transId: Option<string>,
    symbol: string,
    isin: string,
    assetClass: string,
    dateTime: DateTime,
    action: Option<string>,
    description: string,
    quantity: real,
    amountEur: real,
    feesEur: real,
    fxRateToBase: real,
    priceOrigin: real)

  /** The action tags the Python loader writes and the engine compares
      against. */
  const BuyTag := "BUY"
  const SellTag := "SELL"
  const DivTag := "DIV"
  const WhtTag := "WHT"
  const IntTag := "INT"

  /** The C# action an action tag stands for. */
  function ActionOf(action: Option<string>): (a: TransactionAction)
    ensures a == Buy <==> action == Some(BuyTag)
    ensures a == Sell <==> action == Some(SellTag)
    ensures a == Div <==> action == Some(DivTag)
    ensures a == Wht <==> action == Some(WhtTag)
    ensures a == Int <==> action == Some(IntTag)
  {
    match action
    case None => Unknown
    case Some(s) =>
      if s == BuyTag then Buy
      else if s == SellTag then Sell
      else if s == DivTag then Div
      else if s == WhtTag then Wht
      else if s == IntTag then Int
      else Unknown
  }

  /** The same transaction as the C# record. */
  function ToCSharp(tx: PyRawTransaction): (c: RawTransaction)
    ensures c.action == ActionOf(tx.action)
    ensures c.symbol == tx.symbol && c.isin == tx.isin && c.description == tx.description
    ensures c.quantity == tx.quantity && c.amountEur == tx.amountEur && c.feesEur == tx.feesEur
  {
    RawTransaction(tx.transId.GetOr(""), tx.symbol, tx.isin, tx.assetClass, tx.dateTime, ActionOf(tx.action),
                   tx.description, tx.quantity, tx.amountEur, tx.feesEur, tx.fxRateToBase, tx.priceOrigin)
  }

  /** `RawTransaction.is_cancellation_of`: same symbol, exactly the
      opposite quantity, and amounts that cancel to within 0.05 inclusive. */
  function IsCancellationOf(self: PyRawTransaction, other: PyRawTransaction): (b: bool)
    ensures b ==> self.symbol == other.symbol && self.quantity == -other.quantity
    ensures b ==> -0.05 <= self.amountEur + other.amountEur <= 0.05
    ensures (self.symbol == other.symbol && self.quantity == -other.quantity
             && -0.05 <= self.amountEur + other.amountEur <= 0.05) ==> b
  {
    if self.symbol != other.symbol then false
    else if self.quantity != -other.quantity then false
    else if Abs(self.amountEur + other.amountEur) > 0.05 then false
    else true
  }

  /** `Instrument(symbol, isin)` with the dataclass defaults: no name and
      the equity-fund quota of 30 percent. */
  function DefaultInstrument(symbol: string, isin: string): (i: Instrument)
    ensures i.tfsQuote == TfsDefault && i.name == ""
    ensures i.symbol == symbol && i.isin == isin
  {
    Instrument(isin, symbol, "", 0.30)
  }

  /** `TaxLot.cost_per_share`: the C# unit cost, except that a lot of zero
      original quantity reports 0 where C# would divide by zero. */
  function CostPerShare(lot: TaxLot): (c: real)
    ensures lot.originalQuantity != 0.0 ==> c == UnitCost(lot) && c * lot.originalQuantity == lot.acquisitionCostTotal
    ensures lot.originalQuantity == 0.0 ==> c == 0.0
  {
    if lot.originalQuantity == 0.0 then 0.0 else lot.acquisitionCostTotal / lot.originalQuantity
  }

  /** Like the unit cost, the cost per share never changes over a lot's
      life: the setters do not touch its inputs. */
  lemma CostPerShareFixed(a: TaxLot, b: TaxLot)
    requires SameLot(a, b)
    ensures CostPerShare(b) == CostPerShare(a)
  {
    assert b.originalQuantity == a.(remainingQuantity := b.remainingQuantity, accumulatedVap := b.accumulatedVap).originalQuantity;
    if a.originalQuantity != 0.0 {
      UnitCostFixed(a, b);
    }
  }

  /** The `type` strings of the events the Python engine writes. */
  datatype PyEventKind = SellKind | DivKind | WhtKind | VapKind {
    function Tag(): (s: string)
      ensures |s| == 3 || |s| == 4
    {
      match this
      case SellKind => "SELL"
      case DivKind => "DIV"
      case WhtKind => "WHT"
      case VapKind => "VAP"
    }

    /** The C# event type of the same kind. */
    function EventType(): TaxEventType {
      match this
      case SellKind => SELL
      case DivKind => DIVIDEND
      case WhtKind => WITHHOLDINGTAX
      case VapKind => VORABPAUSCHALE
    }
  }

  /** The tags tell the kinds apart, and the kinds map to distinct C#
      types; INTEREST has no Python counterpart. */
  lemma KindsDistinct(a: PyEventKind, b: PyEventKind)
    ensures a.Tag() == b.Tag() ==> a == b
    ensures a.EventType() == b.EventType() ==> a == b
    ensures a.EventType() != INTEREST
  {
  }

  /** A Python TaxEvent, with the extra report fields of a sale. */
  datatype PyTaxEvent = PyTaxEvent(
    year: int,
    date: Date,
    kind: PyEventKind,
    symbol: string,
    isin: string,
    quantitySold: real,
    saleProceeds: real,
    saleCosts: real,
    acquisitionCosts: real,
    usedVap: real,
    rawProfit: real,
    taxableProfit: real,
    foreignWht: real,
    dateAcquired: Option<Date>,
    buyPriceOrigin: real,
    buyFx: real,
    sellPriceOrigin: real,
    sellFx: real)

  /** `TaxEvent(year, date, type, symbol, isin)` with every other field at
      its default: the amounts 0 and no acquisition date. */
  function PyNewEvent(year: int, date: Date, kind: PyEventKind, symbol: string, isin: string): (e: PyTaxEvent)
    ensures e.quantitySold == e.saleProceeds == e.saleCosts == e.acquisitionCosts == 0.0
    ensures e.usedVap == e.rawProfit == e.taxableProfit == e.foreignWht == 0.0
    ensures e.buyPriceOrigin == e.buyFx == e.sellPriceOrigin == e.sellFx == 0.0
    ensures e.dateAcquired == None
    ensures e.year == year && e.date == date && e.kind == kind && e.symbol == symbol && e.isin == isin
  {
    PyTaxEvent(year, date, kind, symbol, isin, 0.0, 0.0, 0.0, 0.0, 0.0, 0.0, 0.0, 0.0, None, 0.0, 0.0, 0.0, 0.0)
  }

  /** The fields a Python event shares with the C# record. */
  function Project(e: PyTaxEvent): (c: TaxEvent)
    ensures c.eventType == e.kind.EventType() && c.year == e.year && c.date == e.date
    ensures c.rawProfit == e.rawProfit && c.taxableProfit == e.taxableProfit && c.foreignWht == e.foreignWht
  {
    TaxEvent(e.year, e.date, e.kind.EventType(), e.symbol, e.isin, e.rawProfit, e.taxableProfit, e.usedVap,
             e.foreignWht, e.quantitySold, e.saleProceeds, e.acquisitionCosts)
  }

  function ProjectAll(es: seq<PyTaxEvent>): (cs: seq<TaxEvent>)
    ensures |cs| == |es|
    ensures forall i | 0 <= i < |es| :: cs[i] == Project(es[i])
  {
    seq(|es|, i requires 0 <= i < |es| => Project(es[i]))
  }

  lemma ProjectAllAppend(a: seq<PyTaxEvent>, b: seq<PyTaxEvent>)
    ensures ProjectAll(a + b) == ProjectAll(a) + ProjectAll(b)
  {
  }

  /** The defaults agree with the C# record's: a Python event built with
      only the raw and taxable profit set projects onto the C# event built
      the same way. */
  lemma DefaultsAgree(year: int, date: Date, kind: PyEventKind, symbol: string, isin: string, raw: real, taxable: real)
    ensures Project(PyNewEvent(year, date, kind, symbol, isin).(rawProfit := raw, taxableProfit := taxable))
         == NewEvent(year, date, kind.EventType(), symbol, isin, raw, taxable)
  {
  }
}
