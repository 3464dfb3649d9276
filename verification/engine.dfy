/** The C# PortfolioEngine: a FIFO queue of tax lots per ISIN, the tax
    ledger, and the distributions per unit received in each year. The engine
    is a value; each operation returns the engine after the call. */
module Engine {
  import opened Wrappers
  import opened Dates
  import opened Decimals
  import opened Models
  import opened Fifo
  import opened Vorabpauschale
  import opened Providers

  /** The engine's state. `isins` is the order in which the ISINs entered
      the portfolio, which is the order the dictionary enumerates them in:
      an entry, once created, is never removed. */
  datatype Engine = Engine(
    portfolio: map<string, seq<TaxLot>>,
    isins: seq<string>,
    ledger: seq<TaxEvent>,
    distributions: map<(int, string), real>)

  /** The state the engine keeps: valid lots only, and `isins` listing each
      portfolio key exactly once. */
  predicate Valid(e: Engine) {
    && (forall k <- e.portfolio :: AllValid(e.portfolio[k]))
    && (forall k <- e.portfolio :: k in e.isins)
    && (forall i | 0 <= i < |e.isins| :: e.isins[i] in e.portfolio)
    && (forall i, j | 0 <= i < j < |e.isins| :: e.isins[i] != e.isins[j])
  }

  /** A freshly constructed engine. */
  function Empty(): (e: Engine)
    ensures Valid(e) && e.ledger == [] && e.portfolio == map[]
  {
    Engine(map[], [], [], map[])
  }

  /** The lots held for an ISIN, empty when it never entered the portfolio. */
  function Queue(e: Engine, isin: string): seq<TaxLot> {
    if isin in e.portfolio then e.portfolio[isin] else []
  }

  /** The distributions per unit recorded for a year and ISIN, 0 if none. */
  function Distribution(e: Engine, year: int, isin: string): real {
    if (year, isin) in e.distributions then e.distributions[(year, isin)] else 0.0
  }

  // Buy

  /** The lot a buy opens: its cost basis includes the fees. */
  function LotOf(tx: RawTransaction, date: Date): (lot: TaxLot)
    ensures lot.acquisitionCostTotal == tx.amountEur + tx.feesEur
    ensures lot.originalQuantity == lot.remainingQuantity == tx.quantity && lot.accumulatedVap == 0.0
    ensures lot.isin == tx.isin && lot.dateAcquired == date
  {
    NewLot(tx.transId, tx.symbol, tx.isin, date, tx.quantity, tx.amountEur + tx.feesEur, tx.priceOrigin, tx.fxRateToBase)
  }

  /** HandleBuy: the new lot joins the back of the ISIN's queue, which is
      created on the first buy. */
  function HandleBuy(e: Engine, tx: RawTransaction, date: Date): (r: Engine)
    ensures Queue(r, tx.isin) == Queue(e, tx.isin) + [LotOf(tx, date)]
    ensures forall k :: k != tx.isin ==> Queue(r, k) == Queue(e, k)
    ensures r.ledger == e.ledger && r.distributions == e.distributions
  {
    if tx.isin in e.portfolio then
      e.(portfolio := e.portfolio[tx.isin := e.portfolio[tx.isin] + [LotOf(tx, date)]])
    else
      e.(portfolio := e.portfolio[tx.isin := [LotOf(tx, date)]], isins := e.isins + [tx.isin])
  }

  // Sell

  /** The sale a sell transaction describes: quantity and proceeds are
      taken as magnitudes, the fees as booked. */
  function SaleOf(tx: RawTransaction, inst: Instrument): (s: Sale)
    ensures s.quantity == Abs(tx.quantity) && s.proceeds == Abs(tx.amountEur)
    ensures s.fees == tx.feesEur && s.tfsQuote == inst.tfsQuote
  {
    Sale(Abs(tx.quantity), Abs(tx.amountEur), tx.feesEur, inst.tfsQuote)
  }

  /** The SELL event of one draw. */
  function SellEvent(d: Draw, sale: Sale, year: int, date: Date, symbol: string, isin: string): (ev: TaxEvent)
    requires sale.quantity != 0.0 && d.lot.originalQuantity != 0.0
    ensures ev.eventType == SELL && ev.year == year && ev.date == date && ev.isin == isin
    ensures ev.rawProfit == ev.saleProceeds - FeesShare(d, sale) - ev.acquisitionCosts - ev.usedVap
    ensures ev.taxableProfit == ev.rawProfit * (1.0 - sale.tfsQuote)
    ensures ev.quantitySold == d.take && ev.foreignWht == 0.0
  {
    TaxEvent(year, date, SELL, symbol, isin, RawProfit(d, sale), TaxableProfit(d, sale), VapShare(d), 0.0,
             d.take, ProceedsShare(d, sale), CostShare(d))
  }

  function SellEvents(ds: seq<Draw>, sale: Sale, year: int, date: Date, symbol: string, isin: string): (es: seq<TaxEvent>)
    requires ds != [] ==> sale.quantity != 0.0
    requires forall d <- ds :: d.lot.originalQuantity != 0.0
    ensures |es| == |ds|
  {
    if ds == [] then []
    else
      assert forall d <- ds[1..] :: d in ds;
      [SellEvent(ds[0], sale, year, date, symbol, isin)] + SellEvents(ds[1..], sale, year, date, symbol, isin)
  }

  /** The draws of a sale are against lots of the queue, and there are
      none unless something was to be sold. */
  lemma DrawsDivisible(lots: seq<TaxLot>, remaining: real)
    requires Divisible(lots)
    ensures forall d <- DrawDown(lots, remaining).draws :: d.lot.originalQuantity != 0.0
    ensures DrawDown(lots, remaining).draws != [] ==> remaining > 0.0
  {
    var ds := DrawDown(lots, remaining).draws;
    DrawDownInOrder(lots, remaining);
    DrawDownUnsold(lots, remaining);
    forall d <- ds ensures d.lot.originalQuantity != 0.0 {
      var i :| 0 <= i < |ds| && ds[i] == d;
      assert d.lot == lots[i];
    }
  }

  /** HandleSell: the sale is drawn down the ISIN's queue oldest lot first,
      with one SELL event per lot drawn; with no lots held nothing happens. */
  function HandleSell(e: Engine, tx: RawTransaction, inst: Instrument, date: Date, year: int): (r: Engine)
    requires Divisible(Queue(e, tx.isin))
    ensures Queue(e, tx.isin) == [] ==> r == e
    ensures e.ledger <= r.ledger
    ensures forall k :: k != tx.isin ==> Queue(r, k) == Queue(e, k)
    ensures r.isins == e.isins && r.distributions == e.distributions
    ensures r.portfolio.Keys == e.portfolio.Keys
  {
    if tx.isin !in e.portfolio || e.portfolio[tx.isin] == [] then e
    else
      var lots := e.portfolio[tx.isin];
      var sale := SaleOf(tx, inst);
      var out := DrawDown(lots, sale.quantity);
      DrawsDivisible(lots, sale.quantity);
      e.(portfolio := e.portfolio[tx.isin := out.lots],
         ledger := e.ledger + SellEvents(out.draws, sale, year, date, tx.symbol, tx.isin))
  }

  // Dividends, withholding tax, interest

  /** The DIVIDEND event: taxable after the partial exemption. */
  function DividendEvent(tx: RawTransaction, inst: Instrument, date: Date, year: int): (ev: TaxEvent)
    ensures ev.eventType == DIVIDEND && ev.rawProfit == tx.amountEur
    ensures ev.taxableProfit == tx.amountEur * (1.0 - inst.tfsQuote) && ev.foreignWht == 0.0
  {
    NewEvent(year, date, DIVIDEND, tx.symbol, tx.isin, tx.amountEur, tx.amountEur * (1.0 - inst.tfsQuote))
  }

  /** The WITHHOLDINGTAX event: the booked amount as raw profit, nothing
      taxable, and the tax paid as a positive credit. */
  function WithholdingEvent(tx: RawTransaction, date: Date, year: int): (ev: TaxEvent)
    ensures ev.eventType == WITHHOLDINGTAX && ev.rawProfit == tx.amountEur && ev.taxableProfit == 0.0
    ensures ev.foreignWht >= 0.0 && (ev.foreignWht == tx.amountEur || ev.foreignWht == -tx.amountEur)
  {
    TaxEvent(year, date, WITHHOLDINGTAX, tx.symbol, tx.isin, tx.amountEur, 0.0, 0.0, Abs(tx.amountEur), 0.0, 0.0, 0.0)
  }

  /** HandleDividend. A dividend is also spread over the units held at the
      time and added to the year's distributions per unit; withholding tax
      only logs its event. */
  function HandleDividend(e: Engine, tx: RawTransaction, inst: Instrument, date: Date, year: int): (r: Engine)
    ensures r.portfolio == e.portfolio && r.isins == e.isins
    ensures tx.action == Div ==> r.ledger == e.ledger + [DividendEvent(tx, inst, date, year)]
    ensures tx.action == Wht ==> r.ledger == e.ledger + [WithholdingEvent(tx, date, year)] && r.distributions == e.distributions
    ensures tx.action !in {Div, Wht} ==> r == e
  {
    if tx.action == Div then
      var held := Held(Queue(e, tx.isin));
      var distributions :=
        if tx.isin in e.portfolio && held > 0.0 then
          e.distributions[(year, tx.isin) := Distribution(e, year, tx.isin) + tx.amountEur / held]
        else e.distributions;
      e.(ledger := e.ledger + [DividendEvent(tx, inst, date, year)], distributions := distributions)
    else if tx.action == Wht then
      e.(ledger := e.ledger + [WithholdingEvent(tx, date, year)])
    else e
  }

  /** HandleInterest: fully taxable, no exemption. */
  function HandleInterest(e: Engine, tx: RawTransaction, date: Date, year: int): (r: Engine)
    ensures r.portfolio == e.portfolio && r.isins == e.isins && r.distributions == e.distributions
    ensures |r.ledger| == |e.ledger| + 1 && r.ledger[..|e.ledger|] == e.ledger
    ensures var ev := r.ledger[|e.ledger|];
      ev.eventType == INTEREST && ev.rawProfit == ev.taxableProfit == tx.amountEur
  {
    e.(ledger := e.ledger + [NewEvent(year, date, INTEREST, tx.symbol, tx.isin, tx.amountEur, tx.amountEur)])
  }

  // Dispatch

  /** ProcessTransaction: routes on the action; an unknown action changes
      nothing. The instrument is looked up for every transaction. */
  function ProcessTransaction(e: Engine, tx: RawTransaction, instruments: InstrumentProvider): (r: Engine)
    requires Divisible(Queue(e, tx.isin))
    ensures e.ledger <= r.ledger
    ensures tx.action == Unknown ==> r == e
    ensures tx.action != Buy ==> r.isins == e.isins && r.portfolio.Keys == e.portfolio.Keys
  {
    var date := DateOf(tx.dateTime);
    var year := date.year;
    var inst := GetInstrument(instruments, tx.isin, tx.symbol);
    match tx.action
    case Buy => HandleBuy(e, tx, date)
    case Sell => HandleSell(e, tx, inst, date, year)
    case Div => HandleDividend(e, tx, inst, date, year)
    case Wht => HandleDividend(e, tx, inst, date, year)
    case Int => HandleInterest(e, tx, date, year)
    case Unknown => e
  }

  // Year-end closing

  /** A lot after closing and the VORABPAUSCHALE events closing produced. */
  datatype Closed = Closed(lots: seq<TaxLot>, events: seq<TaxEvent>)

  /** The Vorabpauschale per unit for one lot in the year being closed. */
  function LotVapPerShare(lot: TaxLot, year: int, rate: real, price: real, dist: real): (v: real)
    requires lot.originalQuantity != 0.0
    ensures v >= 0.0
  {
    VapPerShare(UnitCost(lot), rate, MonthsHeld(lot.dateAcquired, year), price, dist)
  }

  /** The VORABPAUSCHALE event: deemed received on 1 January of the next
      year, taxable after the partial exemption. */
  function VapEvent(lot: TaxLot, total: real, year: int, isin: string, tfs: real): (ev: TaxEvent)
    ensures ev.eventType == VORABPAUSCHALE && ev.year == year + 1 && ev.date == NewYear(year + 1)
    ensures ev.rawProfit == total && ev.taxableProfit == total * (1.0 - tfs) && ev.isin == isin
  {
    NewEvent(year + 1, NewYear(year + 1), VORABPAUSCHALE, lot.symbol, isin, total, total * (1.0 - tfs))
  }

  /** The Vorabpauschale a lot accrues at closing: the amount per unit
      times the units held, for a lot still held with a positive amount per
      unit, and nothing otherwise. */
  function Accrual(lot: TaxLot, year: int, rate: real, price: real, dist: real): (a: real)
    requires lot.originalQuantity != 0.0
    ensures a >= 0.0
    ensures a > 0.0 <==> lot.remainingQuantity > 0.0 && LotVapPerShare(lot, year, rate, price, dist) > 0.0
  {
    if lot.remainingQuantity > 0.0 && LotVapPerShare(lot, year, rate, price, dist) > 0.0 then
      LotVapPerShare(lot, year, rate, price, dist) * lot.remainingQuantity
    else 0.0
  }

  /** A lot after closing: the same lot with the same units and its
      accrual added. */
  function ClosedLot(lot: TaxLot, year: int, rate: real, price: real, dist: real): (l: TaxLot)
    requires lot.originalQuantity != 0.0
    ensures SameLot(lot, l) && l.remainingQuantity == lot.remainingQuantity
    ensures l.accumulatedVap == lot.accumulatedVap + Accrual(lot, year, rate, price, dist)
    ensures l.originalQuantity == lot.originalQuantity
  {
    SetHolding(lot, lot.remainingQuantity, lot.accumulatedVap + Accrual(lot, year, rate, price, dist))
  }

  /** The events closing logs for one lot: one for a lot still held with
      a positive amount per unit, none otherwise. */
  function LotEvents(lot: TaxLot, year: int, rate: real, price: real, dist: real, tfs: real, isin: string): (es: seq<TaxEvent>)
    requires lot.originalQuantity != 0.0
    ensures |es| <= 1
  {
    if lot.remainingQuantity > 0.0 && LotVapPerShare(lot, year, rate, price, dist) > 0.0 then
      [VapEvent(lot, LotVapPerShare(lot, year, rate, price, dist) * lot.remainingQuantity, year, isin, tfs)]
    else []
  }

  /** The events of the inner loop of PerformYearEndClosing, in queue
      order. */
  function ClosingEvents(lots: seq<TaxLot>, year: int, rate: real, price: real, dist: real, tfs: real, isin: string): seq<TaxEvent>
    requires Divisible(lots)
    decreases |lots|
  {
    if lots == [] then []
    else
      assert forall l <- lots[1..] :: l in lots;
      LotEvents(lots[0], year, rate, price, dist, tfs, isin) + ClosingEvents(lots[1..], year, rate, price, dist, tfs, isin)
  }

  /** The inner loop of PerformYearEndClosing over one queue: each lot is
      closed in place, and the events are logged in queue order. */
  function CloseLots(lots: seq<TaxLot>, year: int, rate: real, price: real, dist: real, tfs: real, isin: string): (c: Closed)
    requires Divisible(lots)
    ensures |c.lots| == |lots|
    ensures forall i | 0 <= i < |lots| :: c.lots[i] == ClosedLot(lots[i], year, rate, price, dist)
  {
    Closed(seq(|lots|, i requires 0 <= i < |lots| && Divisible(lots) => (assert lots[i] in lots; ClosedLot(lots[i], year, rate, price, dist))),
           ClosingEvents(lots, year, rate, price, dist, tfs, isin))
  }

  /** The event of a lot is a positive Vorabpauschale equal to its
      accrual; without an event there is no accrual. */
  lemma LotEventsAccrual(lot: TaxLot, year: int, rate: real, price: real, dist: real, tfs: real, isin: string)
    requires lot.originalQuantity != 0.0
    ensures var es := LotEvents(lot, year, rate, price, dist, tfs, isin);
      && RawTotal(es) == Accrual(lot, year, rate, price, dist)
      && forall ev <- es :: IsVapEvent(ev, year) && ev.isin == isin && ev.taxableProfit == ev.rawProfit * (1.0 - tfs)
  {
    var v := LotVapPerShare(lot, year, rate, price, dist);
    if lot.remainingQuantity > 0.0 && v > 0.0 {
      var es := LotEvents(lot, year, rate, price, dist, tfs, isin);
      assert |es| == 1;
      assert es[0] == VapEvent(lot, v * lot.remainingQuantity, year, isin, tfs);
      assert es[1..] == [];
    }
  }

  /** One ISIN of the outer loop: skipped without a year-end price;
      otherwise its lots are closed with the year's distributions per unit
      and the quota of its instrument. */
  function CloseQueue(e: Engine, isin: string, year: int, rate: real, prices: PriceProvider,
                      instruments: InstrumentProvider): (r: Engine)
    requires isin in e.portfolio && Divisible(e.portfolio[isin])
    ensures r.portfolio.Keys == e.portfolio.Keys && r.isins == e.isins && r.distributions == e.distributions
    ensures forall k :: k != isin ==> Queue(r, k) == Queue(e, k)
    ensures e.ledger <= r.ledger
    ensures var c := QueueClosing(e.portfolio[isin], isin, year, rate, prices, instruments, Distribution(e, year, isin));
      r.portfolio[isin] == c.lots && r.ledger == e.ledger + c.events
  {
    match GetPrice(prices, isin, year)
    case None => e
    case Some(price) =>
      var c := QueueClosing(e.portfolio[isin], isin, year, rate, prices, instruments, Distribution(e, year, isin));
      e.(portfolio := e.portfolio[isin := c.lots], ledger := e.ledger + c.events)
  }

  /** The lots of one ISIN after its closing and the events logged: the
      queue as it was, and nothing, without a year-end price. The quota is
      that of the instrument of the first lot's symbol. */
  function QueueClosing(lots: seq<TaxLot>, isin: string, year: int, rate: real, prices: PriceProvider,
                        instruments: InstrumentProvider, dist: real): (c: Closed)
    requires Divisible(lots)
  {
    match GetPrice(prices, isin, year)
    case None => Closed(lots, [])
    case Some(price) =>
      var inst := GetInstrument(instruments, isin, if lots == [] then "" else lots[0].symbol);
      CloseLots(lots, year, rate, price, dist, inst.tfsQuote, isin)
  }

  predicate AllDivisible(e: Engine) {
    forall k <- e.portfolio :: Divisible(e.portfolio[k])
  }

  function CloseQueues(e: Engine, todo: seq<string>, year: int, rate: real, prices: PriceProvider,
                       instruments: InstrumentProvider): (r: Engine)
    requires forall k <- todo :: k in e.portfolio
    requires AllDivisible(e)
    ensures r.portfolio.Keys == e.portfolio.Keys && r.isins == e.isins && r.distributions == e.distributions
    ensures e.ledger <= r.ledger
    decreases |todo|
  {
    if todo == [] then e
    else
      var next := CloseQueue(e, todo[0], year, rate, prices, instruments);
      CloseLotsKeepDivisible(e.portfolio[todo[0]], year, rate, prices, instruments, e, todo[0]);
      assert forall k <- todo[1..] :: k in todo;
      CloseQueues(next, todo[1..], year, rate, prices, instruments)
  }

  /** PerformYearEndClosing: nothing at a base rate of zero or below;
      otherwise every ISIN in portfolio order. */
  function PerformYearEndClosing(e: Engine, year: int, rates: InterestProvider, prices: PriceProvider,
                                 instruments: InstrumentProvider): (r: Engine)
    requires Valid(e)
    ensures GetRate(rates, year) <= 0.0 ==> r == e
    ensures e.ledger <= r.ledger
    ensures r.portfolio.Keys == e.portfolio.Keys && r.isins == e.isins && r.distributions == e.distributions
  {
    var rate := GetRate(rates, year);
    if rate <= 0.0 then e
    else
      ValidAllDivisible(e);
      CloseQueues(e, e.isins, year, rate, prices, instruments)
  }

  lemma ValidAllDivisible(e: Engine)
    requires Valid(e)
    ensures AllDivisible(e)
  {
    forall k <- e.portfolio ensures Divisible(e.portfolio[k]) {
      ValidDivisible(e.portfolio[k]);
    }
  }

  lemma CloseLotsKeepDivisible(lots: seq<TaxLot>, year: int, rate: real, prices: PriceProvider,
                               instruments: InstrumentProvider, e: Engine, isin: string)
    requires isin in e.portfolio && lots == e.portfolio[isin] && AllDivisible(e)
    ensures AllDivisible(CloseQueue(e, isin, year, rate, prices, instruments))
  {
    var r := CloseQueue(e, isin, year, rate, prices, instruments);
    assert Divisible(lots);
    match GetPrice(prices, isin, year)
    case None =>
    case Some(price) =>
      var inst := GetInstrument(instruments, isin, if lots == [] then "" else lots[0].symbol);
      var dist := Distribution(e, year, isin);
      var c := CloseLots(lots, year, rate, price, dist, inst.tfsQuote, isin);
      assert r.portfolio[isin] == c.lots;
      forall l <- c.lots ensures l.originalQuantity != 0.0 {
        var i :| 0 <= i < |c.lots| && c.lots[i] == l;
        assert lots[i] in lots;
      }
      forall k <- r.portfolio ensures Divisible(r.portfolio[k]) {
        if k != isin { assert r.portfolio[k] == e.portfolio[k]; }
      }
  }

  // Sums over ledger entries

  function SoldQuantity(es: seq<TaxEvent>): real {
    if es == [] then 0.0 else es[0].quantitySold + SoldQuantity(es[1..])
  }

  function RawTotal(es: seq<TaxEvent>): real {
    if es == [] then 0.0 else es[0].rawProfit + RawTotal(es[1..])
  }

  function ProceedsTotal(es: seq<TaxEvent>): real {
    if es == [] then 0.0 else es[0].saleProceeds + ProceedsTotal(es[1..])
  }

  function CostTotal(es: seq<TaxEvent>): real {
    if es == [] then 0.0 else es[0].acquisitionCosts + CostTotal(es[1..])
  }

  function UsedVapTotal(es: seq<TaxEvent>): real {
    if es == [] then 0.0 else es[0].usedVap + UsedVapTotal(es[1..])
  }

  /** The SELL events of a sale carry, in total, the units taken and the
      proceeds, cost and Vorabpauschale the draws release. */
  lemma {:induction false} SellEventsTotals(ds: seq<Draw>, sale: Sale, year: int, date: Date, symbol: string, isin: string)
    requires sale.quantity != 0.0
    requires forall d <- ds :: d.lot.originalQuantity != 0.0
    ensures var es := SellEvents(ds, sale, year, date, symbol, isin);
      && SoldQuantity(es) == TotalTake(ds)
      && ProceedsTotal(es) == TotalProceeds(ds, sale)
      && CostTotal(es) == TotalCost(ds)
      && UsedVapTotal(es) == TotalVap(ds)
      && RawTotal(es) == TotalRaw(ds, sale)
  {
    if ds != [] {
      assert forall d <- ds[1..] :: d in ds;
      SellEventsTotals(ds[1..], sale, year, date, symbol, isin);
      var es := SellEvents(ds, sale, year, date, symbol, isin);
      assert es[1..] == SellEvents(ds[1..], sale, year, date, symbol, isin);
    }
  }

  /** What HandleSell does to a non-empty queue, spelled out. */
  lemma HandleSellUnfold(e: Engine, tx: RawTransaction, inst: Instrument, date: Date, year: int)
    requires Queue(e, tx.isin) != [] && Divisible(Queue(e, tx.isin))
    ensures var lots := Queue(e, tx.isin);
      var sale := SaleOf(tx, inst);
      var out := DrawDown(lots, sale.quantity);
      var r := HandleSell(e, tx, inst, date, year);
      && (forall d <- out.draws :: d.lot.originalQuantity != 0.0)
      && (out.draws != [] ==> sale.quantity != 0.0)
      && r.portfolio == e.portfolio[tx.isin := out.lots]
      && r.ledger == e.ledger + SellEvents(out.draws, sale, year, date, tx.symbol, tx.isin)
  {
    DrawsDivisible(Queue(e, tx.isin), Abs(tx.quantity));
  }

  /** A sale on held lots sells `min(|quantity|, held)` units, logs them
      as SELL events of the transaction's year and day, and leaves the
      units held less those sold, minus at most `Epsilon` of dust. */
  lemma HandleSellUnits(e: Engine, tx: RawTransaction, inst: Instrument, date: Date, year: int)
    requires Valid(e) && Queue(e, tx.isin) != []
    ensures Divisible(Queue(e, tx.isin))
    ensures var lots := Queue(e, tx.isin);
      var r := HandleSell(e, tx, inst, date, year);
      var logged := r.ledger[|e.ledger|..];
      var sold := Min(Abs(tx.quantity), Held(lots));
      && SoldQuantity(logged) == sold
      && (forall ev <- logged :: ev.eventType == SELL && ev.year == year && ev.date == date)
      && Held(lots) - sold - Epsilon <= Held(Queue(r, tx.isin)) <= Held(lots) - sold
  {
    var lots := Queue(e, tx.isin);
    ValidDivisible(lots);
    HandleSellUnfold(e, tx, inst, date, year);
    var sale := SaleOf(tx, inst);
    var out := DrawDown(lots, sale.quantity);
    var r := HandleSell(e, tx, inst, date, year);
    var es := SellEvents(out.draws, sale, year, date, tx.symbol, tx.isin);
    assert r.ledger[|e.ledger|..] == es;
    DrawDownTakes(lots, sale.quantity);
    DrawDownHeld(lots, sale.quantity);
    if out.draws != [] {
      SellEventsTotals(out.draws, sale, year, date, tx.symbol, tx.isin);
      SellEventsKind(out.draws, sale, year, date, tx.symbol, tx.isin);
    }
  }

  lemma {:induction false} SellEventsKind(ds: seq<Draw>, sale: Sale, year: int, date: Date, symbol: string, isin: string)
    requires sale.quantity != 0.0
    requires forall d <- ds :: d.lot.originalQuantity != 0.0
    ensures forall ev <- SellEvents(ds, sale, year, date, symbol, isin) ::
      ev.eventType == SELL && ev.year == year && ev.date == date
  {
    if ds != [] {
      assert forall d <- ds[1..] :: d in ds;
      SellEventsKind(ds[1..], sale, year, date, symbol, isin);
      var es := SellEvents(ds, sale, year, date, symbol, isin);
      assert forall ev <- es :: ev == es[0] || ev in es[1..];
    }
  }

  /** A sale of no more than is held allocates exactly the transaction's
      proceeds over its SELL events. */
  lemma HandleSellAllocatesProceeds(e: Engine, tx: RawTransaction, inst: Instrument, date: Date, year: int)
    requires Valid(e) && Queue(e, tx.isin) != []
    requires 0.0 < Abs(tx.quantity) <= Held(Queue(e, tx.isin))
    ensures var r := HandleSell(e, tx, inst, date, year);
      ProceedsTotal(r.ledger[|e.ledger|..]) == Abs(tx.amountEur)
  {
    var lots := Queue(e, tx.isin);
    ValidDivisible(lots);
    HandleSellUnfold(e, tx, inst, date, year);
    var sale := SaleOf(tx, inst);
    var out := DrawDown(lots, sale.quantity);
    DrawDownTakes(lots, sale.quantity);
    FilledSaleAllocatesAll(lots, sale);
    SellEventsTotals(out.draws, sale, year, date, tx.symbol, tx.isin);
    var r := HandleSell(e, tx, inst, date, year);
    assert r.ledger[|e.ledger|..] == SellEvents(out.draws, sale, year, date, tx.symbol, tx.isin);
  }

  /** Selling exactly the units held closes the position: the queue is
      emptied, and the SELL events release every lot's open cost and
      accrued Vorabpauschale, so the raw profit is the proceeds less fees,
      open cost and Vorabpauschale. */
  lemma HandleSellLiquidates(e: Engine, tx: RawTransaction, inst: Instrument, date: Date, year: int)
    requires Valid(e) && Queue(e, tx.isin) != []
    requires Abs(tx.quantity) == Held(Queue(e, tx.isin))
    ensures Divisible(Queue(e, tx.isin))
    ensures var lots := Queue(e, tx.isin);
      var r := HandleSell(e, tx, inst, date, year);
      var logged := r.ledger[|e.ledger|..];
      && Queue(r, tx.isin) == []
      && CostTotal(logged) == OpenCost(lots)
      && UsedVapTotal(logged) == AccruedVap(lots)
      && RawTotal(logged) == Abs(tx.amountEur) - tx.feesEur - OpenCost(lots) - AccruedVap(lots)
  {
    var lots := Queue(e, tx.isin);
    ValidDivisible(lots);
    HeldNonNegative(lots);
    HandleSellUnfold(e, tx, inst, date, year);
    var sale := SaleOf(tx, inst);
    FullDrawDown(lots, sale.quantity);
    var out := DrawDown(lots, sale.quantity);
    WholeDrawsCost(lots);
    WholeDrawsVap(lots);
    FilledSaleAllocatesAll(lots, sale);
    RawProfitTotal(out.draws, sale);
    SellEventsTotals(out.draws, sale, year, date, tx.symbol, tx.isin);
    var r := HandleSell(e, tx, inst, date, year);
    assert r.ledger[|e.ledger|..] == SellEvents(out.draws, sale, year, date, tx.symbol, tx.isin);
  }

  /** Selling exactly the units of a queue's only lot logs a single SELL
      event, for the whole lot, and empties the queue. */
  lemma HandleSellSingleLot(e: Engine, tx: RawTransaction, inst: Instrument, date: Date, year: int)
    requires Valid(e) && |Queue(e, tx.isin)| == 1
    requires Abs(tx.quantity) == Queue(e, tx.isin)[0].remainingQuantity
    ensures Divisible(Queue(e, tx.isin))
    ensures var lot := Queue(e, tx.isin)[0];
      && lot.originalQuantity != 0.0 && Abs(tx.quantity) != 0.0
      && HandleSell(e, tx, inst, date, year)
         == e.(portfolio := e.portfolio[tx.isin := []],
               ledger := e.ledger + [SellEvent(Draw(lot, lot.remainingQuantity), SaleOf(tx, inst), year, date, tx.symbol, tx.isin)])
  {
    var lots := Queue(e, tx.isin);
    ValidDivisible(lots);
    assert ValidLot(lots[0]);
    HandleSellUnfold(e, tx, inst, date, year);
    var sale := SaleOf(tx, inst);
    assert Held(lots) == lots[0].remainingQuantity by {
      assert lots[1..] == [];
    }
    FullDrawDown(lots, sale.quantity);
    assert WholeDraws(lots) == [Draw(lots[0], lots[0].remainingQuantity)] by {
      assert lots[1..] == [];
    }
    var d := Draw(lots[0], lots[0].remainingQuantity);
    assert SellEvents([d], sale, year, date, tx.symbol, tx.isin) == [SellEvent(d, sale, year, date, tx.symbol, tx.isin)];
  }

  // The engine invariant

  lemma BuyKeepsValid(e: Engine, tx: RawTransaction, date: Date)
    requires Valid(e) && tx.quantity > 0.0
    ensures Valid(HandleBuy(e, tx, date))
  {
    var r := HandleBuy(e, tx, date);
    var lot := LotOf(tx, date);
    assert ValidLot(lot);
    var q := Queue(e, tx.isin) + [lot];
    assert AllValid(q) by {
      forall l <- q ensures ValidLot(l) {
        if l != lot { assert l in Queue(e, tx.isin); }
      }
    }
    assert r.portfolio == e.portfolio[tx.isin := q];
    if tx.isin !in e.portfolio {
      assert r.isins == e.isins + [tx.isin];
      assert tx.isin !in e.isins;
    }
  }

  lemma SellKeepsValid(e: Engine, tx: RawTransaction, inst: Instrument, date: Date, year: int)
    requires Valid(e)
    ensures Divisible(Queue(e, tx.isin))
    ensures Valid(HandleSell(e, tx, inst, date, year))
  {
    var lots := Queue(e, tx.isin);
    ValidDivisible(lots);
    if lots != [] {
      HandleSellUnfold(e, tx, inst, date, year);
      DrawDownKeepsValid(lots, Abs(tx.quantity));
    }
  }

  /** Processing a transaction keeps the engine's invariant, provided every
      buy is of a positive quantity. */
  lemma ProcessKeepsValid(e: Engine, tx: RawTransaction, instruments: InstrumentProvider)
    requires Valid(e) && (tx.action == Buy ==> tx.quantity > 0.0)
    ensures Divisible(Queue(e, tx.isin))
    ensures Valid(ProcessTransaction(e, tx, instruments))
  {
    var date := DateOf(tx.dateTime);
    var inst := GetInstrument(instruments, tx.isin, tx.symbol);
    ValidDivisible(Queue(e, tx.isin));
    match tx.action
    case Buy => BuyKeepsValid(e, tx, date);
    case Sell => SellKeepsValid(e, tx, inst, date, date.year);
    case _ =>
  }

  /** A dividend on units held adds the amount per unit held to the
      year's distributions for the ISIN and leaves every other entry. */
  lemma DividendAccumulates(e: Engine, tx: RawTransaction, inst: Instrument, date: Date, year: int)
    requires tx.action == Div && Held(Queue(e, tx.isin)) > 0.0
    ensures var r := HandleDividend(e, tx, inst, date, year);
      && Distribution(r, year, tx.isin) == Distribution(e, year, tx.isin) + tx.amountEur / Held(Queue(e, tx.isin))
      && forall y, k :: (y, k) != (year, tx.isin) ==> Distribution(r, y, k) == Distribution(e, y, k)
  {
    assert tx.isin in e.portfolio;
  }

  /** A dividend while nothing is held, and any withholding tax, leave the
      distributions as they were. */
  lemma DividendWithoutHolding(e: Engine, tx: RawTransaction, inst: Instrument, date: Date, year: int)
    requires tx.action == Wht || Held(Queue(e, tx.isin)) <= 0.0
    ensures HandleDividend(e, tx, inst, date, year).distributions == e.distributions
  {
    if tx.action == Div && tx.isin in e.portfolio {
      assert Queue(e, tx.isin) == e.portfolio[tx.isin];
    }
  }

  // Closing

  /** An event of the closing of `year`: a positive Vorabpauschale deemed
      received on 1 January of the next year. */
  predicate IsVapEvent(ev: TaxEvent, year: int) {
    ev.eventType == VORABPAUSCHALE && ev.year == year + 1 && ev.date == NewYear(year + 1) && ev.rawProfit > 0.0
  }

  lemma RawTotalAppend(a: seq<TaxEvent>, b: seq<TaxEvent>)
    requires |a| <= 1
    ensures RawTotal(a + b) == RawTotal(a) + RawTotal(b)
  {
    if a != [] {
      assert (a + b)[0] == a[0] && (a + b)[1..] == b;
      assert a[1..] == [];
      assert RawTotal(a) == a[0].rawProfit + RawTotal([]);
    } else {
      assert a + b == b;
    }
  }

  /** Closing a queue logs only Vorabpauschale events for the ISIN, taxed
      after the instrument's partial exemption. */
  lemma {:induction false} CloseLotsEvents(lots: seq<TaxLot>, year: int, rate: real, price: real, dist: real, tfs: real, isin: string)
    requires Divisible(lots)
    ensures forall ev <- CloseLots(lots, year, rate, price, dist, tfs, isin).events ::
      IsVapEvent(ev, year) && ev.isin == isin && ev.taxableProfit == ev.rawProfit * (1.0 - tfs)
    decreases |lots|
  {
    if lots != [] {
      assert forall l <- lots[1..] :: l in lots;
      CloseLotsEvents(lots[1..], year, rate, price, dist, tfs, isin);
      LotEventsAccrual(lots[0], year, rate, price, dist, tfs, isin);
      var es := CloseLots(lots, year, rate, price, dist, tfs, isin).events;
      var rest := CloseLots(lots[1..], year, rate, price, dist, tfs, isin).events;
      var head := LotEvents(lots[0], year, rate, price, dist, tfs, isin);
      assert es == head + rest;
      assert forall ev <- es :: ev in head || ev in rest;
    }
  }

  /** What closing logs is exactly what it adds to the lots' accrued
      Vorabpauschale. */
  lemma {:induction false} CloseLotsAccrual(lots: seq<TaxLot>, year: int, rate: real, price: real, dist: real, tfs: real, isin: string)
    requires Divisible(lots)
    ensures var c := CloseLots(lots, year, rate, price, dist, tfs, isin);
      RawTotal(c.events) == AccruedVap(c.lots) - AccruedVap(lots)
    decreases |lots|
  {
    if lots != [] {
      assert forall l <- lots[1..] :: l in lots;
      CloseLotsAccrual(lots[1..], year, rate, price, dist, tfs, isin);
      var lot := lots[0];
      var rest := CloseLots(lots[1..], year, rate, price, dist, tfs, isin);
      var c := CloseLots(lots, year, rate, price, dist, tfs, isin);
      var es := LotEvents(lot, year, rate, price, dist, tfs, isin);
      assert c.lots[1..] == rest.lots;
      assert c.lots[0] == ClosedLot(lot, year, rate, price, dist);
      assert c.events == es + rest.events;
      LotEventsAccrual(lot, year, rate, price, dist, tfs, isin);
      RawTotalAppend(es, rest.events);
    }
  }

  /** `b` is queue `a` after closing: the same lots with the same units,
      each with at least the Vorabpauschale it had. */
  predicate AccruedOnly(a: seq<TaxLot>, b: seq<TaxLot>) {
    |a| == |b| &&
    forall i | 0 <= i < |a| ::
      SameLot(a[i], b[i]) && b[i].remainingQuantity == a[i].remainingQuantity && b[i].accumulatedVap >= a[i].accumulatedVap
  }

  lemma AccruedOnlyTrans(a: seq<TaxLot>, b: seq<TaxLot>, c: seq<TaxLot>)
    requires AccruedOnly(a, b) && AccruedOnly(b, c)
    ensures AccruedOnly(a, c)
  {
    forall i | 0 <= i < |a| ensures SameLot(a[i], c[i]) {
      assert a[i].(remainingQuantity := b[i].remainingQuantity, accumulatedVap := b[i].accumulatedVap) == b[i];
      assert b[i].(remainingQuantity := c[i].remainingQuantity, accumulatedVap := c[i].accumulatedVap) == c[i];
    }
  }

  lemma AccruedOnlyKeepsValid(a: seq<TaxLot>, b: seq<TaxLot>)
    requires AccruedOnly(a, b) && AllValid(a)
    ensures AllValid(b)
  {
    forall l <- b ensures ValidLot(l) {
      var i :| 0 <= i < |b| && b[i] == l;
      assert a[i] in a;
      UnitCostFixedHelper(a[i], b[i]);
    }
  }

  lemma UnitCostFixedHelper(a: TaxLot, b: TaxLot)
    requires SameLot(a, b)
    ensures b.originalQuantity == a.originalQuantity
  {
    assert b.originalQuantity == a.(remainingQuantity := b.remainingQuantity, accumulatedVap := b.accumulatedVap).originalQuantity;
  }

  /** Closing one ISIN changes its lots only by accrual and leaves every
      other queue. */
  lemma CloseQueueHoldings(e: Engine, isin: string, year: int, rate: real, prices: PriceProvider,
                           instruments: InstrumentProvider)
    requires isin in e.portfolio && Divisible(e.portfolio[isin])
    ensures AccruedOnly(e.portfolio[isin], CloseQueue(e, isin, year, rate, prices, instruments).portfolio[isin])
  {
    var lots := e.portfolio[isin];
    if GetPrice(prices, isin, year).None? {
      AccruedOnlyRefl(lots);
    }
  }

  /** Closing one ISIN logs only Vorabpauschale events. */
  lemma CloseQueueEvents(e: Engine, isin: string, year: int, rate: real, prices: PriceProvider,
                         instruments: InstrumentProvider)
    requires isin in e.portfolio && Divisible(e.portfolio[isin])
    ensures var r := CloseQueue(e, isin, year, rate, prices, instruments);
      forall ev <- r.ledger[|e.ledger|..] :: IsVapEvent(ev, year)
  {
    var r := CloseQueue(e, isin, year, rate, prices, instruments);
    var lots := e.portfolio[isin];
    match GetPrice(prices, isin, year)
    case None =>
      assert r.ledger[|e.ledger|..] == [];
    case Some(price) =>
      var inst := GetInstrument(instruments, isin, if lots == [] then "" else lots[0].symbol);
      var dist := Distribution(e, year, isin);
      CloseLotsEvents(lots, year, rate, price, dist, inst.tfsQuote, isin);
      assert r.ledger[|e.ledger|..] == CloseLots(lots, year, rate, price, dist, inst.tfsQuote, isin).events;
  }

  /** The closing loop changes lots only by accrual. */
  lemma {:induction false} CloseQueuesHoldings(e: Engine, todo: seq<string>, year: int, rate: real, prices: PriceProvider,
                                               instruments: InstrumentProvider)
    requires forall k <- todo :: k in e.portfolio
    requires AllDivisible(e)
    ensures var r := CloseQueues(e, todo, year, rate, prices, instruments);
      forall k <- e.portfolio :: AccruedOnly(e.portfolio[k], r.portfolio[k])
    decreases |todo|
  {
    var r := CloseQueues(e, todo, year, rate, prices, instruments);
    if todo == [] {
      forall k <- e.portfolio ensures AccruedOnly(e.portfolio[k], r.portfolio[k]) {
        AccruedOnlyRefl(e.portfolio[k]);
      }
    } else {
      var next := CloseQueue(e, todo[0], year, rate, prices, instruments);
      CloseLotsKeepDivisible(e.portfolio[todo[0]], year, rate, prices, instruments, e, todo[0]);
      assert forall k <- todo[1..] :: k in todo;
      assert r == CloseQueues(next, todo[1..], year, rate, prices, instruments);
      CloseQueueHoldings(e, todo[0], year, rate, prices, instruments);
      CloseQueuesHoldings(next, todo[1..], year, rate, prices, instruments);
      forall k <- e.portfolio ensures AccruedOnly(e.portfolio[k], r.portfolio[k]) {
        if k == todo[0] {
          AccruedOnlyTrans(e.portfolio[k], next.portfolio[k], r.portfolio[k]);
        } else {
          assert next.portfolio[k] == e.portfolio[k];
        }
      }
    }
  }

  /** The closing loop logs only Vorabpauschale events. */
  lemma {:induction false} CloseQueuesEvents(e: Engine, todo: seq<string>, year: int, rate: real, prices: PriceProvider,
                                             instruments: InstrumentProvider)
    requires forall k <- todo :: k in e.portfolio
    requires AllDivisible(e)
    ensures var r := CloseQueues(e, todo, year, rate, prices, instruments);
      forall ev <- r.ledger[|e.ledger|..] :: IsVapEvent(ev, year)
    decreases |todo|
  {
    var r := CloseQueues(e, todo, year, rate, prices, instruments);
    if todo == [] {
      assert r.ledger[|e.ledger|..] == [];
    } else {
      var next := CloseQueue(e, todo[0], year, rate, prices, instruments);
      CloseLotsKeepDivisible(e.portfolio[todo[0]], year, rate, prices, instruments, e, todo[0]);
      assert forall k <- todo[1..] :: k in todo;
      assert r == CloseQueues(next, todo[1..], year, rate, prices, instruments);
      CloseQueueEvents(e, todo[0], year, rate, prices, instruments);
      CloseQueuesEvents(next, todo[1..], year, rate, prices, instruments);
      assert r.ledger[|e.ledger|..] == next.ledger[|e.ledger|..] + r.ledger[|next.ledger|..];
    }
  }

  lemma AccruedOnlyRefl(lots: seq<TaxLot>)
    ensures AccruedOnly(lots, lots)
  {
    forall i | 0 <= i < |lots| ensures SameLot(lots[i], lots[i]) {
      assert lots[i].(remainingQuantity := lots[i].remainingQuantity, accumulatedVap := lots[i].accumulatedVap) == lots[i];
    }
  }

  /** Year-end closing never changes what is held: every queue keeps the
      same lots with the same units, only their accrued Vorabpauschale
      grows; it logs only Vorabpauschale events of the next 1 January; and
      it keeps the engine's invariant. */
  lemma ClosingKeepsHoldings(e: Engine, year: int, rates: InterestProvider, prices: PriceProvider,
                             instruments: InstrumentProvider)
    requires Valid(e)
    ensures var r := PerformYearEndClosing(e, year, rates, prices, instruments);
      && Valid(r)
      && (forall k <- e.portfolio :: AccruedOnly(e.portfolio[k], r.portfolio[k]))
      && forall ev <- r.ledger[|e.ledger|..] :: IsVapEvent(ev, year)
  {
    var r := PerformYearEndClosing(e, year, rates, prices, instruments);
    if GetRate(rates, year) <= 0.0 {
      assert r.ledger[|e.ledger|..] == [];
      forall k <- e.portfolio ensures AccruedOnly(e.portfolio[k], r.portfolio[k]) {
        AccruedOnlyRefl(e.portfolio[k]);
      }
    } else {
      ValidAllDivisible(e);
      CloseQueuesHoldings(e, e.isins, year, GetRate(rates, year), prices, instruments);
      CloseQueuesEvents(e, e.isins, year, GetRate(rates, year), prices, instruments);
      forall k <- r.portfolio ensures AllValid(r.portfolio[k]) {
        AccruedOnlyKeepsValid(e.portfolio[k], r.portfolio[k]);
      }
    }
  }

  // Closing twice

  /** A closed lot accrues and logs at a second closing exactly what it
      did at the first: closing keeps its cost per unit, its acquisition
      date, its symbol and its units. */
  lemma ClosedLotAgain(lot: TaxLot, year: int, rate: real, price: real, dist: real, tfs: real, isin: string)
    requires lot.originalQuantity != 0.0
    ensures var l := ClosedLot(lot, year, rate, price, dist);
      && l.originalQuantity != 0.0
      && Accrual(l, year, rate, price, dist) == Accrual(lot, year, rate, price, dist)
      && LotEvents(l, year, rate, price, dist, tfs, isin) == LotEvents(lot, year, rate, price, dist, tfs, isin)
  {
    var l := ClosedLot(lot, year, rate, price, dist);
    UnitCostFixed(lot, l);
    assert l.dateAcquired == lot.(remainingQuantity := l.remainingQuantity, accumulatedVap := l.accumulatedVap).dateAcquired;
    assert l.symbol == lot.(remainingQuantity := l.remainingQuantity, accumulatedVap := l.accumulatedVap).symbol;
  }

  /** Closing a queue that was just closed logs the same events again. */
  lemma {:induction false} ClosingEventsAgain(lots: seq<TaxLot>, year: int, rate: real, price: real, dist: real, tfs: real, isin: string)
    requires Divisible(lots)
    ensures var c := CloseLots(lots, year, rate, price, dist, tfs, isin);
      && Divisible(c.lots)
      && ClosingEvents(c.lots, year, rate, price, dist, tfs, isin) == c.events
    decreases |lots|
  {
    var c := CloseLots(lots, year, rate, price, dist, tfs, isin);
    forall l <- c.lots ensures l.originalQuantity != 0.0 {
      var i :| 0 <= i < |c.lots| && c.lots[i] == l;
      assert lots[i] in lots;
    }
    if lots != [] {
      assert forall l <- lots[1..] :: l in lots;
      var t := CloseLots(lots[1..], year, rate, price, dist, tfs, isin);
      ClosingEventsAgain(lots[1..], year, rate, price, dist, tfs, isin);
      assert c.lots[1..] == t.lots;
      assert lots[0] in lots;
      ClosedLotAgain(lots[0], year, rate, price, dist, tfs, isin);
    }
  }

  /** Closing one ISIN a second time logs the same events again and adds
      each lot's accrual a second time. */
  lemma QueueClosingAgain(lots: seq<TaxLot>, isin: string, year: int, rate: real, prices: PriceProvider,
                          instruments: InstrumentProvider, dist: real)
    requires Divisible(lots)
    ensures var c := QueueClosing(lots, isin, year, rate, prices, instruments, dist);
      && Divisible(c.lots)
      && |c.lots| == |lots|
      && var c2 := QueueClosing(c.lots, isin, year, rate, prices, instruments, dist);
      && c2.events == c.events
      && |c2.lots| == |lots|
      && forall i | 0 <= i < |lots| ::
           c2.lots[i].accumulatedVap - c.lots[i].accumulatedVap == c.lots[i].accumulatedVap - lots[i].accumulatedVap
  {
    match GetPrice(prices, isin, year)
    case None =>
    case Some(price) =>
      var tfs := GetInstrument(instruments, isin, if lots == [] then "" else lots[0].symbol).tfsQuote;
      var c := CloseLots(lots, year, rate, price, dist, tfs, isin);
      ClosingEventsAgain(lots, year, rate, price, dist, tfs, isin);
      if lots != [] {
        assert lots[0] in lots;
        ClosedLotAgain(lots[0], year, rate, price, dist, tfs, isin);
        assert c.lots[0].symbol == lots[0].symbol;
      }
      var c2 := CloseLots(c.lots, year, rate, price, dist, tfs, isin);
      assert QueueClosing(c.lots, isin, year, rate, prices, instruments, dist) == c2;
      forall i | 0 <= i < |lots|
        ensures c2.lots[i].accumulatedVap - c.lots[i].accumulatedVap == c.lots[i].accumulatedVap - lots[i].accumulatedVap
      {
        assert lots[i] in lots;
        ClosedLotAgain(lots[i], year, rate, price, dist, tfs, isin);
      }
  }

  /** The events one pass of the closing loop over `todo` logs, each queue
      closed as it stands in `e`. */
  function PassEvents(e: Engine, todo: seq<string>, year: int, rate: real, prices: PriceProvider,
                      instruments: InstrumentProvider): seq<TaxEvent>
    requires forall k <- todo :: k in e.portfolio
    requires AllDivisible(e)
    decreases |todo|
  {
    if todo == [] then []
    else
      assert forall k <- todo[1..] :: k in todo;
      QueueClosing(e.portfolio[todo[0]], todo[0], year, rate, prices, instruments, Distribution(e, year, todo[0])).events
        + PassEvents(e, todo[1..], year, rate, prices, instruments)
  }

  /** The events of a pass depend only on the queues it closes and on the
      distributions. */
  lemma {:induction false} PassEventsFrame(a: Engine, b: Engine, todo: seq<string>, year: int, rate: real,
                                           prices: PriceProvider, instruments: InstrumentProvider)
    requires forall k <- todo :: k in a.portfolio && k in b.portfolio
    requires forall k <- todo :: Queue(a, k) == Queue(b, k)
    requires AllDivisible(a) && AllDivisible(b) && a.distributions == b.distributions
    ensures PassEvents(a, todo, year, rate, prices, instruments) == PassEvents(b, todo, year, rate, prices, instruments)
    decreases |todo|
  {
    if todo != [] {
      assert forall k <- todo[1..] :: k in todo;
      assert Queue(a, todo[0]) == Queue(b, todo[0]);
      PassEventsFrame(a, b, todo[1..], year, rate, prices, instruments);
    }
  }

  lemma DistinctTail(todo: seq<string>)
    requires todo != [] && forall i, j | 0 <= i < j < |todo| :: todo[i] != todo[j]
    ensures forall i, j | 0 <= i < j < |todo[1..]| :: todo[1..][i] != todo[1..][j]
    ensures todo[0] !in todo[1..]
  {
    var rest := todo[1..];
    forall i | 0 <= i < |rest| ensures rest[i] != todo[0] {
      assert rest[i] == todo[i + 1];
    }
  }

  /** The closing loop over ISINs listed once each leaves a queue closed
      as it stood before the loop when it is listed, and as it was
      otherwise. */
  lemma {:induction false} CloseQueuesAt(e: Engine, todo: seq<string>, k: string, year: int, rate: real,
                                         prices: PriceProvider, instruments: InstrumentProvider)
    requires forall k <- todo :: k in e.portfolio
    requires AllDivisible(e) && k in e.portfolio
    requires forall i, j | 0 <= i < j < |todo| :: todo[i] != todo[j]
    ensures CloseQueues(e, todo, year, rate, prices, instruments).portfolio[k]
      == if k in todo then QueueClosing(e.portfolio[k], k, year, rate, prices, instruments, Distribution(e, year, k)).lots
         else e.portfolio[k]
    decreases |todo|
  {
    if todo != [] {
      var next := CloseQueue(e, todo[0], year, rate, prices, instruments);
      CloseLotsKeepDivisible(e.portfolio[todo[0]], year, rate, prices, instruments, e, todo[0]);
      var rest := todo[1..];
      assert forall k <- rest :: k in todo;
      assert CloseQueues(e, todo, year, rate, prices, instruments) == CloseQueues(next, rest, year, rate, prices, instruments);
      DistinctTail(todo);
      CloseQueuesAt(next, rest, k, year, rate, prices, instruments);
      if k != todo[0] {
        assert Queue(next, k) == Queue(e, k);
      }
    }
  }

  /** The closing loop over ISINs listed once each logs the events of
      closing each listed queue as it stood before the loop, in list
      order. */
  lemma {:induction false} CloseQueuesLedger(e: Engine, todo: seq<string>, year: int, rate: real, prices: PriceProvider,
                                             instruments: InstrumentProvider)
    requires forall k <- todo :: k in e.portfolio
    requires AllDivisible(e)
    requires forall i, j | 0 <= i < j < |todo| :: todo[i] != todo[j]
    ensures CloseQueues(e, todo, year, rate, prices, instruments).ledger
      == e.ledger + PassEvents(e, todo, year, rate, prices, instruments)
    decreases |todo|
  {
    if todo != [] {
      var next := CloseQueue(e, todo[0], year, rate, prices, instruments);
      CloseLotsKeepDivisible(e.portfolio[todo[0]], year, rate, prices, instruments, e, todo[0]);
      var rest := todo[1..];
      assert forall k <- rest :: k in todo;
      assert CloseQueues(e, todo, year, rate, prices, instruments) == CloseQueues(next, rest, year, rate, prices, instruments);
      DistinctTail(todo);
      CloseQueuesLedger(next, rest, year, rate, prices, instruments);
      PassEventsFrame(next, e, rest, year, rate, prices, instruments);
    }
  }

  /** A second pass over queues the first pass closed logs the first
      pass's events again. */
  lemma {:induction false} PassEventsAgain(e: Engine, r: Engine, todo: seq<string>, year: int, rate: real,
                                           prices: PriceProvider, instruments: InstrumentProvider)
    requires forall k <- todo :: k in e.portfolio && k in r.portfolio
    requires AllDivisible(e) && AllDivisible(r) && r.distributions == e.distributions
    requires forall k <- todo ::
      r.portfolio[k] == QueueClosing(e.portfolio[k], k, year, rate, prices, instruments, Distribution(e, year, k)).lots
    ensures PassEvents(r, todo, year, rate, prices, instruments) == PassEvents(e, todo, year, rate, prices, instruments)
    decreases |todo|
  {
    if todo != [] {
      assert forall k <- todo[1..] :: k in todo;
      QueueClosingAgain(e.portfolio[todo[0]], todo[0], year, rate, prices, instruments, Distribution(e, year, todo[0]));
      PassEventsAgain(e, r, todo[1..], year, rate, prices, instruments);
    }
  }

  /** Nothing stops a year from being closed twice: a second closing of
      the same year logs the first closing's Vorabpauschale events once
      more and adds to every lot the same accrual again. */
  lemma ClosingTwiceAccruesTwice(e: Engine, year: int, rates: InterestProvider, prices: PriceProvider,
                                 instruments: InstrumentProvider)
    requires Valid(e)
    ensures Valid(PerformYearEndClosing(e, year, rates, prices, instruments))
    ensures var r1 := PerformYearEndClosing(e, year, rates, prices, instruments);
      var r2 := PerformYearEndClosing(r1, year, rates, prices, instruments);
      && r2.ledger == r1.ledger + r1.ledger[|e.ledger|..]
      && r2.portfolio.Keys == e.portfolio.Keys && r1.portfolio.Keys == e.portfolio.Keys
      && forall k <- e.portfolio ::
           && |r1.portfolio[k]| == |e.portfolio[k]| && |r2.portfolio[k]| == |e.portfolio[k]|
           && forall i | 0 <= i < |e.portfolio[k]| ::
                r2.portfolio[k][i].accumulatedVap - r1.portfolio[k][i].accumulatedVap
                  == r1.portfolio[k][i].accumulatedVap - e.portfolio[k][i].accumulatedVap
  {
    ClosingKeepsHoldings(e, year, rates, prices, instruments);
    var r1 := PerformYearEndClosing(e, year, rates, prices, instruments);
    var r2 := PerformYearEndClosing(r1, year, rates, prices, instruments);
    var rate := GetRate(rates, year);
    if rate <= 0.0 {
      assert r1.ledger[|e.ledger|..] == [];
    } else {
      ValidAllDivisible(e);
      ValidAllDivisible(r1);
      assert r1 == CloseQueues(e, e.isins, year, rate, prices, instruments);
      assert r2 == CloseQueues(r1, e.isins, year, rate, prices, instruments);
      PassTwiceLedger(e, e.isins, year, rate, prices, instruments);
      forall k <- e.portfolio
        ensures |r1.portfolio[k]| == |e.portfolio[k]| && |r2.portfolio[k]| == |e.portfolio[k]|
        ensures forall i | 0 <= i < |e.portfolio[k]| ::
                  r2.portfolio[k][i].accumulatedVap - r1.portfolio[k][i].accumulatedVap
                    == r1.portfolio[k][i].accumulatedVap - e.portfolio[k][i].accumulatedVap
      {
        PassTwiceAt(e, e.isins, k, year, rate, prices, instruments);
      }
    }
  }

  /** Two passes of the closing loop over the same ISINs: the second logs
      the first one's events again. */
  lemma PassTwiceLedger(e: Engine, todo: seq<string>, year: int, rate: real, prices: PriceProvider,
                        instruments: InstrumentProvider)
    requires forall k <- todo :: k in e.portfolio
    requires AllDivisible(e) && AllDivisible(CloseQueues(e, todo, year, rate, prices, instruments))
    requires forall i, j | 0 <= i < j < |todo| :: todo[i] != todo[j]
    ensures var r1 := CloseQueues(e, todo, year, rate, prices, instruments);
      var r2 := CloseQueues(r1, todo, year, rate, prices, instruments);
      r2.ledger == r1.ledger + r1.ledger[|e.ledger|..]
  {
    var r1 := CloseQueues(e, todo, year, rate, prices, instruments);
    forall k <- todo
      ensures r1.portfolio[k] == QueueClosing(e.portfolio[k], k, year, rate, prices, instruments, Distribution(e, year, k)).lots
    {
      CloseQueuesAt(e, todo, k, year, rate, prices, instruments);
    }
    CloseQueuesLedger(e, todo, year, rate, prices, instruments);
    CloseQueuesLedger(r1, todo, year, rate, prices, instruments);
    PassEventsAgain(e, r1, todo, year, rate, prices, instruments);
  }

  /** Two passes of the closing loop over the same ISINs: each listed
      queue gains at the second pass what it gained at the first. */
  lemma PassTwiceAt(e: Engine, todo: seq<string>, k: string, year: int, rate: real, prices: PriceProvider,
                    instruments: InstrumentProvider)
    requires forall k <- todo :: k in e.portfolio
    requires AllDivisible(e) && AllDivisible(CloseQueues(e, todo, year, rate, prices, instruments))
    requires forall i, j | 0 <= i < j < |todo| :: todo[i] != todo[j]
    requires k in todo
    ensures var r1 := CloseQueues(e, todo, year, rate, prices, instruments);
      var r2 := CloseQueues(r1, todo, year, rate, prices, instruments);
      && |r1.portfolio[k]| == |e.portfolio[k]| && |r2.portfolio[k]| == |e.portfolio[k]|
      && forall i | 0 <= i < |e.portfolio[k]| ::
           r2.portfolio[k][i].accumulatedVap - r1.portfolio[k][i].accumulatedVap
             == r1.portfolio[k][i].accumulatedVap - e.portfolio[k][i].accumulatedVap
  {
    var r1 := CloseQueues(e, todo, year, rate, prices, instruments);
    CloseQueuesAt(e, todo, k, year, rate, prices, instruments);
    CloseQueuesAt(r1, todo, k, year, rate, prices, instruments);
    QueueClosingAgain(e.portfolio[k], k, year, rate, prices, instruments, Distribution(e, year, k));
  }
}
