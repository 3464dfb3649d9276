/** The Python PortfolioEngine (engine.py), a twin of the C# engine. It
    shares the FIFO draw-down and the per-lot Vorabpauschale with it, writes
    its own events, and carries the instrument provider, which its lookups
    change. Its projection onto the C# engine shows where the twins agree
    and the two places where they part: Python logs withholding tax with a
    raw profit of 0, and it does not route interest at all. */
module PyEngine {
  import opened Wrappers
  import opened Dates
  import opened Decimals
  import opened Models
  import opened Fifo
  import opened Providers
  import opened Engine
  import opened PyModels
  import opened PyProviders

  datatype PyEngine = PyEngine(
    portfolio: map<string, seq<TaxLot>>,
    isins: seq<string>,
    ledger: seq<PyTaxEvent>,
    distributions: map<(int, string), real>,
    instruments: PyInstrumentProvider)

  /** The C# engine in the same state, with the ledger projected. */
  function AsCSharp(pe: PyEngine): (e: Engine)
    ensures e.portfolio == pe.portfolio && e.isins == pe.isins && e.distributions == pe.distributions
    ensures e.ledger == ProjectAll(pe.ledger)
  {
    Engine(pe.portfolio, pe.isins, ProjectAll(pe.ledger), pe.distributions)
  }

  /** A C# provider and a Python provider with the same ISINs and quotas. */
  predicate SameConfig(cp: InstrumentProvider, pp: PyInstrumentProvider) {
    SameQuotes(PyInstrumentProvider(cp.instruments), pp)
  }

  // Buy

  /** `_handle_buy`: a lot with the fees in its cost and no Vorabpauschale
      yet, at the back of the ISIN's list, which the first buy creates. */
  function PyHandleBuy(pe: PyEngine, tx: PyRawTransaction, date: Date): (r: PyEngine)
    ensures AsCSharp(r) == HandleBuy(AsCSharp(pe), ToCSharp(tx), date)
    ensures r.instruments == pe.instruments
  {
    var totalCost := tx.amountEur + tx.feesEur;
    var lot := TaxLot(tx.transId.GetOr(""), tx.symbol, tx.isin, date, tx.quantity, tx.quantity, totalCost,
                      0.0, tx.priceOrigin, tx.fxRateToBase);
    assert lot == LotOf(ToCSharp(tx), date);
    if tx.isin !in pe.portfolio then
      pe.(portfolio := pe.portfolio[tx.isin := [lot]], isins := pe.isins + [tx.isin])
    else
      pe.(portfolio := pe.portfolio[tx.isin := pe.portfolio[tx.isin] + [lot]])
  }

  // Sell

  /** The SELL event of one draw, with the report fields of the lot and
      the sale. */
  function PySellEvent(d: Draw, sale: Sale, tx: PyRawTransaction, year: int, date: Date): (ev: PyTaxEvent)
    requires sale.quantity != 0.0 && d.lot.originalQuantity != 0.0
    ensures ev.kind == SellKind && ev.quantitySold == d.take
    ensures ev.rawProfit == ev.saleProceeds - ev.saleCosts - ev.acquisitionCosts - ev.usedVap
    ensures ev.taxableProfit == ev.rawProfit * (1.0 - sale.tfsQuote)
    ensures ev.dateAcquired == Some(d.lot.dateAcquired)
    ensures ev.buyPriceOrigin == d.lot.acquisitionPriceOrigin && ev.buyFx == d.lot.acquisitionFxRate
    ensures ev.sellPriceOrigin == tx.priceOrigin && ev.sellFx == tx.fxRateToBase
    ensures Project(ev) == SellEvent(d, sale, year, date, tx.symbol, tx.isin)
  {
    PyNewEvent(year, date, SellKind, tx.symbol, tx.isin).(
      quantitySold := d.take,
      saleProceeds := ProceedsShare(d, sale),
      saleCosts := FeesShare(d, sale),
      acquisitionCosts := CostShare(d),
      usedVap := VapShare(d),
      rawProfit := RawProfit(d, sale),
      taxableProfit := TaxableProfit(d, sale),
      dateAcquired := Some(d.lot.dateAcquired),
      buyPriceOrigin := d.lot.acquisitionPriceOrigin,
      buyFx := d.lot.acquisitionFxRate,
      sellPriceOrigin := tx.priceOrigin,
      sellFx := tx.fxRateToBase)
  }

  function PySellEvents(ds: seq<Draw>, sale: Sale, tx: PyRawTransaction, year: int, date: Date): (es: seq<PyTaxEvent>)
    requires ds != [] ==> sale.quantity != 0.0
    requires forall d <- ds :: d.lot.originalQuantity != 0.0
    ensures |es| == |ds|
  {
    if ds == [] then []
    else
      assert forall d <- ds[1..] :: d in ds;
      [PySellEvent(ds[0], sale, tx, year, date)] + PySellEvents(ds[1..], sale, tx, year, date)
  }

  /** The Python events of a sale project onto the C# ones, one for one. */
  lemma {:induction false} PySellEventsProject(ds: seq<Draw>, sale: Sale, tx: PyRawTransaction, year: int, date: Date)
    requires ds != [] ==> sale.quantity != 0.0
    requires forall d <- ds :: d.lot.originalQuantity != 0.0
    ensures ProjectAll(PySellEvents(ds, sale, tx, year, date)) == SellEvents(ds, sale, year, date, tx.symbol, tx.isin)
  {
    if ds != [] {
      assert forall d <- ds[1..] :: d in ds;
      PySellEventsProject(ds[1..], sale, tx, year, date);
      var es := PySellEvents(ds, sale, tx, year, date);
      ProjectAllAppend([es[0]], es[1..]);
      assert es == [es[0]] + es[1..];
    }
  }

  /** `_handle_sell`: nothing without lots; otherwise the quantity is drawn
      down the list oldest lot first, stopping when the list runs out. */
  function PyHandleSell(pe: PyEngine, tx: PyRawTransaction, inst: Instrument, date: Date, year: int): (r: PyEngine)
    requires tx.isin in pe.portfolio ==> Divisible(pe.portfolio[tx.isin])
    ensures r.instruments == pe.instruments
    ensures AsCSharp(r) == HandleSell(AsCSharp(pe), ToCSharp(tx), inst, date, year)
  {
    if tx.isin !in pe.portfolio || pe.portfolio[tx.isin] == [] then pe
    else
      var lots := pe.portfolio[tx.isin];
      var sale := Sale(Abs(tx.quantity), Abs(tx.amountEur), tx.feesEur, inst.tfsQuote);
      assert sale == SaleOf(ToCSharp(tx), inst);
      var out := DrawDown(lots, sale.quantity);
      DrawsDivisible(lots, sale.quantity);
      var events := PySellEvents(out.draws, sale, tx, year, date);
      PySellEventsProject(out.draws, sale, tx, year, date);
      ProjectAllAppend(pe.ledger, events);
      pe.(portfolio := pe.portfolio[tx.isin := out.lots], ledger := pe.ledger + events)
  }

  // Dividends and withholding tax

  function PyDividendEvent(tx: PyRawTransaction, inst: Instrument, date: Date, year: int): (ev: PyTaxEvent)
    ensures Project(ev) == DividendEvent(ToCSharp(tx), inst, date, year)
  {
    PyNewEvent(year, date, DivKind, tx.symbol, tx.isin).(rawProfit := tx.amountEur,
                                                           taxableProfit := tx.amountEur * (1.0 - inst.tfsQuote))
  }

  /** The WHT event carries only the tax paid; its raw and taxable profit
      stay at their default of 0, where C# books the amount as raw profit. */
  function PyWithholdingEvent(tx: PyRawTransaction, date: Date, year: int): (ev: PyTaxEvent)
    ensures ev.rawProfit == 0.0 && ev.taxableProfit == 0.0 && ev.foreignWht == Abs(tx.amountEur)
    ensures Project(ev) == WithholdingEvent(ToCSharp(tx), date, year).(rawProfit := 0.0)
  {
    PyNewEvent(year, date, WhtKind, tx.symbol, tx.isin).(foreignWht := Abs(tx.amountEur))
  }

  /** `_handle_dividend`, called for 'DIV' and 'WHT' only. */
  function PyHandleDividend(pe: PyEngine, tx: PyRawTransaction, inst: Instrument, date: Date, year: int): (r: PyEngine)
    requires tx.action == Some(DivTag) || tx.action == Some(WhtTag)
    ensures r.portfolio == pe.portfolio && r.isins == pe.isins && r.instruments == pe.instruments
  {
    if tx.action == Some(DivTag) then
      var held := Held(if tx.isin in pe.portfolio then pe.portfolio[tx.isin] else []);
      var key := (year, tx.isin);
      var distributions :=
        if held > 0.0 then
          pe.distributions[key := (if key in pe.distributions then pe.distributions[key] else 0.0) + tx.amountEur / held]
        else pe.distributions;
      pe.(ledger := pe.ledger + [PyDividendEvent(tx, inst, date, year)], distributions := distributions)
    else
      pe.(ledger := pe.ledger + [PyWithholdingEvent(tx, date, year)])
  }

  // Dispatch

  /** `process_transaction`: the instrument is looked up, which may fix its
      symbol, and only 'BUY', 'SELL', 'DIV' and 'WHT' are acted on. */
  function PyProcess(pe: PyEngine, tx: PyRawTransaction): (r: PyEngine)
    requires tx.isin in pe.portfolio ==> Divisible(pe.portfolio[tx.isin])
    ensures SameQuotes(pe.instruments, r.instruments)
    ensures pe.ledger <= r.ledger
    ensures ActionOf(tx.action) in {Int, Unknown} ==> r == pe.(instruments := r.instruments)
  {
    var date := DateOf(tx.dateTime);
    var year := date.year;
    var (inst, instruments) := PyGetInstrument(pe.instruments, tx.isin, tx.symbol);
    PyGetInstrumentAgrees(pe.instruments, tx.isin, tx.symbol);
    var pe := pe.(instruments := instruments);
    if tx.action == Some(BuyTag) then PyHandleBuy(pe, tx, date)
    else if tx.action == Some(SellTag) then PyHandleSell(pe, tx, inst, date, year)
    else if tx.action == Some(DivTag) || tx.action == Some(WhtTag) then PyHandleDividend(pe, tx, inst, date, year)
    else pe
  }

  // Year-end closing

  /** The VAP event: deemed received on 1 January of the next year. */
  function PyVapEvent(lot: TaxLot, total: real, year: int, isin: string, tfs: real): (ev: PyTaxEvent)
    ensures Project(ev) == VapEvent(lot, total, year, isin, tfs)
  {
    PyNewEvent(year + 1, NewYear(year + 1), VapKind, lot.symbol, isin).(rawProfit := total,
                                                                         taxableProfit := total * (1.0 - tfs))
  }

  /** The events of one lot: a lot with nothing left is skipped, and one
      with a positive amount per share logs it times the units held. */
  function PyLotEvents(lot: TaxLot, year: int, rate: real, price: real, dist: real, tfs: real, isin: string): (es: seq<PyTaxEvent>)
    requires lot.originalQuantity != 0.0
    ensures ProjectAll(es) == LotEvents(lot, year, rate, price, dist, tfs, isin)
  {
    if lot.remainingQuantity <= 0.0 then []
    else
      var perShare := LotVapPerShare(lot, year, rate, price, dist);
      if perShare > 0.0 then
        var ev := PyVapEvent(lot, perShare * lot.remainingQuantity, year, isin, tfs);
        assert ProjectAll([ev]) == [Project(ev)];
        assert LotEvents(lot, year, rate, price, dist, tfs, isin)[0] == Project(ev);
        [ev]
      else []
  }

  /** The events of the inner loop, in list order. */
  function PyClosingEvents(lots: seq<TaxLot>, year: int, rate: real, price: real, dist: real, tfs: real,
                           isin: string): seq<PyTaxEvent>
    requires Divisible(lots)
    decreases |lots|
  {
    if lots == [] then []
    else
      assert forall l <- lots[1..] :: l in lots;
      PyLotEvents(lots[0], year, rate, price, dist, tfs, isin) + PyClosingEvents(lots[1..], year, rate, price, dist, tfs, isin)
  }

  lemma {:induction false} PyClosingEventsProject(lots: seq<TaxLot>, year: int, rate: real, price: real, dist: real,
                                                  tfs: real, isin: string)
    requires Divisible(lots)
    ensures ProjectAll(PyClosingEvents(lots, year, rate, price, dist, tfs, isin))
         == ClosingEvents(lots, year, rate, price, dist, tfs, isin)
    decreases |lots|
  {
    if lots != [] {
      assert forall l <- lots[1..] :: l in lots;
      PyClosingEventsProject(lots[1..], year, rate, price, dist, tfs, isin);
      ProjectAllAppend(PyLotEvents(lots[0], year, rate, price, dist, tfs, isin),
                       PyClosingEvents(lots[1..], year, rate, price, dist, tfs, isin));
    }
  }

  /** One ISIN of `perform_year_end_closing`: skipped without a price;
      otherwise the instrument is looked up under the first lot's symbol
      and every lot is closed. */
  function PyCloseQueue(pe: PyEngine, isin: string, year: int, rate: real, prices: PriceProvider): (r: PyEngine)
    requires isin in pe.portfolio && Divisible(pe.portfolio[isin])
    ensures SameQuotes(pe.instruments, r.instruments)
  {
    match GetPrice(prices, isin, year)
    case None => pe
    case Some(price) =>
      var lots := pe.portfolio[isin];
      var dist := if (year, isin) in pe.distributions then pe.distributions[(year, isin)] else 0.0;
      var (inst, instruments) := PyGetInstrument(pe.instruments, isin, if lots == [] then "" else lots[0].symbol);
      PyGetInstrumentAgrees(pe.instruments, isin, if lots == [] then "" else lots[0].symbol);
      var closed := CloseLots(lots, year, rate, price, dist, inst.tfsQuote, isin).lots;
      pe.(portfolio := pe.portfolio[isin := closed],
          ledger := pe.ledger + PyClosingEvents(lots, year, rate, price, dist, inst.tfsQuote, isin),
          instruments := instruments)
  }

  lemma PyCloseQueueAgrees(pe: PyEngine, isin: string, year: int, rate: real, prices: PriceProvider, cp: InstrumentProvider)
    requires isin in pe.portfolio && Divisible(pe.portfolio[isin]) && SameConfig(cp, pe.instruments)
    ensures AsCSharp(PyCloseQueue(pe, isin, year, rate, prices)) == CloseQueue(AsCSharp(pe), isin, year, rate, prices, cp)
    ensures SameConfig(cp, PyCloseQueue(pe, isin, year, rate, prices).instruments)
  {
    match GetPrice(prices, isin, year)
    case None =>
    case Some(price) =>
      var lots := pe.portfolio[isin];
      var symbol := if lots == [] then "" else lots[0].symbol;
      var inst := PyGetInstrument(pe.instruments, isin, symbol).0;
      assert inst.tfsQuote == GetInstrument(cp, isin, symbol).tfsQuote;
      var dist := Distribution(AsCSharp(pe), year, isin);
      PyClosingEventsProject(lots, year, rate, price, dist, inst.tfsQuote, isin);
      ProjectAllAppend(pe.ledger, PyClosingEvents(lots, year, rate, price, dist, inst.tfsQuote, isin));
  }

  function PyCloseQueues(pe: PyEngine, todo: seq<string>, year: int, rate: real, prices: PriceProvider): (r: PyEngine)
    requires forall k <- todo :: k in pe.portfolio
    requires AllDivisible(AsCSharp(pe))
    ensures SameQuotes(pe.instruments, r.instruments)
    decreases |todo|
  {
    if todo == [] then pe
    else
      var next := PyCloseQueue(pe, todo[0], year, rate, prices);
      PyCloseQueueAgrees(pe, todo[0], year, rate, prices, CsProvider(pe.instruments));
      CloseLotsKeepDivisible(pe.portfolio[todo[0]], year, rate, prices, CsProvider(pe.instruments), AsCSharp(pe), todo[0]);
      assert forall k <- todo[1..] :: k in todo;
      PyCloseQueues(next, todo[1..], year, rate, prices)
  }

  /** `perform_year_end_closing`: nothing at a rate of zero or below;
      otherwise every ISIN in insertion order. */
  function PyPerformYearEndClosing(pe: PyEngine, year: int, rates: InterestProvider, prices: PriceProvider): (r: PyEngine)
    requires Valid(AsCSharp(pe))
    ensures GetRate(rates, year) <= 0.0 ==> r == pe
    ensures SameQuotes(pe.instruments, r.instruments)
  {
    var rate := GetRate(rates, year);
    if rate <= 0.0 then pe
    else
      ValidAllDivisible(AsCSharp(pe));
      PyCloseQueues(pe, pe.isins, year, rate, prices)
  }

  // The twins compared

  /** The lookup both engines make before dispatching: the same quota,
      and a Python provider that keeps the configuration. */
  lemma LookupAgrees(pe: PyEngine, tx: PyRawTransaction, cp: InstrumentProvider)
    requires SameConfig(cp, pe.instruments)
    ensures var (inst, instruments) := PyGetInstrument(pe.instruments, tx.isin, tx.symbol);
      && inst.tfsQuote == GetInstrument(cp, tx.isin, tx.symbol).tfsQuote
      && SameConfig(cp, instruments)
  {
    PyGetInstrumentAgrees(pe.instruments, tx.isin, tx.symbol);
  }

  /** What PyProcess does, per action, after the lookup. */
  lemma PyProcessUnfold(pe: PyEngine, tx: PyRawTransaction)
    requires tx.isin in pe.portfolio ==> Divisible(pe.portfolio[tx.isin])
    ensures var date := DateOf(tx.dateTime);
      var (inst, instruments) := PyGetInstrument(pe.instruments, tx.isin, tx.symbol);
      var pe1 := pe.(instruments := instruments);
      var r := PyProcess(pe, tx);
      && (ActionOf(tx.action) == Buy ==> r == PyHandleBuy(pe1, tx, date))
      && (ActionOf(tx.action) == Sell ==> r == PyHandleSell(pe1, tx, inst, date, date.year))
      && (ActionOf(tx.action) in {Div, Wht} ==> r == PyHandleDividend(pe1, tx, inst, date, date.year))
      && (ActionOf(tx.action) in {Int, Unknown} ==> r == pe1)
  {
  }

  lemma DividendAgrees(pe: PyEngine, tx: PyRawTransaction, inst: Instrument, cinst: Instrument, date: Date, year: int)
    requires tx.action == Some(DivTag) && inst.tfsQuote == cinst.tfsQuote
    ensures AsCSharp(PyHandleDividend(pe, tx, inst, date, year)) == HandleDividend(AsCSharp(pe), ToCSharp(tx), cinst, date, year)
  {
    ProjectAllAppend(pe.ledger, [PyDividendEvent(tx, inst, date, year)]);
    assert DividendEvent(ToCSharp(tx), inst, date, year) == DividendEvent(ToCSharp(tx), cinst, date, year);
  }

  lemma WithholdingAgrees(pe: PyEngine, tx: PyRawTransaction, inst: Instrument, cinst: Instrument, date: Date, year: int)
    requires tx.action == Some(WhtTag)
    ensures var e := AsCSharp(pe);
      AsCSharp(PyHandleDividend(pe, tx, inst, date, year))
      == HandleDividend(e, ToCSharp(tx), cinst, date, year).(ledger := e.ledger + [WithholdingEvent(ToCSharp(tx), date, year).(rawProfit := 0.0)])
  {
    ProjectAllAppend(pe.ledger, [PyWithholdingEvent(tx, date, year)]);
  }

  lemma SellAgrees(pe: PyEngine, tx: PyRawTransaction, inst: Instrument, cinst: Instrument, date: Date, year: int)
    requires tx.isin in pe.portfolio ==> Divisible(pe.portfolio[tx.isin])
    requires inst.tfsQuote == cinst.tfsQuote
    ensures AsCSharp(PyHandleSell(pe, tx, inst, date, year)) == HandleSell(AsCSharp(pe), ToCSharp(tx), cinst, date, year)
  {
    assert SaleOf(ToCSharp(tx), inst) == SaleOf(ToCSharp(tx), cinst);
  }

  /** Processing agrees with C# on buys, sells, dividends and unknown
      actions; a withholding tax differs only in the raw profit of its event;
      interest is logged by C# and ignored by Python. */
  lemma ProcessAgrees(pe: PyEngine, tx: PyRawTransaction, cp: InstrumentProvider)
    requires Valid(AsCSharp(pe)) && SameConfig(cp, pe.instruments)
    ensures tx.isin in pe.portfolio ==> Divisible(pe.portfolio[tx.isin])
    ensures var e := AsCSharp(pe);
      var c := ToCSharp(tx);
      var r := AsCSharp(PyProcess(pe, tx));
      var date := DateOf(tx.dateTime);
      && SameConfig(cp, PyProcess(pe, tx).instruments)
      && (c.action in {Buy, Sell, Div, Unknown} ==> r == ProcessTransaction(e, c, cp))
      && (c.action == Wht ==>
            r == ProcessTransaction(e, c, cp).(ledger := e.ledger + [WithholdingEvent(c, date, date.year).(rawProfit := 0.0)]))
      && (c.action == Int ==> r == e && ProcessTransaction(e, c, cp) == HandleInterest(e, c, date, date.year))
  {
    var e := AsCSharp(pe);
    ValidDivisible(Queue(e, tx.isin));
    var c := ToCSharp(tx);
    var date := DateOf(tx.dateTime);
    var (inst, instruments) := PyGetInstrument(pe.instruments, tx.isin, tx.symbol);
    LookupAgrees(pe, tx, cp);
    var cinst := GetInstrument(cp, tx.isin, tx.symbol);
    var pe1 := pe.(instruments := instruments);
    assert AsCSharp(pe1) == e;
    PyProcessUnfold(pe, tx);
    var r := AsCSharp(PyProcess(pe, tx));
    match c.action
    case Buy =>
      assert r == HandleBuy(e, c, date);
    case Sell =>
      SellAgrees(pe1, tx, inst, cinst, date, date.year);
      assert r == HandleSell(e, c, cinst, date, date.year);
    case Div =>
      DividendAgrees(pe1, tx, inst, cinst, date, date.year);
      assert r == HandleDividend(e, c, cinst, date, date.year);
    case Wht =>
      WithholdingAgrees(pe1, tx, inst, cinst, date, date.year);
    case Int =>
      assert r == e;
    case Unknown =>
      assert r == e;
  }

  /** Closing agrees with C# for every year, whatever the lookups did to
      the symbols the provider stores. */
  lemma {:induction false} CloseQueuesAgree(pe: PyEngine, todo: seq<string>, year: int, rate: real,
                                            prices: PriceProvider, cp: InstrumentProvider)
    requires forall k <- todo :: k in pe.portfolio
    requires AllDivisible(AsCSharp(pe)) && SameConfig(cp, pe.instruments)
    ensures AsCSharp(PyCloseQueues(pe, todo, year, rate, prices)) == CloseQueues(AsCSharp(pe), todo, year, rate, prices, cp)
    ensures SameConfig(cp, PyCloseQueues(pe, todo, year, rate, prices).instruments)
    decreases |todo|
  {
    if todo != [] {
      var next := PyCloseQueue(pe, todo[0], year, rate, prices);
      PyCloseQueueAgrees(pe, todo[0], year, rate, prices, cp);
      CloseLotsKeepDivisible(pe.portfolio[todo[0]], year, rate, prices, cp, AsCSharp(pe), todo[0]);
      assert forall k <- todo[1..] :: k in todo;
      CloseQueuesAgree(next, todo[1..], year, rate, prices, cp);
    }
  }

  lemma ClosingAgrees(pe: PyEngine, year: int, rates: InterestProvider, prices: PriceProvider, cp: InstrumentProvider)
    requires Valid(AsCSharp(pe)) && SameConfig(cp, pe.instruments)
    ensures AsCSharp(PyPerformYearEndClosing(pe, year, rates, prices))
         == PerformYearEndClosing(AsCSharp(pe), year, rates, prices, cp)
    ensures SameConfig(cp, PyPerformYearEndClosing(pe, year, rates, prices).instruments)
  {
    if GetRate(rates, year) > 0.0 {
      ValidAllDivisible(AsCSharp(pe));
      CloseQueuesAgree(pe, pe.isins, year, GetRate(rates, year), prices, cp);
    }
  }
}
