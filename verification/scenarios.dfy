/** Worked scenarios of the C# engine, computed through the model's own
    operations: one ETF position bought in June 2021, closed at the end of
    2022 and sold in 2023. */
module Scenarios {
  import opened Wrappers
  import opened Dates
  import opened Models
  import opened Fifo
  import opened Vorabpauschale
  import opened Providers
  import opened Engine

  const Isin := "IE00B4L5Y983"

  /** 100 units bought mid-2021 for 1000 EUR, no fees. */
  const BuyTx := RawTransaction("T1", "IWDA", Isin, "STK", DateTime(Date(2021, 6, 1), 10, 0, 0), Buy, "",
                                100.0, 1000.0, 0.0, 1.0, 10.0)

  /** All 100 units sold in 2023 for 1250 EUR, no fees. */
  const SellTx := RawTransaction("T2", "IWDA", Isin, "STK", DateTime(Date(2023, 3, 1), 10, 0, 0), Sell, "",
                                 -100.0, 1250.0, 0.0, 1.0, 12.5)

  const NoInstruments := InstrumentProvider(map[])
  /** A base rate of 2.55 percent for 2022 and a year-end price of 12 EUR. */
  const Rates := InterestProvider(map[2022 := 0.0255])
  const Prices := PriceProvider(map[(2022, Isin) := 12.0])

  /** The lot the buy opens, with `vap` accrued so far. */
  function Bought(vap: real): TaxLot {
    TaxLot("T1", "IWDA", Isin, Date(2021, 6, 1), 100.0, 100.0, 1000.0, vap, 10.0, 1.0)
  }

  /** The engine holding only that lot, after the ledger `ledger`. */
  function Holding(vap: real, ledger: seq<TaxEvent>): Engine {
    Engine(map[Isin := [Bought(vap)]], [Isin], ledger, map[])
  }

  /** The Vorabpauschale event the 2022 closing logs for the lot. */
  const Vap2022 := NewEvent(2023, Date(2023, 1, 1), VORABPAUSCHALE, "IWDA", Isin, 17.85, 12.495)

  /** The buy opens a queue with the one lot at 10 EUR per unit. */
  lemma AfterBuy()
    ensures ProcessTransaction(Empty(), BuyTx, NoInstruments) == Holding(0.0, [])
  {
    assert LotOf(BuyTx, Date(2021, 6, 1)) == Bought(0.0);
  }

  /** For 2022 the basis return is 10 * 0.0255 * 0.7 = 0.1785 per unit,
      below the price gain of 2 EUR, so 100 units accrue 17.85 EUR. */
  lemma BoughtAccrual(vap: real)
    ensures LotVapPerShare(Bought(vap), 2022, 0.0255, 12.0, 0.0) == 0.1785
    ensures Accrual(Bought(vap), 2022, 0.0255, 12.0, 0.0) == 17.85
  {
    assert UnitCost(Bought(vap)) == 10.0;
    assert MonthsHeld(Date(2021, 6, 1), 2022) == 12.0;
    assert BasisReturn(10.0, 0.0255, 12.0) == 0.1785;
  }

  lemma CloseBought(vap: real)
    ensures CloseLots([Bought(vap)], 2022, 0.0255, 12.0, 0.0, 0.30, Isin) == Closed([Bought(vap + 17.85)], [Vap2022])
  {
    BoughtAccrual(vap);
    var c := CloseLots([Bought(vap)], 2022, 0.0255, 12.0, 0.0, 0.30, Isin);
    assert c.lots[0] == Bought(vap + 17.85);
    var es := LotEvents(Bought(vap), 2022, 0.0255, 12.0, 0.0, 0.30, Isin);
    assert es == [Vap2022];
    assert ClosingEvents([Bought(vap)][1..], 2022, 0.0255, 12.0, 0.0, 0.30, Isin) == [];
    assert c.events == es + [];
  }

  /** Every closing of 2022 accrues 17.85 EUR on the lot and logs one
      Vorabpauschale event of 17.85 EUR, 12.495 EUR of it taxable, on
      1 January 2023. */
  lemma ClosingOfBought(vap: real, ledger: seq<TaxEvent>)
    requires vap >= 0.0
    ensures Valid(Holding(vap, ledger))
    ensures PerformYearEndClosing(Holding(vap, ledger), 2022, Rates, Prices, NoInstruments)
         == Holding(vap + 17.85, ledger + [Vap2022])
  {
    var e := Holding(vap, ledger);
    assert Valid(e) by {
      assert ValidLot(Bought(vap));
      assert AllValid([Bought(vap)]);
    }
    assert GetRate(Rates, 2022) == 0.0255;
    assert GetPrice(Prices, Isin, 2022) == Some(12.0);
    assert GetInstrument(NoInstruments, Isin, "IWDA").tfsQuote == 0.30;
    CloseBought(vap);
    var next := CloseQueue(e, Isin, 2022, 0.0255, Prices, NoInstruments);
    assert next == Holding(vap + 17.85, ledger + [Vap2022]);
    ValidAllDivisible(e);
    assert CloseQueues(e, [Isin], 2022, 0.0255, Prices, NoInstruments) == CloseQueues(next, [], 2022, 0.0255, Prices, NoInstruments);
  }

  /** Year-end closing is not idempotent: closing the same year twice
      accrues and logs the Vorabpauschale twice. Running each year's
      closing exactly once is the caller's duty. */
  lemma ClosingTwiceTaxesTwice(vap: real, ledger: seq<TaxEvent>)
    requires vap >= 0.0
    ensures Valid(Holding(vap, ledger)) && Valid(Holding(vap + 17.85, ledger + [Vap2022]))
    ensures var once := PerformYearEndClosing(Holding(vap, ledger), 2022, Rates, Prices, NoInstruments);
      && once == Holding(vap + 17.85, ledger + [Vap2022])
      && PerformYearEndClosing(once, 2022, Rates, Prices, NoInstruments) == Holding(vap + 35.7, ledger + [Vap2022, Vap2022])
  {
    ClosingOfBought(vap, ledger);
    ClosingOfBought(vap + 17.85, ledger + [Vap2022]);
    assert vap + 17.85 + 17.85 == vap + 35.7;
    assert ledger + [Vap2022] + [Vap2022] == ledger + [Vap2022, Vap2022];
  }

  /** The SELL event of selling the lot after the 2022 closing. */
  const SoldAll := TaxEvent(2023, Date(2023, 3, 1), SELL, "IWDA", Isin, 232.15, 162.505, 17.85, 0.0, 100.0, 1250.0, 1000.0)

  /** Selling everything after the closing empties the queue and logs one
      SELL event whose raw profit is 1250 - 1000 - 17.85, the
      Vorabpauschale already taxed being deducted, and 70 percent of it
      taxable. */
  lemma SaleAfterClosing(ledger: seq<TaxEvent>, tx: RawTransaction, instruments: InstrumentProvider)
    requires tx == SellTx && instruments == NoInstruments
    ensures ProcessTransaction(Holding(17.85, ledger), tx, instruments)
         == Engine(map[Isin := []], [Isin], ledger + [SoldAll], map[])
  {
    var e := Holding(17.85, ledger);
    var inst := GetInstrument(instruments, tx.isin, tx.symbol);
    var date := DateOf(tx.dateTime);
    assert Valid(e) by {
      assert ValidLot(Bought(17.85));
      assert AllValid([Bought(17.85)]);
    }
    assert Queue(e, tx.isin) == [Bought(17.85)];
    HandleSellSingleLot(e, tx, inst, date, date.year);
    var sale := SaleOf(tx, inst);
    assert sale == Sale(100.0, 1250.0, 0.0, 0.30);
    SoldAllEvent(Draw(Bought(17.85), 100.0), sale, date);
    assert e.portfolio[Isin := []] == map[Isin := []];
  }

  /** The one draw of the sale: the whole lot, its cost of 1000 EUR and
      its accrued 17.85 EUR released against 1250 EUR of proceeds. */
  lemma SaleEventOfBought()
    ensures var d := Draw(Bought(17.85), 100.0);
      var sale := Sale(100.0, 1250.0, 0.0, 0.30);
      && RawProfit(d, sale) == 232.15 && VapShare(d) == 17.85
      && CostShare(d) == 1000.0 && ProceedsShare(d, sale) == 1250.0
  {
    var d := Draw(Bought(17.85), 100.0);
    var sale := Sale(100.0, 1250.0, 0.0, 0.30);
    assert VapShare(d) == 17.85 by {
      assert d.lot.accumulatedVap / d.lot.remainingQuantity == 0.1785;
    }
    assert CostShare(d) == 1000.0 by {
      assert UnitCost(d.lot) == 10.0;
    }
    assert ProceedsShare(d, sale) == 1250.0 && FeesShare(d, sale) == 0.0 by {
      assert d.take / sale.quantity == 1.0;
    }
  }

  lemma SoldAllEvent(d: Draw, sale: Sale, date: Date)
    requires d == Draw(Bought(17.85), 100.0) && sale == Sale(100.0, 1250.0, 0.0, 0.30) && date == Date(2023, 3, 1)
    ensures SellEvent(d, sale, 2023, date, "IWDA", Isin) == SoldAll
  {
    SaleEventOfBought();
    var ev := SellEvent(d, sale, 2023, date, "IWDA", Isin);
    assert ev.rawProfit == 232.15;
    Exempted(ev.rawProfit, sale.tfsQuote);
    assert ev.taxableProfit == 162.505;
  }

  lemma Exempted(raw: real, tfs: real)
    requires raw == 232.15 && tfs == 0.30
    ensures raw * (1.0 - tfs) == 162.505
  {
  }
}
