# TaxAlpha in Dafny

TaxAlpha computes German capital-income tax for an Interactive Brokers
portfolio. It reads the broker's Flex-report rows. It removes corrected
trades. It then feeds the transactions, year by year, into a portfolio
engine. The engine does four things:

- it keeps a FIFO queue of tax lots per ISIN;
- it realises gains on sales, net of fees, acquisition cost and the
  Vorabpauschale (deemed distribution) already taxed;
- it books dividends, withholding tax and interest;
- at each year end it accrues the Vorabpauschale of every open lot, following
  section 18 of the German Investment Tax Act (InvStG), with the partial
  exemption (Teilfreistellung) of section 20 InvStG applied to every taxable
  amount.

The repository holds a C# implementation and a Python twin. This project
models both of them:

| module | file | what it models |
|---|---|---|
| Engine | engine.dfy | the C# PortfolioEngine |
| Fifo | fifo.dfy | the FIFO draw-down of a sale |
| Vorabpauschale | vap.dfy | the per-unit Vorabpauschale |
| Models | models.dfy | the C# records |
| PyModels | py_models.dfy | the Python records |
| PyEngine | py_engine.dfy | the Python engine |
| Reconcile, Cleaning | reconcile.dfy, cleaning.dfy | the cancellation cleaner of both loaders |
| IbkrRows | ibkr_rows.dfy | the row decisions of both loaders |
| Dates, Text, Decimals | dates.dfy, text.dfy, decimals.dfy | date formats, string helpers and decimal rounding |
| Strptime | strptime.dfy | Python's `datetime.strptime` on the loader's two date formats |
| Providers, PyProviders | providers.dfy, py_providers.dfy | the price, base-rate and instrument providers |
| Results | result.dfy | `Result<T>` |
| Trading | trading.dfy | the moving-average trading rule |
| Estimate | estimate.dfy | the tax estimate |
| Driver | driver.dfy | the year-by-year driver of both programs |
| Scenarios | scenarios.dfy | worked examples of the C# engine |

**How the model works**

- Decimals are exact reals. The places where the source rounds or truncates
  are written out: Python's `quantize` and C#'s `(int)` cast.
- Each engine is an immutable value. Each operation returns the engine after
  the call.
- The Python engine is related to the C# one by a projection (`AsCSharp`),
  and the agreement lemmas say where the two meet and where they part.

**Where the twins differ**

Each difference is proved as a lemma:

- Python logs withholding tax with raw profit 0 (`PyEngine.WithholdingAgrees`).
- Python never routes interest (`PyEngine.ProcessAgrees`).
- A correction cancelling its original to exactly 0.05 is matched by Python
  but not by C# (`Cleaning.ToleranceDiverges`).
- Python's lookup fixes the first symbol of a configured instrument for good
  (`PyProviders.FirstSymbolSticks`).
- C# maps a cash type containing "Withholding" but not "Withholding Tax" to
  withholding tax, where Python maps it to interest
  (`IbkrRows.CashActionsAgree`).
- C# reads an empty `dateTime` as `DateTime.MinValue`, where Python moves on
  to the next attribute (`IbkrRows.TradeDatesAgree`).
- Python's `strptime` also accepts one-digit month, day and time fields,
  where C#'s exact formats want two digits each. "202315" is 5 January 2023
  to Python and `DateTime.MinValue` to C# (`Strptime.ShortDateDiverges`), and
  so is "20230105;93000" at 09:30:00 (`Strptime.ShortHourDiverges`). On the
  fixed shapes, fifteen characters "yyyyMMdd;HHmmss" or eight digits, the two
  readers agree (`Strptime.ParseDateAgrees`).
- Python's `%d` also accepts a blank followed by a digit. "202301 5" is
  5 January 2023 at 23:59:59 to Python and `DateTime.MinValue` to C#
  (`Strptime.BlankDayDiverges`, with the literal in
  `Strptime.BlankDayExample`).
- The currency-pair heuristic wants a symbol of length 7. C#'s `Length`
  counts UTF-16 code units, while Python's `len` counts code points. The two
  counts differ on characters beyond the Basic Multilingual Plane, so
  "A.EUR" followed by U+1F600 is a currency pair to C# and a kept stock to
  Python, and "AB.EUR" followed by U+1F600 is the reverse
  (`IbkrRows.ForexTestsAgree`, `IbkrRows.TradeDecisionsAgree`,
  `IbkrRows.PyKeptTradeByCs`).
- Python rounds the trade value to four places before applying the exchange
  rate (`IbkrRows.TradeAmountsClose`).
- Python rounds a cash amount to four places before applying the exchange
  rate, and C# does not round it (`IbkrRows.CashAmountsClose`). A cash row
  with a tradePrice is priced by it in C# and by its amount in Python.
- A trade row with an amount but no tradePrice is priced by the amount in C#
  and at 0 in Python (`IbkrRows.TradePriceDiverges`).
- A cash row without an id is dropped by C# and kept by Python
  (`IbkrRows.CashDecisionsAgree`).
- A cash row without a symbol is "CASH" to Python and "UNKNOWN" to C#
  (`IbkrRows.CashSymbolsDiffer`).
- Python dates a cash row by dateTime or reportDate. C# tries tradeDate
  between the two, and reads an empty dateTime as MinValue
  (`IbkrRows.CashDatesCompare`).
- A cash row whose description contains "(Ca.)" is a correction to Python's
  cleaner. C# never marks a cash row, so its cleaner keeps it
  (`IbkrRows.CashMarkingDiffers`).
- An empty transaction list makes Python's driver raise, while C#'s does
  nothing (`Driver.MainsAgree`).

**Worked examples.** scenarios.dfy runs one lot through the C# engine with
literal numbers. The lot is 100 units bought in 2021 for 1000 EUR, accrues
17.85 EUR of Vorabpauschale when 2022 is closed, and is sold in 2023 for
1250 EUR. A closing of 2022 done twice accrues twice
(`Scenarios.ClosingTwiceTaxesTwice`), the literal case of
`Engine.ClosingTwiceAccruesTwice`. Literal inputs where the twins part sit
next to the general lemmas: `Strptime.ShortDateExample`,
`Strptime.ShortHourExample`, `Strptime.BlankDayExample`,
`IbkrRows.ForexOnlyInUtf16` and `IbkrRows.ForexOnlyInCodePoints`. These
examples have no rows in the table below; the general lemmas do.

**Closing a year twice.** `PerformYearEndClosing`
(TaxAlpha/Core/Engine/PortfolioEngine.cs:144-188) keeps no record of the
years it has closed. `Engine.ClosingTwiceAccruesTwice` proves, for every
valid engine, that a second closing of the same year logs the first
closing's VORABPAUSCHALE events once more and adds the same accrual to every
lot again. What keeps a year from accruing twice is the driver: the loop of
TaxAlpha/Program.cs:75-85 closes each year exactly once
(`Driver.CsClosesEveryYear`).

## Model

| member | source | states |
|---|---|---|
| Text.Contains | TaxAlpha/Infrastructure/Loaders/IbkrXmlLoader.cs:59 | ordinal substring search: true exactly when the pattern occurs at some index of the text |
| Text.Split | TaxAlpha/Infrastructure/Providers/CsvPriceProvider.cs:34 | splitting on a separator yields at least one field and no field contains the separator |
| Text.SplitCount | TaxAlpha/Infrastructure/Providers/CsvPriceProvider.cs:34-35 | a line with k separators splits into exactly k + 1 fields, empty fields included |
| Text.JoinSplit | TaxAlpha/Infrastructure/Providers/CsvPriceProvider.cs:34 | joining the fields of a split with the separator restores the line |
| Text.SplitJoin | TaxAlpha/Infrastructure/Providers/CsvPriceProvider.cs:34 | splitting separator-free fields joined by the separator gives back those fields |
| Text.Trim | TaxAlpha/Infrastructure/Providers/CsvPriceProvider.cs:41 | the trimmed string is no longer than the original and neither starts nor ends with a character `char.IsWhiteSpace` accepts: the Unicode space separators, U+2028, U+2029, U+0009 to U+000D, U+0085 and U+00A0 |
| Text.TrimOccurs | TaxAlpha/Infrastructure/Providers/CsvPriceProvider.cs:41 | the trimmed string is a contiguous piece of the original |
| Text.TrimEmptyIffBlank | TaxAlpha/Infrastructure/Providers/CsvPriceProvider.cs:32 | trimming leaves nothing exactly when every character of the line is Unicode white space, which is the `string.IsNullOrWhiteSpace` test of the CSV readers |
| Dates.NewYear | TaxAlpha/Core/Engine/PortfolioEngine.cs:181 | 1 January of a year in range is a valid date of that year |
| Dates.DigitsValuePad | TaxAlpha/Infrastructure/Loaders/IbkrXmlLoader.cs:251 | reading back a zero-padded number of the field width gives the number |
| Dates.PadDigitsValue | TaxAlpha/Infrastructure/Loaders/IbkrXmlLoader.cs:251 | re-padding the value of a digit string to its width gives the string |
| Dates.TryParseStamp | TaxAlpha/Infrastructure/Loaders/IbkrXmlLoader.cs:251 | "yyyyMMdd;HHmmss" succeeds only on a 15-character string and only with a valid timestamp |
| Dates.TryParseDay | TaxAlpha/Infrastructure/Loaders/IbkrXmlLoader.cs:254 | "yyyyMMdd" succeeds only on an 8-character string and only with a valid date |
| Dates.ReadDate | TaxAlpha/Infrastructure/Loaders/IbkrXmlLoader.cs:251-255 | what the two exact formats read, tried in order, is always a valid timestamp |
| Dates.ReadDateShape | TaxAlpha/Infrastructure/Loaders/IbkrXmlLoader.cs:251-255 | only a fifteen-character "digits;digits" string or eight digits can be read, and on the first shape only the timestamp format applies |
| Dates.ParseDate | TaxAlpha/Infrastructure/Loaders/IbkrXmlLoader.cs:247-258 | C# date reading always yields a valid timestamp: the one read, or DateTime.MinValue for a missing or empty string and for any string neither format reads |
| Dates.ParseFormatStamp | TaxAlpha/Infrastructure/Loaders/IbkrXmlLoader.cs:251-252 | a formatted timestamp reads back as itself |
| Dates.ParseFormatDay | TaxAlpha/Infrastructure/Loaders/IbkrXmlLoader.cs:254-255 | a bare date reads as 23:59:59 of that day |
| Strptime.Search | loader.py:50 | the backtracking match of a format consumes a prefix of the text and yields one piece per field |
| Strptime.SearchSound | loader.py:50 | whatever the match returns is a parse: consecutive slices of the text, each matched by an alternative of its field |
| Strptime.SearchFirst | loader.py:50 | the match takes the first alternative of a field that matches, when the remaining fields can follow it |
| Strptime.SearchBlocked | loader.py:50 | when no alternative of some field matches anywhere, the format does not match |
| Strptime.PyReadDate | loader.py:49-55 | the timestamp format first, then the bare date at 23:59:59; anything read is a valid timestamp |
| Strptime.ParseCleanDate | loader.py:46-57 | a missing or empty string raises "Leeres Datum"; any other string gives a valid timestamp exactly when one of the formats reads it, and raises otherwise |
| Strptime.StampForward | loader.py:50 | a timestamp the exact C# format reads is read the same by Python |
| Strptime.StampBackward | loader.py:50 | a timestamp Python reads from a fifteen-character "digits;digits" string is the one the exact C# format reads |
| Strptime.DayForward | loader.py:54 | a date the exact C# format reads from eight digits is read the same by Python |
| Strptime.DayBackward | loader.py:54 | a date Python reads from eight digits is the one the exact C# format reads |
| Strptime.DayNotStamp | loader.py:50-52 | eight digits never match the timestamp format, so the date format decides |
| Strptime.FixedWidthAgrees | loader.py:49-57 | on the two fixed shapes the Python reader and the exact C# formats read the same timestamp and reject the same strings |
| Strptime.ParseDateAgrees | loader.py:46-57 | on the fixed shapes Python returns exactly where C# reads, and the same timestamp; every other shape C# reads as MinValue; whatever C# reads, Python returns too |
| Strptime.ShortDateDiverges | loader.py:54-55 | a year followed by a one-digit month and a one-digit day is that date at 23:59:59 to Python and DateTime.MinValue to C# |
| Strptime.BlankDayDiverges | loader.py:54-55 | a year, a two-digit month, a blank and a digit is that date at 23:59:59 to Python and DateTime.MinValue to C# |
| Strptime.ShortHourDiverges | loader.py:50 | a date, ';', a one-digit hour from 3 to 9 and two-digit minute and second is that timestamp to Python and DateTime.MinValue to C# |
| Decimals.Quantize4 | loader.py:171 | quantizing to 0.0001 gives a four-place value within half a unit of the input, and leaves four-place values unchanged |
| Decimals.Quantize4HalfEven | loader.py:171 | an exact tie is rounded to the even neighbour, as in Python's default context |
| Decimals.Truncate | TaxAlpha/Core/Engine/TradingEngine.cs:47 | the `(int)` cast truncates toward zero: within one unit of the value and never past it away from zero |
| Models.NewLot | TaxAlpha/Core/Models/TaxLot.cs:19-26 | a new lot holds its whole original quantity, has no accrued Vorabpauschale, and keeps the given identity, date and cost |
| Models.SetHolding | TaxAlpha/Core/Models/TaxLot.cs:11-13 | the two setters change only the remaining quantity and the accrued Vorabpauschale; every get-only field stays |
| Models.UnitCostFixed | TaxAlpha/Core/Models/TaxLot.cs:10-12 | the unit cost (cost / original quantity) is the same for every state of a lot reached through the setters |
| Models.Ordinal | TaxAlpha/Core/Models/TaxEvent.cs:3-10 | each event type has a value in 1..5 and that value maps back to it |
| Models.FromOrdinal | TaxAlpha/Core/Models/TaxEvent.cs:3-10 | an integer names an event type exactly when it lies in 1..5 |
| Models.OrdinalInjective | TaxAlpha/Core/Models/TaxEvent.cs:5-9 | distinct event types have distinct values |
| Models.NewEvent | TaxAlpha/Core/Models/TaxEvent.cs:13-27 | the positional record with the optional fields omitted has used VAP, withholding, quantity, proceeds and cost at 0 and the given required fields |
| Fifo.DrawDown | TaxAlpha/Core/Engine/PortfolioEngine.cs:76-108 | a sale draws from each lot at most once |
| Fifo.DrawDownUnsold | TaxAlpha/Core/Engine/PortfolioEngine.cs:76-105 | a draw happens only when something is left to sell, and what stays unsold is the quantity asked less the units taken |
| Fifo.DrawDownInOrder | TaxAlpha/Core/Engine/PortfolioEngine.cs:78-79 | the i-th draw is against the i-th lot of the queue, and every draw but the last empties its lot |
| Fifo.DrawDownStops | TaxAlpha/Core/Engine/PortfolioEngine.cs:76 | the loop ends only when nothing is left to sell or the queue is empty; with no draw the queue is untouched |
| Fifo.DrawDownLastTake | TaxAlpha/Core/Engine/PortfolioEngine.cs:79 | the last draw takes the smaller of what was still to sell and what its lot holds |
| Fifo.DrawDownLastLot | TaxAlpha/Core/Engine/PortfolioEngine.cs:103-107 | the last lot drawn leaves the queue when at most 0.000001 remains, and otherwise stays at the head with the sale complete |
| Fifo.HeldNonNegative | TaxAlpha/Core/Engine/PortfolioEngine.cs:123-124 | valid lots hold a non-negative total, positive whenever there is a lot |
| Fifo.VapShareBounded | TaxAlpha/Core/Engine/PortfolioEngine.cs:89-91 | the Vorabpauschale a draw releases lies between 0 and the lot's whole accrual |
| Fifo.DrawConserves | TaxAlpha/Core/Engine/PortfolioEngine.cs:86-104 | a draw conserves units, open cost and accrued Vorabpauschale between what it realises and what stays on the lot |
| Fifo.PartialDrawKeepsVapPerUnit | TaxAlpha/Core/Engine/PortfolioEngine.cs:89-104 | a partial sale leaves the same accrued Vorabpauschale per remaining unit |
| Fifo.DrawDownTakes | TaxAlpha/Core/Engine/PortfolioEngine.cs:76-105 | a sale takes min(quantity, held) units in all and never goes short |
| Fifo.DrawDownKeepsValid | TaxAlpha/Core/Engine/PortfolioEngine.cs:76-107 | every draw takes a positive quantity no larger than its lot holds, and the lots left are valid |
| Fifo.DrawDownHeld | TaxAlpha/Core/Engine/PortfolioEngine.cs:103-107 | the units left in the queue are those held less those taken, less at most 0.000001 of dust |
| Fifo.AllocationIsProRata | TaxAlpha/Core/Engine/PortfolioEngine.cs:82-84 | the proceeds and fees allocated over a sale's draws are the totals times the fraction of the quantity taken |
| Fifo.FilledSaleAllocatesAll | TaxAlpha/Core/Engine/PortfolioEngine.cs:82-84 | a completely filled sale allocates exactly the transaction's proceeds and fees |
| Fifo.FullDrawDown | TaxAlpha/Core/Engine/PortfolioEngine.cs:76-107 | selling at least everything held takes every lot whole, in queue order, and empties the queue |
| Fifo.WholeDrawsCost | TaxAlpha/Core/Engine/PortfolioEngine.cs:86-87 | taking every lot whole releases exactly the queue's open cost |
| Fifo.WholeDrawsVap | TaxAlpha/Core/Engine/PortfolioEngine.cs:89-91 | taking every lot whole releases exactly the queue's accrued Vorabpauschale |
| Fifo.RawProfitTotal | TaxAlpha/Core/Engine/PortfolioEngine.cs:93 | over a sale the raw profit is proceeds less fees, released cost and released Vorabpauschale |
| Fifo.UntouchedOpenCost | TaxAlpha/Core/Engine/PortfolioEngine.cs:86-87 | for lots not yet sold from, the open cost is the booked acquisition cost |
| Vorabpauschale.MonthsHeld | TaxAlpha/Core/Engine/PortfolioEngine.cs:165-167 | the months counted lie in 1..12, and are 12 exactly when the lot was bought in another year or in January |
| Vorabpauschale.PriceGain | TaxAlpha/Core/Engine/PortfolioEngine.cs:170 | the gain is never negative, at least price less unit cost, and positive exactly when the price exceeds the unit cost |
| Vorabpauschale.VapPerShare | TaxAlpha/Core/Engine/PortfolioEngine.cs:169-173 | the amount per unit is never negative; with non-negative distributions it is capped by the price gain and the basis return; it is positive exactly when the capped amount exceeds the distributions |
| Vorabpauschale.NoVapWithoutGain | TaxAlpha/Core/Engine/PortfolioEngine.cs:170-173 | a lot that has not gained in value accrues nothing |
| Vorabpauschale.VapMonotoneInPrice | TaxAlpha/Core/Engine/PortfolioEngine.cs:169-173 | a higher year-end price never lowers the amount |
| Vorabpauschale.VapAntitoneInDistributions | TaxAlpha/Core/Engine/PortfolioEngine.cs:173 | larger distributions already taxed never raise the amount |
| Vorabpauschale.VapMonotoneInMonths | TaxAlpha/Core/Engine/PortfolioEngine.cs:165-169 | holding more months in the year of purchase never lowers the amount |
| Vorabpauschale.NegativeDistributionExceedsCap | TaxAlpha/Core/Engine/PortfolioEngine.cs:173 | a negative distribution lifts the amount above the price-gain cap, so the cap needs non-negative distributions |
| Providers.CollectIsLastWins | TaxAlpha/Infrastructure/Providers/CsvPriceProvider.cs:42 | a key is stored exactly when some accepted line has it, with the value of the last such line |
| Providers.ReadEntry | TaxAlpha/Infrastructure/Providers/JsonInstrumentProvider.cs:43-60 | an accepted entry is stored under its ISIN with the "Unknown" symbol; a null entry or quota dereferences null |
| Providers.ReadQuote | TaxAlpha/Infrastructure/Providers/JsonInstrumentProvider.cs:53-60 | a quota text is accepted exactly when it parses, and then gives the instrument with that quota |
| Providers.LoadInstruments | TaxAlpha/Infrastructure/Providers/JsonInstrumentProvider.cs:28-72 | a missing file raises FileNotFoundException; any other failure is an ApplicationException with the load prefix |
| Providers.ScanEntriesOutcome | TaxAlpha/Infrastructure/Providers/JsonInstrumentProvider.cs:43-65 | the scan succeeds exactly when every entry is accepted, and then stores every ISIN under itself with the "Unknown" symbol |
| Providers.LoadInstrumentsOutcome | TaxAlpha/Infrastructure/Providers/JsonInstrumentProvider.cs:28-72 | loading succeeds exactly when the file exists and the document is null or every entry parses, and then holds exactly the document's ISINs |
| Providers.GetInstrument | TaxAlpha/Infrastructure/Providers/JsonInstrumentProvider.cs:74-95 | an unknown ISIN gets "Auto-Generated" with quota 0.30; a stored one is returned with the caller's symbol in place of "Unknown" |
| Providers.LoadedInstrumentTakesCallerSymbol | TaxAlpha/Infrastructure/Providers/JsonInstrumentProvider.cs:60-84 | every lookup on a loaded provider reports the ISIN asked for with the caller's symbol |
| Providers.PriceLine | TaxAlpha/Infrastructure/Providers/CsvPriceProvider.cs:32-43 | a price line is accepted exactly when it is not blank, has 3 or more fields, and fields 0 and 2 parse; its key is (year, trimmed field 1) |
| Providers.LoadPrices | TaxAlpha/Infrastructure/Providers/CsvPriceProvider.cs:16-22 | loading raises exactly when the file is missing |
| Providers.GetPrice | TaxAlpha/Infrastructure/Providers/CsvPriceProvider.cs:53-56 | no price exactly when (year, ISIN) was not loaded, and the stored price otherwise |
| Providers.GetPriceIsLastLine | TaxAlpha/Infrastructure/Providers/CsvPriceProvider.cs:30-56 | the price found is that of the last accepted data line after the header for that key, and none without one |
| Providers.RateLine | TaxAlpha/Infrastructure/Providers/CsvInterestProvider.cs:26-35 | a rate line is accepted exactly when it is not blank, has 2 or more fields, and both parse |
| Providers.LoadRates | TaxAlpha/Infrastructure/Providers/CsvInterestProvider.cs:17-20 | loading raises exactly when the file is missing |
| Providers.GetRate | TaxAlpha/Infrastructure/Providers/CsvInterestProvider.cs:45-48 | a year not loaded has rate 0, a loaded year its stored rate |
| Providers.GetRateIsLastLine | TaxAlpha/Infrastructure/Providers/CsvInterestProvider.cs:24-48 | the rate of a year is that of its last accepted data line after the header, and 0 without one |
| Engine.Empty | TaxAlpha/Core/Engine/PortfolioEngine.cs:8-19 | a new engine satisfies the invariant with no lots and an empty ledger |
| Engine.LotOf | TaxAlpha/Core/Engine/PortfolioEngine.cs:50-54 | the lot of a buy costs amount plus fees, holds the quantity bought, and has nothing accrued |
| Engine.HandleBuy | TaxAlpha/Core/Engine/PortfolioEngine.cs:48-60 | the new lot joins the tail of its ISIN's queue; every other queue, the ledger and the distributions stay |
| Engine.SaleOf | TaxAlpha/Core/Engine/PortfolioEngine.cs:64-65 | a sale takes quantity and proceeds as magnitudes and the fees as booked |
| Engine.SellEvent | TaxAlpha/Core/Engine/PortfolioEngine.cs:82-100 | a SELL event's raw profit is its proceeds less its fee share, cost and used Vorabpauschale, and its taxable profit is that times (1 − quota) |
| Engine.SellEvents | TaxAlpha/Core/Engine/PortfolioEngine.cs:96-100 | one SELL event per draw |
| Engine.HandleSell | TaxAlpha/Core/Engine/PortfolioEngine.cs:62-109 | a sale with no lots held changes nothing; otherwise only its ISIN's queue changes and the ledger only grows |
| Engine.DividendEvent | TaxAlpha/Core/Engine/PortfolioEngine.cs:113-118 | a dividend's raw profit is the amount and its taxable profit is the amount times (1 − quota) |
| Engine.WithholdingEvent | TaxAlpha/Core/Engine/PortfolioEngine.cs:133-136 | withholding tax books the amount as raw profit, nothing taxable, and its magnitude as the foreign tax paid |
| Engine.HandleDividend | TaxAlpha/Core/Engine/PortfolioEngine.cs:111-137 | a dividend or withholding tax appends its one event and leaves the lots; withholding tax leaves the distributions |
| Engine.HandleInterest | TaxAlpha/Core/Engine/PortfolioEngine.cs:139-142 | interest appends one INTEREST event with raw and taxable profit equal to the amount, and nothing else changes |
| Engine.ProcessTransaction | TaxAlpha/Core/Engine/PortfolioEngine.cs:24-46 | the ledger only grows; an unknown action changes nothing; only a buy can add an ISIN |
| Engine.LotVapPerShare | TaxAlpha/Core/Engine/PortfolioEngine.cs:162-173 | the Vorabpauschale per unit of a lot is never negative |
| Engine.VapEvent | TaxAlpha/Core/Engine/PortfolioEngine.cs:180-184 | a VORABPAUSCHALE event is dated 1 January of the next year, counts for that year, and is taxable after the quota |
| Engine.Accrual | TaxAlpha/Core/Engine/PortfolioEngine.cs:160-178 | a lot accrues a positive amount exactly when it still holds units and its amount per unit is positive |
| Engine.ClosedLot | TaxAlpha/Core/Engine/PortfolioEngine.cs:175-178 | closing keeps a lot's identity and units and adds its accrual |
| Engine.LotEvents | TaxAlpha/Core/Engine/PortfolioEngine.cs:175-185 | closing logs at most one event per lot |
| Engine.CloseLots | TaxAlpha/Core/Engine/PortfolioEngine.cs:160-186 | each lot of the queue is closed in place and the queue keeps its length |
| Engine.LotEventsAccrual | TaxAlpha/Core/Engine/PortfolioEngine.cs:175-184 | the raw total a lot logs equals its accrual, taxed after the quota |
| Engine.CloseQueue | TaxAlpha/Core/Engine/PortfolioEngine.cs:152-186 | closing one ISIN leaves every other queue, the ISINs and the distributions; the ledger only grows |
| Engine.CloseQueues | TaxAlpha/Core/Engine/PortfolioEngine.cs:152-187 | the loop over ISINs keeps the ISINs and distributions and only grows the ledger |
| Engine.PerformYearEndClosing | TaxAlpha/Core/Engine/PortfolioEngine.cs:144-188 | a base rate at or below 0 changes nothing; otherwise ISINs and distributions stay and the ledger only grows |
| Engine.SellEventsTotals | TaxAlpha/Core/Engine/PortfolioEngine.cs:93-100 | a sale's events carry in total the units taken and the proceeds, cost, Vorabpauschale and raw profit its draws release |
| Engine.SellEventsKind | TaxAlpha/Core/Engine/PortfolioEngine.cs:96-97 | every event of a sale is a SELL in the sale's year and on its date |
| Engine.HandleSellUnfold | TaxAlpha/Core/Engine/PortfolioEngine.cs:74-107 | a sale replaces its queue by what the draw-down leaves and appends one event per draw |
| Engine.HandleSellUnits | TaxAlpha/Core/Engine/PortfolioEngine.cs:76-107 | a sale logs min(quantity, held) units sold, and the queue keeps held less sold, less at most 0.000001 of dust |
| Engine.HandleSellAllocatesProceeds | TaxAlpha/Core/Engine/PortfolioEngine.cs:82-83 | a sale of no more than is held allocates exactly the transaction's proceeds |
| Engine.HandleSellLiquidates | TaxAlpha/Core/Engine/PortfolioEngine.cs:76-107 | selling exactly what is held empties the queue and realises its whole open cost and Vorabpauschale |
| Engine.HandleSellSingleLot | TaxAlpha/Core/Engine/PortfolioEngine.cs:76-107 | selling exactly an only lot logs one SELL event for the whole lot and empties the queue |
| Engine.BuyKeepsValid | TaxAlpha/Core/Engine/PortfolioEngine.cs:48-60 | a buy of a positive quantity keeps the engine's invariant |
| Engine.SellKeepsValid | TaxAlpha/Core/Engine/PortfolioEngine.cs:62-109 | a sale keeps the engine's invariant |
| Engine.ProcessKeepsValid | TaxAlpha/Core/Engine/PortfolioEngine.cs:24-46 | processing any transaction keeps the invariant when buys are positive |
| Engine.DividendAccumulates | TaxAlpha/Core/Engine/PortfolioEngine.cs:121-130 | a dividend on units held adds amount / held to that year's and ISIN's distribution and leaves every other entry |
| Engine.DividendWithoutHolding | TaxAlpha/Core/Engine/PortfolioEngine.cs:121-136 | a dividend with nothing held, and withholding tax, leave the distributions |
| Engine.CloseLotsEvents | TaxAlpha/Core/Engine/PortfolioEngine.cs:180-184 | closing a queue logs only Vorabpauschale events of its ISIN, taxed after the quota |
| Engine.CloseLotsAccrual | TaxAlpha/Core/Engine/PortfolioEngine.cs:177-184 | what closing logs is exactly what it adds to the lots' accrual |
| Engine.CloseQueueHoldings | TaxAlpha/Core/Engine/PortfolioEngine.cs:160-178 | closing one ISIN changes its lots only by accrual |
| Engine.CloseQueueEvents | TaxAlpha/Core/Engine/PortfolioEngine.cs:180-184 | closing one ISIN logs only Vorabpauschale events |
| Engine.CloseQueuesHoldings | TaxAlpha/Core/Engine/PortfolioEngine.cs:152-187 | the loop over ISINs changes lots only by accrual |
| Engine.CloseQueuesEvents | TaxAlpha/Core/Engine/PortfolioEngine.cs:152-187 | the loop over ISINs logs only Vorabpauschale events |
| Engine.ClosingKeepsHoldings | TaxAlpha/Core/Engine/PortfolioEngine.cs:144-188 | year-end closing keeps the invariant, changes lots only by accrual and logs only Vorabpauschale events |
| Engine.ClosedLotAgain | TaxAlpha/Core/Engine/PortfolioEngine.cs:160-184 | a closed lot accrues and logs at a second closing exactly what it did at the first |
| Engine.ClosingEventsAgain | TaxAlpha/Core/Engine/PortfolioEngine.cs:160-186 | closing a queue that was just closed logs the same events again |
| Engine.QueueClosingAgain | TaxAlpha/Core/Engine/PortfolioEngine.cs:154-186 | closing one ISIN a second time logs the same events again and adds each lot's accrual a second time |
| Engine.CloseQueuesAt | TaxAlpha/Core/Engine/PortfolioEngine.cs:152-187 | the loop leaves each listed queue closed as it stood before the loop and every other queue as it was |
| Engine.PassEventsFrame | TaxAlpha/Core/Engine/PortfolioEngine.cs:152-187 | the events of the loop depend only on the queues it closes and on the distributions |
| Engine.CloseQueuesLedger | TaxAlpha/Core/Engine/PortfolioEngine.cs:152-187 | the loop logs the events of closing each listed queue as it stood before the loop, in list order |
| Engine.PassEventsAgain | TaxAlpha/Core/Engine/PortfolioEngine.cs:152-187 | a second loop over the queues the first one closed logs the first loop's events again |
| Engine.PassTwiceLedger | TaxAlpha/Core/Engine/PortfolioEngine.cs:152-187 | a second loop over the same ISINs appends the first loop's events once more |
| Engine.PassTwiceAt | TaxAlpha/Core/Engine/PortfolioEngine.cs:152-187 | a second loop over the same ISINs adds to each lot of a listed queue what the first loop added |
| Engine.ClosingTwiceAccruesTwice | TaxAlpha/Core/Engine/PortfolioEngine.cs:144-188 | a second closing of the same year logs the first closing's Vorabpauschale events once more and adds to every lot the same accrual again |
| Reconcile.NearestMatch | TaxAlpha/Infrastructure/Loaders/IbkrXmlLoader.cs:67-83 | the backward search finds the highest eligible earlier index, or reports that none is eligible |
| Reconcile.NearestMatchIsHighest | TaxAlpha/Infrastructure/Loaders/IbkrXmlLoader.cs:67-82 | an eligible index with nothing eligible above it is the one found |
| Reconcile.NearestMatchNone | TaxAlpha/Infrastructure/Loaders/IbkrXmlLoader.cs:67-85 | with nothing eligible below the bound, the search finds nothing |
| Reconcile.Removed | TaxAlpha/Infrastructure/Loaders/IbkrXmlLoader.cs:53-90 | after n steps of the outer loop only indices below n are removed |
| Reconcile.CleanCancellations | TaxAlpha/Infrastructure/Loaders/IbkrXmlLoader.cs:51-93 | the loops as written compute the cleaned list of the functional definition |
| Reconcile.RemovedGrows | TaxAlpha/Infrastructure/Loaders/IbkrXmlLoader.cs:63-78 | once removed, an index stays removed |
| Reconcile.CorrectionRemovedWhenVisited | TaxAlpha/Infrastructure/Loaders/IbkrXmlLoader.cs:61-63 | a correction is removed in the step that visits it |
| Reconcile.CorrectionsRemoved | TaxAlpha/Infrastructure/Loaders/IbkrXmlLoader.cs:59-63 | every correction is removed, matched or not |
| Reconcile.RemovedOnlyWhenCancelled | TaxAlpha/Infrastructure/Loaders/IbkrXmlLoader.cs:67-82 | a transaction that is not a correction is removed only when a later correction matches it |
| Reconcile.RemovedAtMostTwicePerCorrection | TaxAlpha/Infrastructure/Loaders/IbkrXmlLoader.cs:63-82 | at most two indices are removed per correction |
| Reconcile.EarlierCorrectionsRemoved | TaxAlpha/Infrastructure/Loaders/IbkrXmlLoader.cs:63-69 | when a correction searches, every earlier correction is already removed, so none can be chosen as an original |
| Reconcile.SkippingCorrectionsIsRedundant | loader.py:99 | passing over candidates that are corrections never changes what is removed |
| Reconcile.SameDecisionsSameRemoved | TaxAlpha/Infrastructure/Loaders/IbkrXmlLoader.cs:55-90 | two lists with the same correction and match decisions lose the same indices |
| Reconcile.KeptIndices | TaxAlpha/Infrastructure/Loaders/IbkrXmlLoader.cs:92 | the surviving indices are exactly those below the length that were not removed |
| Reconcile.CleanKeepsOrder | TaxAlpha/Infrastructure/Loaders/IbkrXmlLoader.cs:92 | the output is the input at the surviving indices in ascending order, and holds no correction |
| Reconcile.CleanLength | TaxAlpha/Infrastructure/Loaders/IbkrXmlLoader.cs:92 | the output is shorter by the number removed, at most twice the number of corrections |
| Cleaning.CsCleanCancellations | TaxAlpha/Infrastructure/Loaders/IbkrXmlLoader.cs:51-93 | the C# cleaner leaves no description with "[CANCEL]" and drops at most two transactions per correction |
| Cleaning.CsKeepsUncancelled | TaxAlpha/Infrastructure/Loaders/IbkrXmlLoader.cs:67-82 | a transaction that no later correction matches survives the C# cleaner |
| Cleaning.PyClean | loader.py:87-117 | the Python cleaner raises exactly when some transaction has no action, and otherwise cleans with the Python rules |
| Cleaning.PyCleanCancellations | loader.py:87-117 | the loops as written compute the Python cleaner |
| Cleaning.PyCleanKeepsOrder | loader.py:113 | the Python output is the input at the surviving indices in order, and holds no correction |
| Cleaning.PyGuardRedundant | loader.py:99 | the Python guard that skips corrections as candidates does not change the result |
| Cleaning.TwinsCleanAlike | loader.py:87-113 | on twin lists where no pair cancels to exactly 0.05, both cleaners remove the same indices |
| Cleaning.ToleranceDiverges | loader.py:36 | an original and correction cancelling to exactly 0.05 are both removed by Python, while C# keeps the original |
| PyModels.ActionOf | engine.py:33-42 | each action tag stands for exactly one C# action, and every other tag, or none, stands for Unknown |
| PyModels.ToCSharp | loader.py:16-29 | a Python transaction maps to the C# record with the same fields and the action its tag stands for |
| PyModels.IsCancellationOf | loader.py:31-38 | `is_cancellation_of` holds exactly for the same symbol, the negated quantity and amounts summing to within 0.05 inclusive |
| PyModels.DefaultInstrument | models.py:9-19 | an instrument built from symbol and ISIN has no name and the 0.30 quota |
| PyModels.CostPerShare | models.py:43-46 | cost per share is the C# unit cost, and 0 for a lot of zero original quantity |
| PyModels.CostPerShareFixed | models.py:43-46 | the cost per share never changes over a lot's life |
| PyModels.KindsDistinct | models.py:55 | the Python event tags tell the kinds apart, each maps to its own C# type, and none is INTEREST |
| PyModels.PyNewEvent | models.py:48-80 | an event built from its required fields has every amount at 0 and no acquisition date |
| PyModels.Project | models.py:48-80 | the projection keeps type, year, date and the three amounts the C# record shares |
| PyModels.DefaultsAgree | models.py:53-73 | a Python event with only its profits set projects onto the C# positional event with the same profits |
| PyProviders.PyGetInstrument | loader.py:310-327 | an unknown ISIN gets a default that is not stored; a known one is stored back, with "Unknown" replaced by the caller's symbol |
| PyProviders.PyGetInstrumentAgrees | loader.py:310-327 | the Python lookup reports the same quota, symbol and ISIN as C#'s, and keeps the provider's ISINs and quotas |
| PyProviders.SameQuotesSameQuota | loader.py:310-316 | lookups on providers with the same quotas report the same quota |
| PyProviders.FirstSymbolSticks | loader.py:314-315 | the first lookup of a configured ISIN fixes its symbol for every later lookup, where C# reports each call's symbol |
| PyProviders.UnconfiguredNames | loader.py:322-327 | for an unconfigured ISIN the twins differ only in the instrument's name |
| PyEngine.PyHandleBuy | engine.py:44-64 | the Python buy projects onto the C# buy and leaves the instrument provider |
| PyEngine.PySellEvent | engine.py:96-139 | the Python SELL event carries the report fields of lot and sale and projects onto the C# event |
| PyEngine.PySellEventsProject | engine.py:92-139 | the Python events of a sale project onto the C# ones, one for one |
| PyEngine.PyHandleSell | engine.py:67-150 | the Python sale, including the break on an exhausted queue, projects onto the C# sale |
| PyEngine.PyDividendEvent | engine.py:158-172 | the Python DIV event projects onto the C# dividend event |
| PyEngine.PyWithholdingEvent | engine.py:174-186 | the Python WHT event has raw and taxable profit 0 and the magnitude of the amount as foreign tax |
| PyEngine.PyHandleDividend | engine.py:152-205 | a Python dividend or withholding tax leaves the lots, ISINs and provider |
| PyEngine.PyProcess | engine.py:24-42 | Python processing keeps the provider's quotas and only grows the ledger; interest and unknown actions change nothing but the looked-up symbol |
| PyEngine.PyVapEvent | engine.py:285-294 | the Python VAP event projects onto the C# one |
| PyEngine.PyLotEvents | engine.py:237-294 | the events Python logs for a lot project onto C#'s |
| PyEngine.PyClosingEventsProject | engine.py:237-294 | the events Python logs for a queue project onto C#'s |
| PyEngine.PyCloseQueue | engine.py:221-294 | closing one ISIN keeps the provider's quotas |
| PyEngine.PyCloseQueueAgrees | engine.py:221-294 | closing one ISIN projects onto the C# closing of it |
| PyEngine.PyCloseQueues | engine.py:221-294 | the Python loop over ISINs keeps the provider's quotas |
| PyEngine.PyPerformYearEndClosing | engine.py:207-294 | a rate at or below 0 changes nothing, and closing keeps the provider's quotas |
| PyEngine.LookupAgrees | engine.py:30 | the lookup before dispatch reports C#'s quota and keeps the configuration |
| PyEngine.PyProcessUnfold | engine.py:33-42 | Python dispatches BUY, SELL, DIV and WHT to their handlers and ignores every other tag |
| PyEngine.DividendAgrees | engine.py:158-205 | a Python dividend projects onto the C# dividend |
| PyEngine.WithholdingAgrees | engine.py:174-186 | a Python withholding tax is the C# one with raw profit 0 |
| PyEngine.SellAgrees | engine.py:67-150 | a Python sale projects onto the C# sale |
| PyEngine.ProcessAgrees | engine.py:24-42 | Python processing equals C# for buys, sales, dividends and unknown actions, differs in raw profit for withholding tax, and ignores interest that C# logs |
| PyEngine.CloseQueuesAgree | engine.py:221-294 | the Python loop over ISINs projects onto the C# loop whatever symbols the lookups stored |
| PyEngine.ClosingAgrees | engine.py:207-294 | Python year-end closing projects onto C# year-end closing |
| IbkrRows.Coalesce | TaxAlpha/Infrastructure/Loaders/IbkrXmlLoader.cs:176 | `a ?? b` is the first present value, even when it is empty |
| IbkrRows.PyOr | loader.py:132 | `a or b` is the first present non-empty value |
| IbkrRows.TradeRejection | TaxAlpha/Infrastructure/Loaders/IbkrXmlLoader.cs:143-168 | a trade is rejected exactly when its class is CASH, its symbol looks like a currency pair by the loader's own length count, or its class is not STK or FUND; it is logged as FOREX_HEURISTIC exactly when its class is not CASH and the symbol looks like a pair or the class is itself named FOREX_HEURISTIC |
| IbkrRows.LogIgnored | TaxAlpha/Infrastructure/Loaders/IbkrXmlLoader.cs:231-236 | logging adds the symbol under its category and changes nothing else |
| IbkrRows.TradeDecision | TaxAlpha/Infrastructure/Loaders/IbkrXmlLoader.cs:119-168 | a trade without an id is dropped, a rejected one is logged under its category, and any other is kept |
| Text.Utf16Length | TaxAlpha/Infrastructure/Loaders/IbkrXmlLoader.cs:153 | `string.Length` counts at least one and at most two UTF-16 units per character |
| Text.Utf16LengthIsLength | TaxAlpha/Infrastructure/Loaders/IbkrXmlLoader.cs:153 | the UTF-16 length equals the number of characters exactly when every character lies inside the Basic Multilingual Plane |
| IbkrRows.ForexTestsAgree | loader.py:142-145 | the C# and Python currency-pair tests agree on symbols inside the Basic Multilingual Plane, and part exactly on a symbol with a dot, a known code and a character beyond it that is seven long by one count |
| IbkrRows.TradeDecisionsAgree | loader.py:127-151 | the twins decide a trade alike when its symbol lies inside the Basic Multilingual Plane, and otherwise part exactly when the row has an id, a class other than CASH and FOREX_HEURISTIC, and the currency-pair tests part |
| IbkrRows.PyKeptTradeByCs | loader.py:127-151 | a trade Python keeps, C# keeps exactly when its symbol is not a currency pair by the UTF-16 count; always when the symbol lies inside the Basic Multilingual Plane |
| IbkrRows.ParseDecimal | TaxAlpha/Infrastructure/Loaders/IbkrXmlLoader.cs:238-245 | a missing, empty or unreadable number reads as 0, and a readable one as its value |
| IbkrRows.TradeAction | TaxAlpha/Infrastructure/Loaders/IbkrXmlLoader.cs:204-207 | only exactly "BUY" and "SELL" map to Buy and Sell; anything else is Unknown |
| IbkrRows.CsCashDecision | TaxAlpha/Infrastructure/Loaders/IbkrXmlLoader.cs:119-142 | a cash row is kept exactly when it has an id and a wanted type, and is never logged |
| IbkrRows.CsFields | TaxAlpha/Infrastructure/Loaders/IbkrXmlLoader.cs:215-228 | a kept row carries its id, class, symbol, and its ISIN or "UNKNOWN" |
| IbkrRows.CsParseElement | TaxAlpha/Infrastructure/Loaders/IbkrXmlLoader.cs:117-229 | an element is dropped, logged or kept under exactly the filter conditions, the symbol measured in UTF-16 units, and a kept one carries its element's identity |
| IbkrRows.CsKept | TaxAlpha/Infrastructure/Loaders/IbkrXmlLoader.cs:171-228 | a kept row holds the values read from its element |
| IbkrRows.CsAmounts | TaxAlpha/Infrastructure/Loaders/IbkrXmlLoader.cs:175-189 | fees are the commission's magnitude times the rate; the amount is price times quantity times rate for trades and amount times rate for cash |
| IbkrRows.CsCashActions | TaxAlpha/Infrastructure/Loaders/IbkrXmlLoader.cs:197-202 | a kept cash row is Div for "Dividends", else Wht for "Withholding", else Int; a Div is always of a stock or fund |
| IbkrRows.CsTradeMarking | TaxAlpha/Infrastructure/Loaders/IbkrXmlLoader.cs:203-212 | a trade gets " [CANCEL]" appended exactly when its description has "(Ca.)" or its buySell has "Ca." |
| IbkrRows.CsCashNotMarked | TaxAlpha/Infrastructure/Loaders/IbkrXmlLoader.cs:195-202 | a cash row keeps its description unmarked |
| IbkrRows.KeptOfInOrder | TaxAlpha/Infrastructure/Loaders/IbkrXmlLoader.cs:101-112 | every kept row's transaction is in the result, and only those |
| IbkrRows.LogRowsContents | TaxAlpha/Infrastructure/Loaders/IbkrXmlLoader.cs:231-236 | after a run the log holds what it held before plus each ignored row's symbol under its category, and nothing else |
| IbkrRows.CollectRows | TaxAlpha/Infrastructure/Loaders/IbkrXmlLoader.cs:101-105 | the loop over rows keeps the kept transactions in order and logs the ignored ones |
| IbkrRows.CashRowsNotLogged | TaxAlpha/Infrastructure/Loaders/IbkrXmlLoader.cs:132-142 | cash rows never reach the log |
| IbkrRows.CsParseFile | TaxAlpha/Infrastructure/Loaders/IbkrXmlLoader.cs:95-115 | a file gives its kept trades, then its kept cash rows, and logs only trades |
| IbkrRows.PyDecimal | loader.py:164-168 | `Decimal(s)` returns exactly when the text is readable, with its value, and raises otherwise |
| IbkrRows.PyTrade | loader.py:173-186 | the Python trade record carries the values read and the quantized trade value |
| IbkrRows.PyTradeFields | loader.py:161-171 | a Python trade reads quantity, tradePrice and rate with the defaults "0", "0" and "1.0" |
| IbkrRows.PyTradeAmount | loader.py:171 | the Python trade amount is price times quantity rounded to four places, times the rate |
| IbkrRows.PyParseTrade | loader.py:127-187 | a Python trade is dropped, logged or kept under the same rules as C#'s, the symbol measured in code points |
| IbkrRows.PyKeptTrade | loader.py:127-187 | a kept Python trade has an id and is the record its fields give |
| IbkrRows.PyCashAction | loader.py:217-220 | a Python cash row is DIV, WHT or INT |
| IbkrRows.PyCashFields | loader.py:209-235 | a Python cash row has quantity 0, fees 0 and the action of its type; its symbol defaults to "CASH"; it reads amount and rate with the defaults "0" and "1.0", and its amount is the amount rounded to four places, times the rate; it is dated by dateTime or else reportDate |
| IbkrRows.PyKeptCash | loader.py:190-236 | a cash row Python keeps has a type the filter keeps and is the record its fields give |
| IbkrRows.PyParseCash | loader.py:190-236 | a cash row without a type raises, an unwanted one is dropped, and none is logged |
| IbkrRows.CashActionsAgree | loader.py:193-220 | the twins map a cash type to different actions exactly when it contains "Withholding" but not "Withholding Tax" and no "Dividends" |
| IbkrRows.CashDecisionsAgree | loader.py:190-207 | C# keeps a cash row exactly when it has an id and a wanted type; Python drops exactly the typed rows of an unwanted type, so it keeps a typed wanted row even without an id, and it raises on a row without a type |
| IbkrRows.DefaultRoundingWithinHalfUnit | loader.py:171 | the default quantize moves a value by at most half a unit of the fourth place |
| IbkrRows.TradeNumbersAgree | loader.py:164-166 | both loaders read the same quantity, price and rate, given a tradePrice or no amount |
| IbkrRows.TradePriceDiverges | TaxAlpha/Infrastructure/Loaders/IbkrXmlLoader.cs:175 | a trade row with an amount and no tradePrice is priced by the amount in C# and at 0 in Python, so the prices part whenever the amount is not 0 |
| IbkrRows.ParsedTradesAreTwins | loader.py:127-187 | a trade both loaders keep, with an exact trade value, gives twin records |
| IbkrRows.TradeAmountsClose | loader.py:171 | the amounts of a trade both loaders keep differ by at most half a unit of the fourth place times the rate |
| IbkrRows.SameAmount | loader.py:171 | with no rounding needed the two trade amounts are equal |
| IbkrRows.CloseAmount | loader.py:171 | a half-unit rounding moves the amount by at most half a unit times the rate |
| IbkrRows.TradeDatesAgree | loader.py:158-159 | the twins date a trade both keep alike when the date text Python reads has one of the two fixed shapes; any other shape, and an empty dateTime, C# reads as MinValue |
| IbkrRows.CashAmountsClose | loader.py:212-215 | for a cash row both keep, read alike, the rates agree; without a tradePrice the amounts read agree and the Python amount is the C# one up to half a unit of the fourth place times the rate; with one, C# takes the tradePrice as the amount |
| IbkrRows.CashSymbolsDiffer | loader.py:224 | a cash row without a symbol is "CASH" to Python and "UNKNOWN" to C#; with one, both carry it |
| IbkrRows.CashDatesCompare | loader.py:209-210 | the twins date a cash row alike on a non-empty dateTime of a fixed shape, and on a reportDate of a fixed shape when there is neither dateTime nor tradeDate; C# dates a row with tradeDate and no dateTime by the tradeDate, and an empty dateTime as MinValue |
| IbkrRows.CashMarkingDiffers | loader.py:91 | a kept cash row is a correction to Python's cleaner exactly when its description holds "(Ca.)", and to C#'s exactly when it holds "[CANCEL]" |
| Trading.Window | TaxAlpha/Core/Engine/TradingEngine.cs:25-26 | the window is the last 150 closes, ending with the last close |
| Trading.SignalOf | TaxAlpha/Core/Engine/TradingEngine.cs:23-28 | a symbol gets a signal exactly when it has 150 or more closes, and the signal carries the last close |
| Trading.Earlier | TaxAlpha/Core/Engine/TradingEngine.cs:25 | the 149 closes of the window before the last one |
| Trading.BuyIffAboveEarlierMean | TaxAlpha/Core/Engine/TradingEngine.cs:25-27 | a buy signal is exactly a last close above the mean of the 149 closes before it in the window |
| Trading.SignalAtExtremes | TaxAlpha/Core/Engine/TradingEngine.cs:25-27 | a last close above every earlier close of the window buys, and one at or below every one does not |
| Trading.AverageWithinWindow | TaxAlpha/Core/Engine/TradingEngine.cs:25 | the moving average lies between the window's bounds |
| Trading.Signals | TaxAlpha/Core/Engine/TradingEngine.cs:16-33 | there are at most as many signals as symbols |
| Trading.SignalsContents | TaxAlpha/Core/Engine/TradingEngine.cs:18-29 | the signals hold exactly the given symbols with enough history, each once, with the signal of its history |
| Trading.RaisesOnlyOnRepeats | TaxAlpha/Core/Engine/TradingEngine.cs:28 | the signals raise only for a repeated symbol with enough history |
| Trading.RepeatsRaise | TaxAlpha/Core/Engine/TradingEngine.cs:28 | a repeated symbol with enough history makes `Dictionary.Add` raise |
| Trading.SignalsRaiseOnRepeats | TaxAlpha/Core/Engine/TradingEngine.cs:28 | the signals raise exactly for a repeated symbol with enough history |
| Trading.Position | TaxAlpha/Core/Engine/TradingEngine.cs:46-48 | a zero close raises DivideByZeroException; otherwise the shares fit in an int and the value is shares times close |
| Trading.TruncatedMultiple | TaxAlpha/Core/Engine/TradingEngine.cs:47-48 | truncating a quotient and multiplying back lands on the zero side of the target, by less than one divisor |
| Trading.PositionNearTarget | TaxAlpha/Core/Engine/TradingEngine.cs:46-48 | for a positive close the position's value is on the zero side of the target by less than one share |
| Trading.Allocate | TaxAlpha/Core/Engine/TradingEngine.cs:35-54 | the allocation holds only symbols with an allocation entry |
| Trading.AllocatePositions | TaxAlpha/Core/Engine/TradingEngine.cs:42-50 | the allocation holds exactly the buy signals with an allocation entry, each at its computed position |
| Trading.EligiblePosition | TaxAlpha/Core/Engine/TradingEngine.cs:44-49 | each eligible buy signal gets its computed position |
| Trading.AllocationWithinTargets | TaxAlpha/Core/Engine/TradingEngine.cs:44-49 | for a non-negative target and a positive close, 0 ≤ value ≤ target and target − value < close |
| Driver.YearRun | TaxAlpha/Program.cs:78-82 | the inner loop stops at the first transaction not dated in the year, all before it being of the year |
| Driver.ProcessRange | TaxAlpha/Program.cs:78-82 | the inner loop processes consecutive indices in order |
| Driver.MinYear | TaxAlpha/Program.cs:70 | the first year is a transaction's year and no transaction is earlier |
| Driver.MaxYear | TaxAlpha/Program.cs:71 | the last year is a transaction's year and no transaction is later |
| Driver.CsSchedule | TaxAlpha/Program.cs:68-91 | without transactions the engine is never called |
| Driver.ProcessYear | TaxAlpha/Program.cs:78-82 | the inner loop as written processes the run of the year from the current index |
| Driver.TaxReportSchedule | TaxAlpha/Program.cs:68-91 | the loops as written make the calls of the schedule |
| Driver.PySchedule | main.py:139-150 | Python raises exactly when there are no transactions |
| Driver.ClosesEveryYear | TaxAlpha/Program.cs:75-85 | every year from the start through one past the last is closed, once each, in order |
| Driver.ProcessesPrefix | TaxAlpha/Program.cs:78-82 | transactions are processed in list order, each at most once, always a prefix |
| Driver.SortedProcessesAll | TaxAlpha/Program.cs:75-82 | on date-sorted input every transaction within the loop's years is processed |
| Driver.ScheduleOrdered | TaxAlpha/Program.cs:75-85 | calls come in year order, each transaction processed in its own year |
| Driver.ProcessedBeforeItsClosing | TaxAlpha/Program.cs:75-85 | a transaction is processed after the closing of every earlier year and before the closing of its own |
| Driver.SortedProcessedOnce | TaxAlpha/Program.cs:70-82 | on date-sorted input every transaction is processed exactly once, in list order |
| Driver.CsClosesEveryYear | TaxAlpha/Program.cs:70-85 | C# closes every year from the earliest through one past the latest, once each, in any input order |
| Driver.DriversAgreeWhenSorted | main.py:139-150 | on date-sorted input the drivers make the same calls; without transactions C# makes none and Python raises IndexError |
| Driver.YearsOf | TaxAlpha/Program.cs:78 | the year each transaction is dated in |
| Driver.CsApply | TaxAlpha/Program.cs:80-85 | one call keeps the invariant and only grows the ledger |
| Driver.Run | TaxAlpha/Program.cs:75-90 | a run of calls keeps the invariant and only grows the ledger |
| Driver.RunAppend | TaxAlpha/Program.cs:75-90 | running two schedules in turn is running their concatenation |
| Driver.RunTaxReport | TaxAlpha/Program.cs:65-91 | the report run ends with a valid engine, and without transactions a fresh one |
| Driver.PyProcessKeepsValid | engine.py:24-42 | Python processing keeps the invariant of the C# engine |
| Driver.PyClosingKeepsValid | engine.py:207-294 | Python closing keeps the invariant of the C# engine |
| Driver.PyApply | main.py:146-150 | one Python call keeps the invariant |
| Driver.PyRun | main.py:145-150 | a run of Python calls keeps the invariant |
| Driver.PyEmpty | engine.py:10-19 | a new Python engine projects onto a new C# engine |
| Driver.PyMain | main.py:135-150 | `main` raises exactly on an empty list and otherwise ends with a valid engine |
| Driver.RunsAgree | main.py:145-150 | on transactions both engines handle alike, the Python run projects onto the C# run of their conversions |
| Driver.MainsAgree | main.py:135-150 | on date-sorted transactions handled alike, `main` ends where RunTaxReport does; on none, Python raises and C# stays empty |
| Results.Success | TaxAlpha/Core/Types/Result.cs:37-40 | a success holds its value and no error |
| Results.Failure | TaxAlpha/Core/Types/Result.cs:46-49 | a failure holds its error and no value |
| Results.FailureMessage | TaxAlpha/Core/Types/Result.cs:41-44 | a message failure holds a RuntimeError with that message |
| Results.AsOutcome | TaxAlpha/Core/Types/Result.cs:17-22 | a result is Ok exactly when it is not an error |
| Results.FromOutcome | TaxAlpha/Core/Types/Result.cs:17-49 | an outcome becomes a well-formed result that is an error exactly for Err |
| Results.OutcomeRoundTrip | TaxAlpha/Core/Types/Result.cs:17-49 | well-formed results and outcomes convert into each other and back unchanged |
| Results.FactoriesDistinct | TaxAlpha/Core/Types/Result.cs:37-49 | the message overload is the RuntimeError failure, and no failure is a success |
| Estimate.EstimatedTax | TaxAlpha/Reporting/ConsoleReporting.cs:110-112 | the estimate plus the withholding tax is 26.375 % of the income |
| Estimate.EstimateMonotone | TaxAlpha/Reporting/ConsoleReporting.cs:110-112 | more income never lowers the estimate, and each euro withheld lowers it by one euro |

## Left out

- Reading files is not modelled: XML documents, JSON documents, CSV files
  and directory globbing. The loaders take an element's attributes, the
  providers take the document's entries or the file's lines, and a file's
  existence is a parameter.
- The digit-level rules of `int.TryParse`, `decimal.TryParse` and Python's
  `Decimal(str)` are not modelled. They are function parameters. The two
  timestamp formats are modelled in full on both sides: C#'s exact formats,
  and the regular expressions Python's `strptime` builds for them, with
  their backtracking.
- The Python price and rate loaders (`_load` of PriceProvider and
  BaseInterestProvider) are not modelled, because they go through
  `csv.DictReader`. Their lookups are the C# GetPrice and GetRate.
- The Python instrument `_load` is not modelled, because it reads a file:
  it reads the JSON document with `json.load`, returns with an empty store
  when the file is missing, and prints and swallows any exception while
  reading. The model takes the loaded store as given. Each of its entries
  has the symbol "Unknown", the name from `name` or "", and the quota from
  `tfs_quote` or "0.30". Only the lookup `get_instrument` is modelled
  (`PyProviders.PyGetInstrument`).
- Sorting by timestamp in LoadAll and `load_all` is not modelled. The
  cleaner and the driver take the sorted list. The driver lemmas state
  sortedness as a hypothesis where they need it.
- Per-file exception handling and `sys.exit` in the loaders are not modelled.
- Console output and the annual report rendering are not modelled. Of the
  report, only the final estimate is kept (Estimate).
- The report filter `year >= 2021` in main.py is not modelled, since it only
  decides what is printed.
- `Sigmatic/Program.cs`, the interactive menu and RunTradingEngine are not
  modelled.
- `YahooHistoricalPriceProvider.cs` is not modelled, because it is a network
  client. The trading rule takes each symbol's closes as a parameter.
- Decimal precision is not modelled: 28-digit division rounding in C# and
  Python's context precision. Amounts are exact reals. Python's `quantize`
  is a parameter. `Decimals.Quantize4` is its default-context instance.
- Buys of zero or negative quantity are excluded from the engine invariant
  and from the driver lemmas (`PositiveBuys`). Such a lot breaks the lot
  invariant the lemmas rely on. A zero-quantity lot makes a later sale that
  reaches it throw DivideByZeroException at
  TaxAlpha/Core/Engine/PortfolioEngine.cs:86, which divides the cost by the
  original quantity. Closing passes over such a lot, because the filter
  `RemainingQuantity > 0` at line 160 skips it. A lot of negative quantity
  never divides by zero; it only breaks the invariant.
- Strptime.ParseCleanDate: the model's digits are ASCII '0' to '9'. Python's
  `\d` also matches other Unicode decimal digits, which `int` reads, so a
  date written in such digits is read by Python and not by the model.
- The order in which a dictionary enumerates its entries is modelled as an
  explicit sequence of ISINs in insertion order. .NET's Dictionary behaves
  this way when nothing is removed, and so does Python's dict.
- A Python lot stores its transaction's id, or "" when the row had none
  (`transId.GetOr("")`). No property depends on lot ids.
- A dividend's per-unit distribution is the dividend divided by the units
  held on the dividend's date (TaxAlpha/Core/Engine/PortfolioEngine.cs:123-129,
  engine.py:188-205). The distributions of a year are summed per ISIN, and
  the year-end closing subtracts the sum from every lot of the ISIN,
  including lots bought after the dividend. The model does the same.
- Driver.PyRun, Driver.PyApply: they do not state that the Python ledger
  only grows. The Python closing's ledger growth is not carried through the
  projection. `Driver.RunsAgree` relates the Python run to the C# run, and
  the C# run does state it.
- Engine.HandleSell, Engine.PerformYearEndClosing: they state what stays
  unchanged and that the ledger grows. The per-event and per-lot content is
  in the lemmas that follow them (HandleSellUnits, ClosingKeepsHoldings and
  the others).
- Driver.CsSchedule: its own contract only states the empty case. The
  schedule's content is in ClosesEveryYear, SortedProcessedOnce,
  ProcessedBeforeItsClosing and CsClosesEveryYear.
- Trading.Signals, Trading.Allocate: their own contracts are bounds. Their
  contents are in SignalsContents, SignalsRaiseOnRepeats and
  AllocatePositions.
- Reconcile.Removed: its own contract is a bound. What it removes is in the
  reconcile lemmas.
- The symbol the Python engine stores through its lookups is not projected
  onto C#, which has no such state. Only the quotas, which the engines use,
  are compared.
