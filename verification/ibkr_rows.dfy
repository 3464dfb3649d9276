/** The row decisions of the two IBKR Flex-report loaders: which Trade and
    CashTransaction elements become transactions, which are logged as
    ignored assets, which action they carry, how amounts and fees are
    computed, and how a trade correction is marked for the cleaner. Reading
    the XML is outside the model: an element is given as its attributes,
    and numbers are read by the parsers the loaders use. */
module IbkrRows {
  import opened Wrappers
  import opened Text
  import opened Dates
  import opened Strptime
  import opened Decimals
  import opened Models
  import opened Providers
  import opened PyModels
  import opened Cleaning

  /** An XML element, as the attributes it carries. */
  datatype Element = Element(attrs: map<string, string>) {
    function Get(name: string): (v: Option<string>)
      ensures v.Some? <==> name in attrs
    {
      if name in attrs then Some(attrs[name]) else None
    }
  }

  /** C# `a ?? b`: the first value that is present, even if empty. */
  function Coalesce(a: Option<string>, b: Option<string>): (r: Option<string>)
    ensures a.Some? ==> r == a
    ensures a.None? ==> r == b
  {
    if a.Some? then a else b
  }

  /** Python `a or b` on strings: the first value that is present and not
      empty. */
  function PyOr(a: Option<string>, b: Option<string>): (r: Option<string>)
    ensures a.Some? && a.value != "" ==> r == a
    ensures a.None? || a.value == "" ==> r == b
  {
    if a.Some? && a.value != "" then a else b
  }

  /** The asset class of a row: a non-empty assetCategory, else assetClass,
      else "UNKNOWN". Both loaders compute it the same way. */
  function AssetClassOf(el: Element): string {
    match PyOr(el.Get("assetCategory"), el.Get("assetClass"))
    case Some(c) => c
    case None => "UNKNOWN"
  }

  predicate IsStockOrFund(assetClass: string) {
    assetClass == "STK" || assetClass == "FUND"
  }

  /** How a loader measures a symbol: C#'s `Length` counts UTF-16 code
      units, Python's `len` counts code points. */
  datatype Counting = Utf16Units | CodePoints

  function SymbolLength(symbol: string, counting: Counting): nat {
    match counting
    case Utf16Units => Utf16Length(symbol)
    case CodePoints => |symbol|
  }

  /** A symbol that looks like a currency pair such as "EUR.USD": a dot,
      seven in length as the loader counts, and a known currency code. */
  predicate ForexLike(symbol: string, counting: Counting) {
    Contains(symbol, ".") && SymbolLength(symbol, counting) == 7 && NamesCurrency(symbol)
  }

  /** The symbol contains one of the currency codes the heuristic knows. */
  predicate NamesCurrency(symbol: string) {
    || Contains(symbol, "EUR") || Contains(symbol, "USD") || Contains(symbol, "GBP")
    || Contains(symbol, "CHF") || Contains(symbol, "JPY")
  }

  /** The category under which a trade row is rejected, if it is: explicit
      cash first, then the currency-pair heuristic, then anything that is
      neither a stock nor a fund. */
  function TradeRejection(assetClass: string, symbol: string, counting: Counting): (category: Option<string>)
    ensures category.None? <==> assetClass != "CASH" && !ForexLike(symbol, counting) && IsStockOrFund(assetClass)
    ensures category == Some("FOREX_HEURISTIC")
        <==> assetClass != "CASH" && (ForexLike(symbol, counting) || assetClass == "FOREX_HEURISTIC")
  {
    if assetClass == "CASH" then Some("CASH")
    else if ForexLike(symbol, counting) then Some("FOREX_HEURISTIC")
    else if !IsStockOrFund(assetClass) then Some(assetClass)
    else None
  }

  /** The kinds of cash row both loaders keep. */
  predicate IsInterest(kind: string) { Contains(kind, "Interest") }
  predicate IsDividend(kind: string) { Contains(kind, "Dividends") }
  predicate IsWithholdingTax(kind: string) { Contains(kind, "Withholding Tax") }

  /** A cash row is kept when it is interest, a dividend or withholding tax,
      and a dividend only when it comes from a stock or a fund. */
  predicate CashRowKept(kind: string, assetClass: string) {
    && (IsInterest(kind) || IsDividend(kind) || IsWithholdingTax(kind))
    && (IsDividend(kind) ==> IsStockOrFund(assetClass))
  }

  /** Ignored assets, by category, as both loaders report them. */
  type IgnoredLog = map<string, set<string>>

  /** `LogIgnored` / the `ignored_assets` update. */
  function LogIgnored(log: IgnoredLog, category: string, symbol: string): (r: IgnoredLog)
    ensures r.Keys == log.Keys + {category}
    ensures symbol in r[category]
    ensures forall c <- r :: r[c] == (if c in log then log[c] else {}) + (if c == category then {symbol} else {})
  {
    log[category := (if category in log then log[category] else {}) + {symbol}]
  }

  /** What a loader decides about a row before reading its values. */
  datatype Decision = Drop | Ignore(category: string, symbol: string) | Keep

  predicate IdMissing(el: Element) {
    el.Get("transactionID").None? || el.Get("transactionID").value == ""
  }

  function SymbolOf(el: Element): string {
    el.Get("symbol").GetOr("UNKNOWN")
  }

  /** The decision on a Trade element, the same in both loaders but for
      how the symbol is measured: no id, drop; a rejected asset, log it;
      otherwise keep. */
  function TradeDecision(el: Element, counting: Counting): (d: Decision)
    ensures d == Drop <==> IdMissing(el)
    ensures d.Ignore? ==> d.symbol == SymbolOf(el) && Some(d.category) == TradeRejection(AssetClassOf(el), SymbolOf(el), counting)
    ensures d == Keep <==> !IdMissing(el) && TradeRejection(AssetClassOf(el), SymbolOf(el), counting).None?
  {
    if IdMissing(el) then Drop
    else match TradeRejection(AssetClassOf(el), SymbolOf(el), counting)
      case Some(category) => Ignore(category, SymbolOf(el))
      case None => Keep
  }

  // C#

  /** What ParseElement makes of one element. */
  datatype Row = Kept(tx: RawTransaction) | Dropped | Ignored(category: string, symbol: string)

  /** IbkrXmlLoader.ParseDecimal: a missing, empty or unreadable value reads
      as 0. */
  function ParseDecimal(s: Option<string>, parsers: Parsers): (v: real)
    ensures s.None? || s.value == "" ==> v == 0.0
    ensures s.Some? && s.value != "" && parsers.decimal(s.value).Some? ==> v == parsers.decimal(s.value).value
    ensures s.Some? && parsers.decimal(s.value).None? ==> v == 0.0
  {
    if s.None? || s.value == "" then 0.0
    else match parsers.decimal(s.value)
      case Some(v) => v
      case None => 0.0
  }

  /** The C# action of a cash row: Div before Wht before Int. The Wht test
      looks for "Withholding", while the row filter looks for
      "Withholding Tax". */
  function CashAction(kind: string): TransactionAction {
    if IsDividend(kind) then Div
    else if Contains(kind, "Withholding") then Wht
    else Int
  }

  /** The C# action of a trade row: only exact "BUY" and "SELL" map. */
  function TradeAction(buySell: Option<string>): (a: TransactionAction)
    ensures a == Buy <==> buySell == Some("BUY")
    ensures a == Sell <==> buySell == Some("SELL")
    ensures a in {Buy, Sell, Unknown}
  {
    if buySell == Some("BUY") then Buy
    else if buySell == Some("SELL") then Sell
    else Unknown
  }

  /** A trade the broker reports as a correction: "(Ca.)" in the
      description or "Ca." in buySell. */
  predicate MarksCancel(description: string, buySell: Option<string>) {
    Contains(description, "(Ca.)") || (buySell.Some? && Contains(buySell.value, "Ca."))
  }

  /** What the C# parser appends to a correction's description. */
  const CancelSuffix := " " + CancelMarker

  /** The C# decision on a CashTransaction element: no id or an unwanted
      type, drop; never logged. A missing type reads as empty. */
  function CsCashDecision(el: Element): (d: Decision)
    ensures !d.Ignore?
    ensures d == Keep <==> !IdMissing(el) && CashRowKept(el.Get("type").GetOr(""), AssetClassOf(el))
  {
    if IdMissing(el) || !CashRowKept(el.Get("type").GetOr(""), AssetClassOf(el)) then Drop else Keep
  }

  /** The values ParseElement reads from a kept element. */
  function CsFields(el: Element, isCash: bool, parsers: Parsers): (tx: RawTransaction)
    requires !IdMissing(el)
    ensures tx.transId == el.Get("transactionID").value && tx.assetClass == AssetClassOf(el)
    ensures tx.symbol == SymbolOf(el) && tx.isin == el.Get("isin").GetOr("UNKNOWN")
  {
    var dt := ParseDate(Coalesce(Coalesce(el.Get("dateTime"), el.Get("tradeDate")), el.Get("reportDate")));
    var qty := ParseDecimal(el.Get("quantity"), parsers);
    var price := ParseDecimal(Coalesce(el.Get("tradePrice"), el.Get("amount")), parsers);
    var fx := ParseDecimal(Some(el.Get("fxRateToBase").GetOr("1.0")), parsers);
    var comm := ParseDecimal(el.Get("ibCommission"), parsers);
    var amount := if isCash then price * fx else CsTradeAmount(price, qty, fx);
    var buySell := el.Get("buySell");
    var kind := el.Get("type").GetOr("");
    var description := el.Get("description").GetOr("");
    var action := if isCash then CashAction(kind) else TradeAction(buySell);
    var description := if !isCash && MarksCancel(description, buySell) then description + CancelSuffix else description;
    RawTransaction(el.Get("transactionID").value, SymbolOf(el), el.Get("isin").GetOr("UNKNOWN"), AssetClassOf(el), dt,
                   action, description, qty, amount, Abs(comm) * fx, fx, price)
  }

  /** The C# amount of a trade: price times quantity at the rate, with no
      rounding. */
  function CsTradeAmount(price: real, qty: real, fx: real): real {
    (price * qty) * fx
  }

  /** IbkrXmlLoader.ParseElement. */
  function CsParseElement(el: Element, isCash: bool, parsers: Parsers): (r: Row)
    ensures r.Dropped? <==> IdMissing(el) || (isCash && !CashRowKept(el.Get("type").GetOr(""), AssetClassOf(el)))
    ensures r.Ignored? <==> (!IdMissing(el) && !isCash && TradeRejection(AssetClassOf(el), SymbolOf(el), Utf16Units).Some?)
    ensures r.Ignored? ==> (r.symbol == SymbolOf(el) && Some(r.category) == TradeRejection(AssetClassOf(el), r.symbol, Utf16Units))
    ensures r.Kept? ==> (r.tx.transId == el.Get("transactionID").value && r.tx.assetClass == AssetClassOf(el)
                         && r.tx.symbol == SymbolOf(el) && r.tx.isin == el.Get("isin").GetOr("UNKNOWN"))
  {
    match if isCash then CsCashDecision(el) else TradeDecision(el, Utf16Units)
    case Drop => Dropped
    case Ignore(category, symbol) => Ignored(category, symbol)
    case Keep => Kept(CsFields(el, isCash, parsers))
  }

  /** A kept row holds the values read from its element. */
  lemma CsKept(el: Element, isCash: bool, parsers: Parsers)
    requires CsParseElement(el, isCash, parsers).Kept?
    ensures !IdMissing(el) && CsParseElement(el, isCash, parsers).tx == CsFields(el, isCash, parsers)
  {
  }

  /** The values ParseElement reads from an element it keeps: fees are the
      absolute commission at the exchange rate, the amount is price times
      quantity at the rate for a trade and the cash amount at the rate for a
      cash row, a missing exchange rate reads as "1.0", and a cash row's
      price is its amount. */
  lemma CsAmounts(el: Element, isCash: bool, parsers: Parsers)
    requires !IdMissing(el)
    ensures var tx := CsFields(el, isCash, parsers);
      && tx.fxRateToBase == ParseDecimal(Some(el.Get("fxRateToBase").GetOr("1.0")), parsers)
      && tx.feesEur == Abs(ParseDecimal(el.Get("ibCommission"), parsers)) * tx.fxRateToBase
      && tx.priceOrigin == ParseDecimal(Coalesce(el.Get("tradePrice"), el.Get("amount")), parsers)
      && tx.quantity == ParseDecimal(el.Get("quantity"), parsers)
      && (isCash ==> tx.amountEur == tx.priceOrigin * tx.fxRateToBase)
      && (!isCash ==> tx.amountEur == CsTradeAmount(tx.priceOrigin, tx.quantity, tx.fxRateToBase))
  {
  }

  /** The action of a kept C# cash row: Div when the type names dividends,
      else Wht when it names withholding, else Int; a Div row comes from a
      stock or a fund. */
  lemma CsCashActions(el: Element, parsers: Parsers)
    requires CsParseElement(el, true, parsers).Kept?
    ensures var kind := el.Get("type").GetOr("");
      var a := CsParseElement(el, true, parsers).tx.action;
      && (a == Div <==> IsDividend(kind))
      && (a == Wht <==> !IsDividend(kind) && Contains(kind, "Withholding"))
      && (a == Int <==> !IsDividend(kind) && !Contains(kind, "Withholding"))
      && (a == Div ==> IsStockOrFund(AssetClassOf(el)))
  {
  }

  /** A kept C# trade is a correction for the cleaner exactly when the
      broker marked it, or its description already held the marker; only
      the marker is ever added to the description. */
  lemma CsTradeMarking(el: Element, parsers: Parsers)
    requires CsParseElement(el, false, parsers).Kept?
    ensures var description := el.Get("description").GetOr("");
      var tx := CsParseElement(el, false, parsers).tx;
      && tx.action == TradeAction(el.Get("buySell"))
      && tx.description == (if MarksCancel(description, el.Get("buySell")) then description + CancelSuffix else description)
      && (CsIsCorrection(tx) <==> MarksCancel(description, el.Get("buySell")) || Contains(description, CancelMarker))
  {
    CsKept(el, false, parsers);
    CsFieldsMarking(el, parsers);
  }

  lemma CsFieldsMarking(el: Element, parsers: Parsers)
    requires !IdMissing(el)
    ensures var description := el.Get("description").GetOr("");
      var tx := CsFields(el, false, parsers);
      && tx.action == TradeAction(el.Get("buySell"))
      && tx.description == (if MarksCancel(description, el.Get("buySell")) then description + CancelSuffix else description)
      && (CsIsCorrection(tx) <==> MarksCancel(description, el.Get("buySell")) || Contains(description, CancelMarker))
  {
    var description := el.Get("description").GetOr("");
    var tx := CsFields(el, false, parsers);
    assert tx.description == (if MarksCancel(description, el.Get("buySell")) then description + CancelSuffix else description);
    if MarksCancel(description, el.Get("buySell")) {
      ContainsInSuffix(description + " ", CancelMarker, CancelMarker);
      assert (description + " ") + CancelMarker == description + CancelSuffix;
    }
  }

  /** Cash rows are never marked: their description is the element's. */
  lemma CsCashNotMarked(el: Element, parsers: Parsers)
    requires CsParseElement(el, true, parsers).Kept?
    ensures CsParseElement(el, true, parsers).tx.description == el.Get("description").GetOr("")
  {
  }

  // The C# file: trades first, then cash rows

  /** The rows of a sequence of elements of one kind. */
  function CsRows(els: seq<Element>, isCash: bool, parsers: Parsers): (rows: seq<Row>)
    ensures |rows| == |els|
  {
    seq(|els|, k requires 0 <= k < |els| => CsParseElement(els[k], isCash, parsers))
  }

  function KeptOf(rows: seq<Row>): (txs: seq<RawTransaction>)
    ensures |txs| <= |rows|
    decreases |rows|
  {
    if rows == [] then []
    else (if rows[0].Kept? then [rows[0].tx] else []) + KeptOf(rows[1..])
  }

  function LogRows(log: IgnoredLog, rows: seq<Row>): IgnoredLog
    decreases |rows|
  {
    if rows == [] then log
    else LogRows(if rows[0].Ignored? then LogIgnored(log, rows[0].category, rows[0].symbol) else log, rows[1..])
  }

  lemma {:induction false} KeptOfAppend(a: seq<Row>, b: seq<Row>)
    ensures KeptOf(a + b) == KeptOf(a) + KeptOf(b)
    decreases |a|
  {
    if a != [] {
      assert (a + b)[0] == a[0] && (a + b)[1..] == a[1..] + b;
      KeptOfAppend(a[1..], b);
    } else {
      assert a + b == b;
    }
  }

  lemma {:induction false} LogRowsAppend(log: IgnoredLog, a: seq<Row>, b: seq<Row>)
    ensures LogRows(log, a + b) == LogRows(LogRows(log, a), b)
    decreases |a|
  {
    if a != [] {
      assert (a + b)[0] == a[0] && (a + b)[1..] == a[1..] + b;
      LogRowsAppend(if a[0].Ignored? then LogIgnored(log, a[0].category, a[0].symbol) else log, a[1..], b);
    } else {
      assert a + b == b;
    }
  }

  /** Every kept transaction comes from a kept row, in row order. */
  lemma {:induction false} KeptOfInOrder(rows: seq<Row>)
    ensures forall k | 0 <= k < |rows| && rows[k].Kept? :: rows[k].tx in KeptOf(rows)
    ensures forall t | 0 <= t < |KeptOf(rows)| :: Kept(KeptOf(rows)[t]) in rows
    decreases |rows|
  {
    if rows != [] {
      KeptOfInOrder(rows[1..]);
      assert forall k | 1 <= k < |rows| :: rows[k] == rows[1..][k - 1];
    }
  }

  /** The log after a run holds what it held before plus the symbol of
      every ignored row under its category, and nothing else. */
  lemma {:induction false} LogRowsContents(log: IgnoredLog, rows: seq<Row>, category: string, symbol: string)
    ensures var r := LogRows(log, rows);
      (category in r && symbol in r[category])
      <==> (category in log && symbol in log[category]) || Ignored(category, symbol) in rows
    decreases |rows|
  {
    if rows != [] {
      var log' := if rows[0].Ignored? then LogIgnored(log, rows[0].category, rows[0].symbol) else log;
      LogRowsContents(log', rows[1..], category, symbol);
      assert rows == [rows[0]] + rows[1..];
    }
  }

  /** The loop of ParseFile over the rows of one kind: keep the kept rows'
      transactions in order, log the ignored ones. */
  method CollectRows(rows: seq<Row>, log: IgnoredLog) returns (txs: seq<RawTransaction>, log': IgnoredLog)
    ensures txs == KeptOf(rows) && log' == LogRows(log, rows)
  {
    txs, log' := [], log;
    for k := 0 to |rows|
      invariant txs == KeptOf(rows[..k]) && log' == LogRows(log, rows[..k])
    {
      KeptOfAppend(rows[..k], [rows[k]]);
      LogRowsAppend(log, rows[..k], [rows[k]]);
      assert rows[..k + 1] == rows[..k] + [rows[k]];
      match rows[k]
      case Kept(tx) => txs := txs + [tx];
      case Ignored(category, symbol) => log' := LogIgnored(log', category, symbol);
      case Dropped =>
    }
    assert rows[..|rows|] == rows;
  }

  /** Cash rows never reach the log. */
  lemma {:induction false} CashRowsNotLogged(cash: seq<Element>, parsers: Parsers, log: IgnoredLog)
    ensures LogRows(log, CsRows(cash, true, parsers)) == log
    decreases |cash|
  {
    if cash != [] {
      CashRowsNotLogged(cash[1..], parsers, log);
      assert CsRows(cash, true, parsers)[1..] == CsRows(cash[1..], true, parsers);
    }
  }

  /** IbkrXmlLoader.ParseFile after the document is read: the kept Trade
      elements, then the kept CashTransaction elements; only trades are
      logged. */
  method CsParseFile(trades: seq<Element>, cash: seq<Element>, parsers: Parsers, log: IgnoredLog)
    returns (txs: seq<RawTransaction>, log': IgnoredLog)
    ensures txs == KeptOf(CsRows(trades, false, parsers)) + KeptOf(CsRows(cash, true, parsers))
    ensures log' == LogRows(log, CsRows(trades, false, parsers))
  {
    var tradeTxs, cashTxs;
    tradeTxs, log' := CollectRows(CsRows(trades, false, parsers), log);
    cashTxs, log' := CollectRows(CsRows(cash, true, parsers), log');
    CashRowsNotLogged(cash, parsers, LogRows(log, CsRows(trades, false, parsers)));
    txs := tradeTxs + cashTxs;
  }

  // Python

  /** What `_parse_trade_tag` and `_parse_cash_tag` make of one element. */
  datatype PyRow = PyKept(tx: PyRawTransaction) | PyDropped | PyIgnored(category: string, symbol: string)

  /** Python's decimal arithmetic as the loader uses it: the `Decimal`
      constructor on a string, and `quantize(Decimal("0.0001"))` under the
      context in force (Decimals.Quantize4 for the default context). */
  datatype PyDecimals = PyDecimals(read: string -> Option<real>, quantize: real -> real)

  /** `Decimal(s)`: a string the constructor cannot read raises. */
  function PyDecimal(s: string, py: PyDecimals): (r: Attempt<real>)
    ensures r.Returned? <==> py.read(s).Some?
    ensures r.Returned? ==> r.value == py.read(s).value
  {
    match py.read(s)
    case Some(v) => Returned(v)
    case None => Raised(InvalidOperation("[<class 'decimal.ConversionSyntax'>]"))
  }

  /** The Python amount of a trade: price times quantity rounded to four
      places, then at the rate. */
  function PyTradeValue(py: PyDecimals, price: real, qty: real, fx: real): real {
    py.quantize(price * qty) * fx
  }

  /** The transaction `_parse_trade_tag` builds from the values it read. */
  function PyTrade(el: Element, dt: DateTime, qty: real, price: real, fx: real, comm: real, py: PyDecimals): (tx: PyRawTransaction)
    ensures tx.quantity == qty && tx.priceOrigin == price && tx.fxRateToBase == fx
    ensures tx.amountEur == PyTradeValue(py, price, qty, fx)
    ensures tx.action == el.Get("buySell") && tx.description == el.Get("description").GetOr("")
    ensures tx.symbol == SymbolOf(el) && tx.transId == el.Get("transactionID")
  {
    PyRawTransaction(el.Get("transactionID"), SymbolOf(el), el.Get("isin").GetOr("UNKNOWN"), AssetClassOf(el),
                     dt, el.Get("buySell"), el.Get("description").GetOr(""), qty,
                     PyTradeValue(py, price, qty, fx), Abs(comm) * fx, fx, price)
  }

  /** The values `_parse_trade_tag` reads: a date that must be readable,
      numbers that must be readable (absent ones read as "0" and the rate as
      "1.0"), and the trade value rounded to four places before the rate is
      applied. */
  function PyTradeFields(el: Element, py: PyDecimals): (r: Attempt<PyRawTransaction>)
    requires !IdMissing(el)
    ensures r.Returned? ==> r.value.action == el.Get("buySell") && r.value.description == el.Get("description").GetOr("")
    ensures r.Returned? ==> r.value.symbol == SymbolOf(el) && r.value.transId == el.Get("transactionID")
    ensures r.Returned? ==> && Some(r.value.quantity) == py.read(el.Get("quantity").GetOr("0"))
                            && Some(r.value.priceOrigin) == py.read(el.Get("tradePrice").GetOr("0"))
                            && Some(r.value.fxRateToBase) == py.read(el.Get("fxRateToBase").GetOr("1.0"))
  {
    var dt :- ParseCleanDate(PyOr(el.Get("dateTime"), el.Get("tradeDate")));
    var qty :- PyDecimal(el.Get("quantity").GetOr("0"), py);
    var price :- PyDecimal(el.Get("tradePrice").GetOr("0"), py);
    var fx :- PyDecimal(el.Get("fxRateToBase").GetOr("1.0"), py);
    var comm :- PyDecimal(el.Get("ibCommission").GetOr("0"), py);
    Returned(PyTrade(el, dt, qty, price, fx, comm, py))
  }

  /** The Python trade value: price times quantity, rounded to four
      places, at the exchange rate. */
  lemma PyTradeAmount(el: Element, py: PyDecimals)
    requires !IdMissing(el) && PyTradeFields(el, py).Returned?
    ensures var p := PyTradeFields(el, py).value;
      p.amountEur == PyTradeValue(py, p.priceOrigin, p.quantity, p.fxRateToBase)
  {
    var dt := ParseCleanDate(PyOr(el.Get("dateTime"), el.Get("tradeDate"))).value;
    var qty := py.read(el.Get("quantity").GetOr("0")).value;
    var price := py.read(el.Get("tradePrice").GetOr("0")).value;
    var fx := py.read(el.Get("fxRateToBase").GetOr("1.0")).value;
    var comm := py.read(el.Get("ibCommission").GetOr("0")).value;
    assert PyTradeFields(el, py).value == PyTrade(el, dt, qty, price, fx, comm, py);
  }

  /** `_parse_trade_tag`. */
  function PyParseTrade(el: Element, py: PyDecimals): (r: Attempt<PyRow>)
    ensures TradeDecision(el, CodePoints) == Drop ==> r == Returned(PyDropped)
    ensures var d := TradeDecision(el, CodePoints); d.Ignore? ==> r == Returned(PyIgnored(d.category, d.symbol))
    ensures TradeDecision(el, CodePoints) == Keep ==> r.Raised? || r.value.PyKept?
  {
    match TradeDecision(el, CodePoints)
    case Drop => Returned(PyDropped)
    case Ignore(category, symbol) => Returned(PyIgnored(category, symbol))
    case Keep =>
      var tx :- PyTradeFields(el, py);
      Returned(PyKept(tx))
  }

  /** A trade row the Python loader keeps has an id and is the record its
      fields give. */
  lemma PyKeptTrade(el: Element, py: PyDecimals)
    requires PyParseTrade(el, py).Returned? && PyParseTrade(el, py).value.PyKept?
    ensures TradeDecision(el, CodePoints) == Keep && !IdMissing(el)
    ensures PyTradeFields(el, py).Returned? && PyParseTrade(el, py).value.tx == PyTradeFields(el, py).value
  {
  }

  /** The error of `'Interest' in None`. */
  const MissingTypeError := TypeError("argument of type 'NoneType' is not iterable")

  /** The Python action tag of a cash row: DIV before WHT before INT, with
      WHT decided by "Withholding Tax" like the filter. */
  function PyCashAction(kind: string): (tag: string)
    ensures tag in {DivTag, WhtTag, IntTag}
  {
    if IsDividend(kind) then DivTag
    else if IsWithholdingTax(kind) then WhtTag
    else IntTag
  }

  /** The values `_parse_cash_tag` reads: quantity and fees 0, an id that
      may be missing, the amount rounded to four places before the rate is
      applied. */
  function PyCashFields(el: Element, kind: string, py: PyDecimals): (r: Attempt<PyRawTransaction>)
    ensures r.Returned? ==> r.value.quantity == 0.0 && r.value.feesEur == 0.0
    ensures r.Returned? ==> r.value.transId == el.Get("transactionID") && r.value.action == Some(PyCashAction(kind))
    ensures r.Returned? ==> && r.value.symbol == el.Get("symbol").GetOr("CASH")
                            && r.value.description == el.Get("description").GetOr("")
    ensures r.Returned? ==> && Some(r.value.priceOrigin) == py.read(el.Get("amount").GetOr("0"))
                            && Some(r.value.fxRateToBase) == py.read(el.Get("fxRateToBase").GetOr("1.0"))
                            && AtRate(r.value.amountEur, py.quantize(r.value.priceOrigin), r.value.fxRateToBase)
    ensures r.Returned? ==> ParseCleanDate(PyOr(el.Get("dateTime"), el.Get("reportDate"))) == Returned(r.value.dateTime)
  {
    var dt :- ParseCleanDate(PyOr(el.Get("dateTime"), el.Get("reportDate")));
    var amount :- PyDecimal(el.Get("amount").GetOr("0"), py);
    var fx :- PyDecimal(el.Get("fxRateToBase").GetOr("1.0"), py);
    Returned(PyRawTransaction(el.Get("transactionID"), el.Get("symbol").GetOr("CASH"), el.Get("isin").GetOr("UNKNOWN"),
                              AssetClassOf(el), dt, Some(PyCashAction(kind)), el.Get("description").GetOr(""),
                              0.0, py.quantize(amount) * fx, 0.0, fx, amount))
  }

  /** `_parse_cash_tag`: no id check, and a missing type raises. */
  function PyParseCash(el: Element, py: PyDecimals): (r: Attempt<PyRow>)
    ensures el.Get("type").None? <==> r == Raised(MissingTypeError)
    ensures el.Get("type").Some? && !CashRowKept(el.Get("type").value, AssetClassOf(el)) ==> r == Returned(PyDropped)
    ensures el.Get("type").Some? && CashRowKept(el.Get("type").value, AssetClassOf(el))
            ==> r.Raised? || r.value.PyKept?
    ensures r.Returned? ==> !r.value.PyIgnored?
  {
    match el.Get("type")
    case None => Raised(MissingTypeError)
    case Some(kind) =>
      if !CashRowKept(kind, AssetClassOf(el)) then Returned(PyDropped)
      else
        var tx :- PyCashFields(el, kind, py);
        Returned(PyKept(tx))
  }

  /** A cash row the Python loader keeps has a type the filter keeps and
      is the record its fields give. */
  lemma PyKeptCash(el: Element, py: PyDecimals)
    requires PyParseCash(el, py).Returned? && PyParseCash(el, py).value.PyKept?
    ensures el.Get("type").Some? && CashRowKept(el.Get("type").value, AssetClassOf(el))
    ensures var f := PyCashFields(el, el.Get("type").value, py);
      f.Returned? && PyParseCash(el, py).value.tx == f.value
  {
  }

  // The loaders compared

  /** The cash actions agree, except on a row kept for its interest whose
      type names withholding without "Withholding Tax": C# logs it as
      withholding tax, Python as interest. */
  lemma CashActionsAgree(kind: string)
    ensures ActionOf(Some(PyCashAction(kind))) != CashAction(kind)
        <==> !IsDividend(kind) && Contains(kind, "Withholding") && !IsWithholdingTax(kind)
  {
    if IsWithholdingTax(kind) {
      assert "Withholding Tax" == "Withholding" + " Tax";
      ContainsPrefixOf(kind, "Withholding", " Tax");
    }
  }

  /** The two currency-pair tests part exactly on a symbol with a dot, a
      known currency code and a character beyond the Basic Multilingual
      Plane that is seven long by one count: by the other it is longer. */
  lemma ForexTestsAgree(symbol: string)
    ensures InBmp(symbol) ==> ForexLike(symbol, Utf16Units) == ForexLike(symbol, CodePoints)
    ensures ForexLike(symbol, Utf16Units) != ForexLike(symbol, CodePoints)
        <==> && Contains(symbol, ".") && NamesCurrency(symbol) && !InBmp(symbol)
             && (|symbol| == 7 || Utf16Length(symbol) == 7)
  {
    Utf16LengthIsLength(symbol);
  }

  /** "A.EUR" and U+1F600 is six code points and seven UTF-16 units, so
      C# takes it for a currency pair and Python does not. */
  lemma ForexOnlyInUtf16()
    ensures ForexLike("A.EUR\U{1F600}", Utf16Units) && !ForexLike("A.EUR\U{1F600}", CodePoints)
  {
    assert OccursAt("A.EUR\U{1F600}", ".", 1) && OccursAt("A.EUR\U{1F600}", "EUR", 2);
  }

  /** One more letter turns the two around: "AB.EUR" and U+1F600 is seven
      code points and eight UTF-16 units. */
  lemma ForexOnlyInCodePoints()
    ensures ForexLike("AB.EUR\U{1F600}", CodePoints) && !ForexLike("AB.EUR\U{1F600}", Utf16Units)
  {
    assert OccursAt("AB.EUR\U{1F600}", ".", 2) && OccursAt("AB.EUR\U{1F600}", "EUR", 3);
  }


  /** The loaders decide a trade alike when its symbol lies inside the
      Basic Multilingual Plane. Otherwise they part exactly when the row
      has an id, its class is neither CASH nor the heuristic's own
      category, and the currency-pair tests part. */
  lemma TradeDecisionsAgree(el: Element)
    ensures InBmp(SymbolOf(el)) ==> TradeDecision(el, Utf16Units) == TradeDecision(el, CodePoints)
    ensures TradeDecision(el, Utf16Units) != TradeDecision(el, CodePoints)
        <==> && !IdMissing(el) && AssetClassOf(el) != "CASH" && AssetClassOf(el) != "FOREX_HEURISTIC"
             && ForexLike(SymbolOf(el), Utf16Units) != ForexLike(SymbolOf(el), CodePoints)
  {
    ForexTestsAgree(SymbolOf(el));
  }

  /** A trade Python keeps, C# keeps unless its symbol, measured in UTF-16
      units, looks like a currency pair; always when the symbol lies inside
      the Basic Multilingual Plane. */
  lemma PyKeptTradeByCs(el: Element, parsers: Parsers, py: PyDecimals)
    requires PyParseTrade(el, py).Returned? && PyParseTrade(el, py).value.PyKept?
    ensures CsParseElement(el, false, parsers).Kept? <==> !ForexLike(SymbolOf(el), Utf16Units)
    ensures InBmp(SymbolOf(el)) ==> CsParseElement(el, false, parsers).Kept?
  {
    PyKeptTrade(el, py);
    ForexTestsAgree(SymbolOf(el));
  }

  /** The cash rows the loaders keep: the same ones when the row has an id
      and a type; C# drops a row without an id that Python keeps, and a row
      without a type, on which Python raises. */
  lemma CashDecisionsAgree(el: Element, parsers: Parsers, py: PyDecimals)
    ensures var kept := el.Get("type").Some? && CashRowKept(el.Get("type").value, AssetClassOf(el));
      && (CsParseElement(el, true, parsers).Kept? <==> !IdMissing(el) && kept)
      && (PyParseCash(el, py) == Returned(PyDropped) <==> el.Get("type").Some? && !kept)
  {
    var kind := el.Get("type").GetOr("");
    assert !CashRowKept("", AssetClassOf(el)) by {
      assert !IsInterest("") && !IsDividend("") && !IsWithholdingTax("");
    }
  }

  /** `Decimal` reads "0" as 0 and rejects the empty string. */
  predicate ReadsLikePython(py: PyDecimals) {
    py.read("0") == Some(0.0) && py.read("").None?
  }

  /** A rounding to four places moves a value by at most half a unit of
      the fourth place. */
  ghost predicate RoundsWithinHalfUnit(quantize: real -> real) {
    forall x :: -0.00005 <= quantize(x) - x <= 0.00005
  }

  /** The default context's rounding is one. */
  lemma DefaultRoundingWithinHalfUnit()
    ensures RoundsWithinHalfUnit(Quantize4)
  {
    forall x ensures -0.00005 <= Quantize4(x) - x <= 0.00005 {
      var q := Quantize4(x);
    }
  }

  /** When both loaders read numbers alike, a Python trade row holds the
      C# quantity, price and rate, unless the row has an amount and no
      tradePrice: C# then takes the amount as the price, Python 0. */
  lemma TradeNumbersAgree(el: Element, parsers: Parsers, py: PyDecimals)
    requires !IdMissing(el) && PyTradeFields(el, py).Returned?
    requires forall s :: parsers.decimal(s) == py.read(s)
    requires ReadsLikePython(py)
    requires el.Get("tradePrice").Some? || el.Get("amount").None?
    ensures var c := CsFields(el, false, parsers);
      var p := PyTradeFields(el, py).value;
      c.quantity == p.quantity && c.priceOrigin == p.priceOrigin && c.fxRateToBase == p.fxRateToBase
  {
    CsAmounts(el, false, parsers);
  }

  /** A trade row with an amount and no tradePrice: C# prices it by the
      amount, Python at 0, so the prices part whenever the amount is not 0. */
  lemma TradePriceDiverges(el: Element, parsers: Parsers, py: PyDecimals, a: string, v: real)
    requires !IdMissing(el) && PyTradeFields(el, py).Returned?
    requires ReadsLikePython(py)
    requires el.Get("tradePrice").None? && el.Get("amount") == Some(a)
    requires a != "" && parsers.decimal(a) == Some(v)
    ensures CsFields(el, false, parsers).priceOrigin == v
    ensures PyTradeFields(el, py).value.priceOrigin == 0.0
    ensures v != 0.0 ==> CsFields(el, false, parsers).priceOrigin != PyTradeFields(el, py).value.priceOrigin
  {
    CsAmounts(el, false, parsers);
  }

  /** A trade row both loaders keep becomes twin transactions for the two
      cleaners, provided both read numbers alike, the trade value needs no
      rounding, the row has a buySell and its description does not already
      carry the C# marker. */
  lemma ParsedTradesAreTwins(el: Element, parsers: Parsers, py: PyDecimals)
    requires forall s :: parsers.decimal(s) == py.read(s)
    requires ReadsLikePython(py)
    requires el.Get("tradePrice").Some? || el.Get("amount").None?
    requires PyParseTrade(el, py).Returned? && PyParseTrade(el, py).value.PyKept?
    requires CsParseElement(el, false, parsers).Kept?
    requires el.Get("buySell").Some? && !Contains(el.Get("description").GetOr(""), CancelMarker)
    requires var p := PyParseTrade(el, py).value.tx; ExactValue(py, p.priceOrigin, p.quantity)
    ensures Twins(CsParseElement(el, false, parsers).tx, PyParseTrade(el, py).value.tx)
  {
    PyKeptTrade(el, py);
    var p := PyTradeFields(el, py).value;
    CsKept(el, false, parsers);
    var c := CsFields(el, false, parsers);
    CsAmounts(el, false, parsers);
    TradeNumbersAgree(el, parsers, py);
    PyTradeAmount(el, py);
    SameAmount(py, p.priceOrigin, p.quantity, p.fxRateToBase);
    CsTradeMarking(el, parsers);
  }

  /** The Python amount of a trade is the C# one up to the rounding of the
      trade value: at most half a unit of the fourth place, times the
      rate. */
  lemma TradeAmountsClose(el: Element, parsers: Parsers, py: PyDecimals)
    requires forall s :: parsers.decimal(s) == py.read(s)
    requires ReadsLikePython(py)
    requires el.Get("tradePrice").Some? || el.Get("amount").None?
    requires PyParseTrade(el, py).Returned? && PyParseTrade(el, py).value.PyKept?
    requires CsParseElement(el, false, parsers).Kept?
    requires RoundsWithinHalfUnit(py.quantize)
    ensures var c := CsParseElement(el, false, parsers).tx;
      var p := PyParseTrade(el, py).value.tx;
      Abs(p.amountEur - c.amountEur) <= 0.00005 * Abs(p.fxRateToBase)
  {
    PyKeptTrade(el, py);
    var p := PyTradeFields(el, py).value;
    CsKept(el, false, parsers);
    var c := CsFields(el, false, parsers);
    CsAmounts(el, false, parsers);
    TradeNumbersAgree(el, parsers, py);
    PyTradeAmount(el, py);
    CloseAmount(py, p.priceOrigin, p.quantity, p.fxRateToBase);
  }

  /** The trade value needs no rounding to four places. */
  predicate ExactValue(py: PyDecimals, price: real, qty: real) {
    py.quantize(price * qty) == price * qty
  }

  /** When the trade value needs no rounding the two amounts are equal. */
  lemma SameAmount(py: PyDecimals, price: real, qty: real, fx: real)
    requires ExactValue(py, price, qty)
    ensures PyTradeValue(py, price, qty, fx) == CsTradeAmount(price, qty, fx)
  {
  }

  /** A rounding by at most half a unit of the fourth place moves the
      amount by at most that half unit at the rate. */
  lemma CloseAmount(py: PyDecimals, price: real, qty: real, fx: real)
    requires RoundsWithinHalfUnit(py.quantize)
    ensures Abs(PyTradeValue(py, price, qty, fx) - CsTradeAmount(price, qty, fx)) <= 0.00005 * Abs(fx)
  {
    var x := price * qty;
    assert -0.00005 <= py.quantize(x) - x <= 0.00005;
    RoundingScaled(py.quantize(x) - x, fx);
    Distributes(py.quantize(x), x, fx);
  }

  /** `(a - b) * c == a * c - b * c`. */
  lemma Distributes(a: real, b: real, c: real)
    ensures (a - b) * c == a * c - b * c
  {
  }

  lemma RoundingScaled(d: real, fx: real)
    requires -0.00005 <= d <= 0.00005
    ensures Abs(d * fx) <= 0.00005 * Abs(fx)
  {
    var a := if fx >= 0.0 then fx else -fx;
    assert a == Abs(fx) && a >= 0.0;
    assert Abs(d * fx) == Abs(d) * a;
    assert Abs(d) * a <= 0.00005 * a by {
      assert (0.00005 - Abs(d)) * a >= 0.0;
    }
  }

  /** The dates agree when the text Python reads has one of the two fixed
      shapes and is the text C# reads; a text of any other shape, and an
      empty dateTime, which Python passes over, C# reads as MinValue. */
  lemma TradeDatesAgree(el: Element, parsers: Parsers, py: PyDecimals)
    requires PyParseTrade(el, py).Returned? && PyParseTrade(el, py).value.PyKept?
    requires CsParseElement(el, false, parsers).Kept?
    ensures PyOr(el.Get("dateTime"), el.Get("tradeDate")).Some?
    ensures el.Get("dateTime") != Some("") && FixedWidth(PyOr(el.Get("dateTime"), el.Get("tradeDate")).value) ==>
      CsParseElement(el, false, parsers).tx.dateTime == PyParseTrade(el, py).value.tx.dateTime
    ensures el.Get("dateTime") != Some("") && !FixedWidth(PyOr(el.Get("dateTime"), el.Get("tradeDate")).value) ==>
      CsParseElement(el, false, parsers).tx.dateTime == MinValue
    ensures el.Get("dateTime") == Some("") ==> CsParseElement(el, false, parsers).tx.dateTime == MinValue
  {
    PyKeptTrade(el, py);
    var p := PyTradeFields(el, py).value;
    ParseDateAgrees(PyOr(el.Get("dateTime"), el.Get("tradeDate")));
  }

  /** The amounts of a cash row both loaders keep, read alike: without a
      tradePrice both start from the same amount, and Python's, rounded to
      four places before the rate is applied, is C#'s up to half a unit of
      the fourth place times the rate. With a tradePrice C# takes that as
      the amount, Python never looks at it. */
  lemma CashAmountsClose(el: Element, parsers: Parsers, py: PyDecimals)
    requires forall s :: parsers.decimal(s) == py.read(s)
    requires ReadsLikePython(py)
    requires RoundsWithinHalfUnit(py.quantize)
    requires CsParseElement(el, true, parsers).Kept?
    requires PyParseCash(el, py).Returned? && PyParseCash(el, py).value.PyKept?
    ensures var c := CsParseElement(el, true, parsers).tx;
      var p := PyParseCash(el, py).value.tx;
      && c.fxRateToBase == p.fxRateToBase
      && (el.Get("tradePrice").Some? ==> c.priceOrigin == ParseDecimal(el.Get("tradePrice"), parsers))
      && (el.Get("tradePrice").None? ==> c.priceOrigin == p.priceOrigin)
      && (el.Get("tradePrice").None? ==> Abs(p.amountEur - c.amountEur) <= 0.00005 * Abs(p.fxRateToBase))
  {
    PyKeptCash(el, py);
    CsKept(el, true, parsers);
    CashFieldsClose(el, el.Get("type").value, parsers, py);
  }

  lemma CashFieldsClose(el: Element, kind: string, parsers: Parsers, py: PyDecimals)
    requires forall s :: parsers.decimal(s) == py.read(s)
    requires ReadsLikePython(py)
    requires RoundsWithinHalfUnit(py.quantize)
    requires !IdMissing(el) && PyCashFields(el, kind, py).Returned?
    ensures var c := CsFields(el, true, parsers);
      var p := PyCashFields(el, kind, py).value;
      && c.fxRateToBase == p.fxRateToBase
      && (el.Get("tradePrice").Some? ==> c.priceOrigin == ParseDecimal(el.Get("tradePrice"), parsers))
      && (el.Get("tradePrice").None? ==> c.priceOrigin == p.priceOrigin)
      && (el.Get("tradePrice").None? ==> Abs(p.amountEur - c.amountEur) <= 0.00005 * Abs(p.fxRateToBase))
  {
    CashNumbersAgree(el, kind, parsers, py);
    if el.Get("tradePrice").None? {
      var c := CsFields(el, true, parsers);
      var p := PyCashFields(el, kind, py).value;
      QuantizedClose(py, p.priceOrigin, p.fxRateToBase, p.amountEur, c.amountEur);
    }
  }

  lemma CashNumbersAgree(el: Element, kind: string, parsers: Parsers, py: PyDecimals)
    requires forall s :: parsers.decimal(s) == py.read(s)
    requires ReadsLikePython(py)
    requires !IdMissing(el) && PyCashFields(el, kind, py).Returned?
    ensures var c := CsFields(el, true, parsers);
      var p := PyCashFields(el, kind, py).value;
      && c.fxRateToBase == p.fxRateToBase
      && (el.Get("tradePrice").Some? ==> c.priceOrigin == ParseDecimal(el.Get("tradePrice"), parsers))
      && (el.Get("tradePrice").None? ==> c.priceOrigin == p.priceOrigin)
      && AtRate(c.amountEur, c.priceOrigin, c.fxRateToBase)
  {
    CsAmounts(el, true, parsers);
    ReadLikePython(Some(el.Get("fxRateToBase").GetOr("1.0")), parsers, py);
    if el.Get("tradePrice").None? {
      ReadLikePython(el.Get("amount"), parsers, py);
    }
  }


  /** A value Python reads, with "0" for a missing one, C# reads as the
      same number. */
  lemma ReadLikePython(s: Option<string>, parsers: Parsers, py: PyDecimals)
    requires parsers.decimal(s.GetOr("0")) == py.read(s.GetOr("0"))
    requires ReadsLikePython(py)
    requires py.read(s.GetOr("0")).Some?
    ensures ParseDecimal(s, parsers) == py.read(s.GetOr("0")).value
  {
  }

  /** Rounding a value by at most half a unit of the fourth place before
      applying the rate moves the result by at most that half unit at the
      rate. */
  lemma QuantizedClose(py: PyDecimals, x: real, fx: real, rounded: real, exact: real)
    requires RoundsWithinHalfUnit(py.quantize)
    requires AtRate(rounded, py.quantize(x), fx) && AtRate(exact, x, fx)
    ensures Abs(rounded - exact) <= 0.00005 * Abs(fx)
  {
    assert -0.00005 <= py.quantize(x) - x <= 0.00005;
    RoundingScaled(py.quantize(x) - x, fx);
    Distributes(py.quantize(x), x, fx);
  }


  /** A cash row without a symbol: Python names it "CASH", C# "UNKNOWN";
      with one, both name it by it. */
  lemma CashSymbolsDiffer(el: Element, parsers: Parsers, py: PyDecimals)
    requires CsParseElement(el, true, parsers).Kept?
    requires PyParseCash(el, py).Returned? && PyParseCash(el, py).value.PyKept?
    ensures var c := CsParseElement(el, true, parsers).tx;
      var p := PyParseCash(el, py).value.tx;
      && (el.Get("symbol").Some? ==> c.symbol == p.symbol == el.Get("symbol").value)
      && (el.Get("symbol").None? ==> c.symbol == "UNKNOWN" && p.symbol == "CASH")
  {
    PyKeptCash(el, py);
  }

  /** The date of a cash row both loaders keep. Python reads dateTime, or
      reportDate when dateTime is missing or empty; C# reads dateTime, else
      tradeDate, else reportDate. They agree on a non-empty dateTime of a
      fixed shape, and on a reportDate of a fixed shape when the row has
      neither dateTime nor tradeDate; a row with a tradeDate and no
      dateTime C# dates by the tradeDate, and an empty dateTime C# reads as
      MinValue. */
  lemma CashDatesCompare(el: Element, parsers: Parsers, py: PyDecimals)
    requires CsParseElement(el, true, parsers).Kept?
    requires PyParseCash(el, py).Returned? && PyParseCash(el, py).value.PyKept?
    ensures var c := CsParseElement(el, true, parsers).tx;
      var p := PyParseCash(el, py).value.tx;
      var dt := el.Get("dateTime");
      var rd := el.Get("reportDate");
      && (dt.Some? && dt.value != "" && FixedWidth(dt.value) ==> c.dateTime == p.dateTime)
      && (dt.None? && el.Get("tradeDate").None? && rd.Some? && FixedWidth(rd.value) ==> c.dateTime == p.dateTime)
      && (dt.None? && el.Get("tradeDate").Some? ==> c.dateTime == ParseDate(el.Get("tradeDate")))
      && (dt == Some("") ==> c.dateTime == MinValue)
  {
    PyKeptCash(el, py);
    CsKept(el, true, parsers);
    ParseDateAgrees(PyOr(el.Get("dateTime"), el.Get("reportDate")));
  }

  /** A kept cash row is a correction to Python's cleaner exactly when its
      description holds "(Ca.)", and to C#'s exactly when it holds the C#
      marker, which C# never adds to a cash row. */
  lemma CashMarkingDiffers(el: Element, parsers: Parsers, py: PyDecimals)
    requires CsParseElement(el, true, parsers).Kept?
    requires PyParseCash(el, py).Returned? && PyParseCash(el, py).value.PyKept?
    ensures var description := el.Get("description").GetOr("");
      && (CsIsCorrection(CsParseElement(el, true, parsers).tx) <==> Contains(description, CancelMarker))
      && (PyIsCorrection(PyParseCash(el, py).value.tx) <==> Contains(description, "(Ca.)"))
  {
    PyKeptCash(el, py);
    CsCashNotMarked(el, parsers);
    CashTagsNotCorrections(el.Get("type").value);
  }

  /** No Python cash action holds "Ca.". */
  lemma CashTagsNotCorrections(kind: string)
    ensures !Contains(PyCashAction(kind), "Ca.")
  {
    var tag := PyCashAction(kind);
    assert |tag| == 3 && tag != "Ca.";
    assert tag[..3] == tag;
    assert !Contains(tag[1..], "Ca.");
  }

  /** `amount` is `value` at the exchange rate `fx`. */
  predicate AtRate(amount: real, value: real, fx: real) {
    amount == value * fx
  }
}
