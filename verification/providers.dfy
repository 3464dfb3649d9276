/** The reference-data providers of the C# engine: instruments read from a
    JSON document, year-end prices and base rates read from CSV lines.
    Reading the file and deserialising it are outside the model: the
    providers take the document's entries or the file's lines, and the
    number parsers as functions. */
module Providers {
  import opened Wrappers
  import opened Text
  import opened Models

  /** `int.TryParse` and `decimal.TryParse` (invariant culture), as used
      by the loaders; their digit-level rules are not modelled. */
  datatype Parsers = Parsers(int32: string -> Option<int>, decimal: string -> Option<real>)

  // Keyed collection of the values of accepted lines

  /** The map built by storing, in order, the key and value of every
      accepted entry (`None` entries are skipped): later entries overwrite
      earlier ones. */
  function Collect<K, V>(entries: seq<Option<(K, V)>>): (m: map<K, V>)
    decreases |entries|
  {
    if entries == [] then map[]
    else
      var m := Collect(entries[..|entries| - 1]);
      match entries[|entries| - 1]
      case None => m
      case Some(kv) => m[kv.0 := kv.1]
  }

  /** Reference definition: the value of the last accepted entry with key
      `k`, if any. */
  function LastFor<K(==), V>(entries: seq<Option<(K, V)>>, k: K): Option<V>
    decreases |entries|
  {
    if entries == [] then None
    else
      var e := entries[|entries| - 1];
      if e.Some? && e.value.0 == k then Some(e.value.1)
      else LastFor(entries[..|entries| - 1], k)
  }

  /** A key is present iff some accepted entry has it, and its value is
      the one of the last such entry. */
  lemma {:induction false} CollectIsLastWins<K, V>(entries: seq<Option<(K, V)>>, k: K)
    ensures k in Collect(entries) <==> LastFor(entries, k).Some?
    ensures k in Collect(entries) ==> Collect(entries)[k] == LastFor(entries, k).value
    ensures LastFor(entries, k).Some? <==> exists i :: 0 <= i < |entries| && entries[i].Some? && entries[i].value.0 == k
    decreases |entries|
  {
    if entries != [] {
      var init := entries[..|entries| - 1];
      CollectIsLastWins(init, k);
      assert forall i :: 0 <= i < |init| ==> init[i] == entries[i];
    }
  }

  // JsonInstrumentProvider

  const TfsDefault: real := 0.30
  const UnknownSymbol := "Unknown"
  const InstrumentLoadError := "ERROR: Error occured during loading of instruments.json. "
  const ParsingErrorMessage := "ERROR: At least one parsing error occured."
  const NullReferenceMessage := "Object reference not set to an instance of an object."

  /** The `tfs_quote` property of one entry as deserialised into an
      `object`: missing (the DTO keeps its `0.0m` default), JSON null, or
      a value whose `ToString()` is `text`. */
  datatype TfsField = Absent | JsonNull | Value(text: string)

  datatype InstrumentDto = InstrumentDto(name: string, tfs: TfsField)

  /** The deserialised document: unreadable JSON (with the serialiser's
      message), the JSON literal `null`, or its entries in document order;
      an entry whose value is JSON null has no DTO. */
  datatype InstrumentDocument =
    | Malformed(message: string)
    | NullDocument
    | Entries(entries: seq<(string, Option<InstrumentDto>)>)

  datatype InstrumentProvider = InstrumentProvider(instruments: map<string, Instrument>)

  /** What the loop body does with one entry: store it, skip it with the
      error flag set, or fail on a null reference. */
  datatype EntryOutcome = Accepted(instrument: Instrument) | Skipped | NullReference

  function ReadEntry(isin: string, dto: Option<InstrumentDto>, parsers: Parsers): (o: EntryOutcome)
    ensures o.Accepted? ==> o.instrument.isin == isin && o.instrument.symbol == UnknownSymbol
    ensures o.NullReference? <==> dto.None? || dto.value.tfs.JsonNull?
  {
    match dto
    case None => NullReference
    case Some(d) =>
      match d.tfs
      case JsonNull => NullReference
      case Absent => ReadQuote(isin, d.name, "0.0", parsers)
      case Value(text) => ReadQuote(isin, d.name, text, parsers)
  }

  function ReadQuote(isin: string, name: string, text: string, parsers: Parsers): (o: EntryOutcome)
    ensures o.Accepted? <==> parsers.decimal(text).Some?
    ensures o.Accepted? ==> o.instrument == Instrument(isin, UnknownSymbol, name, parsers.decimal(text).value)
    ensures !o.NullReference?
  {
    match parsers.decimal(text)
    case None => Skipped
    case Some(q) => Accepted(Instrument(isin, UnknownSymbol, name, q))
  }

  /** How the try block ends: with the instruments read, by throwing
      because the error flag is set, or on a null reference. */
  datatype ScanOutcome = Scanned(instruments: map<string, Instrument>) | ParseFailed | NullDereferenced

  /** The loop over the entries: a null reference aborts at once, a parse
      failure only sets the error flag, which fails the load at the end. */
  function ScanEntries(entries: seq<(string, Option<InstrumentDto>)>, parsers: Parsers,
                       acc: map<string, Instrument>, errorOccurred: bool): (r: ScanOutcome)
    decreases |entries|
  {
    if entries == [] then
      if errorOccurred then ParseFailed else Scanned(acc)
    else
      match ReadEntry(entries[0].0, entries[0].1, parsers)
      case NullReference => NullDereferenced
      case Skipped => ScanEntries(entries[1..], parsers, acc, true)
      case Accepted(inst) => ScanEntries(entries[1..], parsers, acc[entries[0].0 := inst], errorOccurred)
  }

  /** JsonInstrumentProvider.Load. Every exception inside the try block,
      the one it throws itself included, is rethrown as an application
      error with the load prefix. */
  function LoadInstruments(fileExists: bool, path: string, document: InstrumentDocument, parsers: Parsers): (r: Attempt<InstrumentProvider>)
    ensures !fileExists ==> r == Raised(FileNotFound(path))
    ensures fileExists && r.Raised? ==>
      r.exception.ApplicationError? && InstrumentLoadError <= r.exception.message
  {
    if !fileExists then Raised(FileNotFound(path))
    else match document
      case Malformed(message) => Raised(ApplicationError(InstrumentLoadError + message))
      case NullDocument => Returned(InstrumentProvider(map[]))
      case Entries(entries) =>
        match ScanEntries(entries, parsers, map[], false)
        case Scanned(m) => Returned(InstrumentProvider(m))
        case ParseFailed => Raised(ApplicationError(InstrumentLoadError + ParsingErrorMessage))
        case NullDereferenced => Raised(ApplicationError(InstrumentLoadError + NullReferenceMessage))
  }

  predicate EntryAccepted(e: (string, Option<InstrumentDto>), parsers: Parsers) {
    ReadEntry(e.0, e.1, parsers).Accepted?
  }

  predicate EntryNullReference(e: (string, Option<InstrumentDto>), parsers: Parsers) {
    ReadEntry(e.0, e.1, parsers).NullReference?
  }

  /** The scan succeeds iff no error was flagged before and every entry is
      accepted; it fails on a null reference iff some entry has one, even
      after a parse failure; it stores exactly the entries' ISINs, each
      with the "Unknown" symbol. */
  lemma {:induction false} ScanEntriesOutcome(entries: seq<(string, Option<InstrumentDto>)>, parsers: Parsers,
                                              acc: map<string, Instrument>, errorOccurred: bool)
    requires forall k <- acc :: acc[k].isin == k && acc[k].symbol == UnknownSymbol
    ensures var r := ScanEntries(entries, parsers, acc, errorOccurred);
      && (r.Scanned? <==> !errorOccurred && forall e <- entries :: EntryAccepted(e, parsers))
      && (r.NullDereferenced? <==> exists e <- entries :: EntryNullReference(e, parsers))
      && (r.Scanned? ==> r.instruments.Keys == acc.Keys + (set e <- entries :: e.0))
      && (r.Scanned? ==> forall k <- r.instruments ::
            r.instruments[k].isin == k && r.instruments[k].symbol == UnknownSymbol)
    decreases |entries|
  {
    if entries != [] {
      var e := entries[0];
      var rest := entries[1..];
      assert e in entries;
      assert forall x <- entries :: x == e || x in rest;
      assert forall x <- rest :: x in entries;
      match ReadEntry(e.0, e.1, parsers)
      case NullReference =>
      case Skipped => ScanEntriesOutcome(rest, parsers, acc, true);
      case Accepted(inst) =>
        ScanEntriesOutcome(rest, parsers, acc[e.0 := inst], errorOccurred);
        assert (set x <- entries :: x.0) == {e.0} + (set x <- rest :: x.0);
    }
  }

  /** Load succeeds iff the file exists and the document is null or all of
      its entries are accepted; every instrument it stores is keyed by its
      own ISIN and carries the placeholder symbol. */
  lemma LoadInstrumentsOutcome(fileExists: bool, path: string, document: InstrumentDocument, parsers: Parsers)
    ensures var r := LoadInstruments(fileExists, path, document, parsers);
      && (r.Returned? <==>
            (fileExists && (document.NullDocument? ||
              (document.Entries? && forall e <- document.entries :: EntryAccepted(e, parsers)))))
      && (r.Returned? && document.Entries? ==> r.value.instruments.Keys == set e <- document.entries :: e.0)
      && (r.Returned? ==> forall k <- r.value.instruments ::
            r.value.instruments[k].isin == k && r.value.instruments[k].symbol == UnknownSymbol)
  {
    if fileExists && document.Entries? {
      ScanEntriesOutcome(document.entries, parsers, map[], false);
    }
  }

  /** JsonInstrumentProvider.GetInstrument: the stored instrument, with
      the placeholder symbol replaced by the caller's, or a conservative
      default for an unknown ISIN. It never fails and never changes the
      provider. */
  function GetInstrument(p: InstrumentProvider, isin: string, fallbackSymbol: string): (inst: Instrument)
    ensures isin !in p.instruments ==> inst == Instrument(isin, fallbackSymbol, "Auto-Generated", TfsDefault)
    ensures isin in p.instruments ==>
      var stored := p.instruments[isin];
      && inst.isin == stored.isin && inst.name == stored.name && inst.tfsQuote == stored.tfsQuote
      && inst.symbol == (if stored.symbol == UnknownSymbol then fallbackSymbol else stored.symbol)
  {
    if isin in p.instruments then
      var stored := p.instruments[isin];
      if stored.symbol == UnknownSymbol then stored.(symbol := fallbackSymbol) else stored
    else Instrument(isin, fallbackSymbol, "Auto-Generated", TfsDefault)
  }

  /** Every instrument of a loaded provider is reported under the ISIN
      asked for and with the caller's symbol. */
  lemma LoadedInstrumentTakesCallerSymbol(fileExists: bool, path: string, document: InstrumentDocument,
                                          parsers: Parsers, isin: string, fallbackSymbol: string)
    requires LoadInstruments(fileExists, path, document, parsers).Returned?
    ensures var inst := GetInstrument(LoadInstruments(fileExists, path, document, parsers).value, isin, fallbackSymbol);
      inst.isin == isin && inst.symbol == fallbackSymbol
  {
    LoadInstrumentsOutcome(fileExists, path, document, parsers);
  }

  // CsvPriceProvider

  datatype PriceProvider = PriceProvider(prices: map<(int, string), real>)

  /** The line rule of CsvPriceProvider.Load: a non-blank line with at
      least three comma-separated fields whose first parses as an int and
      third as a decimal gives (year, trimmed ISIN) and the price. */
  function PriceLine(line: string, parsers: Parsers): (e: Option<((int, string), real)>)
    ensures e.Some? <==>
      (!IsBlank(line) && |Split(line, ',')| >= 3 &&
       parsers.int32(Split(line, ',')[0]).Some? && parsers.decimal(Split(line, ',')[2]).Some?)
    ensures e.Some? ==> e.value == ((parsers.int32(Split(line, ',')[0]).value, Trim(Split(line, ',')[1])),
                                    parsers.decimal(Split(line, ',')[2]).value)
  {
    if IsBlank(line) then None
    else
      var parts := Split(line, ',');
      if |parts| < 3 then None
      else match (parsers.int32(parts[0]), parsers.decimal(parts[2]))
        case (Some(year), Some(price)) => Some(((year, Trim(parts[1])), price))
        case _ => None
  }

  function PriceLines(lines: seq<string>, parsers: Parsers): seq<Option<((int, string), real)>> {
    seq(|lines|, i requires 0 <= i < |lines| => PriceLine(lines[i], parsers))
  }

  /** CsvPriceProvider.Load: the header line is skipped. */
  function LoadPrices(fileExists: bool, path: string, lines: seq<string>, parsers: Parsers): (r: Attempt<PriceProvider>)
    ensures r.Raised? <==> !fileExists
  {
    if !fileExists then Raised(FileNotFound(path))
    else Returned(PriceProvider(Collect(PriceLines(if lines == [] then [] else lines[1..], parsers))))
  }

  /** CsvPriceProvider.GetPrice: none iff the key was not loaded. */
  function GetPrice(p: PriceProvider, isin: string, year: int): (price: Option<real>)
    ensures price.None? <==> (year, isin) !in p.prices
    ensures price.Some? ==> price.value == p.prices[(year, isin)]
  {
    if (year, isin) in p.prices then Some(p.prices[(year, isin)]) else None
  }

  /** A price is found iff some data line after the header is accepted
      for that year and ISIN, and it is the one of the last such line. */
  lemma GetPriceIsLastLine(path: string, lines: seq<string>, parsers: Parsers, isin: string, year: int)
    ensures var p := LoadPrices(true, path, lines, parsers).value;
      var data := PriceLines(if lines == [] then [] else lines[1..], parsers);
      GetPrice(p, isin, year) == LastFor(data, (year, isin))
  {
    var data := PriceLines(if lines == [] then [] else lines[1..], parsers);
    CollectIsLastWins(data, (year, isin));
  }

  // CsvInterestProvider

  datatype InterestProvider = InterestProvider(rates: map<int, real>)

  /** The line rule of CsvInterestProvider.Load: a non-blank line with at
      least two fields whose first parses as an int and second as a
      decimal gives the year and the rate. */
  function RateLine(line: string, parsers: Parsers): (e: Option<(int, real)>)
    ensures e.Some? <==>
      (!IsBlank(line) && |Split(line, ',')| >= 2 &&
       parsers.int32(Split(line, ',')[0]).Some? && parsers.decimal(Split(line, ',')[1]).Some?)
    ensures e.Some? ==> e.value == (parsers.int32(Split(line, ',')[0]).value, parsers.decimal(Split(line, ',')[1]).value)
  {
    if IsBlank(line) then None
    else
      var parts := Split(line, ',');
      if |parts| < 2 then None
      else match (parsers.int32(parts[0]), parsers.decimal(parts[1]))
        case (Some(year), Some(rate)) => Some((year, rate))
        case _ => None
  }

  function RateLines(lines: seq<string>, parsers: Parsers): seq<Option<(int, real)>> {
    seq(|lines|, i requires 0 <= i < |lines| => RateLine(lines[i], parsers))
  }

  /** CsvInterestProvider.Load: the header line is skipped. */
  function LoadRates(fileExists: bool, path: string, lines: seq<string>, parsers: Parsers): (r: Attempt<InterestProvider>)
    ensures r.Raised? <==> !fileExists
  {
    if !fileExists then Raised(FileNotFound(path))
    else Returned(InterestProvider(Collect(RateLines(if lines == [] then [] else lines[1..], parsers))))
  }

  /** CsvInterestProvider.GetRate: 0 for a year not loaded. */
  function GetRate(p: InterestProvider, year: int): (rate: real)
    ensures year !in p.rates ==> rate == 0.0
    ensures year in p.rates ==> rate == p.rates[year]
  {
    if year in p.rates then p.rates[year] else 0.0
  }

  /** The rate of a year is that of the last accepted data line for it,
      and 0 when there is none. */
  lemma GetRateIsLastLine(path: string, lines: seq<string>, parsers: Parsers, year: int)
    ensures var p := LoadRates(true, path, lines, parsers).value;
      var data := RateLines(if lines == [] then [] else lines[1..], parsers);
      GetRate(p, year) == LastFor(data, year).GetOr(0.0)
  {
    var data := RateLines(if lines == [] then [] else lines[1..], parsers);
    CollectIsLastWins(data, year);
  }
}
