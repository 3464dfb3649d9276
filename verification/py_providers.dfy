/** The instrument lookup of the Python twin (`InstrumentProvider` in
    loader.py). Unlike the C# provider it writes the caller's symbol into
    the stored instrument, so the lookup returns the provider after the call
    as well. Its price and rate lookups are the C# ones: a missing price is
    `None` and a missing rate is 0 (GetPrice and GetRate). */
module PyProviders {
  import opened Models
  import opened Providers

  datatype PyInstrumentProvider = PyInstrumentProvider(instruments: map<string, Instrument>)

  /** The name the Python lookup gives an instrument it does not know. */
  const AutoGeneratedName := "Unknown (Auto-Generated)"

  /** The C# provider holding the same instruments. */
  function CsProvider(p: PyInstrumentProvider): InstrumentProvider {
    InstrumentProvider(p.instruments)
  }

  /** `get_instrument`: the stored instrument, whose placeholder symbol is
      overwritten in place with the caller's; or a fresh default that is not
      stored. */
  function PyGetInstrument(p: PyInstrumentProvider, isin: string, fallbackSymbol: string): (r: (Instrument, PyInstrumentProvider))
    ensures isin !in p.instruments ==>
      r.0 == Instrument(isin, fallbackSymbol, AutoGeneratedName, TfsDefault) && r.1 == p
    ensures isin in p.instruments ==> r.1.instruments == p.instruments[isin := r.0]
  {
    if isin in p.instruments then
      var inst := p.instruments[isin];
      if inst.symbol == UnknownSymbol then
        var updated := inst.(symbol := fallbackSymbol);
        (updated, PyInstrumentProvider(p.instruments[isin := updated]))
      else (inst, p)
    else (Instrument(isin, fallbackSymbol, AutoGeneratedName, TfsDefault), p)
  }

  /** `b` holds the same ISINs with the same quotas as `a`. */
  predicate SameQuotes(a: PyInstrumentProvider, b: PyInstrumentProvider) {
    && a.instruments.Keys == b.instruments.Keys
    && forall k <- a.instruments :: a.instruments[k].tfsQuote == b.instruments[k].tfsQuote
  }

  /** The quota is what the engines use the instrument for, and it is the
      same as C#'s on every call; the provider keeps its ISINs and quotas. */
  lemma PyGetInstrumentAgrees(p: PyInstrumentProvider, isin: string, fallbackSymbol: string)
    ensures var (inst, p') := PyGetInstrument(p, isin, fallbackSymbol);
      var cs := GetInstrument(CsProvider(p), isin, fallbackSymbol);
      && inst.tfsQuote == cs.tfsQuote && inst.symbol == cs.symbol && inst.isin == cs.isin
      && SameQuotes(p, p')
  {
  }

  /** Quota lookups only depend on the quotas, so a provider changed by
      earlier lookups answers as the original would. */
  lemma SameQuotesSameQuota(a: PyInstrumentProvider, b: PyInstrumentProvider, isin: string, s1: string, s2: string)
    requires SameQuotes(a, b)
    ensures PyGetInstrument(a, isin, s1).0.tfsQuote == PyGetInstrument(b, isin, s2).0.tfsQuote
    ensures SameQuotes(a, PyGetInstrument(b, isin, s2).1)
  {
  }

  /** Where the twins part: the first lookup of a configured ISIN fixes
      its symbol for good, so a later lookup under another symbol still
      reports the first, while C# reports the symbol of each call. */
  lemma FirstSymbolSticks(p: PyInstrumentProvider, isin: string, first: string, second: string)
    requires isin in p.instruments && p.instruments[isin].symbol == UnknownSymbol
    requires first != UnknownSymbol
    ensures var (i1, p1) := PyGetInstrument(p, isin, first);
      && i1.symbol == first
      && PyGetInstrument(p1, isin, second).0.symbol == first
      && GetInstrument(CsProvider(p1), isin, second).symbol == first
      && GetInstrument(CsProvider(p), isin, second).symbol == second
  {
    var (i1, p1) := PyGetInstrument(p, isin, first);
    assert p1.instruments[isin] == i1;
  }

  /** The only other difference: the name of an unconfigured instrument. */
  lemma UnconfiguredNames(p: PyInstrumentProvider, isin: string, fallbackSymbol: string)
    requires isin !in p.instruments
    ensures PyGetInstrument(p, isin, fallbackSymbol).0
         == GetInstrument(CsProvider(p), isin, fallbackSymbol).(name := AutoGeneratedName)
  {
  }
}
