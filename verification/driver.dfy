/** The year-by-year driver of the tax report (RunTaxReport in Program.cs
    and `main` in main.py): for each year from the first to one past the
    last, process the transactions dated in that year, then close the year.
    The driver is modelled by the trace of engine calls it makes, and by
    the engine state that trace produces. */
module Driver {
  import opened Wrappers
  import opened Dates
  import opened Models
  import opened Fifo
  import opened Providers
  import opened Engine
  import opened PyModels
  import opened PyProviders
  import opened PyEngine

  /** One engine call: processing transaction `index` in the loop iteration
      for `year`, or closing `year`. */
  datatype Step = Process(index: int, year: int) | Close(year: int)

  /** The inner loop: from `idx`, the run of transactions dated in `year`
      ends at the returned index. */
  function YearRun(years: seq<int>, year: int, idx: nat): (end: nat)
    requires idx <= |years|
    ensures idx <= end <= |years|
    ensures forall i | idx <= i < end :: years[i] == year
    ensures end < |years| ==> years[end] != year
    decreases |years| - idx
  {
    if idx < |years| && years[idx] == year then YearRun(years, year, idx + 1) else idx
  }

  /** Processing transactions `from` to `to - 1`, in order, in `year`. */
  function ProcessRange(from: nat, to: nat, year: int): (steps: seq<Step>)
    requires from <= to
    ensures |steps| == to - from
    ensures forall t | 0 <= t < |steps| :: steps[t] == Process(from + t, year)
  {
    if from == to then [] else ProcessRange(from, to - 1, year) + [Process(to - 1, year)]
  }

  /** The outer loop from `year` through `last + 1`, the next transaction
      being `idx`. */
  function ScheduleFrom(years: seq<int>, year: int, last: int, idx: nat): seq<Step>
    requires idx <= |years|
    decreases last + 1 - year
  {
    if year > last + 1 then []
    else
      var end := YearRun(years, year, idx);
      ProcessRange(idx, end, year) + [Close(year)] + ScheduleFrom(years, year + 1, last, end)
  }

  function MinYear(years: seq<int>): (m: int)
    requires |years| > 0
    ensures m in years && forall y <- years :: m <= y
  {
    if |years| == 1 then years[0]
    else
      var m := MinYear(years[1..]);
      assert forall y <- years[1..] :: y in years;
      assert forall y <- years :: y == years[0] || y in years[1..];
      if years[0] < m then years[0] else m
  }

  function MaxYear(years: seq<int>): (m: int)
    requires |years| > 0
    ensures m in years && forall y <- years :: y <= m
  {
    if |years| == 1 then years[0]
    else
      var m := MaxYear(years[1..]);
      assert forall y <- years[1..] :: y in years;
      assert forall y <- years :: y == years[0] || y in years[1..];
      if years[0] > m then years[0] else m
  }

  /** The C# schedule: nothing without transactions, else from the earliest
      year through one past the latest. */
  function CsSchedule(years: seq<int>): (steps: seq<Step>)
    ensures |years| == 0 ==> steps == []
  {
    if |years| == 0 then [] else ScheduleFrom(years, MinYear(years), MaxYear(years), 0)
  }

  /** The inner loop of RunTaxReport: the calls for the transactions of
      `year` from `txIdx` on. */
  method ProcessYear(years: seq<int>, year: int, txIdx: nat) returns (end: nat, steps: seq<Step>)
    requires txIdx <= |years|
    ensures end == YearRun(years, year, txIdx)
    ensures steps == ProcessRange(txIdx, end, year)
  {
    end, steps := txIdx, [];
    while end < |years| && years[end] == year
      invariant txIdx <= end <= |years|
      invariant YearRun(years, year, end) == YearRun(years, year, txIdx)
      invariant steps == ProcessRange(txIdx, end, year)
      decreases |years| - end
    {
      steps := steps + [Process(end, year)];
      end := end + 1;
    }
  }

  /** The loops of RunTaxReport as written. */
  method TaxReportSchedule(years: seq<int>) returns (steps: seq<Step>)
    ensures steps == CsSchedule(years)
  {
    steps := [];
    if |years| == 0 {
      return;
    }
    var minYear, maxYear := MinYear(years), MaxYear(years);
    var txIdx: nat := 0;
    var year := minYear;
    while year <= maxYear + 1
      invariant txIdx <= |years| && year <= maxYear + 2
      invariant steps + ScheduleFrom(years, year, maxYear, txIdx) == ScheduleFrom(years, minYear, maxYear, 0)
      decreases maxYear + 2 - year
    {
      var end, processed := ProcessYear(years, year, txIdx);
      ghost var rest := ScheduleFrom(years, year + 1, maxYear, end);
      Concat3(steps, processed + [Close(year)], rest);
      steps := steps + (processed + [Close(year)]);
      txIdx, year := end, year + 1;
    }
  }

  lemma Concat3(a: seq<Step>, b: seq<Step>, c: seq<Step>)
    ensures (a + b) + c == a + (b + c)
  {
  }

  /** The Python schedule: the first transaction's year through one past
      the last transaction's; without transactions `transactions[0]`
      raises. */
  function PySchedule(years: seq<int>): (r: Attempt<seq<Step>>)
    ensures |years| == 0 <==> r.Raised?
  {
    if |years| == 0 then Raised(IndexError("list index out of range"))
    else Returned(ScheduleFrom(years, years[0], years[|years| - 1], 0))
  }

  // Properties of the schedule

  function Closes(steps: seq<Step>): seq<int> {
    if |steps| == 0 then []
    else Closes(steps[..|steps| - 1]) + (if steps[|steps| - 1].Close? then [steps[|steps| - 1].year] else [])
  }

  function Processed(steps: seq<Step>): seq<int> {
    if |steps| == 0 then []
    else Processed(steps[..|steps| - 1]) + (if steps[|steps| - 1].Process? then [steps[|steps| - 1].index] else [])
  }

  lemma {:induction false} FiltersAppend(a: seq<Step>, b: seq<Step>)
    ensures Closes(a + b) == Closes(a) + Closes(b)
    ensures Processed(a + b) == Processed(a) + Processed(b)
    decreases |b|
  {
    if |b| == 0 {
      assert a + b == a;
    } else {
      var b' := b[..|b| - 1];
      assert (a + b)[..|a + b| - 1] == a + b';
      assert (a + b)[|a + b| - 1] == b[|b| - 1];
      FiltersAppend(a, b');
    }
  }

  lemma {:induction false} ProcessRangeCloses(from: nat, to: nat, year: int)
    requires from <= to
    ensures Closes(ProcessRange(from, to, year)) == []
  {
    if from < to {
      ProcessRangeCloses(from, to - 1, year);
      var steps := ProcessRange(from, to, year);
      assert steps[..|steps| - 1] == ProcessRange(from, to - 1, year);
    }
  }

  lemma {:induction false} ProcessRangeProcessed(from: nat, to: nat, year: int)
    requires from <= to
    ensures var p := Processed(ProcessRange(from, to, year));
      |p| == to - from && forall t | 0 <= t < |p| :: p[t] == from + t
  {
    if from < to {
      ProcessRangeProcessed(from, to - 1, year);
      var steps := ProcessRange(from, to, year);
      assert steps[..|steps| - 1] == ProcessRange(from, to - 1, year);
      assert steps[|steps| - 1] == Process(to - 1, year);
    }
  }

  /** The years from `a` through `b`. */
  function Span(a: int, b: int): (s: seq<int>)
    ensures |s| == if a <= b then b - a + 1 else 0
    ensures forall t | 0 <= t < |s| :: s[t] == a + t
    decreases b - a
  {
    if a > b then [] else [a] + Span(a + 1, b)
  }

  /** Every year from `year` through `last + 1` is closed, once each, in
      order. */
  lemma {:induction false} ClosesEveryYear(years: seq<int>, year: int, last: int, idx: nat)
    requires idx <= |years|
    ensures Closes(ScheduleFrom(years, year, last, idx)) == Span(year, last + 1)
    decreases last + 1 - year
  {
    if year <= last + 1 {
      var end := YearRun(years, year, idx);
      var pr := ProcessRange(idx, end, year);
      var rest := ScheduleFrom(years, year + 1, last, end);
      ProcessRangeCloses(idx, end, year);
      FiltersAppend(pr, [Close(year)]);
      FiltersAppend(pr + [Close(year)], rest);
      ClosesEveryYear(years, year + 1, last, end);
      assert Closes([Close(year)]) == [year] by {
        assert [Close(year)][..0] == [];
      }
    }
  }

  /** The transactions are processed in list order, each at most once, and
      always a prefix of the list from `idx`. */
  lemma {:induction false} ProcessesPrefix(years: seq<int>, year: int, last: int, idx: nat)
    requires idx <= |years|
    ensures var p := Processed(ScheduleFrom(years, year, last, idx));
      idx + |p| <= |years| && forall t | 0 <= t < |p| :: p[t] == idx + t
    decreases last + 1 - year
  {
    if year <= last + 1 {
      var end := YearRun(years, year, idx);
      var pr := ProcessRange(idx, end, year);
      var rest := ScheduleFrom(years, year + 1, last, end);
      ProcessRangeProcessed(idx, end, year);
      FiltersAppend(pr, [Close(year)]);
      FiltersAppend(pr + [Close(year)], rest);
      ProcessesPrefix(years, year + 1, last, end);
      assert Processed([Close(year)]) == [] by {
        assert [Close(year)][..0] == [];
      }
    }
  }

  predicate Sorted(years: seq<int>) {
    forall i, j | 0 <= i < j < |years| :: years[i] <= years[j]
  }

  /** Sorted by date, every transaction from `idx` on whose year lies in
      the loop's range is processed. */
  lemma {:induction false} SortedProcessesAll(years: seq<int>, year: int, last: int, idx: nat)
    requires idx <= |years| && Sorted(years)
    requires idx < |years| ==> year <= years[idx]
    requires forall i | idx <= i < |years| :: years[i] <= last + 1
    ensures idx + |Processed(ScheduleFrom(years, year, last, idx))| == |years|
    decreases last + 1 - year
  {
    if year <= last + 1 {
      var end := YearRun(years, year, idx);
      var pr := ProcessRange(idx, end, year);
      var rest := ScheduleFrom(years, year + 1, last, end);
      ProcessRangeProcessed(idx, end, year);
      FiltersAppend(pr, [Close(year)]);
      FiltersAppend(pr + [Close(year)], rest);
      assert Processed([Close(year)]) == [] by {
        assert [Close(year)][..0] == [];
      }
      if end < |years| {
        assert years[idx] <= years[end];
      }
      SortedProcessesAll(years, year + 1, last, end);
    }
  }

  /** `s` may come before `t`: the loop year never goes back, and nothing
      of a closed year follows its closing. */
  predicate Before(s: Step, t: Step) {
    s.year <= t.year && (s.Close? ==> s.year < t.year)
  }

  predicate Ordered(steps: seq<Step>) {
    forall p, q | 0 <= p < q < |steps| :: Before(steps[p], steps[q])
  }

  /** A transaction is processed in the iteration for its own year. */
  predicate InOwnYear(years: seq<int>, steps: seq<Step>) {
    forall p | 0 <= p < |steps| :: steps[p].Process? ==> 0 <= steps[p].index < |years| && years[steps[p].index] == steps[p].year
  }

  lemma OrderedConcat(a: seq<Step>, b: seq<Step>)
    requires Ordered(a) && Ordered(b)
    requires forall p, q | 0 <= p < |a| && 0 <= q < |b| :: Before(a[p], b[q])
    ensures Ordered(a + b)
  {
    var c := a + b;
    forall p, q | 0 <= p < q < |c| ensures Before(c[p], c[q]) {
      if q < |a| {
        assert c[p] == a[p] && c[q] == a[q];
      } else if p >= |a| {
        assert c[p] == b[p - |a|] && c[q] == b[q - |a|];
      } else {
        assert c[p] == a[p] && c[q] == b[q - |a|];
      }
    }
  }

  /** The schedule runs through the years in order, closes each year after
      its transactions and before any later one, and processes each
      transaction in its own year. */
  lemma {:induction false} ScheduleOrdered(years: seq<int>, year: int, last: int, idx: nat)
    requires idx <= |years|
    ensures var steps := ScheduleFrom(years, year, last, idx);
      && Ordered(steps) && InOwnYear(years, steps)
      && forall p | 0 <= p < |steps| :: steps[p].year >= year
    decreases last + 1 - year
  {
    if year <= last + 1 {
      var end := YearRun(years, year, idx);
      var pr := ProcessRange(idx, end, year);
      var head := pr + [Close(year)];
      var rest := ScheduleFrom(years, year + 1, last, end);
      ScheduleOrdered(years, year + 1, last, end);
      assert forall p | 0 <= p < |head| :: head[p].year == year && (head[p].Close? ==> p == |pr|);
      OrderedConcat(pr, [Close(year)]);
      OrderedConcat(head, rest);
      var steps := head + rest;
      forall p | 0 <= p < |steps| && steps[p].Process?
        ensures 0 <= steps[p].index < |years| && years[steps[p].index] == steps[p].year
      {
        if p >= |head| {
          assert steps[p] == rest[p - |head|];
        } else {
          assert steps[p] == pr[p];
        }
      }
    }
  }

  /** Each transaction the C# driver processes is processed after the
      closing of every earlier year and before the closing of its own. */
  lemma ProcessedBeforeItsClosing(years: seq<int>, p: int, q: int)
    requires |years| > 0
    requires 0 <= p < |CsSchedule(years)| && 0 <= q < |CsSchedule(years)|
    requires CsSchedule(years)[p].Process? && CsSchedule(years)[q].Close?
    ensures var i := CsSchedule(years)[p].index;
      0 <= i < |years| && (CsSchedule(years)[q].year >= years[i] <==> p < q)
  {
    var steps := CsSchedule(years);
    ScheduleOrdered(years, MinYear(years), MaxYear(years), 0);
    if p < q {
      assert Before(steps[p], steps[q]);
    } else {
      assert Before(steps[q], steps[p]);
    }
  }

  lemma YearsWithin(years: seq<int>)
    requires |years| > 0
    ensures forall i | 0 <= i < |years| :: MinYear(years) <= years[i] <= MaxYear(years) + 1
  {
    forall i | 0 <= i < |years| ensures MinYear(years) <= years[i] <= MaxYear(years) + 1 {
      assert years[i] in years;
    }
  }

  /** For transactions sorted by date, the C# driver processes every one,
      once, in list order. */
  lemma SortedProcessedOnce(years: seq<int>)
    requires |years| > 0 && Sorted(years)
    ensures var p := Processed(CsSchedule(years));
      |p| == |years| && forall t | 0 <= t < |p| :: p[t] == t
  {
    var first, last := MinYear(years), MaxYear(years);
    var steps := ScheduleFrom(years, first, last, 0);
    assert CsSchedule(years) == steps;
    YearsWithin(years);
    ProcessesPrefix(years, first, last, 0);
    SortedProcessesAll(years, first, last, 0);
  }

  /** The C# driver closes every year from the earliest through one past
      the latest, once each, in order, whatever the order of the list. */
  lemma CsClosesEveryYear(years: seq<int>)
    requires |years| > 0
    ensures var c := Closes(CsSchedule(years));
      |c| == MaxYear(years) - MinYear(years) + 2 && forall t | 0 <= t < |c| :: c[t] == MinYear(years) + t
  {
    var first, last := MinYear(years), MaxYear(years);
    assert CsSchedule(years) == ScheduleFrom(years, first, last, 0);
    ClosesEveryYear(years, first, last, 0);
  }

  lemma {:induction false} SortedBounds(years: seq<int>)
    requires |years| > 0 && Sorted(years)
    ensures MinYear(years) == years[0] && MaxYear(years) == years[|years| - 1]
  {
    if |years| > 1 {
      var tail := years[1..];
      assert Sorted(tail) by {
        forall i, j | 0 <= i < j < |tail| ensures tail[i] <= tail[j] {
          assert tail[i] == years[i + 1] && tail[j] == years[j + 1];
        }
      }
      SortedBounds(tail);
      assert years[0] <= years[1] && years[0] <= years[|years| - 1];
    }
  }

  /** On transactions sorted by date the two drivers make the same calls;
      without transactions C# makes none while Python raises. */
  lemma DriversAgreeWhenSorted(years: seq<int>)
    requires Sorted(years)
    ensures |years| > 0 ==> PySchedule(years) == Returned(CsSchedule(years))
    ensures |years| == 0 ==> CsSchedule(years) == [] && PySchedule(years) == Raised(IndexError("list index out of range"))
  {
    if |years| > 0 {
      SortedBounds(years);
    }
  }

  // The engine driven by the schedule

  /** The year each transaction is dated in. */
  function YearsOf(txs: seq<RawTransaction>): (years: seq<int>)
    ensures |years| == |txs| && forall k | 0 <= k < |txs| :: years[k] == DateOf(txs[k].dateTime).year
  {
    seq(|txs|, k requires 0 <= k < |txs| => DateOf(txs[k].dateTime).year)
  }

  /** The engine's standing assumption about its input: every buy is of a
      positive quantity. */
  predicate PositiveBuys(txs: seq<RawTransaction>) {
    forall k | 0 <= k < |txs| :: txs[k].action == Buy ==> txs[k].quantity > 0.0
  }

  /** Every transaction a schedule processes exists. */
  predicate Indexes(steps: seq<Step>, n: int) {
    forall p | 0 <= p < |steps| :: steps[p].Process? ==> 0 <= steps[p].index < n
  }

  lemma ScheduleIndexes(years: seq<int>)
    ensures Indexes(CsSchedule(years), |years|)
  {
    if |years| > 0 {
      ScheduleOrdered(years, MinYear(years), MaxYear(years), 0);
    }
  }

  /** One engine call of the schedule. */
  function CsApply(e: Engine, txs: seq<RawTransaction>, step: Step, instruments: InstrumentProvider,
                   rates: InterestProvider, prices: PriceProvider): (r: Engine)
    requires Valid(e) && PositiveBuys(txs) && (step.Process? ==> 0 <= step.index < |txs|)
    ensures Valid(r) && e.ledger <= r.ledger
  {
    match step
    case Process(i, _) =>
      ProcessKeepsValid(e, txs[i], instruments);
      ProcessTransaction(e, txs[i], instruments)
    case Close(year) =>
      ClosingKeepsHoldings(e, year, rates, prices, instruments);
      PerformYearEndClosing(e, year, rates, prices, instruments)
  }

  /** The engine after the calls of `steps`, in order. */
  function Run(e: Engine, txs: seq<RawTransaction>, steps: seq<Step>, instruments: InstrumentProvider,
               rates: InterestProvider, prices: PriceProvider): (r: Engine)
    requires Valid(e) && PositiveBuys(txs) && Indexes(steps, |txs|)
    ensures Valid(r) && e.ledger <= r.ledger
    decreases |steps|
  {
    if |steps| == 0 then e
    else Run(CsApply(e, txs, steps[0], instruments, rates, prices), txs, steps[1..], instruments, rates, prices)
  }

  /** Running two schedules one after the other is running their
      concatenation. */
  lemma {:induction false} RunAppend(e: Engine, txs: seq<RawTransaction>, a: seq<Step>, b: seq<Step>,
                                     instruments: InstrumentProvider, rates: InterestProvider, prices: PriceProvider)
    requires Valid(e) && PositiveBuys(txs) && Indexes(a, |txs|) && Indexes(b, |txs|)
    ensures Indexes(a + b, |txs|)
    ensures Run(e, txs, a + b, instruments, rates, prices)
         == Run(Run(e, txs, a, instruments, rates, prices), txs, b, instruments, rates, prices)
    decreases |a|
  {
    assert forall p | 0 <= p < |a + b| :: (a + b)[p] == if p < |a| then a[p] else b[p - |a|];
    if |a| > 0 {
      var next := CsApply(e, txs, a[0], instruments, rates, prices);
      assert (a + b)[1..] == a[1..] + b;
      RunAppend(next, txs, a[1..], b, instruments, rates, prices);
    } else {
      assert a + b == b;
    }
  }

  /** RunTaxReport: the engine after the whole schedule of the (date
      sorted) transactions, starting empty. */
  function RunTaxReport(txs: seq<RawTransaction>, instruments: InstrumentProvider,
                        rates: InterestProvider, prices: PriceProvider): (r: Engine)
    requires PositiveBuys(txs)
    ensures Valid(r)
    ensures |txs| == 0 ==> r == Empty()
  {
    ScheduleIndexes(YearsOf(txs));
    Run(Empty(), txs, CsSchedule(YearsOf(txs)), instruments, rates, prices)
  }

  // The Python driver

  function ToCSharpAll(txs: seq<PyRawTransaction>): (cs: seq<RawTransaction>)
    ensures |cs| == |txs| && forall k | 0 <= k < |txs| :: cs[k] == ToCSharp(txs[k])
  {
    seq(|txs|, k requires 0 <= k < |txs| => ToCSharp(txs[k]))
  }

  /** Processing keeps the Python engine valid, as it does the C# one. */
  lemma PyProcessKeepsValid(pe: PyEngine, tx: PyRawTransaction)
    requires Valid(AsCSharp(pe)) && (ActionOf(tx.action) == Buy ==> tx.quantity > 0.0)
    ensures tx.isin in pe.portfolio ==> Divisible(pe.portfolio[tx.isin])
    ensures Valid(AsCSharp(PyProcess(pe, tx)))
  {
    var cp := CsProvider(pe.instruments);
    assert PyInstrumentProvider(cp.instruments) == pe.instruments;
    ProcessAgrees(pe, tx, cp);
    var e, c := AsCSharp(pe), ToCSharp(tx);
    ProcessKeepsValid(e, c, cp);
    var x := ProcessTransaction(e, c, cp);
    if c.action == Wht {
      var date := DateOf(tx.dateTime);
      var y := x.(ledger := e.ledger + [WithholdingEvent(c, date, date.year).(rawProfit := 0.0)]);
      assert y.portfolio == x.portfolio && y.isins == x.isins;
      assert AsCSharp(PyProcess(pe, tx)) == y;
      assert Valid(y);
    } else if c.action == Int {
      assert AsCSharp(PyProcess(pe, tx)) == e;
    } else {
      assert AsCSharp(PyProcess(pe, tx)) == x;
    }
  }

  /** Closing keeps the Python engine valid, as it does the C# one. */
  lemma PyClosingKeepsValid(pe: PyEngine, year: int, rates: InterestProvider, prices: PriceProvider)
    requires Valid(AsCSharp(pe))
    ensures Valid(AsCSharp(PyPerformYearEndClosing(pe, year, rates, prices)))
  {
    var cp := CsProvider(pe.instruments);
    assert PyInstrumentProvider(cp.instruments) == pe.instruments;
    ClosingAgrees(pe, year, rates, prices, cp);
    ClosingKeepsHoldings(AsCSharp(pe), year, rates, prices, cp);
    var r := PerformYearEndClosing(AsCSharp(pe), year, rates, prices, cp);
    assert Valid(r);
    assert AsCSharp(PyPerformYearEndClosing(pe, year, rates, prices)) == r;
  }

  function PyApply(pe: PyEngine, txs: seq<PyRawTransaction>, step: Step,
                   rates: InterestProvider, prices: PriceProvider): (r: PyEngine)
    requires Valid(AsCSharp(pe)) && PositiveBuys(ToCSharpAll(txs)) && (step.Process? ==> 0 <= step.index < |txs|)
    ensures Valid(AsCSharp(r))
  {
    match step
    case Process(i, _) =>
      assert ToCSharpAll(txs)[i] == ToCSharp(txs[i]);
      PyProcessKeepsValid(pe, txs[i]);
      PyProcess(pe, txs[i])
    case Close(year) =>
      PyClosingKeepsValid(pe, year, rates, prices);
      PyPerformYearEndClosing(pe, year, rates, prices)
  }

  function PyRun(pe: PyEngine, txs: seq<PyRawTransaction>, steps: seq<Step>,
                 rates: InterestProvider, prices: PriceProvider): (r: PyEngine)
    requires Valid(AsCSharp(pe)) && PositiveBuys(ToCSharpAll(txs)) && Indexes(steps, |txs|)
    ensures Valid(AsCSharp(r))
    decreases |steps|
  {
    if |steps| == 0 then pe
    else PyRun(PyApply(pe, txs, steps[0], rates, prices), txs, steps[1..], rates, prices)
  }

  /** The engine `main` starts with. */
  function PyEmpty(instruments: PyInstrumentProvider): (pe: PyEngine)
    ensures AsCSharp(pe) == Empty()
  {
    PyEngine(map[], [], [], map[], instruments)
  }

  /** `main` after loading: the schedule from the first to the last
      transaction's year, run on a fresh engine; an empty list raises. */
  function PyMain(txs: seq<PyRawTransaction>, instruments: PyInstrumentProvider,
                  rates: InterestProvider, prices: PriceProvider): (r: Attempt<PyEngine>)
    requires PositiveBuys(ToCSharpAll(txs))
    ensures r.Raised? <==> |txs| == 0
    ensures r.Returned? ==> Valid(AsCSharp(r.value))
  {
    var years := YearsOf(ToCSharpAll(txs));
    var steps :- PySchedule(years);
    assert Indexes(steps, |txs|) by {
      ScheduleOrdered(years, years[0], years[|years| - 1], 0);
    }
    Returned(PyRun(PyEmpty(instruments), txs, steps, rates, prices))
  }

  /** Transactions whose actions both engines handle alike (everything but
      withholding tax and interest). */
  predicate HandledAlike(txs: seq<PyRawTransaction>) {
    forall k | 0 <= k < |txs| :: ActionOf(txs[k].action) in {Buy, Sell, Div, Unknown}
  }

  /** On such transactions the Python run is the C# run of their
      conversions, step for step. */
  lemma {:induction false} RunsAgree(pe: PyEngine, txs: seq<PyRawTransaction>, steps: seq<Step>,
                                     cp: InstrumentProvider, rates: InterestProvider, prices: PriceProvider)
    requires Valid(AsCSharp(pe)) && SameConfig(cp, pe.instruments)
    requires PositiveBuys(ToCSharpAll(txs)) && Indexes(steps, |txs|) && HandledAlike(txs)
    ensures AsCSharp(PyRun(pe, txs, steps, rates, prices))
         == Run(AsCSharp(pe), ToCSharpAll(txs), steps, cp, rates, prices)
    decreases |steps|
  {
    if |steps| > 0 {
      var next := PyApply(pe, txs, steps[0], rates, prices);
      match steps[0] {
        case Process(i, _) =>
          ProcessAgrees(pe, txs[i], cp);
        case Close(year) =>
          ClosingAgrees(pe, year, rates, prices, cp);
      }
      assert AsCSharp(next) == CsApply(AsCSharp(pe), ToCSharpAll(txs), steps[0], cp, rates, prices);
      RunsAgree(next, txs, steps[1..], cp, rates, prices);
    }
  }

  /** The two drivers end in the same engine state on transactions sorted
      by date that both engines handle alike, given the same configured
      instruments; on no transactions C# reports an empty engine where
      Python raises. */
  lemma MainsAgree(txs: seq<PyRawTransaction>, cp: InstrumentProvider, rates: InterestProvider, prices: PriceProvider)
    requires PositiveBuys(ToCSharpAll(txs)) && HandledAlike(txs)
    requires Sorted(YearsOf(ToCSharpAll(txs)))
    ensures var r := PyMain(txs, PyInstrumentProvider(cp.instruments), rates, prices);
      && (|txs| == 0 ==> r == Raised(IndexError("list index out of range")) && RunTaxReport(ToCSharpAll(txs), cp, rates, prices) == Empty())
      && (|txs| > 0 ==> r.Returned? && AsCSharp(r.value) == RunTaxReport(ToCSharpAll(txs), cp, rates, prices))
  {
    var years := YearsOf(ToCSharpAll(txs));
    DriversAgreeWhenSorted(years);
    if |txs| > 0 {
      var steps := CsSchedule(years);
      ScheduleIndexes(years);
      var pe := PyEmpty(PyInstrumentProvider(cp.instruments));
      RunsAgree(pe, txs, steps, cp, rates, prices);
    }
  }
}
