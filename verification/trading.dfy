/** The moving-average rule of TradingEngine: which symbols get a signal,
    whether the signal says buy, and how a buy signal becomes a whole
    number of shares. The price history comes from a provider outside this
    model and is a parameter giving each symbol's closes, oldest first.
    A dictionary the engine fills is modelled by its entries in insertion
    order, which is the order it enumerates them in. */
module Trading {
  import opened Wrappers
  import opened Decimals

  /** The length of the moving-average window. */
  const MovingAverageDays := 150

  datatype Signal = Signal(isBuySignal: bool, movingAverage: real, lastClose: real)

  datatype Holding = Holding(shares: int, value: real)

  const DuplicateKeyMessage := "An item with the same key has already been added. Key: "
  const DivideByZeroMessage := "Attempted to divide by zero."
  const Int32OverflowMessage := "Value was either too large or too small for an Int32."

  function Sum(xs: seq<real>): real {
    if |xs| == 0 then 0.0 else Sum(xs[..|xs| - 1]) + xs[|xs| - 1]
  }

  /** The closes a signal averages: the last 150. */
  function Window(closes: seq<real>): (w: seq<real>)
    requires |closes| >= MovingAverageDays
    ensures |w| == MovingAverageDays && w[|w| - 1] == closes[|closes| - 1]
  {
    closes[|closes| - MovingAverageDays..]
  }

  /** The signal for one symbol's history: none with fewer than 150 closes;
      otherwise buy when the last close is above the mean of the last 150. */
  function SignalOf(closes: seq<real>): (r: Option<Signal>)
    ensures r.Some? <==> |closes| >= MovingAverageDays
    ensures r.Some? ==> r.value.lastClose == closes[|closes| - 1]
  {
    if |closes| < MovingAverageDays then None
    else
      var average := Sum(Window(closes)) / MovingAverageDays as real;
      var lastClose := closes[|closes| - 1];
      Some(Signal(lastClose > average, average, lastClose))
  }

  /** One more term of the same bound adds the bound once more. */
  lemma CountStep(k: real, v: real)
    ensures (k + 1.0) * v == k * v + v
  {
  }

  /** Bounds on a sum from bounds on its terms. */
  lemma {:induction false} SumAtLeast(xs: seq<real>, lo: real)
    requires forall i | 0 <= i < |xs| :: lo <= xs[i]
    ensures |xs| as real * lo <= Sum(xs)
  {
    if |xs| > 0 {
      var init := xs[..|xs| - 1];
      assert forall i | 0 <= i < |init| :: init[i] == xs[i];
      SumAtLeast(init, lo);
      assert |xs| as real == |init| as real + 1.0;
      CountStep(|init| as real, lo);
    }
  }

  lemma {:induction false} SumAtMost(xs: seq<real>, hi: real)
    requires forall i | 0 <= i < |xs| :: xs[i] <= hi
    ensures Sum(xs) <= |xs| as real * hi
  {
    if |xs| > 0 {
      var init := xs[..|xs| - 1];
      assert forall i | 0 <= i < |init| :: init[i] == xs[i];
      SumAtMost(init, hi);
      assert |xs| as real == |init| as real + 1.0;
      CountStep(|init| as real, hi);
    }
  }

  /** Strict when every term is strictly below the bound. */
  lemma {:induction false} SumBelow(xs: seq<real>, hi: real)
    requires |xs| > 0 && forall i | 0 <= i < |xs| :: xs[i] < hi
    ensures Sum(xs) < |xs| as real * hi
  {
    var init := xs[..|xs| - 1];
    assert forall i | 0 <= i < |init| :: init[i] == xs[i];
    if |init| > 0 {
      SumBelow(init, hi);
    }
    assert |xs| as real == |init| as real + 1.0;
    CountStep(|init| as real, hi);
  }

  /** The closes before the last one inside the window. */
  function Earlier(closes: seq<real>): (e: seq<real>)
    requires |closes| >= MovingAverageDays
    ensures |e| == MovingAverageDays - 1
    ensures forall i | 0 <= i < |e| :: e[i] == Window(closes)[i]
  {
    Window(closes)[..MovingAverageDays - 1]
  }

  /** A buy signal is a last close above the mean of the 149 closes before
      it in the window, and only that. */
  lemma BuyIffAboveEarlierMean(closes: seq<real>)
    requires |closes| >= MovingAverageDays
    ensures SignalOf(closes).value.isBuySignal
        <==> (MovingAverageDays - 1) as real * closes[|closes| - 1] > Sum(Earlier(closes))
  {
    var w := Window(closes);
    assert w[..|w| - 1] == Earlier(closes);
    assert Sum(w) == Sum(Earlier(closes)) + closes[|closes| - 1];
  }

  /** A last close above every earlier close of the window is a buy signal;
      one at or below every earlier close is not. */
  lemma SignalAtExtremes(closes: seq<real>)
    requires |closes| >= MovingAverageDays
    ensures (forall i | |closes| - MovingAverageDays <= i < |closes| - 1 :: closes[i] < closes[|closes| - 1])
            ==> SignalOf(closes).value.isBuySignal
    ensures (forall i | |closes| - MovingAverageDays <= i < |closes| - 1 :: closes[i] >= closes[|closes| - 1])
            ==> !SignalOf(closes).value.isBuySignal
  {
    var last := closes[|closes| - 1];
    var e := Earlier(closes);
    var n := |closes| - MovingAverageDays;
    assert forall i | 0 <= i < |e| :: e[i] == closes[n + i];
    BuyIffAboveEarlierMean(closes);
    if forall i | n <= i < |closes| - 1 :: closes[i] < last {
      assert forall i | 0 <= i < |e| :: e[i] < last by {
        forall i | 0 <= i < |e| ensures e[i] < last {
          assert e[i] == closes[n + i];
        }
      }
      SumBelow(e, last);
    }
    if forall i | n <= i < |closes| - 1 :: closes[i] >= last {
      assert forall i | 0 <= i < |e| :: last <= e[i] by {
        forall i | 0 <= i < |e| ensures last <= e[i] {
          assert e[i] == closes[n + i];
        }
      }
      SumAtLeast(e, last);
    }
  }

  /** The moving average lies between the lowest and the highest close of
      the window. */
  lemma AverageWithinWindow(closes: seq<real>, lo: real, hi: real)
    requires |closes| >= MovingAverageDays
    requires forall i | |closes| - MovingAverageDays <= i < |closes| :: lo <= closes[i] <= hi
    ensures lo <= SignalOf(closes).value.movingAverage <= hi
  {
    var w := Window(closes);
    var n := |closes| - MovingAverageDays;
    forall i | 0 <= i < |w| ensures lo <= w[i] <= hi {
      assert w[i] == closes[n + i];
    }
    SumAtLeast(w, lo);
    SumAtMost(w, hi);
  }

  /** The dictionary given by its entries holds key `k`. */
  predicate HasKey<V>(entries: seq<(string, V)>, k: string) {
    exists i | 0 <= i < |entries| :: entries[i].0 == k
  }

  /** No key occurs twice. */
  predicate DistinctKeys<V>(entries: seq<(string, V)>) {
    forall i, j | 0 <= i < j < |entries| :: entries[i].0 != entries[j].0
  }

  /** GetTradingSignals: one entry per symbol with enough history, in the
      order given; a symbol given twice with enough history makes
      Dictionary.Add raise. */
  function Signals(symbols: seq<string>, history: string -> seq<real>): (r: Attempt<seq<(string, Signal)>>)
    ensures r.Returned? ==> |r.value| <= |symbols|
  {
    if |symbols| == 0 then Returned([])
    else
      var entries :- Signals(symbols[..|symbols| - 1], history);
      var symbol := symbols[|symbols| - 1];
      match SignalOf(history(symbol))
      case None => Returned(entries)
      case Some(signal) =>
        if HasKey(entries, symbol) then Raised(ArgumentError(DuplicateKeyMessage + symbol))
        else Returned(entries + [(symbol, signal)])
  }

  /** The signals hold exactly the given symbols with enough history, each
      once, with the signal of its history. */
  lemma {:induction false} SignalsContents(symbols: seq<string>, history: string -> seq<real>)
    requires Signals(symbols, history).Returned?
    ensures var entries := Signals(symbols, history).value;
      && (forall i | 0 <= i < |entries| :: entries[i].0 in symbols && SignalOf(history(entries[i].0)) == Some(entries[i].1))
      && (forall s <- symbols :: SignalOf(history(s)).Some? ==> HasKey(entries, s))
      && DistinctKeys(entries)
  {
    if |symbols| > 0 {
      var init := symbols[..|symbols| - 1];
      var symbol := symbols[|symbols| - 1];
      SignalsContents(init, history);
      var entries := Signals(init, history).value;
      assert forall s <- init :: s in symbols;
      assert forall s <- symbols :: s in init || s == symbol by {
        forall s <- symbols ensures s in init || s == symbol {
          var k :| 0 <= k < |symbols| && symbols[k] == s;
          if k < |symbols| - 1 {
            assert init[k] == s;
          }
        }
      }
      match SignalOf(history(symbol))
      case None =>
      case Some(signal) =>
        var out := entries + [(symbol, signal)];
        assert out[|entries|] == (symbol, signal);
        assert forall i | 0 <= i < |entries| :: out[i] == entries[i];
        assert forall s | HasKey(entries, s) :: HasKey(out, s) by {
          forall s | HasKey(entries, s) ensures HasKey(out, s) {
            var k :| 0 <= k < |entries| && entries[k].0 == s;
            assert out[k].0 == s;
          }
        }
    }
  }

  /** Some symbol with enough history is given twice. */
  predicate Repeated(symbols: seq<string>, history: string -> seq<real>) {
    exists i, j | 0 <= i < j < |symbols| :: symbols[i] == symbols[j] && SignalOf(history(symbols[i])).Some?
  }

  lemma {:induction false} RaisesOnlyOnRepeats(symbols: seq<string>, history: string -> seq<real>)
    requires Signals(symbols, history).Raised?
    ensures Repeated(symbols, history)
  {
    var init := symbols[..|symbols| - 1];
    var symbol := symbols[|symbols| - 1];
    if Signals(init, history).Raised? {
      RaisesOnlyOnRepeats(init, history);
      var i, j :| 0 <= i < j < |init| && init[i] == init[j] && SignalOf(history(init[i])).Some?;
      assert symbols[i] == init[i] && symbols[j] == init[j];
    } else {
      SignalsContents(init, history);
      var entries := Signals(init, history).value;
      var k :| 0 <= k < |entries| && entries[k].0 == symbol;
      var i :| 0 <= i < |init| && init[i] == symbol;
      assert symbols[i] == symbols[|symbols| - 1];
    }
  }

  lemma {:induction false} RepeatsRaise(symbols: seq<string>, history: string -> seq<real>)
    requires Repeated(symbols, history)
    ensures Signals(symbols, history).Raised?
  {
    var init := symbols[..|symbols| - 1];
    var i, j :| 0 <= i < j < |symbols| && symbols[i] == symbols[j] && SignalOf(history(symbols[i])).Some?;
    if Signals(init, history).Returned? {
      if j < |symbols| - 1 {
        assert init[i] == symbols[i] && init[j] == symbols[j];
        RepeatsRaise(init, history);
      } else {
        SignalsContents(init, history);
        assert init[i] in init;
      }
    }
  }

  /** A symbol that enough history backs and that is given twice is what
      makes the signals raise. */
  lemma SignalsRaiseOnRepeats(symbols: seq<string>, history: string -> seq<real>)
    ensures Signals(symbols, history).Raised? <==> Repeated(symbols, history)
  {
    if Signals(symbols, history).Raised? {
      RaisesOnlyOnRepeats(symbols, history);
    }
    if Repeated(symbols, history) {
      RepeatsRaise(symbols, history);
    }
  }

  /** The position CalculatePortfolioAllocation takes for one symbol: the
      target value over the last close, truncated toward zero to an Int32,
      and what those shares are worth. */
  function Position(netLiqValue: real, targetAllocation: real, lastClose: real): (r: Attempt<Holding>)
    ensures lastClose == 0.0 ==> r == Raised(DivideByZero(DivideByZeroMessage))
    ensures r.Returned? ==> Int32Min <= r.value.shares <= Int32Max && r.value.value == r.value.shares as real * lastClose
  {
    if lastClose == 0.0 then Raised(DivideByZero(DivideByZeroMessage))
    else
      var targetValue := netLiqValue * targetAllocation;
      var shares := Truncate(targetValue / lastClose);
      if shares < Int32Min || shares > Int32Max then Raised(OverflowError(Int32OverflowMessage))
      else Returned(Holding(shares, shares as real * lastClose))
  }

  lemma PositiveProduct(a: real, c: real)
    requires a > 0.0 && c > 0.0
    ensures a * c > 0.0
  {
  }

  lemma QuotientTimesDivisor(t: real, c: real)
    requires c != 0.0
    ensures (t / c) * c == t
  {
  }

  lemma OneStepAbove(x: real, t: real, c: real, m: real)
    requires c > 0.0 && x * c == t && m <= x < m + 1.0
    ensures t - m * c < c
  {
    PositiveProduct(m + 1.0 - x, c);
  }

  lemma OneStepBelow(x: real, t: real, c: real, m: real)
    requires c > 0.0 && x * c == t && m - 1.0 < x <= m
    ensures m * c - t < c
  {
    PositiveProduct(x - m + 1.0, c);
  }

  lemma NotAbove(x: real, t: real, c: real, m: real)
    requires c > 0.0 && x * c == t && m <= x
    ensures m * c <= t
  {
    if m < x { PositiveProduct(x - m, c); }
  }

  lemma NotBelow(x: real, t: real, c: real, m: real)
    requires c > 0.0 && x * c == t && x <= m
    ensures t <= m * c
  {
    if x < m { PositiveProduct(m - x, c); }
  }

  /** A whole number `m` of steps `c` within one step of `x` toward zero,
      measured against `t`, the value of `x` steps. */
  lemma StepsWithinOne(x: real, t: real, c: real, m: real)
    requires c > 0.0 && x * c == t
    requires x >= 0.0 ==> 0.0 <= m <= x < m + 1.0
    requires x < 0.0 ==> m - 1.0 < x <= m <= 0.0
    ensures t >= 0.0 ==> 0.0 <= m * c <= t && t - m * c < c
    ensures t < 0.0 ==> t <= m * c <= 0.0 && m * c - t < c
  {
    if x >= 0.0 {
      NotBelow(0.0, 0.0, c, m);
      NotAbove(x, t, c, m);
      OneStepAbove(x, t, c, m);
      NotAbove(x, t, c, 0.0);
    } else {
      NotAbove(0.0, 0.0, c, m);
      NotBelow(x, t, c, m);
      OneStepBelow(x, t, c, m);
      PositiveProduct(-x, c);
    }
  }

  /** Truncating a quotient `x` of `t` by `c` toward zero and multiplying
      back lands on the zero side of `t`, by less than `c`. */
  lemma TruncatedMultiple(x: real, t: real, c: real, n: int)
    requires c > 0.0 && x * c == t && n == Truncate(x)
    ensures t >= 0.0 ==> 0.0 <= n as real * c <= t && t - n as real * c < c
    ensures t < 0.0 ==> t <= n as real * c <= 0.0 && n as real * c - t < c
  {
    StepsWithinOne(x, t, c, n as real);
  }

  /** At a positive price, the position is the largest whole number of
      shares worth no more than a non-negative target; for a negative
      target it is the smallest worth no less. Either way it misses the
      target by less than one share. */
  lemma PositionNearTarget(netLiqValue: real, targetAllocation: real, lastClose: real)
    requires lastClose > 0.0 && Position(netLiqValue, targetAllocation, lastClose).Returned?
    ensures var targetValue := netLiqValue * targetAllocation;
      var h := Position(netLiqValue, targetAllocation, lastClose).value;
      && (targetValue >= 0.0 ==> 0.0 <= h.value <= targetValue && targetValue - h.value < lastClose)
      && (targetValue < 0.0 ==> targetValue <= h.value <= 0.0 && h.value - targetValue < lastClose)
  {
    var targetValue := netLiqValue * targetAllocation;
    var h := Position(netLiqValue, targetAllocation, lastClose).value;
    QuotientTimesDivisor(targetValue, lastClose);
    TruncatedMultiple(targetValue / lastClose, targetValue, lastClose, h.shares);
  }

  /** A signal entry CalculatePortfolioAllocation takes a position for. */
  predicate Eligible(entry: (string, Signal), allocation: map<string, real>) {
    entry.1.isBuySignal && entry.0 in allocation
  }

  function PositionFor(netLiqValue: real, entry: (string, Signal), allocation: map<string, real>): Attempt<Holding>
    requires Eligible(entry, allocation)
  {
    Position(netLiqValue, allocation[entry.0], entry.1.lastClose)
  }

  /** CalculatePortfolioAllocation over the signal entries in their order:
      a position for every buy signal with an allocation; the first
      position that raises ends the call. */
  function Allocate(netLiqValue: real, signals: seq<(string, Signal)>, allocation: map<string, real>): (r: Attempt<map<string, Holding>>)
    ensures r.Returned? ==> forall s <- r.value :: s in allocation
  {
    if |signals| == 0 then Returned(map[])
    else
      var portfolio :- Allocate(netLiqValue, signals[..|signals| - 1], allocation);
      var entry := signals[|signals| - 1];
      if !Eligible(entry, allocation) then Returned(portfolio)
      else
        var holding :- PositionFor(netLiqValue, entry, allocation);
        if entry.0 in portfolio then Raised(ArgumentError(DuplicateKeyMessage + entry.0))
        else Returned(portfolio[entry.0 := holding])
  }

  /** The allocation holds a position for every buy signal with an
      allocation entry, the one Position gives, and nothing else. */
  lemma {:induction false} AllocatePositions(netLiqValue: real, signals: seq<(string, Signal)>, allocation: map<string, real>)
    requires Allocate(netLiqValue, signals, allocation).Returned?
    ensures var portfolio := Allocate(netLiqValue, signals, allocation).value;
      && (forall s <- portfolio :: exists i | 0 <= i < |signals| :: signals[i].0 == s && Eligible(signals[i], allocation))
      && (forall i | 0 <= i < |signals| && Eligible(signals[i], allocation) ::
            signals[i].0 in portfolio && PositionFor(netLiqValue, signals[i], allocation) == Returned(portfolio[signals[i].0]))
  {
    if |signals| > 0 {
      var init := signals[..|signals| - 1];
      var entry := signals[|signals| - 1];
      AllocatePositions(netLiqValue, init, allocation);
      assert forall i | 0 <= i < |init| :: init[i] == signals[i];
      var portfolio := Allocate(netLiqValue, init, allocation).value;
      if Eligible(entry, allocation) {
        var holding := PositionFor(netLiqValue, entry, allocation).value;
        var out := portfolio[entry.0 := holding];
        assert Allocate(netLiqValue, signals, allocation).value == out;
        forall s <- out ensures exists i | 0 <= i < |signals| :: signals[i].0 == s && Eligible(signals[i], allocation) {
          if s != entry.0 {
            var i :| 0 <= i < |init| && init[i].0 == s && Eligible(init[i], allocation);
            assert signals[i] == init[i];
          }
        }
      }
    }
  }

  /** The position of one buy signal with an allocation entry. */
  lemma EligiblePosition(netLiqValue: real, signals: seq<(string, Signal)>, allocation: map<string, real>, i: int)
    requires Allocate(netLiqValue, signals, allocation).Returned?
    requires 0 <= i < |signals| && Eligible(signals[i], allocation)
    ensures signals[i].0 in Allocate(netLiqValue, signals, allocation).value
    ensures PositionFor(netLiqValue, signals[i], allocation)
         == Returned(Allocate(netLiqValue, signals, allocation).value[signals[i].0])
  {
    AllocatePositions(netLiqValue, signals, allocation);
  }

  lemma NonNegativeProduct(a: real, b: real)
    requires a >= 0.0 && b >= 0.0
    ensures a * b >= 0.0
  {
  }

  /** With positive closes, a non-negative net liquidation value and
      non-negative allocations, every position stays within its target by
      less than one share. */
  lemma AllocationWithinTargets(netLiqValue: real, signals: seq<(string, Signal)>, allocation: map<string, real>, i: int)
    requires Allocate(netLiqValue, signals, allocation).Returned?
    requires 0 <= i < |signals| && Eligible(signals[i], allocation)
    requires netLiqValue >= 0.0 && allocation[signals[i].0] >= 0.0 && signals[i].1.lastClose > 0.0
    ensures var portfolio := Allocate(netLiqValue, signals, allocation).value;
      var targetValue := netLiqValue * allocation[signals[i].0];
      && signals[i].0 in portfolio
      && 0.0 <= portfolio[signals[i].0].value <= targetValue
      && targetValue - portfolio[signals[i].0].value < signals[i].1.lastClose
  {
    EligiblePosition(netLiqValue, signals, allocation, i);
    NonNegativeProduct(netLiqValue, allocation[signals[i].0]);
    PositionNearTarget(netLiqValue, allocation[signals[i].0], signals[i].1.lastClose);
  }
}
