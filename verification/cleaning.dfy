/** The two cancellation cleaners as instances of the generic one: the C#
    IbkrXmlLoader.CleanCancellations and the Python `_clean_cancellations`.
    They differ in how a correction is recognised, in the match tolerance
    (strictly below 0.05 in C#, up to 0.05 inclusive in Python), in Python
    passing over candidates that are corrections themselves, and in Python
    failing on a transaction without an action. */
module Cleaning {
  import opened Wrappers
  import opened Text
  import opened Decimals
  import opened Models
  import opened PyModels
  import opened Reconcile

  // C#

  /** The marker the C# parser appends to the description of a
      correction. */
  const CancelMarker := "[CANCEL]"

  predicate CsIsCorrection(tx: RawTransaction) {
    Contains(tx.description, CancelMarker)
  }

  /** The C# match: same symbol, opposite quantity, and amounts cancelling
      to strictly less than 0.05. */
  predicate CsMatches(tx: RawTransaction, candidate: RawTransaction) {
    && candidate.symbol == tx.symbol
    && candidate.quantity == -tx.quantity
    && Abs(candidate.amountEur + tx.amountEur) < 0.05
  }

  const CsRules: Rules<RawTransaction> := Rules(CsIsCorrection, CsMatches, false)

  /** IbkrXmlLoader.CleanCancellations. */
  method CsCleanCancellations(xs: seq<RawTransaction>) returns (out: seq<RawTransaction>)
    ensures out == Clean(CsRules, xs)
    ensures forall t | 0 <= t < |out| :: !Contains(out[t].description, CancelMarker)
    ensures |xs| - |out| <= 2 * Corrections(CsRules, xs, |xs|)
  {
    out := CleanCancellations(CsRules, xs);
    CleanKeepsOrder(CsRules, xs);
    CleanLength(CsRules, xs);
  }

  /** A transaction that no later correction matches survives the C#
      cleaner, and one that is not a correction is removed only when a later
      correction matches it. */
  lemma CsKeepsUncancelled(xs: seq<RawTransaction>, k: int)
    requires 0 <= k < |xs| && !CsIsCorrection(xs[k])
    ensures k !in Removed(CsRules, xs, |xs|)
        <== forall i | k < i < |xs| :: !(CsIsCorrection(xs[i]) && CsMatches(xs[i], xs[k]))
  {
    if k in Removed(CsRules, xs, |xs|) {
      RemovedOnlyWhenCancelled(CsRules, xs, |xs|, k);
    }
  }

  // Python

  /** `"Ca." in tx.action or "(Ca.)" in tx.description`, for a transaction
      whose action is present. */
  predicate PyIsCorrection(tx: PyRawTransaction) {
    (tx.action.Some? && Contains(tx.action.value, "Ca.")) || Contains(tx.description, "(Ca.)")
  }

  const PyRules: Rules<PyRawTransaction> := Rules(PyIsCorrection, IsCancellationOf, true)

  /** The error Python raises when testing `"Ca." in None`. */
  const NoneActionError := TypeError("argument of type 'NoneType' is not iterable")

  /** `_clean_cancellations`: it fails on the first transaction without an
      action, and otherwise cleans with the Python rules. */
  function PyClean(xs: seq<PyRawTransaction>): (r: Attempt<seq<PyRawTransaction>>)
    ensures r.Raised? <==> exists k | 0 <= k < |xs| :: xs[k].action.None?
    ensures r.Returned? ==> r.value == Clean(PyRules, xs)
  {
    if exists k | 0 <= k < |xs| :: xs[k].action.None? then Raised(NoneActionError)
    else Returned(Clean(PyRules, xs))
  }

  /** The Python loop as written: the correction and its original are
      removed together after the search, and the search passes over
      corrections. */
  method PyCleanCancellations(xs: seq<PyRawTransaction>) returns (r: Attempt<seq<PyRawTransaction>>)
    ensures r == PyClean(xs)
  {
    var removed: set<int> := {};
    for i := 0 to |xs|
      invariant removed == Removed(PyRules, xs, i)
      invariant forall k | 0 <= k < i :: xs[k].action.Some?
    {
      var tx := xs[i];
      if tx.action.None? {
        return Raised(NoneActionError);
      }
      if PyIsCorrection(tx) {
        var matched := false;
        var j := i - 1;
        while j >= 0
          invariant -1 <= j < i
          invariant forall k | j < k < i :: !Eligible(PyRules, xs, i, removed, k)
          decreases j
        {
          if j !in removed && !PyIsCorrection(xs[j]) && IsCancellationOf(tx, xs[j]) {
            assert Eligible(PyRules, xs, i, removed, j);
            NearestMatchIsHighest(PyRules, xs, i, removed, i, j);
            removed := removed + {i, j};
            matched := true;
            break;
          }
          j := j - 1;
        }
        if !matched {
          NearestMatchNone(PyRules, xs, i, removed, i);
          removed := removed + {i};
        }
      }
    }
    var out := [];
    for k := 0 to |xs|
      invariant out == Keep(xs, removed, k)
    {
      if k !in removed {
        out := out + [xs[k]];
      }
    }
    return Returned(out);
  }

  /** Every Python correction is gone from the output, and the survivors
      keep their order. */
  lemma PyCleanKeepsOrder(xs: seq<PyRawTransaction>)
    requires PyClean(xs).Returned?
    ensures var out := PyClean(xs).value;
      var idx := KeptIndices(Removed(PyRules, xs, |xs|), |xs|);
      && |out| == |idx|
      && (forall t | 0 <= t < |out| :: out[t] == xs[idx[t]] && !PyIsCorrection(out[t]))
      && (forall s, t | 0 <= s < t < |idx| :: idx[s] < idx[t])
  {
    CleanKeepsOrder(PyRules, xs);
  }

  /** The Python guard that skips corrections as candidates never changes
      the outcome. */
  lemma PyGuardRedundant(xs: seq<PyRawTransaction>)
    ensures Clean(PyRules, xs) == Clean(PyRules.(skipCorrections := false), xs)
  {
    SkippingCorrectionsIsRedundant(PyRules, xs, |xs|);
  }

  // The twins compared

  /** The C# and Python decisions on the same transaction: C# sees the
      marker its parser wrote where Python sees "Ca." or "(Ca.)". */
  predicate Twins(c: RawTransaction, p: PyRawTransaction) {
    && p.action.Some?
    && CsIsCorrection(c) == PyIsCorrection(p)
    && c.symbol == p.symbol && c.quantity == p.quantity && c.amountEur == p.amountEur
  }

  /** On twin lists in which no correction and candidate cancel to exactly
      0.05, both cleaners remove the same indices, so their outputs are
      twins in the same order. */
  lemma TwinsCleanAlike(cs: seq<RawTransaction>, ps: seq<PyRawTransaction>)
    requires |cs| == |ps| && forall k | 0 <= k < |cs| :: Twins(cs[k], ps[k])
    requires forall i, j | 0 <= j < i < |ps| :: Abs(ps[i].amountEur + ps[j].amountEur) != 0.05
    ensures PyClean(ps).Returned?
    ensures Removed(CsRules, cs, |cs|) == Removed(PyRules, ps, |ps|)
  {
    var pa := PyRules.(skipCorrections := false);
    SkippingCorrectionsIsRedundant(PyRules, ps, |ps|);
    forall i, j | 0 <= j < i < |cs| ensures CsMatches(cs[i], cs[j]) == pa.matches(ps[i], ps[j]) {
      assert cs[j].amountEur + cs[i].amountEur == ps[i].amountEur + ps[j].amountEur;
    }
    SameDecisionsSameRemoved(CsRules, cs, pa, ps, |cs|);
  }

  /** A correction and its original that cancel to exactly 0.05 are both
      removed by Python, but C# keeps the original and drops only the
      correction. */
  lemma ToleranceDiverges(co: RawTransaction, cc: RawTransaction, po: PyRawTransaction, pc: PyRawTransaction)
    requires Twins(co, po) && Twins(cc, pc)
    requires !PyIsCorrection(po) && PyIsCorrection(pc)
    requires po.symbol == pc.symbol && po.quantity == -pc.quantity && po.amountEur + pc.amountEur == 0.05
    ensures Clean(CsRules, [co, cc]) == [co]
    ensures PyClean([po, pc]) == Returned([])
  {
    var cs, ps := [co, cc], [po, pc];
    assert Removed(CsRules, cs, 1) == {} && Removed(PyRules, ps, 1) == {};
    assert NearestMatch(CsRules, cs, 1, {}, 1) == None by {
      assert !Eligible(CsRules, cs, 1, {}, 0);
    }
    assert Removed(CsRules, cs, 2) == {1};
    assert Keep(cs, {1}, 1) == [co];
    assert Clean(CsRules, cs) == Keep(cs, {1}, 2) == [co];
    assert NearestMatch(PyRules, ps, 1, {}, 1) == Some(0) by {
      assert Eligible(PyRules, ps, 1, {}, 0);
    }
    assert Removed(PyRules, ps, 2) == {0, 1};
    assert Keep(ps, {0, 1}, 1) == [];
    assert Clean(PyRules, ps) == Keep(ps, {0, 1}, 2) == [];
    assert ps[0].action.Some? && ps[1].action.Some?;
  }
}
