/** The cancellation cleaner both loaders run over the date-sorted
    transactions (IbkrXmlLoader.CleanCancellations and `_clean_cancellations`).
    Each correction is removed, and it takes with it the nearest earlier
    transaction, not yet removed, that it cancels; what is left keeps its
    order. The algorithm is stated once over any element type, with the rules
    that tell a correction and a match as parameters. */
module Reconcile {
  import opened Wrappers

  /** How corrections are recognised and matched. `matches(tx, candidate)`
      asks whether correction `tx` cancels `candidate`; with
      `skipCorrections` a candidate that is itself a correction is passed
      over. */
  datatype Rules<-T> = Rules(isCorrection: T -> bool, matches: (T, T) -> bool, skipCorrections: bool)

  /** Index `j` can be the original of the correction at `i`, given the
      indices removed so far. */
  predicate Eligible<T>(r: Rules<T>, xs: seq<T>, i: int, removed: set<int>, j: int)
    requires 0 <= j < i < |xs|
  {
    && j !in removed
    && (!r.skipCorrections || !r.isCorrection(xs[j]))
    && r.matches(xs[i], xs[j])
  }

  /** The backward search below `hi`: the largest eligible index. */
  function NearestMatch<T>(r: Rules<T>, xs: seq<T>, i: int, removed: set<int>, hi: int): (m: Option<int>)
    requires 0 <= hi <= i < |xs|
    ensures m.Some? ==> 0 <= m.value < hi && Eligible(r, xs, i, removed, m.value)
    ensures m.Some? ==> forall k | m.value < k < hi :: !Eligible(r, xs, i, removed, k)
    ensures m.None? ==> forall k | 0 <= k < hi :: !Eligible(r, xs, i, removed, k)
    decreases hi
  {
    if hi == 0 then None
    else if Eligible(r, xs, i, removed, hi - 1) then Some(hi - 1)
    else NearestMatch(r, xs, i, removed, hi - 1)
  }

  /** What the search finds is determined by the properties the search
      promises: it is the one index that is eligible with nothing eligible
      above it. */
  lemma {:induction false} NearestMatchIsHighest<T>(r: Rules<T>, xs: seq<T>, i: int, removed: set<int>, hi: int, j: int)
    requires 0 <= j < hi <= i < |xs|
    requires Eligible(r, xs, i, removed, j)
    requires forall k | j < k < hi :: !Eligible(r, xs, i, removed, k)
    ensures NearestMatch(r, xs, i, removed, hi) == Some(j)
    decreases hi
  {
    if hi - 1 != j {
      NearestMatchIsHighest(r, xs, i, removed, hi - 1, j);
    }
  }

  lemma {:induction false} NearestMatchNone<T>(r: Rules<T>, xs: seq<T>, i: int, removed: set<int>, hi: int)
    requires 0 <= hi <= i < |xs|
    requires forall k | 0 <= k < hi :: !Eligible(r, xs, i, removed, k)
    ensures NearestMatch(r, xs, i, removed, hi) == None
    decreases hi
  {
    if hi > 0 {
      NearestMatchNone(r, xs, i, removed, hi - 1);
    }
  }

  /** One iteration of the outer loop: a correction is removed, and so is
      its nearest match if there is one. */
  function Step<T>(r: Rules<T>, xs: seq<T>, i: int, removed: set<int>): set<int>
    requires 0 <= i < |xs|
  {
    if !r.isCorrection(xs[i]) then removed
    else match NearestMatch(r, xs, i, removed, i)
      case None => removed + {i}
      case Some(j) => removed + {i, j}
  }

  /** The indices removed after the outer loop has visited the first `n`
      elements. */
  function Removed<T>(r: Rules<T>, xs: seq<T>, n: int): (removed: set<int>)
    requires 0 <= n <= |xs|
    ensures forall k <- removed :: 0 <= k < n
    decreases n
  {
    if n == 0 then {} else Step(r, xs, n - 1, Removed(r, xs, n - 1))
  }

  /** The elements of the first `n` whose index is not in `removed`, in
      order. */
  function Keep<T>(xs: seq<T>, removed: set<int>, n: int): seq<T>
    requires 0 <= n <= |xs|
  {
    if n == 0 then [] else Keep(xs, removed, n - 1) + (if n - 1 in removed then [] else [xs[n - 1]])
  }

  /** The cleaned list. */
  function Clean<T>(r: Rules<T>, xs: seq<T>): seq<T> {
    Keep(xs, Removed(r, xs, |xs|), |xs|)
  }

  /** The cleaner as the C# code writes it: the correction is marked before
      the backward search, the search stops at the first match, and the
      survivors are collected in a final pass. */
  method CleanCancellations<T>(r: Rules<T>, xs: seq<T>) returns (out: seq<T>)
    ensures out == Clean(r, xs)
  {
    var removed: set<int> := {};
    for i := 0 to |xs|
      invariant removed == Removed(r, xs, i)
    {
      if r.isCorrection(xs[i]) {
        var before := removed;
        removed := removed + {i};
        var matched := false;
        var j := i - 1;
        while j >= 0
          invariant -1 <= j < i
          invariant removed == before + {i}
          invariant forall k | j < k < i :: !Eligible(r, xs, i, before, k)
          decreases j
        {
          if j !in removed && (!r.skipCorrections || !r.isCorrection(xs[j])) && r.matches(xs[i], xs[j]) {
            assert Eligible(r, xs, i, before, j);
            NearestMatchIsHighest(r, xs, i, before, i, j);
            removed := removed + {j};
            matched := true;
            break;
          }
          j := j - 1;
        }
        if !matched {
          NearestMatchNone(r, xs, i, before, i);
        }
      }
    }
    out := [];
    for k := 0 to |xs|
      invariant out == Keep(xs, removed, k)
    {
      if k !in removed {
        out := out + [xs[k]];
      }
    }
  }

  // What the cleaner removes

  /** Once removed, an index stays removed. */
  lemma {:induction false} RemovedGrows<T>(r: Rules<T>, xs: seq<T>, m: int, n: int)
    requires 0 <= m <= n <= |xs|
    ensures Removed(r, xs, m) <= Removed(r, xs, n)
    decreases n
  {
    if m < n {
      RemovedGrows(r, xs, m, n - 1);
    }
  }

  /** Whether index `k` is removed is settled when the loop visits it or,
      for an original, when its correction does; every correction is
      removed when visited. */
  lemma CorrectionRemovedWhenVisited<T>(r: Rules<T>, xs: seq<T>, k: int)
    requires 0 <= k < |xs| && r.isCorrection(xs[k])
    ensures k in Removed(r, xs, k + 1)
  {
  }

  /** Every correction is absent from the output, matched or not. */
  lemma CorrectionsRemoved<T>(r: Rules<T>, xs: seq<T>, n: int)
    requires 0 <= n <= |xs|
    ensures forall k | 0 <= k < n && r.isCorrection(xs[k]) :: k in Removed(r, xs, n)
  {
    forall k | 0 <= k < n && r.isCorrection(xs[k]) ensures k in Removed(r, xs, n) {
      CorrectionRemovedWhenVisited(r, xs, k);
      RemovedGrows(r, xs, k + 1, n);
    }
  }

  /** A transaction that is not a correction is removed only as the
      original of a later correction that cancels it. */
  lemma {:induction false} RemovedOnlyWhenCancelled<T>(r: Rules<T>, xs: seq<T>, n: int, k: int)
    requires 0 <= k < n <= |xs|
    requires k in Removed(r, xs, n) && !r.isCorrection(xs[k])
    ensures exists i | k < i < n :: r.isCorrection(xs[i]) && r.matches(xs[i], xs[k])
    decreases n
  {
    var prev := Removed(r, xs, n - 1);
    if k in prev {
      RemovedOnlyWhenCancelled(r, xs, n - 1, k);
    } else {
      var i := n - 1;
      assert r.isCorrection(xs[i]);
      var m := NearestMatch(r, xs, i, prev, i);
      assert m == Some(k);
      assert Eligible(r, xs, i, prev, k);
    }
  }

  /** The number of corrections among the first `n` elements. */
  function Corrections<T>(r: Rules<T>, xs: seq<T>, n: int): nat
    requires 0 <= n <= |xs|
  {
    if n == 0 then 0 else Corrections(r, xs, n - 1) + (if r.isCorrection(xs[n - 1]) then 1 else 0)
  }

  /** Each correction removes itself and at most one other transaction. */
  lemma {:induction false} RemovedAtMostTwicePerCorrection<T>(r: Rules<T>, xs: seq<T>, n: int)
    requires 0 <= n <= |xs|
    ensures |Removed(r, xs, n)| <= 2 * Corrections(r, xs, n)
    decreases n
  {
    if n > 0 {
      RemovedAtMostTwicePerCorrection(r, xs, n - 1);
      var prev := Removed(r, xs, n - 1);
      var i := n - 1;
      if r.isCorrection(xs[i]) {
        match NearestMatch(r, xs, i, prev, i)
        case None =>
          assert |prev + {i}| <= |prev| + |{i}|;
        case Some(j) =>
          assert |prev + {i, j}| <= |prev| + |{i, j}|;
          assert |{i, j}| <= 2 by { assert {i, j} == {i} + {j}; }
      }
    }
  }

  /** When a correction searches for its original, every earlier correction
      has already been removed. */
  lemma EarlierCorrectionsRemoved<T>(r: Rules<T>, xs: seq<T>, i: int)
    requires 0 <= i <= |xs|
    ensures forall j | 0 <= j < i && r.isCorrection(xs[j]) :: j in Removed(r, xs, i)
  {
    CorrectionsRemoved(r, xs, i);
  }

  /** So a correction is never taken as the original of a later one, and
      passing over candidates that are corrections changes nothing: both
      settings of `skipCorrections` remove the same indices. */
  lemma {:induction false} SkippingCorrectionsIsRedundant<T>(r: Rules<T>, xs: seq<T>, n: int)
    requires 0 <= n <= |xs|
    ensures Removed(r.(skipCorrections := true), xs, n) == Removed(r.(skipCorrections := false), xs, n)
    decreases n
  {
    if n > 0 {
      var rs, ra := r.(skipCorrections := true), r.(skipCorrections := false);
      SkippingCorrectionsIsRedundant(r, xs, n - 1);
      RemovedAtSameIndices(rs, ra, xs, n - 1);
    }
  }

  lemma {:induction false} RemovedAtSameIndices<T>(rs: Rules<T>, ra: Rules<T>, xs: seq<T>, i: int)
    requires 0 <= i < |xs|
    requires rs.isCorrection == ra.isCorrection && rs.matches == ra.matches
    requires rs.skipCorrections && !ra.skipCorrections
    requires Removed(rs, xs, i) == Removed(ra, xs, i)
    ensures Removed(rs, xs, i + 1) == Removed(ra, xs, i + 1)
  {
    var prev := Removed(ra, xs, i);
    EarlierCorrectionsRemoved(ra, xs, i);
    forall k | 0 <= k < i ensures Eligible(rs, xs, i, prev, k) == Eligible(ra, xs, i, prev, k) {
    }
    SameEligibleSameMatch(rs, xs, ra, xs, i, prev, i);
  }

  lemma {:induction false} SameEligibleSameMatch<T, U>(r1: Rules<T>, xs: seq<T>, r2: Rules<U>, ys: seq<U>,
                                                       i: int, removed: set<int>, hi: int)
    requires 0 <= hi <= i < |xs| == |ys|
    requires forall k | 0 <= k < hi :: Eligible(r1, xs, i, removed, k) == Eligible(r2, ys, i, removed, k)
    ensures NearestMatch(r1, xs, i, removed, hi) == NearestMatch(r2, ys, i, removed, hi)
    decreases hi
  {
    if hi > 0 {
      SameEligibleSameMatch(r1, xs, r2, ys, i, removed, hi - 1);
    }
  }

  /** Two lists on which two sets of rules make the same decisions at
      every index lose the same indices: the cleaner looks at nothing but
      the decisions. */
  lemma {:induction false} SameDecisionsSameRemoved<T, U>(r1: Rules<T>, xs: seq<T>, r2: Rules<U>, ys: seq<U>, n: int)
    requires 0 <= n <= |xs| == |ys|
    requires r1.skipCorrections == r2.skipCorrections
    requires forall k | 0 <= k < |xs| :: r1.isCorrection(xs[k]) == r2.isCorrection(ys[k])
    requires forall i, j | 0 <= j < i < |xs| :: r1.matches(xs[i], xs[j]) == r2.matches(ys[i], ys[j])
    ensures Removed(r1, xs, n) == Removed(r2, ys, n)
    decreases n
  {
    if n > 0 {
      SameDecisionsSameRemoved(r1, xs, r2, ys, n - 1);
      var prev := Removed(r1, xs, n - 1);
      var i := n - 1;
      forall k | 0 <= k < i ensures Eligible(r1, xs, i, prev, k) == Eligible(r2, ys, i, prev, k) {
        assert r1.matches(xs[i], xs[k]) == r2.matches(ys[i], ys[k]);
        assert r1.isCorrection(xs[k]) == r2.isCorrection(ys[k]);
      }
      SameEligibleSameMatch(r1, xs, r2, ys, i, prev, i);
    }
  }

  // What the cleaner keeps

  /** The indices below `n` not in `removed`, ascending. */
  function KeptIndices(removed: set<int>, n: nat): (idx: seq<nat>)
    ensures forall t | 0 <= t < |idx| :: idx[t] < n && idx[t] !in removed
    ensures forall k | 0 <= k < n && k !in removed :: k in idx
  {
    if n == 0 then [] else KeptIndices(removed, n - 1) + (if n - 1 in removed then [] else [n - 1])
  }

  lemma {:induction false} KeptIndicesAscending(removed: set<int>, n: nat)
    ensures forall s, t | 0 <= s < t < |KeptIndices(removed, n)| :: KeptIndices(removed, n)[s] < KeptIndices(removed, n)[t]
  {
    if n > 0 {
      KeptIndicesAscending(removed, n - 1);
    }
  }

  /** The output is the input at the kept indices, in ascending order: the
      survivors keep their relative order, and nothing else is added. */
  /** `out` is `xs` read at the indices `idx`. */
  ghost predicate Picks<T>(out: seq<T>, xs: seq<T>, idx: seq<nat>) {
    |out| == |idx| && forall t | 0 <= t < |idx| :: idx[t] < |xs| && out[t] == xs[idx[t]]
  }

  lemma PicksAppend<T>(out: seq<T>, xs: seq<T>, idx: seq<nat>, j: nat)
    requires Picks(out, xs, idx) && j < |xs|
    ensures Picks(out + [xs[j]], xs, idx + [j])
  {
    var out', idx' := out + [xs[j]], idx + [j];
    forall t | 0 <= t < |idx'| ensures idx'[t] < |xs| && out'[t] == xs[idx'[t]] {
      if t < |idx| {
        assert out'[t] == out[t] && idx'[t] == idx[t];
      }
    }
  }

  lemma {:induction false} KeepIsSubsequence<T>(xs: seq<T>, removed: set<int>, n: nat)
    requires n <= |xs|
    ensures Picks(Keep(xs, removed, n), xs, KeptIndices(removed, n))
  {
    if n > 0 {
      KeepIsSubsequence(xs, removed, n - 1);
      if n - 1 !in removed {
        PicksAppend(Keep(xs, removed, n - 1), xs, KeptIndices(removed, n - 1), n - 1);
      }
    }
  }

  /** The cleaned list is the input less the removed indices, in the
      original order, and none of its elements is a correction. */
  lemma CleanKeepsOrder<T>(r: Rules<T>, xs: seq<T>)
    ensures var removed := Removed(r, xs, |xs|);
      var idx := KeptIndices(removed, |xs|);
      && |Clean(r, xs)| == |idx|
      && (forall t | 0 <= t < |idx| :: Clean(r, xs)[t] == xs[idx[t]] && !r.isCorrection(xs[idx[t]]))
      && (forall s, t | 0 <= s < t < |idx| :: idx[s] < idx[t])
  {
    var removed := Removed(r, xs, |xs|);
    KeepIsSubsequence(xs, removed, |xs|);
    KeptIndicesAscending(removed, |xs|);
    CorrectionsRemoved(r, xs, |xs|);
  }

  /** The removed indices below `n`. */
  function RemovedBelow(removed: set<int>, n: nat): set<int> {
    set k | 0 <= k < n && k in removed
  }

  lemma {:induction false} KeepLength<T>(xs: seq<T>, removed: set<int>, n: nat)
    requires n <= |xs|
    ensures |Keep(xs, removed, n)| + |RemovedBelow(removed, n)| == n
  {
    if n > 0 {
      KeepLength(xs, removed, n - 1);
      if n - 1 in removed {
        assert RemovedBelow(removed, n) == RemovedBelow(removed, n - 1) + {n - 1};
      } else {
        assert RemovedBelow(removed, n) == RemovedBelow(removed, n - 1);
      }
    }
  }

  /** The output is shorter than the input by exactly the number of
      removed indices, at most two per correction. */
  lemma CleanLength<T>(r: Rules<T>, xs: seq<T>)
    ensures |Clean(r, xs)| == |xs| - |Removed(r, xs, |xs|)|
    ensures |xs| - |Clean(r, xs)| <= 2 * Corrections(r, xs, |xs|)
  {
    var removed := Removed(r, xs, |xs|);
    KeepLength(xs, removed, |xs|);
    assert RemovedBelow(removed, |xs|) == removed;
    RemovedAtMostTwicePerCorrection(r, xs, |xs|);
  }
}
