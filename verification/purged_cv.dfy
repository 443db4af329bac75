/**
 The purged time-series cross-validator of src/models.py. Index range [0, n)
 is cut into n_splits + 1 blocks of `fold` rows; fold i trains on the
 expanding prefix [0, fold*(i+1)) and tests on [fold*(i+1)+embargo, fold*(i+2)).
 A fold whose test range is empty is skipped.
 */
module PurgedCV {

  /** One yielded pair of index arrays. */
  datatype Fold = Fold(train: seq<int>, test: seq<int>)

  /** `np.arange(lo, hi)`: the integers lo, lo+1, ..., hi-1 (empty when hi <= lo). */
  function Arange(lo: int, hi: int): (r: seq<int>)
    ensures |r| == if hi > lo then hi - lo else 0
    ensures forall j :: 0 <= j < |r| ==> r[j] == lo + j
  {
    if hi <= lo then [] else seq(hi - lo, j requires 0 <= j < hi - lo => lo + j)
  }

  /** `n // (n_splits + 1)`. */
  function FoldLength(n: nat, nSplits: nat): nat {
    n / (nSplits + 1)
  }

  function TrainEnd(n: nat, nSplits: nat, i: nat): nat {
    FoldLength(n, nSplits) * (i + 1)
  }

  function TestStart(n: nat, nSplits: nat, embargo: nat, i: nat): nat {
    TrainEnd(n, nSplits, i) + embargo
  }

  function TestEnd(n: nat, nSplits: nat, i: nat): nat {
    FoldLength(n, nSplits) * (i + 2)
  }

  /** The loop's `continue` condition. */
  predicate Skipped(n: nat, nSplits: nat, embargo: nat, i: nat) {
    TestEnd(n, nSplits, i) <= TestStart(n, nSplits, embargo, i)
  }

  /** The pair fold i would yield. */
  function FoldAt(n: nat, nSplits: nat, embargo: nat, i: nat): Fold {
    Fold(Arange(0, TrainEnd(n, nSplits, i)),
         Arange(TestStart(n, nSplits, embargo, i), TestEnd(n, nSplits, i)))
  }

  /** The generator from loop iteration i onwards. */
  function SplitFrom(n: nat, nSplits: nat, embargo: nat, i: nat): seq<Fold>
    decreases nSplits - i
  {
    if i >= nSplits then []
    else (if Skipped(n, nSplits, embargo, i) then [] else [FoldAt(n, nSplits, embargo, i)])
         + SplitFrom(n, nSplits, embargo, i + 1)
  }

  /** `PurgedTimeSeriesSplit(n_splits, embargo).split(X)` with n = len(X). */
  function Split(n: nat, nSplits: nat, embargo: nat): seq<Fold> {
    SplitFrom(n, nSplits, embargo, 0)
  }

  /** `get_n_splits`: the configured count, whatever `split` yields. */
  function GetNSplits(nSplits: nat): nat {
    nSplits
  }

  /** The skip test does not depend on i: a fold is skipped exactly when fold <= embargo. */
  lemma SkippedIff(n: nat, nSplits: nat, embargo: nat, i: nat)
    ensures Skipped(n, nSplits, embargo, i) <==> FoldLength(n, nSplits) <= embargo
  {
    var f := FoldLength(n, nSplits);
    assert f * (i + 2) == f * (i + 1) + f;
  }

  lemma {:induction false} SplitFromClosedForm(n: nat, nSplits: nat, embargo: nat, i: nat)
    requires i <= nSplits
    ensures SplitFrom(n, nSplits, embargo, i) ==
              if FoldLength(n, nSplits) > embargo
              then seq(nSplits - i, j requires 0 <= j < nSplits - i => FoldAt(n, nSplits, embargo, i + j))
              else []
    decreases nSplits - i
  {
    if i < nSplits {
      SkippedIff(n, nSplits, embargo, i);
      SplitFromClosedForm(n, nSplits, embargo, i + 1);
      if FoldLength(n, nSplits) > embargo {
        var rest := seq(nSplits - (i + 1), j requires 0 <= j < nSplits - (i + 1) => FoldAt(n, nSplits, embargo, (i + 1) + j));
        var all := seq(nSplits - i, j requires 0 <= j < nSplits - i => FoldAt(n, nSplits, embargo, i + j));
        assert SplitFrom(n, nSplits, embargo, i) == [FoldAt(n, nSplits, embargo, i)] + rest;
        assert all == [FoldAt(n, nSplits, embargo, i)] + rest;
      }
    }
  }

  /**
   Either every one of the n_splits folds is yielded, fold i being the pair
   FoldAt(i), or none is: none exactly when n // (n_splits+1) <= embargo.
   */
  lemma SplitClosedForm(n: nat, nSplits: nat, embargo: nat)
    ensures Split(n, nSplits, embargo) ==
              if FoldLength(n, nSplits) > embargo
              then seq(nSplits, i requires 0 <= i < nSplits => FoldAt(n, nSplits, embargo, i))
              else []
  {
    SplitFromClosedForm(n, nSplits, embargo, 0);
  }

  /** Nothing is yielded when n < n_splits + 1 or when embargo >= fold; at most n_splits folds otherwise. */
  lemma SplitCount(n: nat, nSplits: nat, embargo: nat)
    ensures |Split(n, nSplits, embargo)| <= nSplits
    ensures n < nSplits + 1 ==> Split(n, nSplits, embargo) == []
    ensures embargo >= FoldLength(n, nSplits) ==> Split(n, nSplits, embargo) == []
    ensures |Split(n, nSplits, embargo)| == GetNSplits(nSplits) <==> nSplits == 0 || FoldLength(n, nSplits) > embargo
  {
    SplitClosedForm(n, nSplits, embargo);
  }

  lemma FoldBounds(n: nat, nSplits: nat, i: nat)
    requires i < nSplits
    ensures TestEnd(n, nSplits, i) <= n
  {
    var f := FoldLength(n, nSplits);
    assert f * (nSplits + 1) <= n;
    assert f * (i + 2) <= f * (nSplits + 1) by {
      assert i + 2 <= nSplits + 1;
    }
  }

  /**
   Within every yielded fold: both index sets are non-empty, every train
   index precedes every test index, the first test index is exactly
   embargo + 1 after the last train index (so no index is in both sets and
   none is within `embargo` of the other set), and every test index is < n.
   */
  lemma FoldSeparation(n: nat, nSplits: nat, embargo: nat, k: nat)
    requires k < |Split(n, nSplits, embargo)|
    ensures var f := Split(n, nSplits, embargo)[k];
      && |f.train| > 0 && |f.test| > 0
      && f.train[0] == 0
      && f.test[0] - f.train[|f.train| - 1] == embargo + 1
      && (forall a, b :: 0 <= a < |f.train| && 0 <= b < |f.test| ==> f.train[a] + embargo < f.test[b])
      && (forall b :: 0 <= b < |f.test| ==> 0 <= f.test[b] < n)
  {
    SplitClosedForm(n, nSplits, embargo);
    FoldBounds(n, nSplits, k);
    var fl := FoldLength(n, nSplits);
    assert fl * (k + 2) == fl * (k + 1) + fl;
  }

  /** f * a <= f * b for a <= b. */
  lemma MulMono(f: nat, a: nat, b: nat)
    requires a <= b
    ensures f * a <= f * b
  {
    assert f * b == f * a + f * (b - a);
  }

  /** Each fold's test block ends one block length after its training prefix. */
  lemma TestEndStep(n: nat, nSplits: nat, i: nat)
    ensures TestEnd(n, nSplits, i) == TrainEnd(n, nSplits, i) + FoldLength(n, nSplits)
  {
    var f := FoldLength(n, nSplits);
    assert f * (i + 2) == f * (i + 1) + f;
  }

  /** For j < k: fold j's training prefix is shorter than fold k's and its test block ends by fold k's prefix end. */
  lemma FoldOrder(n: nat, nSplits: nat, j: nat, k: nat)
    requires j < k && FoldLength(n, nSplits) > 0
    ensures TrainEnd(n, nSplits, j) < TrainEnd(n, nSplits, k)
    ensures TestEnd(n, nSplits, j) <= TrainEnd(n, nSplits, k)
  {
    MulMono(FoldLength(n, nSplits), j + 2, k + 1);
    TestEndStep(n, nSplits, j);
  }

  /**
   Across yielded folds, for j < k: fold j's train prefix is a strict prefix
   of fold k's, and fold j's test block ends before fold k's begins.
   */
  lemma FoldsExpandAndAdvance(n: nat, nSplits: nat, embargo: nat, j: nat, k: nat)
    requires j < k < |Split(n, nSplits, embargo)|
    ensures var s := Split(n, nSplits, embargo);
      && |s[j].train| < |s[k].train|
      && s[j].train == s[k].train[..|s[j].train|]
      && |s[j].test| > 0 && |s[k].test| > 0
      && s[j].test[|s[j].test| - 1] < s[k].test[0]
  {
    SplitClosedForm(n, nSplits, embargo);
    var s := Split(n, nSplits, embargo);
    assert FoldLength(n, nSplits) > embargo;
    assert s[j] == FoldAt(n, nSplits, embargo, j) && s[k] == FoldAt(n, nSplits, embargo, k);
    FoldOrder(n, nSplits, j, k);
    TestEndStep(n, nSplits, j);
    TestEndStep(n, nSplits, k);
    assert s[j].train == s[k].train[..|s[j].train|];
  }
}
