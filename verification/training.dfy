/**
 The guards around model fitting: the minimum sample of `train_model`
 (root pairs_ml.py) and `train_meta_classifier` (src/models.py), and the
 out-of-fold probabilities the latter collects over the purged splitter.
 The estimators themselves are parameters: `predict(train, i)` is the
 probability a classifier fitted on rows `train` gives row i.
 */
module Training {
  import opened Base
  import opened Tables
  import opened PurgedCV

  /** Fewer complete rows than this and the regressor refuses to train. */
  const MinTrainingRows: nat := 100

  /** Fewer rows than this and no meta classifier is fitted. */
  const MinMetaRows: nat := 100

  /** The meta classifier is cross-validated with five folds and a five-row embargo. */
  const MetaSplits: nat := 5
  const MetaEmbargo: nat := 5

  const InsufficientData: string := "ValueError: Insufficient data for training"

  /** The design matrix and target of the regressor. */
  datatype TrainingSet = TrainingSet(x: Table, y: seq<real>)

  /** `dropna()` on a whole table: its complete rows, widths kept. */
  function CompleteRows(t: Table): (r: Table)
    requires Rectangular(t)
    ensures Rectangular(r) && r.names == t.names && r.rows == DropIncomplete(t.rows)
  {
    var clean := DropIncomplete(t.rows);
    forall i | 0 <= i < |clean|
      ensures |clean[i].cells| == |t.names|
    {
      assert clean[i] in multiset(t.rows);
    }
    Table(t.names, clean)
  }

  /**
   `train_model` up to the fit: drop incomplete rows, refuse fewer than 100,
   then split off the target column. The matrix keeps every complete row
   and every other column; y is the target of each complete row.
   */
  function BuildTrainingSet(features: Table): (r: Result<TrainingSet, string>)
    requires Rectangular(features)
    ensures var clean := CompleteRows(features).rows;
      (r == Err(InsufficientData) <==> |clean| < MinTrainingRows)
      && (r.Ok? <==> |clean| >= MinTrainingRows && "target" in features.names)
    ensures r.Ok? ==>
      var clean := CompleteRows(features).rows;
      var c := ColumnIndex(features.names, "target").value;
      && |r.value.x.rows| == |clean| == |r.value.y|
      && |r.value.y| >= MinTrainingRows
      && r.value.x.names == Without(features.names, "target")
      && "target" !in r.value.x.names
      && (forall c :: 0 <= c < |features.names| && features.names[c] != "target" ==> features.names[c] in r.value.x.names)
      && (forall i :: 0 <= i < |clean| ==> r.value.x.rows[i].time == clean[i].time)
      && (forall i :: 0 <= i < |clean| ==> clean[i].cells[c] == Some(r.value.y[i]))
      && (forall i :: 0 <= i < |clean| ==>
            |clean[i].cells| == |features.names|
            && r.value.x.rows[i] == Project(clean[i], KeptColumns(features.names, "target", 0)))
  {
    var table := CompleteRows(features);
    var clean := table.rows;
    if |clean| < MinTrainingRows then Err(InsufficientData)
    else
      match ColumnIndex(features.names, "target")
      case None => Err("KeyError: target")
      case Some(c) =>
        Ok(TrainingSet(DropColumn(table, "target"), seq(|clean|, i requires 0 <= i < |clean| => clean[i].cells[c].value)))
  }

  // ---------------------------------------------------------------------------
  // Meta classifier

  predicate AllSame(y: seq<int>) {
    forall i :: 0 <= i < |y| ==> y[i] == y[0]
  }

  /** A fitted classifier (or none) and its out-of-fold probabilities, one per row. */
  datatype MetaFit = MetaFit(fitted: bool, proba: seq<Option<real>>)

  /**
   The out-of-fold probability of row i among n: with block length
   fl = n // 6, row i lies in block b = i // fl; rows of blocks 1..5 past the
   first five of their block are predicted by the model fitted on the blocks
   before (rows [0, fl*b)); every other row has none.
   */
  function OutOfFold(n: nat, i: nat, predict: (seq<int>, int) -> real): Option<real> {
    var fl := FoldLength(n, MetaSplits);
    if fl <= MetaEmbargo then None
    else
      var b := i / fl;
      if 1 <= b <= MetaSplits && i % fl >= MetaEmbargo then Some(predict(Arange(0, fl * b), i)) else None
  }

  /** Row i has an out-of-fold probability only from a model fitted on rows more than five before it. */
  lemma OutOfFoldIsPurged(n: nat, i: nat, predict: (seq<int>, int) -> real)
    requires OutOfFold(n, i, predict).Some?
    ensures var fl := FoldLength(n, MetaSplits);
      i < n && fl * (i / fl) + MetaEmbargo <= i
      && OutOfFold(n, i, predict) == Some(predict(Arange(0, fl * (i / fl)), i))
  {
    var fl := FoldLength(n, MetaSplits);
    var b := i / fl;
    assert i == fl * b + i % fl;
    assert fl * 6 <= n;
    assert fl * (b + 1) <= fl * 6 by { MulMono(fl, b + 1, 6); }
  }

  /** Row i lies in [fl*b, fl*(b+1)) exactly when i // fl == b. */
  lemma BlockOf(i: nat, fl: nat, b: nat)
    requires fl > 0
    ensures fl * b <= i < fl * (b + 1) <==> i / fl == b
  {
    var q := i / fl;
    assert i == fl * q + i % fl && 0 <= i % fl < fl;
    if q < b {
      MulMono(fl, q + 1, b);
    } else if q > b {
      MulMono(fl, b + 1, q);
    }
  }

  /** `proba.iloc[test] = values`: the rows listed in `test` take new values, the others keep theirs. */
  function Scatter(proba: seq<Option<real>>, test: seq<int>, value: int -> real): (r: seq<Option<real>>)
    ensures |r| == |proba|
    ensures forall i :: 0 <= i < |proba| ==> r[i] == if i in test then Some(value(i)) else proba[i]
  {
    seq(|proba|, i requires 0 <= i < |proba| => if i in test then Some(value(i)) else proba[i])
  }

  /** Scattering fold k's predictions completes block k + 1. */
  lemma FoldStep(n: nat, k: nat, predict: (seq<int>, int) -> real, proba: seq<Option<real>>, i: nat)
    requires FoldLength(n, MetaSplits) > MetaEmbargo && k < MetaSplits
    requires |proba| == n && i < n
    requires proba[i] == (if i / FoldLength(n, MetaSplits) <= k then OutOfFold(n, i, predict) else None)
    ensures var fold := FoldAt(n, MetaSplits, MetaEmbargo, k);
      (if i in fold.test then Some(predict(fold.train, i)) else proba[i])
      == (if i / FoldLength(n, MetaSplits) <= k + 1 then OutOfFold(n, i, predict) else None)
  {
    TestMembership(n, k, i);
  }

  /** Fold k tests exactly the rows of block k + 1 past its first five, training on the blocks before. */
  lemma TestMembership(n: nat, k: nat, i: nat)
    requires FoldLength(n, MetaSplits) > MetaEmbargo
    ensures var fl := FoldLength(n, MetaSplits);
      var fold := FoldAt(n, MetaSplits, MetaEmbargo, k);
      && fold.train == Arange(0, fl * (k + 1))
      && (i in fold.test <==> i / fl == k + 1 && i % fl >= MetaEmbargo)
  {
    var fl := FoldLength(n, MetaSplits);
    var fold := FoldAt(n, MetaSplits, MetaEmbargo, k);
    var b := i / fl;
    var lo := TestStart(n, MetaSplits, MetaEmbargo, k);
    var hi := TestEnd(n, MetaSplits, k);
    TestEndStep(n, MetaSplits, k);
    assert i in fold.test <==> lo <= i < hi by {
      if lo <= i < hi {
        assert fold.test[i - lo] == i;
      }
    }
    BlockOf(i, fl, k + 1);
    assert i == fl * b + i % fl && 0 <= i % fl < fl;
  }

  /**
   `train_meta_classifier`: no classifier and no probabilities with fewer
   than 100 rows or a single label value; otherwise the probabilities
   collected fold by fold over the purged splitter, which are exactly the
   out-of-fold ones.
   */
  method TrainMetaClassifier(y: seq<int>, predict: (seq<int>, int) -> real) returns (r: MetaFit)
    ensures |r.proba| == |y|
    ensures !r.fitted <==> |y| < MinMetaRows || AllSame(y)
    ensures !r.fitted ==> forall i :: 0 <= i < |y| ==> r.proba[i].None?
    ensures r.fitted ==> forall i :: 0 <= i < |y| ==> r.proba[i] == OutOfFold(|y|, i, predict)
  {
    var n := |y|;
    if n < MinMetaRows || AllSame(y) {
      return MetaFit(false, seq(n, i => None));
    }
    var folds := Split(n, MetaSplits, MetaEmbargo);
    SplitClosedForm(n, MetaSplits, MetaEmbargo);
    var fl := FoldLength(n, MetaSplits);
    assert fl > MetaEmbargo;
    var proba: seq<Option<real>> := seq(n, i => None);
    for k := 0 to |folds|
      invariant |proba| == n
      invariant forall i :: 0 <= i < n ==> proba[i] == (if i / fl <= k then OutOfFold(n, i, predict) else None)
    {
      var fold := folds[k];
      var next := Scatter(proba, fold.test, i => predict(fold.train, i));
      forall i | 0 <= i < n
        ensures next[i] == (if i / fl <= k + 1 then OutOfFold(n, i, predict) else None)
      {
        FoldStep(n, k, predict, proba, i);
      }
      proba := next;
    }
    forall i | 0 <= i < n
      ensures proba[i] == OutOfFold(n, i, predict)
    {
      if i / fl > MetaSplits {
        assert OutOfFold(n, i, predict).None?;
      }
    }
    r := MetaFit(true, proba);
  }
}
