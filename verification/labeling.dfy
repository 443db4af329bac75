/**
 Triple-barrier labelling and the meta-labelling dataset of src/labeling.py.
 For every bar but the last, an upper barrier s[i] + pt*vol[i] and a lower
 barrier s[i] - sl*vol[i] are set, and the forward window
 `s[i+1 : min(i+max_h, n-1)+1]` (a Python slice) is scanned: +1 when the
 upper barrier is touched first (ties go to the upper barrier), -1 when the
 lower one is touched strictly first, 0 when neither is.
 Values are optional because the labelled series (the z-score) starts with
 missing values; a comparison with a missing value is false.
 */
module Labeling {
  import opened Base
  import opened Tables

  /** `w >= barrier` (upper) or `w <= barrier` (lower); false when either side is missing. */
  predicate Touch(w: Option<real>, barrier: Option<real>, upper: bool) {
    w.Some? && barrier.Some? && (if upper then w.value >= barrier.value else w.value <= barrier.value)
  }

  function UpperBarrier(start: Option<real>, sig: Option<real>, ptMult: real): Option<real> {
    if start.Some? && sig.Some? then Some(start.value + ptMult * sig.value) else None
  }

  function LowerBarrier(start: Option<real>, sig: Option<real>, slMult: real): Option<real> {
    if start.Some? && sig.Some? then Some(start.value - slMult * sig.value) else None
  }

  /** `(w >= up).idxmax()` guarded by `.any()`: the first touching index of [lo, hi), if any. */
  function FirstTouch(s: seq<Option<real>>, lo: nat, hi: nat, barrier: Option<real>, upper: bool): (r: Option<nat>)
    requires hi <= |s|
    ensures r.Some? ==> lo <= r.value < hi && Touch(s[r.value], barrier, upper)
                        && forall k :: lo <= k < r.value ==> !Touch(s[k], barrier, upper)
    ensures r.None? ==> forall k :: lo <= k < hi ==> !Touch(s[k], barrier, upper)
    decreases hi - lo
  {
    if lo >= hi then None
    else if Touch(s[lo], barrier, upper) then Some(lo)
    else FirstTouch(s, lo + 1, hi, barrier, upper)
  }

  /** `end_i = min(i + max_h, n - 1)`, which is negative for a negative enough horizon. */
  function WindowEnd(n: nat, i: nat, maxH: int): int {
    Min(i + maxH, n - 1)
  }

  /**
   The stop of a Python slice `[..b]` on n items as an index: a negative b
   counts from the end (b + n, at least 0), any other b is capped at n.
   */
  function SliceStop(n: nat, b: int): (r: nat)
    ensures r <= n
    ensures b >= 0 ==> r == Min(b, n)
    ensures b < 0 ==> r == Max(b + n, 0)
  {
    if b < 0 then (if b + n < 0 then 0 else b + n) else if b < n then b else n
  }

  /** Bar i's forward window `s.iloc[i+1 : end_i+1]` is [i+1, WindowStop). */
  function WindowStop(n: nat, i: nat, maxH: int): nat {
    SliceStop(n, WindowEnd(n, i, maxH) + 1)
  }

  /** Bar i is labelled: it is not the last bar and no window up to its own was empty (the loop breaks at the first empty one). */
  predicate Labelled(n: nat, i: nat, maxH: int) {
    i + 1 < n && forall k :: 0 <= k <= i ==> k + 1 < WindowStop(n, k, maxH)
  }

  /**
   Which bars get a label, in closed form: with max_h > 0 every bar but the
   last; with max_h of 0 or -1 none (the first window is empty); with
   max_h <= -2 the slice stop counts from the end, so bar i is labelled
   exactly when i + max_h + 1 < 0 and n + max_h > 0 (its window is then the
   bars i+1 .. n+max_h).
   */
  lemma {:induction false} LabelledClosedForm(n: nat, i: nat, maxH: int)
    ensures Labelled(n, i, maxH) <==>
      i + 1 < n && (maxH > 0 || (maxH <= -2 && i + maxH + 1 < 0 && n + maxH > 0))
  {
    if i + 1 < n {
      if maxH > 0 {
        forall k | 0 <= k <= i
          ensures k + 1 < WindowStop(n, k, maxH)
        {
          assert WindowEnd(n, k, maxH) >= k + 1;
        }
      } else if maxH >= -1 {
        assert WindowStop(n, 0, maxH) <= 1;
      } else {
        if Labelled(n, i, maxH) {
          assert i + 1 < WindowStop(n, i, maxH);
          assert WindowEnd(n, i, maxH) == i + maxH;
        }
        if i + maxH + 1 < 0 && n + maxH > 0 {
          forall k | 0 <= k <= i
            ensures k + 1 < WindowStop(n, k, maxH)
          {
            assert WindowEnd(n, k, maxH) == k + maxH;
          }
        }
      }
    }
  }

  /** max_h = -2 on five bars: bar 0 is labelled over bars 1 .. 3, and the loop stops at bar 1. */
  lemma NegativeHorizonExample()
    ensures WindowStop(5, 0, -2) == 4 && Labelled(5, 0, -2)
    ensures WindowStop(5, 1, -2) == 0 && !Labelled(5, 1, -2)
  {
    LabelledClosedForm(5, 0, -2);
    LabelledClosedForm(5, 1, -2);
  }

  /**
   The label of bar i scanned over the window (i, hi). It is +1 exactly when
   some bar touches the upper barrier with no earlier lower touch, -1
   exactly when some bar touches the lower barrier with no upper touch up to
   and including it, and 0 exactly when no bar of the window touches either.
   */
  function BarrierLabel(s: seq<Option<real>>, v: seq<Option<real>>, ptMult: real, slMult: real, i: nat, hi: nat): (r: real)
    requires |v| == |s| && i < hi <= |s|
    ensures r == 1.0 || r == -1.0 || r == 0.0
    ensures r == 1.0 <==>
      exists j :: i < j < hi && Touch(s[j], UpperBarrier(s[i], v[i], ptMult), true)
                  && forall k :: i < k < j ==> !Touch(s[k], LowerBarrier(s[i], v[i], slMult), false)
    ensures r == -1.0 <==>
      exists j :: i < j < hi && Touch(s[j], LowerBarrier(s[i], v[i], slMult), false)
                  && forall k :: i < k <= j ==> !Touch(s[k], UpperBarrier(s[i], v[i], ptMult), true)
    ensures r == 0.0 <==>
      forall k :: i < k < hi ==> !Touch(s[k], UpperBarrier(s[i], v[i], ptMult), true)
                                 && !Touch(s[k], LowerBarrier(s[i], v[i], slMult), false)
  {
    var up := UpperBarrier(s[i], v[i], ptMult);
    var dn := LowerBarrier(s[i], v[i], slMult);
    var hitUp := FirstTouch(s, i + 1, hi, up, true);
    var hitDn := FirstTouch(s, i + 1, hi, dn, false);
    if hitUp.Some? && (hitDn.None? || hitUp.value <= hitDn.value) then 1.0
    else if hitDn.Some? && (hitUp.None? || hitDn.value <= hitUp.value) then -1.0
    else 0.0
  }

  /** `vol.fillna(method="bfill").fillna(method="ffill")`. */
  function FillVolatility(vol: seq<Option<real>>): seq<Option<real>> {
    ForwardFill(BackFill(vol))
  }

  /** After the two fills, a volatility value is missing nowhere as soon as it is present somewhere. */
  lemma FillVolatilityComplete(vol: seq<Option<real>>)
    ensures |FillVolatility(vol)| == |vol|
    ensures (exists j :: 0 <= j < |vol| && vol[j].Some?) ==> AllPresent(FillVolatility(vol))
    ensures (forall j :: 0 <= j < |vol| ==> vol[j].None?) ==> forall j :: 0 <= j < |vol| ==> FillVolatility(vol)[j].None?
  {
    var b := BackFill(vol);
    if j :| 0 <= j < |vol| && vol[j].Some? {
      assert b[0].Some?;
    }
  }

  /**
   `triple_barrier_labels`: bar i's window is `s.iloc[i+1 : end_i+1]`, that
   is [i+1, WindowStop); the loop labels bars in order with BarrierLabel
   over that window and stops at the first bar whose window is empty. The
   last bar is never labelled. Which bars are labelled is `Labelled`;
   `LabelledClosedForm` spells that out for each sign of max_h.
   */
  method TripleBarrierLabels(s: seq<Option<real>>, vol: seq<Option<real>>, ptMult: real, slMult: real, maxH: int)
    returns (out: seq<Option<real>>)
    requires |vol| == |s|
    ensures |out| == |s|
    ensures forall i :: 0 <= i < |s| ==> (out[i].Some? <==> Labelled(|s|, i, maxH))
    ensures forall i :: 0 <= i < |s| && out[i].Some? ==>
      i + 1 < WindowStop(|s|, i, maxH)
      && out[i].value == BarrierLabel(s, FillVolatility(vol), ptMult, slMult, i, WindowStop(|s|, i, maxH))
  {
    var v := FillVolatility(vol);
    out := seq(|s|, _ => None);
    var i := 0;
    // `if len(w) == 0: break` is folded into the loop guard
    while i + 1 < |s| && i + 1 < WindowStop(|s|, i, maxH)
      invariant 0 <= i <= |s|
      invariant |out| == |s|
      invariant forall k :: 0 <= k < |s| ==> (out[k].Some? <==> k < i)
      invariant forall k :: 0 <= k < i ==> k + 1 < |s| && k + 1 < WindowStop(|s|, k, maxH)
      invariant forall k :: 0 <= k < i ==>
        out[k] == Some(BarrierLabel(s, v, ptMult, slMult, k, WindowStop(|s|, k, maxH)))
    {
      out := out[i := Some(BarrierLabel(s, v, ptMult, slMult, i, WindowStop(|s|, i, maxH)))];
      i := i + 1;
    }
    forall k | i <= k < |s|
      ensures !Labelled(|s|, k, maxH)
    {
      StoppedNotLabelled(|s|, i, k, maxH);
    }
  }

  /** Once bar i is the last one or has an empty window, neither it nor any later bar is labelled. */
  lemma StoppedNotLabelled(n: nat, i: nat, k: nat, maxH: int)
    requires i <= k
    requires !(i + 1 < n && i + 1 < WindowStop(n, i, maxH))
    ensures !Labelled(n, k, maxH)
  {
    if i + 1 < n {
      assert !(i + 1 < WindowStop(n, i, maxH));
    }
  }

  /**
   With a positive volatility and stop-loss multiple, a window that never
   falls below the starting value and reaches the upper barrier somewhere is
   labelled +1: the lower barrier lies strictly below the start.
   */
  lemma RisingSeriesLabelledUp(s: seq<Option<real>>, v: seq<Option<real>>, ptMult: real, slMult: real, i: nat, hi: nat, j: nat)
    requires |v| == |s| && i < j < hi <= |s|
    requires s[i].Some? && v[i].Some? && v[i].value > 0.0 && slMult > 0.0
    requires forall k :: i < k < hi && s[k].Some? ==> s[k].value >= s[i].value
    requires Touch(s[j], UpperBarrier(s[i], v[i], ptMult), true)
    ensures BarrierLabel(s, v, ptMult, slMult, i, hi) == 1.0
  {
    var dn := LowerBarrier(s[i], v[i], slMult);
    assert slMult * v[i].value > 0.0;
    assert dn.value < s[i].value;
    assert forall k :: i < k < j ==> !Touch(s[k], dn, false);
  }

  /** When the first bar to touch either barrier touches both, the upper barrier wins: +1. */
  lemma TieGoesUp(s: seq<Option<real>>, v: seq<Option<real>>, ptMult: real, slMult: real, i: nat, hi: nat, j: nat)
    requires |v| == |s| && i < j < hi <= |s|
    requires Touch(s[j], UpperBarrier(s[i], v[i], ptMult), true) && Touch(s[j], LowerBarrier(s[i], v[i], slMult), false)
    requires forall k :: i < k < j ==> !Touch(s[k], LowerBarrier(s[i], v[i], slMult), false)
    ensures BarrierLabel(s, v, ptMult, slMult, i, hi) == 1.0
  {
    assert Touch(s[j], UpperBarrier(s[i], v[i], ptMult), true);
  }

  // ---------------------------------------------------------------------------
  // Meta-labelling dataset

  /** `(pred_z <= -entry_z) | (pred_z >= entry_z)`: a missing prediction never qualifies. */
  predicate IsCandidate(p: Option<real>, entryZ: real) {
    p.Some? && (p.value <= -entryZ || p.value >= entryZ)
  }

  /** The meta target: 1 when the barrier in the predicted direction was hit first. */
  function MetaTarget(p: real, lbl: real): (y: int)
    ensures y == 0 || y == 1
    ensures y == 1 <==> (p > 0.0 && lbl == -1.0) || (p < 0.0 && lbl == 1.0)
  {
    var side := if p > 0.0 then 1 else if p < 0.0 then -1 else 0;
    if side > 0 && lbl == -1.0 then 1
    else if side < 0 && lbl == 1.0 then 1
    else 0
  }

  /** A bar survives into the meta dataset: candidate, labelled, and no non-target feature missing. */
  predicate Kept(features: Table, predZ: seq<Option<real>>, labels: seq<Option<real>>, entryZ: real, b: nat)
    requires Rectangular(features) && |features.rows| == |predZ| == |labels|
  {
    && b < |predZ|
    && IsCandidate(predZ[b], entryZ)
    && labels[b].Some?
    && forall c :: 0 <= c < |features.names| && features.names[c] != "target" ==> features.rows[b].cells[c].Some?
  }

  /** The surviving bars from `from` on, in increasing order. */
  function KeptBars(features: Table, predZ: seq<Option<real>>, labels: seq<Option<real>>, entryZ: real, from: nat): (r: seq<nat>)
    requires Rectangular(features) && |features.rows| == |predZ| == |labels|
    requires from <= |predZ|
    ensures forall k :: 0 <= k < |r| ==> from <= r[k] && Kept(features, predZ, labels, entryZ, r[k])
    ensures forall b :: from <= b < |predZ| && Kept(features, predZ, labels, entryZ, b) ==> b in r
    ensures forall j, k :: 0 <= j < k < |r| ==> r[j] < r[k]
    decreases |predZ| - from
  {
    if from == |predZ| then []
    else if Kept(features, predZ, labels, entryZ, from) then [from] + KeptBars(features, predZ, labels, entryZ, from + 1)
    else KeptBars(features, predZ, labels, entryZ, from + 1)
  }

  /** X_meta and y_meta over the surviving bars `bars` (their shared index). */
  datatype MetaDataset = MetaDataset(bars: seq<nat>, x: Table, y: seq<int>)

  /**
   `build_meta_dataset` given the triple-barrier labels of z: the kept bars
   are exactly the candidates with a label and complete non-target features,
   in time order; X drops the target column and shares its index with y;
   y is 1 exactly when the predicted direction's barrier came first.
   */
  function BuildMetaDataset(features: Table, predZ: seq<Option<real>>, labels: seq<Option<real>>, entryZ: real): (r: MetaDataset)
    requires Rectangular(features) && |features.rows| == |predZ| == |labels|
    ensures forall b :: b in r.bars <==> Kept(features, predZ, labels, entryZ, b)
    ensures forall j, k :: 0 <= j < k < |r.bars| ==> r.bars[j] < r.bars[k]
    ensures "target" !in r.x.names && Rectangular(r.x)
    ensures r.x.names == Without(features.names, "target")
    ensures |r.x.rows| == |r.bars| == |r.y|
    ensures forall k :: 0 <= k < |r.bars| ==>
      r.bars[k] < |features.rows|
      && r.x.rows[k] == Project(features.rows[r.bars[k]], KeptColumns(features.names, "target", 0))
    ensures forall k :: 0 <= k < |r.bars| ==>
      Kept(features, predZ, labels, entryZ, r.bars[k])
      && r.x.rows[k].time == features.rows[r.bars[k]].time && Complete(r.x.rows[k])
    ensures forall k :: 0 <= k < |r.bars| ==>
      Kept(features, predZ, labels, entryZ, r.bars[k])
      && (r.y[k] == 0 || r.y[k] == 1)
      && (r.y[k] == 1 <==> (predZ[r.bars[k]].value > 0.0 && labels[r.bars[k]] == Some(-1.0))
                           || (predZ[r.bars[k]].value < 0.0 && labels[r.bars[k]] == Some(1.0)))
  {
    var bars := KeptBars(features, predZ, labels, entryZ, 0);
    var x := FeatureRows(features, bars);
    forall k | 0 <= k < |bars|
      ensures Complete(x.rows[k])
    {
      KeptRowComplete(features, predZ, labels, entryZ, bars[k]);
    }
    var y := seq(|bars|, k requires 0 <= k < |bars| => MetaTarget(predZ[bars[k]].value, labels[bars[k]].value));
    MetaDataset(bars, x, y)
  }

  /** `features.loc[bars].drop(columns=["target"])`: the rows at `bars`, without the target column. */
  function FeatureRows(features: Table, bars: seq<nat>): (x: Table)
    requires Rectangular(features) && forall k :: 0 <= k < |bars| ==> bars[k] < |features.rows|
    ensures Rectangular(x) && x.names == Without(features.names, "target") && |x.rows| == |bars|
    ensures forall k :: 0 <= k < |bars| ==>
      x.rows[k] == Project(features.rows[bars[k]], KeptColumns(features.names, "target", 0))
  {
    DropColumn(Table(features.names, seq(|bars|, k requires 0 <= k < |bars| => features.rows[bars[k]])), "target")
  }

  /** A kept bar's feature row, without the target, has every cell. */
  lemma KeptRowComplete(features: Table, predZ: seq<Option<real>>, labels: seq<Option<real>>, entryZ: real, b: nat)
    requires Rectangular(features) && |features.rows| == |predZ| == |labels|
    requires Kept(features, predZ, labels, entryZ, b)
    ensures Complete(Project(features.rows[b], KeptColumns(features.names, "target", 0)))
  {
    var keep := KeptColumns(features.names, "target", 0);
    var p := Project(features.rows[b], keep);
    forall c | 0 <= c < |p.cells|
      ensures p.cells[c].Some?
    {
      assert features.names[keep[c]] != "target";
    }
  }
}
