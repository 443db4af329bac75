/**
 The two backtest drivers: `backtest` of src/backtest.py (any hedge ratio,
 entry gate, time stop) and `backtest_strategy` of the root pairs_ml.py
 (one static hedge ratio, no gate). Both predict a z-score for the next
 spread, keep the bars where z and the predicted z exist, scan positions
 over the kept bars and account for them with the shared ledger.

 All series live on one bar axis, so the index intersections of the source
 are the identity; the rolling population deviation is a parameter.
 */
module Backtests {
  import opened Base
  import opened CointUtils
  import opened Positions
  import opened Ledger

  /** pandas raises this when `equity.iloc[-1]` meets an empty series. */
  const EmptyRun: string := "IndexError: single positional indexer is out-of-bounds"

  /** `S + pred_next_dS`: the predicted next spread, missing where either term is. */
  function PredictedSpread(s: seq<Option<real>>, predDS: seq<Option<real>>): (r: seq<Option<real>>)
    requires |predDS| == |s|
    ensures |r| == |s|
    ensures forall t :: 0 <= t < |s| ==> (r[t].Some? <==> s[t].Some? && predDS[t].Some?)
    ensures forall t :: 0 <= t < |s| && r[t].Some? ==> r[t].value - s[t].value == predDS[t].value
  {
    seq(|s|, t requires 0 <= t < |s| =>
      if s[t].Some? && predDS[t].Some? then Some(s[t].value + predDS[t].value) else None)
  }

  /**
   The kept bars, in order: `valid = z.notna() & pred_z.notna()` turned
   into the index the filtered series keep. No kept bar lacks either value
   and no bar with both is dropped.
   */
  function KeptBars(z: seq<Option<real>>, predZ: seq<Option<real>>): (bars: seq<nat>)
    requires |predZ| == |z|
    ensures forall k :: 0 <= k < |bars| ==> bars[k] < |z| && z[bars[k]].Some? && predZ[bars[k]].Some?
    ensures forall t :: 0 <= t < |z| && z[t].Some? && predZ[t].Some? ==> t in bars
    ensures forall j, k :: 0 <= j < k < |bars| ==> bars[j] < bars[k]
    ensures |bars| == 0 <==> forall t :: 0 <= t < |z| ==> z[t].None? || predZ[t].None?
  {
    TrueIndices(seq(|z|, t requires 0 <= t < |z| => z[t].Some? && predZ[t].Some?))
  }

  /** A predicted z exists only where the hedge ratio of that bar does, so the kept bars all have one. */
  lemma PredZNeedsBeta(y: seq<real>, x: seq<real>, beta: Beta, predNext: seq<Option<real>>, w: nat,
                       popSd: seq<real> -> real, t: nat)
    requires |x| == |y| && FitsAxis(beta, |y|) && |predNext| == |y| && w >= 1 && t < |y|
    requires RollingZ(Spread(y, x, beta), predNext, w, popSd)[t].Some?
    ensures BetaAt(beta, t).Some?
  {
    var s := Spread(y, x, beta);
    assert WindowComplete(s, t, w);
    assert s[t].Some?;
  }

  /** What the position scan reads on each kept bar. */
  function ScanBars(bars: seq<nat>, gate: seq<bool>, predZ: seq<Option<real>>, z: seq<Option<real>>): (r: seq<Bar>)
    requires |predZ| == |gate| && |z| == |gate|
    requires forall k :: 0 <= k < |bars| ==> bars[k] < |gate| && predZ[bars[k]].Some? && z[bars[k]].Some?
    ensures |r| == |bars|
    ensures forall k :: 0 <= k < |bars| ==>
      r[k] == Bar(gate[bars[k]], predZ[bars[k]].value, z[bars[k]].value)
  {
    seq(|bars|, k requires 0 <= k < |bars| => Bar(gate[bars[k]], predZ[bars[k]].value, z[bars[k]].value))
  }

  /**
   Leg returns over the kept bars: percentage changes are taken between
   consecutive kept bars (the series are filtered before `pct_change`), and
   the hedge ratio is the one of each kept bar (every kept bar has one, see
   `KeptBarsHaveBeta`, so the 0.0 fallback is never read).
   */
  function KeptLeg(y: seq<real>, x: seq<real>, beta: Beta, bars: seq<nat>): (leg: seq<real>)
    requires |x| == |y| && FitsAxis(beta, |y|) && Positive(y) && Positive(x)
    requires forall k :: 0 <= k < |bars| ==> bars[k] < |y|
    ensures |leg| == |bars|
  {
    var yv := Pick(y, bars);
    var xv := Pick(x, bars);
    LegReturns(PctChange(yv), PctChange(xv), seq(|bars|, k requires 0 <= k < |bars| => BetaAt(beta, bars[k]).GetOr(0.0)))
  }

  /** The predicted z-score of `backtest`: (S + pred_next_dS - mu) / sd over `z_window` bars of S. */
  function PredZ(y: seq<real>, x: seq<real>, beta: Beta, predDS: seq<Option<real>>, zWindow: nat,
                 popSd: seq<real> -> real): (pz: seq<Option<real>>)
    requires |x| == |y| && FitsAxis(beta, |y|) && |predDS| == |y| && zWindow >= 1
    ensures |pz| == |y|
  {
    var s := Spread(y, x, beta);
    RollingZ(s, PredictedSpread(s, predDS), zWindow, popSd)
  }

  /** Every kept bar of `backtest` has a hedge ratio: its predicted z needs the spread of that bar. */
  lemma KeptBarsHaveBeta(y: seq<real>, x: seq<real>, beta: Beta, predDS: seq<Option<real>>, z: seq<Option<real>>,
                         zWindow: nat, popSd: seq<real> -> real)
    requires |x| == |y| && |predDS| == |y| && |z| == |y| && FitsAxis(beta, |y|) && zWindow >= 1
    ensures var bars := KeptBars(z, PredZ(y, x, beta, predDS, zWindow, popSd));
      forall k :: 0 <= k < |bars| ==> BetaAt(beta, bars[k]).Some?
  {
    var s := Spread(y, x, beta);
    var bars := KeptBars(z, PredZ(y, x, beta, predDS, zWindow, popSd));
    forall k | 0 <= k < |bars|
      ensures BetaAt(beta, bars[k]).Some?
    {
      PredZNeedsBeta(y, x, beta, PredictedSpread(s, predDS), zWindow, popSd, bars[k]);
    }
  }

  /** The predicted z of each kept bar. */
  function KeptValues(bars: seq<nat>, v: seq<Option<real>>): (r: seq<real>)
    requires forall k :: 0 <= k < |bars| ==> bars[k] < |v| && v[bars[k]].Some?
    ensures |r| == |bars|
    ensures forall k :: 0 <= k < |bars| ==> v[bars[k]] == Some(r[k])
  {
    seq(|bars|, k requires 0 <= k < |bars| => v[bars[k]].value)
  }

  /**
   `backtest` without volatility targeting. It fails exactly when no bar has
   both z and a predicted z; otherwise the positions over the kept bars are
   the gated rule's and the run is their ledger.
   */
  method Backtest(y: seq<real>, x: seq<real>, beta: Beta, predDS: seq<Option<real>>, z: seq<Option<real>>,
                  p: Params, costPerLeg: real, zWindow: nat,
                  coint: Option<seq<bool>>, meta: Option<seq<Option<real>>>, metaThreshold: real,
                  popSd: seq<real> -> real)
    returns (r: Result<Run, string>)
    requires |x| == |y| && |predDS| == |y| && |z| == |y| && FitsAxis(beta, |y|) && zWindow >= 1
    requires Positive(y) && Positive(x)
    requires coint.Some? ==> |coint.value| == |y|
    requires meta.Some? ==> |meta.value| == |y|
    requires forall s :: popSd(s) >= 0.0
    ensures var pz := PredZ(y, x, beta, predDS, zWindow, popSd);
      r.Err? <==> forall t :: 0 <= t < |y| ==> z[t].None? || pz[t].None?
    ensures r.Err? ==> r.error == EmptyRun
    ensures r.Ok? ==>
      var pz := PredZ(y, x, beta, predDS, zWindow, popSd);
      var bars := KeptBars(z, pz);
      && r.value.bars == bars
      && GatedRule(ScanBars(bars, Gate(|y|, coint, meta, metaThreshold), pz, z), p, r.value.position)
      && r.value.predZ == KeptValues(bars, pz)
      && r.value == Account(bars, r.value.predZ, r.value.position, KeptLeg(y, x, beta, bars), costPerLeg, popSd)
  {
    var pz := PredZ(y, x, beta, predDS, zWindow, popSd);
    var bars := KeptBars(z, pz);
    if |bars| == 0 {
      return Err(EmptyRun);
    }
    var scan := ScanBars(bars, Gate(|y|, coint, meta, metaThreshold), pz, z);
    var pos := GatedPositions(scan, p);
    var predZv := KeptValues(bars, pz);
    var leg := KeptLeg(y, x, beta, bars);
    r := Ok(Account(bars, predZv, pos, leg, costPerLeg, popSd));
  }

  /**
   `backtest_strategy`: one static hedge ratio, the predicted next spread
   given directly, no gate and no time stop. It fails exactly when no bar
   has both z and a predicted z; otherwise the positions are the simple
   rule's and the run is their ledger.
   */
  method BacktestStrategy(y: seq<real>, x: seq<real>, beta: real, predNext: seq<Option<real>>, z: seq<Option<real>>,
                          entryZ: real, exitZ: real, costPerLeg: real, zWindow: nat, popSd: seq<real> -> real)
    returns (r: Result<Run, string>)
    requires |x| == |y| && |predNext| == |y| && |z| == |y| && zWindow >= 1
    requires Positive(y) && Positive(x)
    requires forall s :: popSd(s) >= 0.0
    ensures var pz := RollingZ(Spread(y, x, Scalar(beta)), predNext, zWindow, popSd);
      r.Err? <==> forall t :: 0 <= t < |y| ==> z[t].None? || pz[t].None?
    ensures r.Err? ==> r.error == EmptyRun
    ensures r.Ok? ==>
      var pz := RollingZ(Spread(y, x, Scalar(beta)), predNext, zWindow, popSd);
      var bars := KeptBars(z, pz);
      && r.value.bars == bars
      && r.value.predZ == KeptValues(bars, pz)
      && SimpleRule(r.value.predZ, KeptValues(bars, z), entryZ, exitZ, r.value.position)
      && r.value == Account(bars, r.value.predZ, r.value.position, KeptLeg(y, x, Scalar(beta), bars), costPerLeg, popSd)
  {
    var pz := RollingZ(Spread(y, x, Scalar(beta)), predNext, zWindow, popSd);
    var bars := KeptBars(z, pz);
    if |bars| == 0 {
      return Err(EmptyRun);
    }
    var predZv := KeptValues(bars, pz);
    var zv := KeptValues(bars, z);
    var pos := SimplePositions(predZv, zv, entryZ, exitZ);
    var leg := KeptLeg(y, x, Scalar(beta), bars);
    r := Ok(Account(bars, predZv, pos, leg, costPerLeg, popSd));
  }

  /**
   With a static hedge ratio, no masks and no time stop, and the predicted
   next spread equal to S + pred_next_dS, the two drivers scan the same
   bars and take the same positions.
   */
  lemma DriversAgree(y: seq<real>, x: seq<real>, beta: real, predDS: seq<Option<real>>, z: seq<Option<real>>,
                     entryZ: real, exitZ: real, zWindow: nat, popSd: seq<real> -> real, pos: seq<int>)
    requires |x| == |y| && |predDS| == |y| && |z| == |y| && zWindow >= 1
    ensures var s := Spread(y, x, Scalar(beta));
      var pz := PredZ(y, x, Scalar(beta), predDS, zWindow, popSd);
      pz == RollingZ(s, PredictedSpread(s, predDS), zWindow, popSd)
      && Gate(|y|, None, None, 0.0) == seq(|y|, t => true)
      && var bars := KeptBars(z, pz);
      var scan := ScanBars(bars, seq(|y|, t => true), pz, z);
      (SimpleRule(KeptValues(bars, pz), KeptValues(bars, z), entryZ, exitZ, pos) <==> GatedRule(scan, Params(entryZ, exitZ, 0), pos))
  {
    var s := Spread(y, x, Scalar(beta));
    var pz := PredZ(y, x, Scalar(beta), predDS, zWindow, popSd);
    var bars := KeptBars(z, pz);
    var scan := ScanBars(bars, seq(|y|, t => true), pz, z);
    var predZv := KeptValues(bars, pz);
    var zv := KeptValues(bars, z);
    SimpleIsUngatedWithoutStop(predZv, zv, entryZ, exitZ, pos);
    assert Ungated(predZv, zv) == scan;
  }
}
