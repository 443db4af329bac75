/**
 The accounting shared by the two backtest loops (src/backtest.py and the
 root pairs_ml.py): lagged P&L, the trade mask and its costs, the net
 return series, the equity curve and the figures reported from it, and the
 gate that decides on which bars a flat book may open.
 */
module Ledger {
  import opened Base
  import opened Positions
  import opened Metrics

  /** np.sqrt(252) as a double: the annualisation factor of both Sharpe figures. */
  const SqrtAnnual: real := 15.874507866387544

  // ---------------------------------------------------------------------------
  // P&L

  /**
   `pos.shift(1).fillna(0) * leg`: bar t earns the leg return times the
   position held at the close of bar t - 1. A book flat before the bar earns
   nothing, a long earns the leg return and a short its negative.
   */
  function LaggedPnl(pos: seq<int>, leg: seq<real>): (pnl: seq<real>)
    requires |leg| == |pos|
    ensures |pnl| == |pos|
    ensures forall t :: 0 <= t < |pos| && Prev(pos, t) == 0 ==> pnl[t] == 0.0
    ensures forall t :: 0 <= t < |pos| && Prev(pos, t) == 1 ==> pnl[t] == leg[t]
    ensures forall t :: 0 <= t < |pos| && Prev(pos, t) == -1 ==> pnl[t] == -leg[t]
  {
    seq(|pos|, t requires 0 <= t < |pos| => (Prev(pos, t) as real) * leg[t])
  }

  /** No look-ahead: the P&L of bar t is fixed by the positions before t and the leg return of t. */
  lemma PnlNoLookAhead(pos: seq<int>, pos2: seq<int>, leg: seq<real>, leg2: seq<real>, t: nat)
    requires |leg| == |pos| && |pos2| == |pos| && |leg2| == |pos| && t < |pos|
    requires pos[..t] == pos2[..t] && leg[t] == leg2[t]
    ensures LaggedPnl(pos, leg)[t] == LaggedPnl(pos2, leg2)[t]
  {
    if t > 0 {
      assert pos[t - 1] == pos[..t][t - 1] && pos2[t - 1] == pos2[..t][t - 1];
    }
  }

  // ---------------------------------------------------------------------------
  // Trades and costs

  /**
   `pos.ne(pos.shift(1)).fillna(False)`: a trade on every bar where the
   position differs from the bar before. On the first bar the shifted value
   is NaN and NaN != x is true, so the first bar always counts as a trade.
   */
  function TradeMask(pos: seq<int>): (m: seq<bool>)
    ensures |m| == |pos|
    ensures |pos| > 0 ==> m[0]
    ensures forall t :: 0 < t < |pos| ==> (m[t] <==> pos[t] != pos[t - 1])
  {
    seq(|pos|, t requires 0 <= t < |pos| => t == 0 || pos[t] != pos[t - 1])
  }

  /** An open position is either kept or closed, never reversed in one bar. */
  predicate NoFlip(pos: seq<int>) {
    forall t :: 0 < t < |pos| && pos[t - 1] != 0 ==> pos[t] == 0 || pos[t] == pos[t - 1]
  }

  /** Bars that open from flat: `(pos != 0) & (pos.shift(1) == 0)`; the first bar never counts. */
  function CountEntries(pos: seq<int>): nat {
    if |pos| <= 1 then 0
    else CountEntries(pos[..|pos| - 1]) + (if pos[|pos| - 2] == 0 && pos[|pos| - 1] != 0 then 1 else 0)
  }

  /** Bars that close an open position. */
  function CountExits(pos: seq<int>): nat {
    if |pos| <= 1 then 0
    else CountExits(pos[..|pos| - 1]) + (if pos[|pos| - 2] != 0 && pos[|pos| - 1] == 0 then 1 else 0)
  }

  lemma TradeMaskPrefix(pos: seq<int>)
    requires |pos| > 0
    ensures TradeMask(pos)[..|pos| - 1] == TradeMask(pos[..|pos| - 1])
  {
  }

  /**
   Without reversals every trade after the first bar is an entry or an exit:
   the number of trade bars is one (the first bar) plus entries plus exits.
   */
  lemma {:induction false} TradesAreEntriesAndExits(pos: seq<int>)
    requires |pos| > 0 && NoFlip(pos)
    ensures CountTrue(TradeMask(pos)) == 1 + CountEntries(pos) + CountExits(pos)
  {
    if |pos| > 1 {
      var init := pos[..|pos| - 1];
      assert NoFlip(init) by {
        forall t | 0 < t < |init| && init[t - 1] != 0
          ensures init[t] == 0 || init[t] == init[t - 1]
        {
          assert init[t] == pos[t] && init[t - 1] == pos[t - 1];
        }
      }
      TradesAreEntriesAndExits(init);
      TradeMaskPrefix(pos);
      assert init[|init| - 1] == pos[|pos| - 2];
    }
  }

  /** Entries and exits alternate: they differ by whether the book is open at the end and at the start. */
  lemma {:induction false} EntriesExitsBalance(pos: seq<int>)
    requires |pos| > 0
    ensures CountEntries(pos) as int - CountExits(pos) as int
      == (if pos[|pos| - 1] != 0 then 1 else 0) - (if pos[0] != 0 then 1 else 0)
  {
    if |pos| > 1 {
      var init := pos[..|pos| - 1];
      EntriesExitsBalance(init);
      assert init[0] == pos[0] && init[|init| - 1] == pos[|pos| - 2];
    }
  }

  /** Both cost legs are paid on every trade bar: `trades * (cost_per_leg * 2)`. */
  function Costs(trades: seq<bool>, costPerLeg: real): (c: seq<real>)
    ensures |c| == |trades|
  {
    seq(|trades|, t requires 0 <= t < |trades| => if trades[t] then costPerLeg * 2.0 else 0.0)
  }

  /** The total cost is twice the per-leg cost times the number of trade bars. */
  lemma {:induction false} TotalCost(trades: seq<bool>, costPerLeg: real)
    ensures Sum(Costs(trades, costPerLeg)) == 2.0 * costPerLeg * (CountTrue(trades) as real)
  {
    if |trades| > 0 {
      var init := trades[..|trades| - 1];
      TotalCost(init, costPerLeg);
      var c := Costs(trades, costPerLeg);
      assert c[..|c| - 1] == Costs(init, costPerLeg);
      var k := CountTrue(init) as real;
      assert 2.0 * costPerLeg * (k + 1.0) == 2.0 * costPerLeg * k + costPerLeg * 2.0;
    }
  }

  /** `pnl - costs`. */
  function NetReturns(pnl: seq<real>, costs: seq<real>): (r: seq<real>)
    requires |costs| == |pnl|
    ensures |r| == |pnl|
    ensures forall t :: 0 <= t < |pnl| ==> r[t] + costs[t] == pnl[t]
  {
    seq(|pnl|, t requires 0 <= t < |pnl| => pnl[t] - costs[t])
  }

  // ---------------------------------------------------------------------------
  // Gate

  /**
   The entry gate: on by default, and-ed with the cointegration mask when
   one is given and with `meta_proba.fillna(0.0) >= meta_threshold` when
   meta probabilities are given.
   */
  function Gate(n: nat, coint: Option<seq<bool>>, meta: Option<seq<Option<real>>>, metaThreshold: real): (g: seq<bool>)
    requires coint.Some? ==> |coint.value| == n
    requires meta.Some? ==> |meta.value| == n
    ensures |g| == n
  {
    seq(n, t requires 0 <= t < n =>
      (coint.None? || coint.value[t]) && (meta.None? || meta.value[t].GetOr(0.0) >= metaThreshold))
  }

  /**
   Without masks the gate is always open; each mask can only close it; a
   bar without a meta probability is closed whenever the threshold is
   positive.
   */
  lemma GateFacts(n: nat, coint: Option<seq<bool>>, meta: Option<seq<Option<real>>>, metaThreshold: real)
    requires coint.Some? ==> |coint.value| == n
    requires meta.Some? ==> |meta.value| == n
    ensures coint.None? && meta.None? ==> forall t :: 0 <= t < n ==> Gate(n, coint, meta, metaThreshold)[t]
    ensures forall t :: 0 <= t < n && Gate(n, coint, meta, metaThreshold)[t] ==>
      Gate(n, None, meta, metaThreshold)[t] && Gate(n, coint, None, metaThreshold)[t]
    ensures coint.Some? ==> forall t :: 0 <= t < n && !coint.value[t] ==> !Gate(n, coint, meta, metaThreshold)[t]
    ensures meta.Some? && metaThreshold > 0.0 ==>
      forall t :: 0 <= t < n && meta.value[t].None? ==> !Gate(n, coint, meta, metaThreshold)[t]
  {
  }

  // ---------------------------------------------------------------------------
  // Leg returns

  predicate Positive(p: seq<real>) {
    forall t :: 0 <= t < |p| ==> p[t] > 0.0
  }

  /**
   `pct_change().fillna(0.0)`: 0 on the first bar, then the relative change
   from the bar before; the price path is recovered by compounding.
   */
  function PctChange(p: seq<real>): (r: seq<real>)
    requires Positive(p)
    ensures |r| == |p|
    ensures |p| > 0 ==> r[0] == 0.0
    ensures forall t :: 0 < t < |p| ==> p[t - 1] * (1.0 + r[t]) == p[t]
  {
    seq(|p|, t requires 0 <= t < |p| => if t == 0 then 0.0 else Change(p[t - 1], p[t]))
  }

  function Change(a: real, b: real): (r: real)
    requires a > 0.0
    ensures a * (1.0 + r) == b
  {
    var q := (b - a) / a;
    assert q * a == b - a;
    q
  }

  /** `y_ret - beta * x_ret`: the return of the spread position, per bar. */
  function LegReturns(yRet: seq<real>, xRet: seq<real>, betas: seq<real>): (leg: seq<real>)
    requires |xRet| == |yRet| && |betas| == |yRet|
    ensures |leg| == |yRet|
    ensures forall t :: 0 <= t < |yRet| ==> leg[t] + betas[t] * xRet[t] == yRet[t]
  {
    seq(|yRet|, t requires 0 <= t < |yRet| => yRet[t] - betas[t] * xRet[t])
  }

  // ---------------------------------------------------------------------------
  // The run

  /** What a backtest reports, on the bars it kept (`bars` are their indices on the input axis). */
  datatype Run = Run(
    bars: seq<nat>, position: seq<int>, pnl: seq<real>, costs: seq<real>, net: seq<real>,
    equity: seq<real>, predZ: seq<real>, trades: seq<bool>,
    sharpe: Option<real>, maxDrawdown: Float, hitRate: real, totalReturn: real)

  /**
   The ledger of one run, given the kept bars, their predicted z, the
   positions and the leg returns. The first bar always pays both legs; a
   bar that is flat before and after earns and pays nothing; costs are
   charged on the trade bars (see `TotalCost`).
   */
  function Account(bars: seq<nat>, predZ: seq<real>, pos: seq<int>, leg: seq<real>, costPerLeg: real,
                   popSd: seq<real> -> real): (r: Run)
    requires |pos| > 0 && |leg| == |pos| && |bars| == |pos| && |predZ| == |pos|
    requires popSd(NetReturns(LaggedPnl(pos, leg), Costs(TradeMask(pos), costPerLeg))) >= 0.0
    ensures r.bars == bars && r.position == pos && r.predZ == predZ
    ensures |r.pnl| == |r.costs| == |r.net| == |r.equity| == |r.trades| == |pos|
    ensures r.net[0] == -2.0 * costPerLeg
    ensures forall t :: 0 < t < |pos| && pos[t - 1] == 0 && pos[t] == 0 ==> r.net[t] == 0.0
    ensures r.pnl == LaggedPnl(pos, leg)
    ensures r.costs == Costs(r.trades, costPerLeg) && r.trades == TradeMask(pos)
    ensures r.net == NetReturns(r.pnl, r.costs)
    ensures r.equity == Equity(r.net)
    ensures r.totalReturn + 1.0 == r.equity[|pos| - 1]
    ensures r.hitRate == HitRate(r.net) && r.maxDrawdown == MaxDrawdownRatio(r.equity)
    ensures r.sharpe == EpsilonSharpe(r.net, popSd(r.net), SqrtAnnual)
  {
    var pnl := LaggedPnl(pos, leg);
    var trades := TradeMask(pos);
    var costs := Costs(trades, costPerLeg);
    var rets := NetReturns(pnl, costs);
    var equity := Equity(rets);
    Run(bars, pos, pnl, costs, rets, equity, predZ, trades,
        EpsilonSharpe(rets, popSd(rets), SqrtAnnual), MaxDrawdownRatio(equity), HitRate(rets),
        equity[|equity| - 1] - 1.0)
  }

  /**
   The reported figures of a run: a Sharpe figure with the sign of the mean
   net return, a hit rate in [0, 1] that is 0 exactly when no bar gained,
   and, while no bar loses 100% or more, a drawdown in (-1, 0].
   */
  lemma AccountFigures(bars: seq<nat>, predZ: seq<real>, pos: seq<int>, leg: seq<real>, costPerLeg: real,
                       popSd: seq<real> -> real)
    requires |pos| > 0 && |leg| == |pos| && |bars| == |pos| && |predZ| == |pos|
    requires popSd(NetReturns(LaggedPnl(pos, leg), Costs(TradeMask(pos), costPerLeg))) >= 0.0
    ensures var r := Account(bars, predZ, pos, leg, costPerLeg, popSd);
      r.sharpe.Some? && (r.sharpe.value > 0.0 <==> Mean(r.net) > 0.0) && (r.sharpe.value < 0.0 <==> Mean(r.net) < 0.0)
    ensures var r := Account(bars, predZ, pos, leg, costPerLeg, popSd);
      0.0 <= r.hitRate <= 1.0 && (r.hitRate == 0.0 <==> forall t :: 0 <= t < |r.net| ==> r.net[t] <= 0.0)
    ensures var r := Account(bars, predZ, pos, leg, costPerLeg, popSd);
      (forall t :: 0 <= t < |r.net| ==> r.net[t] > -1.0) ==> r.maxDrawdown.Num? && -1.0 < r.maxDrawdown.v <= 0.0
  {
    var r := Account(bars, predZ, pos, leg, costPerLeg, popSd);
    DrawdownFormsAgree(r.equity);
    EquityDrawdownBound(r.net);
  }
}
