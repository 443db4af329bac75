/**
 Performance metrics of core/metrics.py, also used by the two backtest loops:
 the equity curve (1 + r).cumprod(), hit rate, maximum drawdown, the guards
 of the Sharpe ratio and the performance summary.

 A square root is not available on reals, so the standard deviation enters
 as a value `sd` that the caller vouches for (sd >= 0 and sd * sd is the
 variance); likewise sqrt(periods_per_year).
 */
module Metrics {
  import opened Base

  // ---------------------------------------------------------------------------
  // Equity curve

  /** `cumprod`: entry t is the product of s[0..t]. */
  function CumProd(s: seq<real>): (r: seq<real>)
    ensures |r| == |s|
  {
    seq(|s|, t requires 0 <= t < |s| => Product(s[..t + 1]))
  }

  /** The running product starts at s[0] and multiplies in one factor per step. */
  lemma CumProdStep(s: seq<real>)
    ensures |s| > 0 ==> CumProd(s)[0] == s[0]
    ensures forall t :: 0 < t < |s| ==> CumProd(s)[t] == CumProd(s)[t - 1] * s[t]
  {
    var r := CumProd(s);
    if |s| > 0 {
      assert s[..1][..0] == [];
      assert Product(s[..1]) == Product(s[..1][..0]) * s[..1][0];
    }
    forall t | 0 < t < |s|
      ensures r[t] == r[t - 1] * s[t]
    {
      assert s[..t + 1][..t] == s[..t];
    }
  }

  /** `(1 + returns).cumprod()`. */
  function Equity(rets: seq<real>): (e: seq<real>)
    ensures |e| == |rets|
  {
    CumProd(seq(|rets|, i requires 0 <= i < |rets| => 1.0 + rets[i]))
  }

  /** Equity stays positive as long as no single return loses 100% or more. */
  lemma {:induction false} EquityPositive(rets: seq<real>)
    requires forall i :: 0 <= i < |rets| ==> rets[i] > -1.0
    ensures forall t :: 0 <= t < |rets| ==> Equity(rets)[t] > 0.0
  {
    var e := Equity(rets);
    var g := seq(|rets|, i requires 0 <= i < |rets| => 1.0 + rets[i]);
    forall t | 0 <= t < |rets|
      ensures e[t] > 0.0
    {
      EquityPositiveAt(g, t);
    }
  }

  lemma {:induction false} EquityPositiveAt(g: seq<real>, t: nat)
    requires t < |g|
    requires forall i :: 0 <= i < |g| ==> g[i] > 0.0
    ensures CumProd(g)[t] > 0.0
  {
    CumProdStep(g);
    if t > 0 {
      EquityPositiveAt(g, t - 1);
      var c := CumProd(g);
      assert c[t] == c[t - 1] * g[t];
    }
  }

  // ---------------------------------------------------------------------------
  // Hit rate

  /** The number of non-zero returns: 0 exactly when every return is 0. */
  function CountNonZero(s: seq<real>): (c: nat)
    ensures c <= |s|
    ensures c == 0 <==> forall i :: 0 <= i < |s| ==> s[i] == 0.0
  {
    if |s| == 0 then 0
    else
      var init := s[..|s| - 1];
      assert forall i :: 0 <= i < |s| - 1 ==> init[i] == s[i];
      CountNonZero(init) + (if s[|s| - 1] != 0.0 then 1 else 0)
  }

  /** The number of positive returns, none of which is zero: at most the number of non-zero ones. */
  function CountPositive(s: seq<real>): (c: nat)
    ensures c <= CountNonZero(s)
    ensures c == 0 <==> forall i :: 0 <= i < |s| ==> s[i] <= 0.0
    ensures c == CountNonZero(s) <==> forall i :: 0 <= i < |s| && s[i] != 0.0 ==> s[i] > 0.0
  {
    if |s| == 0 then 0
    else
      var init := s[..|s| - 1];
      assert forall i :: 0 <= i < |s| - 1 ==> init[i] == s[i];
      CountPositive(init) + (if s[|s| - 1] > 0.0 then 1 else 0)
  }

  /**
   `hit_rate`: the share of non-zero returns that are positive, 0.0 when
   there is none. It lies in [0, 1]; it is 1 exactly when there is a non-zero
   return and all non-zero returns are positive; it is 0 exactly when no
   return is positive.
   */
  function HitRate(s: seq<real>): (r: real)
    ensures 0.0 <= r <= 1.0
    ensures CountNonZero(s) == 0 ==> r == 0.0
    ensures r == 0.0 <==> forall i :: 0 <= i < |s| ==> s[i] <= 0.0
    ensures r == 1.0 <==> CountNonZero(s) > 0 && forall i :: 0 <= i < |s| && s[i] != 0.0 ==> s[i] > 0.0
  {
    var nz := CountNonZero(s);
    if nz == 0 then 0.0 else Fraction(CountPositive(s), nz)
  }

  /** a / b for a <= b, b > 0: a fraction, 0 exactly when a is and 1 exactly when a == b. */
  function Fraction(a: nat, b: nat): (q: real)
    requires a <= b && b > 0
    ensures 0.0 <= q <= 1.0
    ensures q == 0.0 <==> a == 0
    ensures q == 1.0 <==> a == b
    ensures q * (b as real) == a as real
  {
    var A, B := a as real, b as real;
    var q := A / B;
    assert q * B == A;
    assert q >= 0.0 by {
      if q < 0.0 { MulPositive(-q, B); }
    }
    assert q <= 1.0 by {
      if q > 1.0 { MulPositive(q - 1.0, B); }
    }
    assert a == 0 ==> q == 0.0 by {
      if a == 0 { ZeroProduct(q, B); }
    }
    assert a == b ==> q == 1.0 by {
      if a == b {
        assert (q - 1.0) * B == 0.0;
        ZeroProduct(q - 1.0, B);
      }
    }
    q
  }

  // ---------------------------------------------------------------------------
  // Drawdown

  /** Some entry of `e` at or before t equals v. */
  predicate Attained(e: seq<real>, t: nat, v: real) {
    exists k :: 0 <= k <= t && k < |e| && v == e[k]
  }

  /** `cummax` of a series of reals. */
  function RunningMax(e: seq<real>): (r: seq<real>)
    ensures |r| == |e|
    ensures forall t, k :: 0 <= k <= t < |e| ==> e[k] <= r[t]
    ensures forall t :: 0 <= t < |e| ==> Attained(e, t, r[t])
  {
    if |e| == 0 then []
    else
      var n := |e|;
      var init := e[..n - 1];
      var prev := RunningMax(init);
      var last := e[n - 1];
      var m := if |prev| == 0 || last >= prev[|prev| - 1] then last else prev[|prev| - 1];
      var r := prev + [m];
      forall t, k | 0 <= k <= t < n
        ensures e[k] <= r[t]
      {
        if t < n - 1 {
          assert init[k] == e[k];
        } else if k < n - 1 {
          assert init[k] == e[k];
          assert init[k] <= prev[n - 2];
        }
      }
      forall t | 0 <= t < n
        ensures Attained(e, t, r[t])
      {
        if t < n - 1 {
          assert Attained(init, t, prev[t]);
          var k :| 0 <= k <= t && prev[t] == init[k];
          assert r[t] == e[k];
        } else if m == last {
          assert r[t] == e[n - 1];
        } else {
          assert Attained(init, n - 2, prev[n - 2]);
          var k :| 0 <= k <= n - 2 && prev[n - 2] == init[k];
          assert r[t] == e[k];
        }
      }
      r
  }

  /** The order of non-NaN doubles: -inf below every number, +inf above. */
  predicate FLe(a: Float, b: Float) {
    match (a, b)
    case (Num(x), Num(y)) => x <= y
    case (Inf(p), Inf(q)) => !p || q
    case (Inf(p), Num(_)) => !p
    case (Num(_), Inf(q)) => q
    case _ => false
  }

  /** pandas `min()`: NaN entries are skipped; NaN only when every entry is NaN. */
  function MinSkipNaN(s: seq<Float>): (r: Float)
    ensures r.NaN? <==> forall i :: 0 <= i < |s| ==> s[i].NaN?
    ensures !r.NaN? ==> exists i :: 0 <= i < |s| && s[i] == r
    ensures forall i :: 0 <= i < |s| && !s[i].NaN? ==> FLe(r, s[i])
  {
    if |s| == 0 then NaN
    else
      var init := s[..|s| - 1];
      assert forall i :: 0 <= i < |s| - 1 ==> init[i] == s[i];
      var m := MinSkipNaN(init);
      var last := s[|s| - 1];
      if last.NaN? then m
      else if m.NaN? then last
      else if FLe(m, last) then m
      else last
  }

  /** (x - peak) / peak as a double. */
  function BarDrawdown(x: real, peak: real): Float {
    Div(Num(x - peak), Num(peak))
  }

  /** (equity - peak) / peak on every bar. */
  function Drawdowns(e: seq<real>): (d: seq<Float>)
    ensures |d| == |e|
  {
    var peak := RunningMax(e);
    seq(|e|, t requires 0 <= t < |e| => BarDrawdown(e[t], peak[t]))
  }

  /** `max_drawdown`: 0.0 for an empty curve, else the smallest drawdown (NaN skipped). */
  function MaxDrawdown(e: seq<real>): Float {
    if |e| == 0 then Num(0.0) else MinSkipNaN(Drawdowns(e))
  }

  /** Below a positive curve every bar's drawdown is a number in (-1, 0]. */
  lemma DrawdownsInRange(e: seq<real>)
    requires forall t :: 0 <= t < |e| ==> e[t] > 0.0
    ensures forall t :: 0 <= t < |e| ==> Drawdowns(e)[t].Num? && -1.0 < Drawdowns(e)[t].v <= 0.0
  {
    forall t | 0 <= t < |e|
      ensures Drawdowns(e)[t].Num? && -1.0 < Drawdowns(e)[t].v <= 0.0
    {
      DrawdownAt(e, t);
      DrawdownInRange(e[t], RunningMax(e)[t]);
    }
  }

  /** Bar t's drawdown, against a peak at least as high as the bar. */
  lemma DrawdownAt(e: seq<real>, t: nat)
    requires t < |e|
    ensures e[t] <= RunningMax(e)[t]
    ensures Drawdowns(e)[t] == BarDrawdown(e[t], RunningMax(e)[t])
  {
    var peak := RunningMax(e);
    assert forall k :: 0 <= k <= t ==> e[k] <= peak[t];
  }

  /** The drawdown of a positive equity curve is a number in (-1, 0]. */
  lemma PositiveCurveDrawdown(e: seq<real>)
    requires forall t :: 0 <= t < |e| ==> e[t] > 0.0
    ensures MaxDrawdown(e).Num?
    ensures -1.0 < MaxDrawdown(e).v <= 0.0
  {
    if |e| > 0 {
      var d := Drawdowns(e);
      DrawdownsInRange(e);
      var m := MinSkipNaN(d);
      assert !d[0].NaN?;
      var i :| 0 <= i < |d| && d[i] == m;
    }
  }

  /** One bar's drawdown below a positive peak is a number in (-1, 0]. */
  lemma DrawdownInRange(x: real, peak: real)
    requires 0.0 < x <= peak
    ensures BarDrawdown(x, peak).Num?
    ensures -1.0 < BarDrawdown(x, peak).v <= 0.0
  {
    var q := (x - peak) / peak;
    assert q * peak == x - peak;
  }

  /** e/peak - 1 and (e - peak)/peak are the same double whenever e <= peak. */
  lemma RatioFormAgrees(x: real, peak: real)
    requires x <= peak
    ensures Sub(Div(Num(x), Num(peak)), Num(1.0)) == BarDrawdown(x, peak)
  {
    if peak != 0.0 {
      var f := x / peak;
      var q := (x - peak) / peak;
      assert f * peak == x && q * peak == x - peak;
      assert (f - 1.0 - q) * peak == 0.0;
      ZeroProduct(f - 1.0 - q, peak);
    }
  }

  /** e / peak - 1 on every bar. */
  function RatioDrawdowns(e: seq<real>): (d: seq<Float>)
    ensures |d| == |e|
  {
    var peak := RunningMax(e);
    seq(|e|, t requires 0 <= t < |e| => Sub(Div(Num(e[t]), Num(peak[t])), Num(1.0)))
  }

  /** `(equity / equity.cummax() - 1.0).min()`, the drawdown form of the two backtest loops. */
  function MaxDrawdownRatio(e: seq<real>): Float {
    MinSkipNaN(RatioDrawdowns(e))
  }

  /** Both drawdown formulas give the same value on every non-empty curve, zero peaks included. */
  lemma DrawdownFormsAgree(e: seq<real>)
    requires |e| > 0
    ensures MaxDrawdownRatio(e) == MaxDrawdown(e)
  {
    forall t | 0 <= t < |e|
      ensures RatioDrawdowns(e)[t] == Drawdowns(e)[t]
    {
      RatioAt(e, t);
    }
    assert RatioDrawdowns(e) == Drawdowns(e);
  }

  lemma RatioAt(e: seq<real>, t: nat)
    requires t < |e|
    ensures RatioDrawdowns(e)[t] == Drawdowns(e)[t]
  {
    var peak := RunningMax(e);
    DrawdownAt(e, t);
    RatioFormAgrees(e[t], peak[t]);
  }

  /** With no return at or below -100%, the equity curve's drawdown is a number in (-1, 0]. */
  lemma EquityDrawdownBound(rets: seq<real>)
    ensures (forall i :: 0 <= i < |rets| ==> rets[i] > -1.0) ==>
      MaxDrawdown(Equity(rets)).Num? && -1.0 < MaxDrawdown(Equity(rets)).v <= 0.0
  {
    if forall i :: 0 <= i < |rets| ==> rets[i] > -1.0 {
      EquityPositive(rets);
      PositiveCurveDrawdown(Equity(rets));
    }
  }

  // ---------------------------------------------------------------------------
  // Sharpe ratio

  lemma MulPositive(a: real, b: real)
    requires a > 0.0 && b > 0.0
    ensures a * b > 0.0
  {
  }

  /** A product with a non-zero factor vanishes only when the other factor does. */
  lemma ZeroProduct(a: real, b: real)
    requires a * b == 0.0 && b != 0.0
    ensures a == 0.0
  {
    if a > 0.0 && b > 0.0 {
      MulPositive(a, b);
    } else if a > 0.0 && b < 0.0 {
      MulPositive(a, -b);
    } else if a < 0.0 && b > 0.0 {
      MulPositive(-a, b);
    } else if a < 0.0 && b < 0.0 {
      MulPositive(-a, -b);
    }
  }

  /** Dividing by a positive deviation and scaling by a positive root keeps the sign of the mean. */
  lemma ScaledSign(m: real, sd: real, root: real)
    requires sd > 0.0 && root > 0.0
    ensures (m / sd) * root > 0.0 <==> m > 0.0
    ensures (m / sd) * root < 0.0 <==> m < 0.0
  {
    var q := m / sd;
    assert q * sd == m;
    if m > 0.0 {
      MulPositive(q, root);
    } else if m < 0.0 {
      MulPositive(-q, root);
    } else {
      ZeroProduct(q, sd);
    }
  }

  predicate AllEqual(s: seq<real>) {
    forall i :: 0 <= i < |s| ==> s[i] == s[0]
  }

  /**
   What the guard of `sharpe_ratio` relies on about pandas' sample standard
   deviation: it is NaN (None) for fewer than two values, and otherwise a
   non-negative number that is 0 exactly when all values are equal. Its
   magnitude needs a square root and stays abstract.
   */
  predicate IsSampleStd(rets: seq<real>, sd: Option<real>) {
    if |rets| < 2 then sd.None?
    else sd.Some? && sd.value >= 0.0 && (sd.value == 0.0 <==> AllEqual(rets))
  }

  /**
   `sharpe_ratio`: 0.0 when the standard deviation is NaN (fewer than two
   returns) or zero (all returns equal); otherwise the mean over the
   deviation scaled by sqrt(periods_per_year), with the sign of the mean.
   */
  function SharpeRatio(rets: seq<real>, sd: Option<real>, rootPeriods: real): (r: real)
    requires IsSampleStd(rets, sd)
    requires rootPeriods >= 0.0
    ensures |rets| < 2 ==> r == 0.0
    ensures AllEqual(rets) ==> r == 0.0
    ensures rootPeriods > 0.0 && |rets| >= 2 && !AllEqual(rets) ==>
      (r > 0.0 <==> Mean(rets) > 0.0) && (r < 0.0 <==> Mean(rets) < 0.0)
  {
    if sd.None? || sd.value == 0.0 then 0.0
    else
      if rootPeriods > 0.0 then ScaledSign(Mean(rets), sd.value, rootPeriods); (Mean(rets) / sd.value) * rootPeriods
      else (Mean(rets) / sd.value) * rootPeriods
  }

  /**
   The Sharpe figure of the two backtest loops: sqrt(252) * mean / (population
   std + 1e-12). The denominator is never zero; the figure has the sign of
   the mean and is missing (NaN) only for an empty return series.
   */
  function EpsilonSharpe(rets: seq<real>, popSd: real, rootPeriods: real): (r: Option<real>)
    requires popSd >= 0.0 && rootPeriods > 0.0
    ensures r.None? <==> |rets| == 0
    ensures r.Some? ==> (r.value > 0.0 <==> Mean(rets) > 0.0) && (r.value < 0.0 <==> Mean(rets) < 0.0)
  {
    if |rets| == 0 then None
    else
      var m := rootPeriods * Mean(rets);
      ScaledSign(m, popSd + 0.000000000001, 1.0);
      assert m > 0.0 <==> Mean(rets) > 0.0 by {
        if Mean(rets) > 0.0 { MulPositive(rootPeriods, Mean(rets)); }
        if Mean(rets) < 0.0 { MulPositive(rootPeriods, -Mean(rets)); }
        if Mean(rets) == 0.0 { assert m == 0.0; }
      }
      assert m < 0.0 <==> Mean(rets) < 0.0 by {
        if Mean(rets) > 0.0 { MulPositive(rootPeriods, Mean(rets)); }
        if Mean(rets) < 0.0 { MulPositive(rootPeriods, -Mean(rets)); }
        if Mean(rets) == 0.0 { assert m == 0.0; }
      }
      Some((m / (popSd + 0.000000000001)) * 1.0)
  }

  // ---------------------------------------------------------------------------
  // Summary

  datatype PerformanceSummary = PerformanceSummary(
    sharpe: real, maxDrawdown: Float, hitRate: real, totalReturn: real, turnover: real)

  /** `fillna(0)` on a return series. */
  function Clean(rets: seq<Option<real>>): (c: seq<real>)
    ensures |c| == |rets|
    ensures forall i :: 0 <= i < |rets| ==> c[i] == if rets[i].Some? then rets[i].value else 0.0
  {
    seq(|rets|, i requires 0 <= i < |rets| => rets[i].GetOr(0.0))
  }

  /**
   `summarize_performance`: missing returns count as 0; total return is the
   last equity value minus 1 (0.0 when there are no returns); turnover is
   passed through; with no return at or below -100% the drawdown is a
   number in (-1, 0].
   */
  function Summarize(rets: seq<Option<real>>, turnover: real, sd: Option<real>, rootPeriods: real): (r: PerformanceSummary)
    requires IsSampleStd(Clean(rets), sd)
    requires rootPeriods >= 0.0
    ensures r.turnover == turnover
    ensures |rets| == 0 ==> r == PerformanceSummary(0.0, Num(0.0), 0.0, 0.0, turnover)
    ensures |rets| > 0 ==> r.totalReturn == Equity(Clean(rets))[|rets| - 1] - 1.0
    ensures |rets| > 0 ==>
      && r.sharpe == SharpeRatio(Clean(rets), sd, rootPeriods)
      && r.hitRate == HitRate(Clean(rets))
      && r.maxDrawdown == MaxDrawdown(Equity(Clean(rets)))
    ensures 0.0 <= r.hitRate <= 1.0
    ensures (forall i :: 0 <= i < |rets| ==> rets[i].None? || rets[i].value > -1.0) ==>
      r.maxDrawdown.Num? && -1.0 < r.maxDrawdown.v <= 0.0
  {
    var clean := Clean(rets);
    var equity := Equity(clean);
    var total := if |equity| == 0 then 0.0 else equity[|equity| - 1] - 1.0;
    CleanDrawdownBound(rets);
    PerformanceSummary(SharpeRatio(clean, sd, rootPeriods), MaxDrawdown(equity),
                       HitRate(clean), total, turnover)
  }

  /** With no missing-or-worse-than-100% loss, the cleaned series' drawdown is a number in (-1, 0]. */
  lemma CleanDrawdownBound(rets: seq<Option<real>>)
    ensures (forall i :: 0 <= i < |rets| ==> rets[i].None? || rets[i].value > -1.0) ==>
      MaxDrawdown(Equity(Clean(rets))).Num? && -1.0 < MaxDrawdown(Equity(Clean(rets))).v <= 0.0
  {
    var clean := Clean(rets);
    if forall i :: 0 <= i < |rets| ==> rets[i].None? || rets[i].value > -1.0 {
      assert forall i :: 0 <= i < |clean| ==> clean[i] > -1.0;
      EquityDrawdownBound(clean);
    }
  }
}
