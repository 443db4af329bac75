/**
 The signal helpers of core/signal.py: the linear spread, the rolling
 z-score with infinities turned into missing values, and the forward-filled
 mean-reversion signal.
 */
module Signal {
  import opened Base
  import opened CointUtils

  /** `y - (intercept + hedge_ratio * x)`; adding the fitted line back gives y. */
  function ComputeSpread(y: seq<real>, x: seq<real>, hedgeRatio: real, intercept: real): (s: seq<real>)
    requires |x| == |y|
    ensures |s| == |y|
    ensures forall t :: 0 <= t < |y| ==> s[t] + (intercept + hedgeRatio * x[t]) == y[t]
  {
    seq(|y|, t requires 0 <= t < |y| => y[t] - (intercept + hedgeRatio * x[t]))
  }

  /**
   `zscore`: (x - rolling mean) / rolling sample std over `window` bars,
   computed in doubles, with +-inf replaced by NaN. `sampleSd` is pandas'
   `std()` (ddof=1), missing when undefined. A bar has a z exactly when its
   window is complete and the deviation exists and is non-zero: a zero
   deviation gives NaN or an infinity, and both end up missing.
   */
  function ZScore(series: seq<Option<real>>, window: nat, sampleSd: seq<real> -> Option<real>): (z: seq<Option<real>>)
    requires window >= 1
    ensures |z| == |series|
    ensures forall t :: 0 <= t < |series| ==> (z[t].Some? <==> HasDeviation(series, t, window, sampleSd))
    ensures forall t :: 0 <= t < |series| && z[t].Some? ==> Restores(series, t, window, sampleSd, z[t].value)
  {
    seq(|series|, t requires 0 <= t < |series| => ZScoreAt(series, window, sampleSd, t))
  }

  /** The window ending at t is complete and its sample deviation exists and is non-zero. */
  predicate HasDeviation(series: seq<Option<real>>, t: nat, window: nat, sampleSd: seq<real> -> Option<real>)
    requires t < |series|
  {
    WindowComplete(series, t, window)
    && sampleSd(WindowValues(series, t, window)).Some?
    && sampleSd(WindowValues(series, t, window)).value != 0.0
  }

  /** z times the window's deviation plus its mean gives back the bar's value. */
  predicate Restores(series: seq<Option<real>>, t: nat, window: nat, sampleSd: seq<real> -> Option<real>, z: real)
    requires window >= 1 && t < |series| && HasDeviation(series, t, window, sampleSd)
  {
    var win := WindowValues(series, t, window);
    z * sampleSd(win).value + Mean(win) == series[t].value
  }

  function ZScoreAt(series: seq<Option<real>>, window: nat, sampleSd: seq<real> -> Option<real>, t: nat): (z: Option<real>)
    requires window >= 1 && t < |series|
    ensures z.Some? <==> HasDeviation(series, t, window, sampleSd)
    ensures z.Some? ==> Restores(series, t, window, sampleSd, z.value)
  {
    if !WindowComplete(series, t, window) then None
    else
      var win := WindowValues(series, t, window);
      assert series[t] == Some(win[window - 1]);
      ZCellFloat(series[t], Mean(win), sampleSd(win))
  }

  /** One cell of `(x - mean) / std` in doubles, followed by inf -> NaN. */
  function ZCellFloat(x: Option<real>, mu: real, sd: Option<real>): (z: Option<real>)
    ensures z.Some? <==> x.Some? && sd.Some? && sd.value != 0.0
    ensures z.Some? ==> z.value * sd.value + mu == x.value
  {
    var q := Div(Sub(OfOption(x), Num(mu)), OfOption(sd));
    if q.Num? then
      assert q.v == (x.value - mu) / sd.value;
      ToOption(q)
    else ToOption(q)
  }

  // ---------------------------------------------------------------------------
  // Mean-reversion signal

  /**
   The signal a bar sets by itself, before forward filling: 0 when
   |z| < exit_z (assigned last, so it wins), else +1 when z < -entry_z, else
   -1 when z > entry_z; a missing z or a bar matching no rule sets nothing.
   */
  function RawSignal(z: Option<real>, entryZ: real, exitZ: real): (s: Option<int>)
    ensures s.Some? ==> -1 <= s.value <= 1
  {
    match z
    case None => None
    case Some(v) =>
      if Abs(v) < exitZ then Some(0)
      else if v < -entryZ then Some(1)
      else if v > entryZ then Some(-1)
      else None
  }

  /**
   `mean_reversion_signals`: the raw signals forward filled, with the
   leading unfilled bars flat. Values are in {-1, 0, +1}; a bar that sets a
   signal takes it, any other bar repeats the bar before, and the first bar
   is flat unless it sets one.
   */
  function MeanReversionSignals(z: seq<Option<real>>, entryZ: real, exitZ: real): (sig: seq<int>)
    ensures |sig| == |z|
    ensures forall t :: 0 <= t < |z| ==> -1 <= sig[t] <= 1
    ensures forall t :: 0 <= t < |z| ==>
      sig[t] == match RawSignal(z[t], entryZ, exitZ)
                case Some(s) => s
                case None => if t == 0 then 0 else sig[t - 1]
  {
    var raw := seq(|z|, t requires 0 <= t < |z| => RawSignal(z[t], entryZ, exitZ));
    var filled := ForwardFill(raw);
    FilledSignalsInRange(raw);
    seq(|z|, t requires 0 <= t < |z| => filled[t].GetOr(0))
  }

  /** Forward filling raw signals keeps them in {-1, 0, +1}. */
  lemma FilledSignalsInRange(raw: seq<Option<int>>)
    requires forall t :: 0 <= t < |raw| && raw[t].Some? ==> -1 <= raw[t].value <= 1
    ensures forall t :: 0 <= t < |raw| && ForwardFill(raw)[t].Some? ==> -1 <= ForwardFill(raw)[t].value <= 1
  {
    var f := ForwardFill(raw);
    forall t | 0 <= t < |raw| && f[t].Some?
      ensures -1 <= f[t].value <= 1
    {
      FilledFrom(raw, t);
    }
  }

  /** A filled cell carries the value of some present cell at or before it. */
  lemma {:induction false} FilledFrom(raw: seq<Option<int>>, t: nat)
    requires t < |raw| && ForwardFill(raw)[t].Some?
    ensures exists j :: 0 <= j <= t && raw[j] == ForwardFill(raw)[t]
  {
    if raw[t].None? {
      assert t > 0;
      FilledFrom(raw, t - 1);
    }
  }

  /**
   The signal can reverse in one bar: with 0 <= exit_z <= entry_z, a z above
   entry_z followed by one below -entry_z gives -1 then +1, with no flat bar
   in between.
   */
  lemma DirectFlip(z: seq<Option<real>>, entryZ: real, exitZ: real, t: nat)
    requires 0 < t < |z| && 0.0 <= exitZ <= entryZ
    requires z[t - 1].Some? && z[t - 1].value > entryZ
    requires z[t].Some? && z[t].value < -entryZ
    ensures MeanReversionSignals(z, entryZ, exitZ)[t - 1] == -1
    ensures MeanReversionSignals(z, entryZ, exitZ)[t] == 1
  {
    assert RawSignal(z[t - 1], entryZ, exitZ) == Some(-1);
    assert RawSignal(z[t], entryZ, exitZ) == Some(1);
    SetsItself(z, entryZ, exitZ, t - 1);
    SetsItself(z, entryZ, exitZ, t);
  }

  /** A bar that sets a signal by itself takes that signal. */
  lemma SetsItself(z: seq<Option<real>>, entryZ: real, exitZ: real, t: nat)
    requires t < |z| && RawSignal(z[t], entryZ, exitZ).Some?
    ensures MeanReversionSignals(z, entryZ, exitZ)[t] == RawSignal(z[t], entryZ, exitZ).value
  {
  }
}
