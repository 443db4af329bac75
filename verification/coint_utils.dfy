/**
 Spread, rolling z-score, rolling cointegration p-values and half-life of
 src/coint_utils.py (the half-life and the spread/z helper of the root
 pairs_ml.py are the same code). The statistical test, the OLS slope and
 the rolling population standard deviation are parameters: only the index
 windows they are given and the guards around them are modelled.
 */
module CointUtils {
  import opened Base

  /** A hedge ratio: one number, or one (possibly missing) value per bar. */
  datatype Beta = Scalar(b: real) | PerBar(bs: seq<Option<real>>)

  predicate FitsAxis(beta: Beta, n: nat) {
    beta.PerBar? ==> |beta.bs| == n
  }

  /** The hedge ratio in force on bar t. */
  function BetaAt(beta: Beta, t: nat): Option<real>
    requires beta.PerBar? ==> t < |beta.bs|
  {
    match beta
    case Scalar(b) => Some(b)
    case PerBar(bs) => bs[t]
  }

  /**
   `y - beta*x`: missing exactly where the hedge ratio is missing, and
   otherwise the residual from which y is recovered as spread + beta*x.
   */
  function Spread(y: seq<real>, x: seq<real>, beta: Beta): (s: seq<Option<real>>)
    requires |x| == |y| && FitsAxis(beta, |y|)
    ensures |s| == |y|
    ensures forall t :: 0 <= t < |y| ==> (s[t].Some? <==> BetaAt(beta, t).Some?)
    ensures forall t :: 0 <= t < |y| && s[t].Some? ==> s[t].value + BetaAt(beta, t).value * x[t] == y[t]
  {
    seq(|y|, t requires 0 <= t < |y| =>
      match BetaAt(beta, t)
      case Some(b) => Some(y[t] - b * x[t])
      case None => None)
  }

  /** The `w` values ending at bar t are all present (`rolling(w, min_periods=w)` has a full window). */
  predicate WindowComplete(s: seq<Option<real>>, t: nat, w: nat)
    requires t < |s|
  {
    t + 1 >= w && forall k :: t + 1 - w <= k <= t ==> s[k].Some?
  }

  /** The `w` values ending at bar t. */
  function WindowValues(s: seq<Option<real>>, t: nat, w: nat): (r: seq<real>)
    requires t < |s| && WindowComplete(s, t, w)
    ensures |r| == w
    ensures forall j :: 0 <= j < w ==> s[t + 1 - w + j] == Some(r[j])
  {
    seq(w, j requires 0 <= j < w => s[t + 1 - w + j].value)
  }

  /**
   `(v - mu) / sd` with mu and sd (population, ddof=0) the rolling mean and
   deviation of `s` over `w` bars and sd == 0 replaced by NaN. Bar t has a
   value exactly when the window of s ending at t is complete, v[t] is
   present and the deviation is non-zero; multiplying back by the
   deviation and adding the mean gives v[t] again.
   */
  function RollingZ(s: seq<Option<real>>, v: seq<Option<real>>, w: nat, popSd: seq<real> -> real): (z: seq<Option<real>>)
    requires w >= 1 && |v| == |s|
    ensures |z| == |s|
    ensures forall t :: 0 <= t < |s| ==>
      (z[t].Some? <==> WindowComplete(s, t, w) && v[t].Some? && popSd(WindowValues(s, t, w)) != 0.0)
    ensures forall t :: 0 <= t < |s| && z[t].Some? ==>
      z[t].value * popSd(WindowValues(s, t, w)) + Mean(WindowValues(s, t, w)) == v[t].value
  {
    seq(|s|, t requires 0 <= t < |s| => ZAt(s, v, w, popSd, t))
  }

  /** Bar t of `RollingZ`. */
  function ZAt(s: seq<Option<real>>, v: seq<Option<real>>, w: nat, popSd: seq<real> -> real, t: nat): (z: Option<real>)
    requires w >= 1 && |v| == |s| && t < |s|
    ensures z.Some? <==> WindowComplete(s, t, w) && v[t].Some? && popSd(WindowValues(s, t, w)) != 0.0
    ensures z.Some? ==> z.value * popSd(WindowValues(s, t, w)) + Mean(WindowValues(s, t, w)) == v[t].value
  {
    if !WindowComplete(s, t, w) then None
    else ZCell(v[t], Mean(WindowValues(s, t, w)), popSd(WindowValues(s, t, w)))
  }

  /** One z cell as numpy computes it: NaN in, NaN out; a zero deviation is NaN. */
  function ZCell(v: Option<real>, mu: real, sd: real): (z: Option<real>)
    ensures z.Some? <==> v.Some? && sd != 0.0
    ensures z.Some? ==> z.value * sd + mu == v.value
  {
    var r := ToOption(Div(Sub(OfOption(v), Num(mu)), if sd == 0.0 then NaN else Num(sd)));
    if r.Some? then
      assert r.value == (v.value - mu) / sd;
      r
    else r
  }

  /** `calculate_spread_and_z`: the spread and the rolling z-score of the spread against its own window. */
  function SpreadAndZ(y: seq<real>, x: seq<real>, beta: Beta, window: nat, popSd: seq<real> -> real)
    : (r: (seq<Option<real>>, seq<Option<real>>))
    requires |x| == |y| && FitsAxis(beta, |y|) && window >= 1
    ensures r.0 == Spread(y, x, beta) && |r.0| == |y|
    ensures r.1 == RollingZ(r.0, r.0, window, popSd) && |r.1| == |y|
    ensures forall t :: 0 <= t < |y| ==>
      (r.1[t].Some? <==> WindowComplete(r.0, t, window) && popSd(WindowValues(r.0, t, window)) != 0.0)
  {
    var s := Spread(y, x, beta);
    (s, RollingZ(s, s, window, popSd))
  }

  /** A z value needs every hedge ratio of its window: none is defined within `window` bars after a missing beta. */
  lemma ZNeedsBetaWindow(y: seq<real>, x: seq<real>, beta: Beta, window: nat, popSd: seq<real> -> real, t: nat, k: nat)
    requires |x| == |y| && FitsAxis(beta, |y|) && window >= 1
    requires k <= t < |y| && t < k + window
    requires BetaAt(beta, k).None?
    ensures SpreadAndZ(y, x, beta, window, popSd).1[t].None?
  {
    var s := Spread(y, x, beta);
    assert !s[k].Some?;
  }

  // ---------------------------------------------------------------------------
  // Rolling cointegration p-values

  /**
   `rolling_coint_pvalues`: bars before `window` have no p-value; bar i >= window
   gets the test's p-value on the `window` bars strictly before it (a test
   that fails yields a missing value, so `test` returns an Option).
   */
  function RollingCointPValues(y: seq<real>, x: seq<real>, window: nat, test: (seq<real>, seq<real>) -> Option<real>)
    : (p: seq<Option<real>>)
    requires |x| == |y|
    ensures |p| == |y|
    ensures forall i :: 0 <= i < |y| && i < window ==> p[i].None?
  {
    seq(|y|, i requires 0 <= i < |y| => if i >= window then test(y[i - window..i], x[i - window..i]) else None)
  }

  /** The p-value of bar i depends only on prices at [i - window, i): never on bar i or later. */
  lemma CointWindowOnly(y: seq<real>, x: seq<real>, y2: seq<real>, x2: seq<real>, window: nat,
                        test: (seq<real>, seq<real>) -> Option<real>, i: nat)
    requires |x| == |y| && |y2| == |y| && |x2| == |y| && i < |y|
    requires forall k :: 0 <= k < i && k + window >= i ==> y[k] == y2[k] && x[k] == x2[k]
    ensures RollingCointPValues(y, x, window, test)[i] == RollingCointPValues(y2, x2, window, test)[i]
  {
    if i >= window {
      assert y[i - window..i] == y2[i - window..i];
      assert x[i - window..i] == x2[i - window..i];
    }
  }

  // ---------------------------------------------------------------------------
  // Half-life

  /** Which cells of the series hold a value. */
  function Presence(s: seq<Option<real>>): (p: seq<bool>)
    ensures |p| == |s|
    ensures forall i :: 0 <= i < |s| ==> p[i] == s[i].Some?
  {
    seq(|s|, i requires 0 <= i < |s| => s[i].Some?)
  }

  /** r lists the present values of s in order: the k-th is the cell at the k-th present position. */
  predicate PresentValues(s: seq<Option<real>>, r: seq<real>) {
    var idx := TrueIndices(Presence(s));
    |r| == |idx| && forall k :: 0 <= k < |r| ==> s[idx[k]] == Some(r[k])
  }

  /** `dropna()`: the present values, in order. */
  function Dropna(s: seq<Option<real>>): (r: seq<real>)
    ensures |r| <= |s|
    ensures AllPresent(s) ==> r == Values(s)
  {
    if |s| == 0 then []
    else
      var init := Dropna(s[..|s| - 1]);
      assert AllPresent(s) ==> AllPresent(s[..|s| - 1]);
      if s[|s| - 1].Some? then init + [s[|s| - 1].value] else init
  }

  /** `dropna` keeps exactly the present values, in order, one per present cell. */
  lemma {:induction false} DropnaKeepsPresentValues(s: seq<Option<real>>)
    ensures PresentValues(s, Dropna(s))
    ensures |Dropna(s)| == |TrueIndices(Presence(s))|
  {
    if |s| > 0 {
      DropnaKeepsPresentValues(s[..|s| - 1]);
      PresentValuesStep(s, Dropna(s[..|s| - 1]));
    }
  }

  /** Extending a series by one cell extends its present values by that cell's value, if any. */
  lemma PresentValuesStep(s: seq<Option<real>>, init: seq<real>)
    requires |s| > 0 && PresentValues(s[..|s| - 1], init)
    ensures PresentValues(s, if s[|s| - 1].Some? then init + [s[|s| - 1].value] else init)
  {
    var n := |s|;
    var r := if s[n - 1].Some? then init + [s[n - 1].value] else init;
    var p := Presence(s);
    var q := Presence(s[..n - 1]);
    assert p[..n - 1] == q;
    var idx := TrueIndices(p);
    var idx' := TrueIndices(q);
    assert idx == if p[n - 1] then idx' + [n - 1] else idx';
    forall k | 0 <= k < |r|
      ensures s[idx[k]] == Some(r[k])
    {
      if k < |idx'| {
        assert idx[k] == idx'[k];
        assert s[..n - 1][idx'[k]] == Some(init[k]);
      }
    }
  }

  /** A half-life in bars, or numpy's inf. */
  datatype HalfLife = Finite(bars: real) | Infinite

  /** ln 2 to double precision. */
  const Ln2: real := 0.6931471805599453

  /**
   `half_life` / `estimate_half_life`: regress dS on the lagged spread. With
   fewer than 50 present values, or a non-negative slope phi (no mean
   reversion), the half-life is infinite; otherwise it is the positive
   number -ln 2 / phi.
   */
  function HalfLifeOf(spread: seq<Option<real>>, ols: (seq<real>, seq<real>) -> real): (r: HalfLife)
    ensures |Dropna(spread)| < 50 ==> r == Infinite
    ensures |Dropna(spread)| >= 50 ==>
      var s := Dropna(spread);
      var phi := ols(Diffs(s), s[..|s| - 1]);
      (r.Infinite? <==> phi >= 0.0) && (r.Finite? ==> r.bars > 0.0 && r.bars * phi == -Ln2)
  {
    var s := Dropna(spread);
    if |s| < 50 then Infinite
    else
      var phi := ols(Diffs(s), s[..|s| - 1]);
      if phi >= 0.0 then Infinite
      else
        var h := Ln2 / -phi;
        PositiveQuotient(Ln2, -phi);
        assert h * -phi == Ln2;
        Finite(h)
  }

  lemma PositiveQuotient(a: real, b: real)
    requires a > 0.0 && b > 0.0
    ensures a / b > 0.0
  {
  }

  /** `s - s.shift(1)` after dropping the first bar: the one-step changes. */
  function Diffs(s: seq<real>): (d: seq<real>)
    requires |s| >= 1
    ensures |d| == |s| - 1
    ensures forall i :: 0 <= i < |d| ==> s[i] + d[i] == s[i + 1]
  {
    seq(|s| - 1, i requires 0 <= i < |s| - 1 => s[i + 1] - s[i])
  }
}
