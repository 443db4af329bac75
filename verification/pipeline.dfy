/**
 The plumbing of the walk-forward scripts (src/pairs_ml.py and the root
 pairs_ml.py) between data and backtest: the ticker argument, the IBKR
 duration string, the choice of hedge ratio with its one-bar lag, the
 lagged cointegration gate, and the predicted z-score fed to the meta
 labels. Estimators and the cointegration test are computed elsewhere and
 arrive here as values or function parameters.
 */
module Pipeline {
  import opened Base
  import opened CointUtils
  import opened Ledger
  import opened Backtests

  // ---------------------------------------------------------------------------
  // Tickers

  /** The pieces of `s` between occurrences of `sep` (Python's `str.split(sep)`): never empty. */
  function SplitOn(s: string, sep: char): (r: seq<string>)
    ensures |r| >= 1
    ensures forall k :: 0 <= k < |r| ==> sep !in r[k]
    ensures |r| == Occurrences(s, sep) + 1
    decreases |s|
  {
    if |s| == 0 then [""]
    else
      var rest := SplitOn(s[1..], sep);
      if s[0] == sep then [""] + rest
      else [[s[0]] + rest[0]] + rest[1..]
  }

  function Occurrences(s: string, c: char): nat {
    if |s| == 0 then 0 else (if s[0] == c then 1 else 0) + Occurrences(s[1..], c)
  }

  /** `sep.join(parts)`. */
  function JoinWith(parts: seq<string>, sep: char): string
    requires |parts| >= 1
  {
    if |parts| == 1 then parts[0] else parts[0] + [sep] + JoinWith(parts[1..], sep)
  }

  /** Splitting and joining back with the same separator gives the string again. */
  lemma {:induction false} SplitJoin(s: string, sep: char)
    ensures JoinWith(SplitOn(s, sep), sep) == s
    decreases |s|
  {
    if |s| > 0 {
      var rest := SplitOn(s[1..], sep);
      SplitJoin(s[1..], sep);
      assert s == [s[0]] + s[1..];
      if s[0] == sep {
        assert SplitOn(s, sep) == [""] + rest;
        assert ([""] + rest)[1..] == rest;
      } else {
        var r := SplitOn(s, sep);
        assert r == [[s[0]] + rest[0]] + rest[1..];
        if |rest| > 1 {
          JoinHead(rest, sep);
          JoinHead(r, sep);
          assert r[1..] == rest[1..];
        }
      }
    }
  }

  /** Joining several pieces puts the first one, then the separator, then the join of the rest. */
  lemma JoinHead(parts: seq<string>, sep: char)
    requires |parts| > 1
    ensures JoinWith(parts, sep) == parts[0] + ([sep] + JoinWith(parts[1..], sep))
  {
  }

  predicate IsSpace(c: char) {
    c == ' ' || c == '\t' || c == '\n' || c == '\r'
  }

  /** The number of leading whitespace characters. */
  function LeadingSpace(s: string): (i: nat)
    ensures i <= |s|
    ensures forall k :: 0 <= k < i ==> IsSpace(s[k])
    ensures i < |s| ==> !IsSpace(s[i])
  {
    if |s| == 0 || !IsSpace(s[0]) then 0 else 1 + LeadingSpace(s[1..])
  }

  /** The length of `s` without its trailing whitespace. */
  function TrailingStart(s: string): (j: nat)
    ensures j <= |s|
    ensures forall k :: j <= k < |s| ==> IsSpace(s[k])
    ensures j > 0 ==> !IsSpace(s[j - 1])
  {
    if |s| == 0 || !IsSpace(s[|s| - 1]) then |s| else TrailingStart(s[..|s| - 1])
  }

  /**
   `str.strip()` over ASCII whitespace: the infix between the leading and
   the trailing whitespace; no whitespace is left at either end.
   */
  function Strip(s: string): (r: string)
    ensures |r| <= |s|
    ensures |r| > 0 ==> !IsSpace(r[0]) && !IsSpace(r[|r| - 1])
    ensures LeadingSpace(s) < |s| ==> LeadingSpace(s) < TrailingStart(s) && r == s[LeadingSpace(s)..TrailingStart(s)]
    ensures |r| == 0 <==> forall k :: 0 <= k < |s| ==> IsSpace(s[k])
  {
    var i := LeadingSpace(s);
    if i == |s| then ""
    else s[i..TrailingStart(s)]
  }

  /** `str.upper()` on ASCII letters: same length, lower-case letters raised, everything else kept. */
  function Upper(s: string): (r: string)
    ensures |r| == |s|
    ensures forall k :: 0 <= k < |s| ==> ('a' <= s[k] <= 'z' ==> r[k] as int == s[k] as int - 32)
    ensures forall k :: 0 <= k < |s| ==> (!('a' <= s[k] <= 'z') ==> r[k] == s[k])
    ensures forall k :: 0 <= k < |s| ==> !('a' <= r[k] <= 'z')
  {
    seq(|s|, k requires 0 <= k < |s| => if 'a' <= s[k] <= 'z' then (s[k] as int - 32) as char else s[k])
  }

  const TickerCountError: string := "Pass exactly two tickers, e.g. --tickers KO,PEP"

  /**
   The `--tickers` argument: split on commas, strip and upper-case each
   piece; anything but two pieces (that is, anything but one comma) exits
   with a message. The first ticker is the dependent leg y, the second x.
   */
  function ParseTickers(arg: string): (r: Result<(string, string), string>)
    ensures r.Err? <==> Occurrences(arg, ',') != 1
    ensures r.Err? ==> r.error == TickerCountError
    ensures r.Ok? ==> var parts := SplitOn(arg, ',');
      r.value == (Upper(Strip(parts[0])), Upper(Strip(parts[1])))
      && arg == parts[0] + [','] + parts[1]
  {
    var parts := SplitOn(arg, ',');
    if |parts| != 2 then Err(TickerCountError)
    else
      SplitJoin(arg, ',');
      assert JoinWith(parts[1..], ',') == parts[1];
      Ok((Upper(Strip(parts[0])), Upper(Strip(parts[1]))))
  }

  // ---------------------------------------------------------------------------
  // IBKR duration

  /** `math.ceil(days / 365)` for a positive day count. */
  function Years(days: int): (y: nat)
    ensures y >= 1
    ensures (y - 1) * 365 < Max(1, days) <= y * 365
  {
    var d := Max(1, days);
    (d + 364) / 365
  }

  /** The decimal digits of n, most significant first, without leading zeros. */
  function Decimal(n: nat): (r: string)
    ensures |r| >= 1
    ensures forall k :: 0 <= k < |r| ==> '0' <= r[k] <= '9'
    ensures n > 0 ==> r[0] != '0'
  {
    if n < 10 then [('0' as int + n) as char]
    else Decimal(n / 10) + [('0' as int + n % 10) as char]
  }

  /** The value of a string of decimal digits. */
  function ParseDecimal(s: string): nat
    requires forall k :: 0 <= k < |s| ==> '0' <= s[k] <= '9'
  {
    if |s| == 0 then 0 else ParseDecimal(s[..|s| - 1]) * 10 + (s[|s| - 1] as int - '0' as int)
  }

  /** Reading the digits back gives the number. */
  lemma {:induction false} DecimalRoundTrip(n: nat)
    ensures ParseDecimal(Decimal(n)) == n
  {
    if n >= 10 {
      DecimalRoundTrip(n / 10);
      var d := Decimal(n);
      assert d[..|d| - 1] == Decimal(n / 10);
    }
  }

  /**
   `_ib_duration_str`: "<N> Y" with N the whole years covering the span,
   at least 1 (a span of zero or fewer days counts as one day).
   */
  function IbDuration(days: int): (r: string)
    ensures |r| >= 3 && r[|r| - 2..] == " Y"
    ensures var digits := r[..|r| - 2];
      && (forall k :: 0 <= k < |digits| ==> '0' <= digits[k] <= '9')
      && ParseDecimal(digits) == Years(days)
      && ParseDecimal(digits) >= 1
  {
    var y := Years(days);
    var r := Decimal(y) + " Y";
    assert r[..|r| - 2] == Decimal(y);
    DecimalRoundTrip(y);
    r
  }

  // ---------------------------------------------------------------------------
  // Hedge ratio

  /** The estimator outputs `choose_beta` picks from, already computed on the bar axis. */
  datatype Estimates = Estimates(fullSample: real, rolling: seq<Option<real>>, rls: seq<Option<real>>, kalman: seq<Option<real>>)

  predicate EstimatesFit(e: Estimates, n: nat) {
    |e.rolling| == n && |e.rls| == n && |e.kalman| == n
  }

  /** The adaptive estimator a mode names, if any. */
  function Adaptive(mode: string, e: Estimates): Option<seq<Option<real>>> {
    if mode == "rolling" then Some(e.rolling)
    else if mode == "rls" then Some(e.rls)
    else if mode == "kalman" then Some(e.kalman)
    else None
  }

  /**
   `choose_beta`: the full-sample scalar for "static"; for the adaptive modes
   the estimator lagged one bar, so bar t trades on the estimate of t - 1 and
   bar 0 has none; any other mode is a ValueError.
   */
  function ChooseBeta(mode: string, e: Estimates, n: nat): (r: Result<Beta, string>)
    requires EstimatesFit(e, n)
    ensures mode == "static" ==> r == Ok(Scalar(e.fullSample))
    ensures r.Err? <==> mode != "static" && Adaptive(mode, e).None?
    ensures r.Err? ==> r.error == "ValueError: Unknown beta mode: " + mode
    ensures r.Ok? && mode != "static" ==>
      && r.value.PerBar? && |r.value.bs| == n
      && (n > 0 ==> r.value.bs[0].None?)
      && forall t :: 1 <= t < n ==> r.value.bs[t] == Adaptive(mode, e).value[t - 1]
  {
    if mode == "static" then Ok(Scalar(e.fullSample))
    else
      match Adaptive(mode, e)
      case Some(est) => Ok(PerBar(Shift(est, 1)))
      case None => Err("ValueError: Unknown beta mode: " + mode)
  }

  /** The command line accepts these trading modes only. */
  predicate TradingMode(mode: string) {
    mode == "static" || mode == "rolling" || mode == "rls" || mode == "kalman"
  }

  /**
   The trading hedge ratio of `main`: the same dispatch written out inline,
   whose last branch takes Kalman for any mode not matched before.
   */
  function TradingBeta(mode: string, e: Estimates, n: nat): (b: Beta)
    requires EstimatesFit(e, n)
    ensures FitsAxis(b, n)
  {
    if mode == "static" then Scalar(e.fullSample)
    else if mode == "rolling" then PerBar(Shift(e.rolling, 1))
    else if mode == "rls" then PerBar(Shift(e.rls, 1))
    else PerBar(Shift(e.kalman, 1))
  }

  /** For every mode the command line accepts, the inline dispatch and `choose_beta` agree. */
  lemma TradingBetaIsChooseBeta(mode: string, e: Estimates, n: nat)
    requires EstimatesFit(e, n) && TradingMode(mode)
    ensures ChooseBeta(mode, e, n) == Ok(TradingBeta(mode, e, n))
  {
  }

  // ---------------------------------------------------------------------------
  // Cointegration gate

  /**
   The gate mask of `main`: with the gate on, `p.shift(1) <= threshold`, so
   bar t is open exactly when bar t - 1 has a p-value at or below the
   threshold (a missing one compares false); with the gate off, no mask.
   */
  function CointMask(p: seq<Option<real>>, threshold: real, gateOn: bool): (m: Option<seq<bool>>)
    ensures m.Some? <==> gateOn
    ensures m.Some? ==> |m.value| == |p|
    ensures m.Some? ==> forall t :: 0 <= t < |p| ==>
      (m.value[t] <==> t >= 1 && p[t - 1].Some? && p[t - 1].value <= threshold)
  {
    if !gateOn then None
    else Some(seq(|p|, t requires 0 <= t < |p| =>
      match Shift(p, 1)[t]
      case Some(v) => v <= threshold
      case None => false))
  }

  /**
   The gate at bar t uses no price from bar t - 1 on: it reads only the
   prices at [t - 1 - window, t - 1).
   */
  lemma GateUsesPastPrices(y: seq<real>, x: seq<real>, y2: seq<real>, x2: seq<real>, window: nat,
                           test: (seq<real>, seq<real>) -> Option<real>, threshold: real, t: nat)
    requires |x| == |y| && |y2| == |y| && |x2| == |y| && 1 <= t < |y|
    requires forall k :: 0 <= k < t - 1 && k + window + 1 >= t ==> y[k] == y2[k] && x[k] == x2[k]
    ensures CointMask(RollingCointPValues(y, x, window, test), threshold, true).value[t]
        == CointMask(RollingCointPValues(y2, x2, window, test), threshold, true).value[t]
  {
    CointWindowOnly(y, x, y2, x2, window, test, t - 1);
  }

  /** With the gate off and no meta probabilities the backtest gate is open on every bar. */
  lemma NoGateMeansOpen(p: seq<Option<real>>, threshold: real, metaThreshold: real)
    ensures forall t :: 0 <= t < |p| ==> Gate(|p|, CointMask(p, threshold, false), None, metaThreshold)[t]
  {
  }

  /** With the gate on, a bar is closed whenever the previous p-value is missing or above the threshold. */
  lemma GateClosesOnStaleOrHighP(p: seq<Option<real>>, threshold: real, meta: Option<seq<Option<real>>>,
                                 metaThreshold: real, t: nat)
    requires meta.Some? ==> |meta.value| == |p|
    requires t < |p| && (t == 0 || p[t - 1].None? || p[t - 1].value > threshold)
    ensures !Gate(|p|, CointMask(p, threshold, true), meta, metaThreshold)[t]
  {
  }

  // ---------------------------------------------------------------------------
  // Predicted z for the meta labels

  /**
   The predicted z of the meta-labelling step as written: `(S + pred_dS - mu) / sd`
   in doubles with sd the population deviation, whose zeros are replaced by
   0.0 (so kept). A cell is NaN unless the window and the prediction exist.
   */
  function MetaPredZAsWritten(spread: seq<Option<real>>, predDS: seq<Option<real>>, w: nat, popSd: seq<real> -> real)
    : (pz: seq<Float>)
    requires w >= 1 && |predDS| == |spread|
    ensures |pz| == |spread|
    ensures forall t :: 0 <= t < |spread| && pz[t].Inf? ==>
      WindowComplete(spread, t, w) && popSd(WindowValues(spread, t, w)) == 0.0
  {
    var v := PredictedSpread(spread, predDS);
    seq(|spread|, t requires 0 <= t < |spread| =>
      if !WindowComplete(spread, t, w) then NaN
      else
        var win := WindowValues(spread, t, w);
        Div(Sub(OfOption(v[t]), Num(Mean(win))), Num(popSd(win))))
  }

  /** `pred_z.dropna()` keeps every cell that is not NaN, infinities included. */
  predicate KeptByDropna(f: Float) {
    !f.NaN?
  }

  /**
   A flat window breaks the guard: with a constant spread (zero deviation)
   and a non-zero predicted change, the cell is +inf and survives `dropna`,
   where it passes any entry threshold as a meta candidate.
   */
  lemma FlatWindowGivesInfinity(popSd: seq<real> -> real)
    requires popSd([1.0, 1.0]) == 0.0
    ensures var pz := MetaPredZAsWritten([Some(1.0), Some(1.0)], [None, Some(0.5)], 2, popSd);
      pz[1] == Inf(true) && KeptByDropna(pz[1])
  {
    var spread := [Some(1.0), Some(1.0)];
    assert WindowComplete(spread, 1, 2);
    assert WindowValues(spread, 1, 2) == [1.0, 1.0];
    assert [1.0, 1.0][..1] == [1.0];
    assert Sum([1.0]) == 1.0;
    assert Sum([1.0, 1.0]) == 2.0;
  }

  /**
   The predicted z with a zero deviation treated as NaN, as `backtest` and
   the root script compute it: never infinite, and missing exactly where
   the window, the prediction or a non-zero deviation is lacking.
   */
  function MetaPredZ(spread: seq<Option<real>>, predDS: seq<Option<real>>, w: nat, popSd: seq<real> -> real)
    : (pz: seq<Option<real>>)
    requires w >= 1 && |predDS| == |spread|
    ensures |pz| == |spread|
    ensures forall t :: 0 <= t < |spread| ==> (pz[t].Some? <==> MetaDefined(spread, predDS, w, popSd, t))
    ensures forall t :: 0 <= t < |spread| && pz[t].Some? ==> MetaRestores(spread, predDS, w, popSd, t, pz[t].value)
  {
    seq(|spread|, t requires 0 <= t < |spread| => MetaCell(spread, predDS, w, popSd, t))
  }

  /** Bar t has a full window of the spread, a spread, a prediction and a non-zero deviation. */
  predicate MetaDefined(spread: seq<Option<real>>, predDS: seq<Option<real>>, w: nat, popSd: seq<real> -> real, t: nat)
    requires |predDS| == |spread| && t < |spread|
  {
    WindowComplete(spread, t, w) && spread[t].Some? && predDS[t].Some? && popSd(WindowValues(spread, t, w)) != 0.0
  }

  /** z deviations above the window mean give back the predicted next spread S + dS. */
  predicate MetaRestores(spread: seq<Option<real>>, predDS: seq<Option<real>>, w: nat, popSd: seq<real> -> real, t: nat, z: real)
    requires w >= 1 && |predDS| == |spread| && t < |spread| && MetaDefined(spread, predDS, w, popSd, t)
  {
    z * popSd(WindowValues(spread, t, w)) + Mean(WindowValues(spread, t, w)) == spread[t].value + predDS[t].value
  }

  /** Bar t of `MetaPredZ`. */
  function MetaCell(spread: seq<Option<real>>, predDS: seq<Option<real>>, w: nat, popSd: seq<real> -> real, t: nat)
    : (z: Option<real>)
    requires w >= 1 && |predDS| == |spread| && t < |spread|
    ensures z.Some? <==> MetaDefined(spread, predDS, w, popSd, t)
    ensures z.Some? ==> MetaRestores(spread, predDS, w, popSd, t, z.value)
  {
    var v := if spread[t].Some? && predDS[t].Some? then Some(spread[t].value + predDS[t].value) else None;
    if WindowComplete(spread, t, w) then ZCell(v, Mean(WindowValues(spread, t, w)), popSd(WindowValues(spread, t, w)))
    else None
  }

  /** Where the deviation is non-zero the two agree: the defect is confined to flat windows. */
  lemma MetaPredZAgreesOffFlat(spread: seq<Option<real>>, predDS: seq<Option<real>>, w: nat, popSd: seq<real> -> real, t: nat)
    requires w >= 1 && |predDS| == |spread| && t < |spread|
    requires WindowComplete(spread, t, w) ==> popSd(WindowValues(spread, t, w)) != 0.0
    ensures ToOption(MetaPredZAsWritten(spread, predDS, w, popSd)[t]) == MetaPredZ(spread, predDS, w, popSd)[t]
  {
    var v := PredictedSpread(spread, predDS);
    if WindowComplete(spread, t, w) {
      var win := WindowValues(spread, t, w);
      var f := MetaPredZAsWritten(spread, predDS, w, popSd)[t];
      if v[t].Some? {
        assert f == Num((v[t].value - Mean(win)) / popSd(win));
      }
    }
  }
}
