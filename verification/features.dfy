/**
 `engineer_features` of src/features.py: the feature table built from the
 two price legs, the spread and its z-score, on their shared bar axis. All
 columns look only at the current bar and earlier ones, except `target`,
 the next bar's spread change.
 */
module Features {
  import opened Base
  import opened Tables
  import opened CointUtils

  /** The columns in the order the frame is built: seven base columns, three per lag, then the target. */
  const FeatureNames: seq<string> := [
    "spread", "z", "z_ma3", "z_ma5", "y_ret", "x_ret", "dS",
    "z_lag1", "S_lag1", "dS_lag1",
    "z_lag2", "S_lag2", "dS_lag2",
    "z_lag3", "S_lag3", "dS_lag3",
    "z_lag5", "S_lag5", "dS_lag5",
    "target"]

  /** Position of the target column. */
  const TargetColumn: nat := 19

  /** The lags taken of z, the spread and dS. */
  const Lags: seq<nat> := [1, 2, 3, 5]

  /**
   `p.pct_change()` in doubles followed by inf -> NaN: bar t >= 1 has a
   return exactly when the price before it is non-zero (x/0 is an infinity
   or NaN, both end up missing); compounding it recovers the price.
   */
  function Returns(p: seq<real>): (r: seq<Option<real>>)
    ensures |r| == |p|
    ensures forall t :: 0 <= t < |p| ==> (r[t].Some? <==> t >= 1 && p[t - 1] != 0.0)
    ensures forall t :: 1 <= t < |p| && r[t].Some? ==> p[t - 1] * (1.0 + r[t].value) == p[t]
  {
    seq(|p|, t requires 0 <= t < |p| => if t == 0 then None else ReturnCell(p[t - 1], p[t]))
  }

  /** One `pct_change` cell in doubles, with infinities made missing. */
  function ReturnCell(prev: real, cur: real): (r: Option<real>)
    ensures r.Some? <==> prev != 0.0
    ensures r.Some? ==> prev * (1.0 + r.value) == cur
  {
    var q := Div(Sub(Num(cur), Num(prev)), Num(prev));
    if q.Num? then
      assert q.v * prev == cur - prev;
      ToOption(q)
    else ToOption(q)
  }

  /** `s.diff()`: bar t >= 1 holds s[t] - s[t-1] when both are present. */
  function Diff(s: seq<Option<real>>): (d: seq<Option<real>>)
    ensures |d| == |s|
    ensures forall t :: 0 <= t < |s| ==> (d[t].Some? <==> t >= 1 && s[t].Some? && s[t - 1].Some?)
    ensures forall t :: 1 <= t < |s| && d[t].Some? ==> s[t - 1].value + d[t].value == s[t].value
  {
    seq(|s|, t requires 0 <= t < |s| =>
      if t >= 1 && s[t].Some? && s[t - 1].Some? then Some(s[t].value - s[t - 1].value) else None)
  }

  /** `s.rolling(w).mean()`: the mean of the w values ending at t, when they are all present. */
  function RollingMean(s: seq<Option<real>>, w: nat): (m: seq<Option<real>>)
    requires w >= 1
    ensures |m| == |s|
    ensures forall t :: 0 <= t < |s| ==> (m[t].Some? <==> WindowComplete(s, t, w))
    ensures forall t :: 0 <= t < |s| && m[t].Some? ==> m[t].value * (w as real) == Sum(WindowValues(s, t, w))
  {
    seq(|s|, t requires 0 <= t < |s| =>
      if WindowComplete(s, t, w) then Some(Mean(WindowValues(s, t, w))) else None)
  }

  /**
   Column c of the frame, in `FeatureNames` order: the seven base columns,
   then for each lag l in `Lags` the l-bar shifts of z, the spread and dS,
   then the target `dS.shift(-1)`.
   */
  function FeatureColumn(c: nat, y: seq<real>, x: seq<real>, spread: seq<Option<real>>, z: seq<Option<real>>)
    : (col: seq<Option<real>>)
    requires c < |FeatureNames|
    requires |x| == |y| && |spread| == |y| && |z| == |y|
    ensures |col| == |y|
  {
    var dS := Diff(spread);
    if c == 0 then spread
    else if c == 1 then z
    else if c == 2 then RollingMean(z, 3)
    else if c == 3 then RollingMean(z, 5)
    else if c == 4 then Returns(y)
    else if c == 5 then Returns(x)
    else if c == 6 then dS
    else if c < TargetColumn then
      var lag := Lags[(c - 7) / 3];
      var k := (c - 7) % 3;
      Shift(if k == 0 then z else if k == 1 then spread else dS, lag)
    else Lead(dS, 1)
  }

  /**
   `engineer_features`: one row per bar (its index value taken from `times`)
   and one cell per feature name. The target of bar t is the spread change
   from t to t + 1, missing on the last bar; every other column is causal
   (see `FeaturesCausal`).
   */
  function EngineerFeatures(times: seq<int>, y: seq<real>, x: seq<real>, spread: seq<Option<real>>, z: seq<Option<real>>)
    : (f: Table)
    requires |x| == |y| && |spread| == |y| && |z| == |y| && |times| == |y|
    ensures f.names == FeatureNames && Rectangular(f) && |f.rows| == |y| && TargetColumn < |FeatureNames|
    ensures forall t :: 0 <= t < |y| ==> f.rows[t].time == times[t]
    ensures forall t, c :: 0 <= t < |y| && 0 <= c < |FeatureNames| ==>
      f.rows[t].cells[c] == FeatureColumn(c, y, x, spread, z)[t]
    ensures |y| > 0 ==> f.rows[|y| - 1].cells[TargetColumn].None?
    ensures forall t :: 0 <= t && t + 1 < |y| ==>
      f.rows[t].cells[TargetColumn] ==
        (if spread[t].Some? && spread[t + 1].Some? then Some(spread[t + 1].value - spread[t].value) else None)
  {
    Table(FeatureNames, seq(|y|, t requires 0 <= t < |y| =>
      Row(times[t], seq(|FeatureNames|, c requires 0 <= c < |FeatureNames| => FeatureColumn(c, y, x, spread, z)[t]))))
  }

  /** The two sequences are equal at every bar up to t. */
  predicate AgreeUpTo<T(==)>(a: seq<T>, b: seq<T>, t: nat) {
    |a| == |b| && forall k :: 0 <= k <= t && k < |a| ==> a[k] == b[k]
  }

  /** Differencing, rolling means, lags and returns at a bar read their input only up to that bar. */
  lemma DerivedCausal(s: seq<Option<real>>, s2: seq<Option<real>>, p: seq<real>, p2: seq<real>, t: nat)
    requires AgreeUpTo(s, s2, t) && AgreeUpTo(p, p2, t)
    ensures AgreeUpTo(Diff(s), Diff(s2), t)
    ensures AgreeUpTo(RollingMean(s, 3), RollingMean(s2, 3), t)
    ensures AgreeUpTo(RollingMean(s, 5), RollingMean(s2, 5), t)
    ensures forall l :: AgreeUpTo(Shift(s, l), Shift(s2, l), t)
    ensures AgreeUpTo(Returns(p), Returns(p2), t)
  {
    forall w, k | (w == 3 || w == 5) && 0 <= k <= t && k < |s|
      ensures RollingMean(s, w)[k] == RollingMean(s2, w)[k]
    {
      if WindowComplete(s, k, w) {
        assert WindowValues(s, k, w) == WindowValues(s2, k, w);
      }
    }
    forall k | 1 <= k <= t && k < |p|
      ensures Returns(p)[k] == Returns(p2)[k]
    {
      assert p[k - 1] == p2[k - 1];
    }
  }

  /**
   Every column but the target is causal: two inputs that agree up to bar t
   give the same rows up to t, target aside.
   */
  lemma FeaturesCausal(times: seq<int>, y: seq<real>, x: seq<real>, spread: seq<Option<real>>, z: seq<Option<real>>,
                       y2: seq<real>, x2: seq<real>, spread2: seq<Option<real>>, z2: seq<Option<real>>, t: nat)
    requires |x| == |y| && |spread| == |y| && |z| == |y| && |times| == |y| && t < |y|
    requires AgreeUpTo(y, y2, t) && AgreeUpTo(x, x2, t) && AgreeUpTo(spread, spread2, t) && AgreeUpTo(z, z2, t)
    ensures forall c :: 0 <= c < |FeatureNames| && c != TargetColumn ==>
      EngineerFeatures(times, y, x, spread, z).rows[t].cells[c] == EngineerFeatures(times, y2, x2, spread2, z2).rows[t].cells[c]
  {
    DerivedCausal(spread, spread2, y, y2, t);
    DerivedCausal(z, z2, x, x2, t);
    DerivedCausal(Diff(spread), Diff(spread2), y, y2, t);
    forall c | 0 <= c < |FeatureNames| && c != TargetColumn
      ensures FeatureColumn(c, y, x, spread, z)[t] == FeatureColumn(c, y2, x2, spread2, z2)[t]
    {
      assert AgreeUpTo(FeatureColumn(c, y, x, spread, z), FeatureColumn(c, y2, x2, spread2, z2), t);
    }
  }

  /** The decimal digit of a number below ten. */
  function Digit(d: nat): char
    requires d < 10
  {
    ('0' as int + d) as char
  }

  /** Columns 7 + 3k, 8 + 3k and 9 + 3k are z, the spread and dS lagged by the k-th lag, as their names say. */
  lemma LagColumnsAreShifts(y: seq<real>, x: seq<real>, spread: seq<Option<real>>, z: seq<Option<real>>, k: nat)
    requires |x| == |y| && |spread| == |y| && |z| == |y| && k < |Lags|
    ensures FeatureNames[7 + 3 * k] == "z_lag" + [Digit(Lags[k])] && FeatureColumn(7 + 3 * k, y, x, spread, z) == Shift(z, Lags[k])
    ensures FeatureNames[8 + 3 * k] == "S_lag" + [Digit(Lags[k])] && FeatureColumn(8 + 3 * k, y, x, spread, z) == Shift(spread, Lags[k])
    ensures FeatureNames[9 + 3 * k] == "dS_lag" + [Digit(Lags[k])] && FeatureColumn(9 + 3 * k, y, x, spread, z) == Shift(Diff(spread), Lags[k])
  {
    LagNames(k);
    LagColumn(y, x, spread, z, k, 0);
    LagColumn(y, x, spread, z, k, 1);
    LagColumn(y, x, spread, z, k, 2);
  }

  lemma LagNames(k: nat)
    requires k < |Lags|
    ensures FeatureNames[7 + 3 * k] == "z_lag" + [Digit(Lags[k])]
    ensures FeatureNames[8 + 3 * k] == "S_lag" + [Digit(Lags[k])]
    ensures FeatureNames[9 + 3 * k] == "dS_lag" + [Digit(Lags[k])]
  {
    if k == 0 {
      assert Digit(1) == '1';
    } else if k == 1 {
      assert Digit(2) == '2';
    } else if k == 2 {
      assert Digit(3) == '3';
    } else {
      assert Digit(5) == '5';
    }
  }

  lemma LagColumn(y: seq<real>, x: seq<real>, spread: seq<Option<real>>, z: seq<Option<real>>, k: nat, j: nat)
    requires |x| == |y| && |spread| == |y| && |z| == |y| && k < |Lags| && j < 3
    ensures FeatureColumn(7 + 3 * k + j, y, x, spread, z)
         == Shift(if j == 0 then z else if j == 1 then spread else Diff(spread), Lags[k])
  {
    var c := 7 + 3 * k + j;
    assert (c - 7) / 3 == k && (c - 7) % 3 == j by {
      if k == 0 {
      } else if k == 1 {
      } else if k == 2 {
      } else {
      }
    }
  }

  /**
   The target does look ahead: two spreads that agree up to bar t, both
   present there, but differ at bar t + 1 give row t different targets,
   while `FeaturesCausal` keeps every other cell of row t equal.
   */
  lemma TargetLooksAhead(times: seq<int>, y: seq<real>, x: seq<real>, spread: seq<Option<real>>, z: seq<Option<real>>,
                         spread2: seq<Option<real>>, t: nat)
    requires |x| == |y| && |spread| == |y| && |z| == |y| && |times| == |y| && t + 1 < |y|
    requires AgreeUpTo(spread, spread2, t) && spread[t].Some?
    requires spread[t + 1].Some? && spread2[t + 1].Some? && spread[t + 1] != spread2[t + 1]
    ensures EngineerFeatures(times, y, x, spread, z).rows[t].cells[TargetColumn]
         != EngineerFeatures(times, y, x, spread2, z).rows[t].cells[TargetColumn]
  {
    assert spread2[t] == spread[t];
    assert spread[t + 1].value != spread2[t + 1].value;
    TargetCell(times, y, x, spread, z, t);
    TargetCell(times, y, x, spread2, z, t);
    var before := spread[t].value;
    assert spread[t + 1].value - before != spread2[t + 1].value - before;
  }

  lemma TargetCell(times: seq<int>, y: seq<real>, x: seq<real>, spread: seq<Option<real>>, z: seq<Option<real>>, t: nat)
    requires |x| == |y| && |spread| == |y| && |z| == |y| && |times| == |y| && t + 1 < |y|
    requires spread[t].Some? && spread[t + 1].Some?
    ensures EngineerFeatures(times, y, x, spread, z).rows[t].cells[TargetColumn] == Some(spread[t + 1].value - spread[t].value)
  {
  }
}
