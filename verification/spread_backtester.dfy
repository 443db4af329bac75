/**
 `backtest_spread_strategy` of core/backtester.py: align a spread and a
 signal series on their common complete rows, sort by time, hold
 yesterday's signal as today's position, earn position times the spread
 change times the notional, and report turnover as the summed absolute
 signal changes.

 The two input series come as rows of one table, cell 0 the spread and
 cell 1 the signal, so that dropping incomplete rows is the concat/dropna
 of the source.
 */
module SpreadBacktester {
  import opened Base
  import opened Tables

  datatype BacktestResult = BacktestResult(
    times: seq<int>, pnl: seq<Option<real>>, rets: seq<Option<real>>, positions: seq<Option<real>>, turnover: real)

  predicate TwoColumns(rows: seq<Row>) {
    forall i :: 0 <= i < |rows| ==> |rows[i].cells| == 2
  }

  /** The rows where both spread and signal exist, sorted by time. */
  function Align(rows: seq<Row>): (a: seq<Row>)
    requires TwoColumns(rows)
    ensures SortedByTime(a)
    ensures multiset(a) == multiset(DropIncomplete(rows))
    ensures forall i :: 0 <= i < |a| ==> |a[i].cells| == 2 && a[i].cells[0].Some? && a[i].cells[1].Some?
    ensures HasColumn(a, 0) && HasColumn(a, 1)
  {
    var clean := DropIncomplete(rows);
    var a := SortByTime(clean);
    forall i | 0 <= i < |a|
      ensures |a[i].cells| == 2 && a[i].cells[0].Some? && a[i].cells[1].Some?
    {
      assert a[i] in multiset(a);
      assert a[i] in multiset(rows);
    }
    a
  }

  /**
   `signal.diff().abs().sum()`: the sum over t >= 1 of |s[t] - s[t-1]|
   (the leading NaN of `diff` is skipped by `sum`).
   */
  function Turnover(s: seq<real>): (r: real)
    ensures r >= 0.0
  {
    if |s| <= 1 then 0.0 else Turnover(s[..|s| - 1]) + Abs(s[|s| - 1] - s[|s| - 2])
  }

  /** Signals 0, 1, 1, 0, -1 turn over 3 units. */
  lemma TurnoverExample()
    ensures Turnover([0.0, 1.0, 1.0, 0.0, -1.0]) == 3.0
  {
    var s := [0.0, 1.0, 1.0, 0.0, -1.0];
    assert s[..4] == [0.0, 1.0, 1.0, 0.0];
    assert s[..4][..3] == [0.0, 1.0, 1.0];
    assert s[..4][..3][..2] == [0.0, 1.0];
    assert Turnover([0.0, 1.0]) == 1.0 by { assert [0.0, 1.0][..1] == [0.0]; }
    assert Turnover([0.0, 1.0, 1.0]) == 1.0;
    assert Turnover([0.0, 1.0, 1.0, 0.0]) == 2.0;
  }

  predicate Unit(s: seq<real>) {
    forall t :: 0 <= t < |s| ==> s[t] == -1.0 || s[t] == 0.0 || s[t] == 1.0
  }

  /** With signals in {-1, 0, +1}, each bar turns over at most 2 units. */
  lemma {:induction false} TurnoverBound(s: seq<real>)
    requires |s| > 0 && Unit(s)
    ensures Turnover(s) <= 2.0 * ((|s| - 1) as real)
  {
    if |s| > 1 {
      var init := s[..|s| - 1];
      assert Unit(init) by {
        forall t | 0 <= t < |init|
          ensures init[t] == -1.0 || init[t] == 0.0 || init[t] == 1.0
        {
          assert init[t] == s[t];
        }
      }
      TurnoverBound(init);
    }
  }

  /** Turnover is at least the net change from the first signal to the last. */
  lemma {:induction false} TurnoverCoversNetChange(s: seq<real>)
    requires |s| > 0
    ensures Abs(s[|s| - 1] - s[0]) <= Turnover(s)
  {
    if |s| > 1 {
      var init := s[..|s| - 1];
      TurnoverCoversNetChange(init);
      assert init[0] == s[0] && init[|init| - 1] == s[|s| - 2];
    }
  }

  /** Turnover is zero exactly when the signal never changes. */
  lemma {:induction false} TurnoverZeroIffConstant(s: seq<real>)
    ensures Turnover(s) == 0.0 <==> forall t :: 0 <= t < |s| ==> s[t] == s[0]
  {
    if |s| > 1 {
      var init := s[..|s| - 1];
      TurnoverZeroIffConstant(init);
      assert forall t :: 0 <= t < |init| ==> init[t] == s[t];
      if Turnover(s) == 0.0 {
        assert Turnover(init) == 0.0;
        assert s[|s| - 1] == s[|s| - 2];
      }
    }
  }

  /** Every row has a value in cell c. */
  predicate HasColumn(a: seq<Row>, c: nat) {
    forall i :: 0 <= i < |a| ==> c < |a[i].cells| && a[i].cells[c].Some?
  }

  /** Cell c of every aligned row. */
  function Column(a: seq<Row>, c: nat): (v: seq<real>)
    requires HasColumn(a, c)
    ensures |v| == |a|
    ensures forall i :: 0 <= i < |a| ==> a[i].cells[c] == Some(v[i])
  {
    seq(|a|, i requires 0 <= i < |a| => a[i].cells[c].value)
  }

  /** `signal.shift(1)`: the position held over bar t is the signal of bar t - 1. */
  function Positions(signal: seq<real>): (p: seq<Option<real>>)
    ensures |p| == |signal|
    ensures forall t :: 0 <= t < |signal| ==> p[t] == if t == 0 then None else Some(signal[t - 1])
  {
    seq(|signal|, t requires 0 <= t < |signal| => if t == 0 then None else Some(signal[t - 1]))
  }

  /** `positions * spread.diff() * notional`: missing on the first bar. */
  function SpreadPnl(spread: seq<real>, signal: seq<real>, notional: real): (pnl: seq<Option<real>>)
    requires |signal| == |spread|
    ensures |pnl| == |spread|
    ensures forall t :: 0 <= t < |spread| ==> (pnl[t].Some? <==> t >= 1)
    ensures forall t :: 1 <= t < |spread| ==>
      pnl[t].value == signal[t - 1] * (spread[t] - spread[t - 1]) * notional
  {
    seq(|spread|, t requires 0 <= t < |spread| =>
      if t == 0 then None else Some(signal[t - 1] * (spread[t] - spread[t - 1]) * notional))
  }

  /** `pnl / abs(notional)`: a return exactly where P&L exists and the notional is non-zero. */
  function Returns(pnl: seq<Option<real>>, notional: real): (r: seq<Option<real>>)
    ensures |r| == |pnl|
    ensures forall t :: 0 <= t < |pnl| ==> (r[t].Some? <==> pnl[t].Some? && notional != 0.0)
    ensures forall t :: 0 <= t < |pnl| && r[t].Some? ==> r[t].value * Abs(notional) == pnl[t].value
  {
    seq(|pnl|, t requires 0 <= t < |pnl| => ReturnCell(pnl[t], notional))
  }

  /**
   `backtest_spread_strategy` on the aligned rows: every output series has
   one entry per aligned row, in time order; positions, P&L and returns are
   as above and turnover is that of the aligned signal.
   */
  function BacktestSpreadStrategy(rows: seq<Row>, notional: real): (r: BacktestResult)
    requires TwoColumns(rows)
    ensures var a := Align(rows);
      && |r.times| == |a|
      && (forall t :: 0 <= t < |a| ==> r.times[t] == a[t].time)
      && r.positions == Positions(Column(a, 1))
      && r.pnl == SpreadPnl(Column(a, 0), Column(a, 1), notional)
      && r.rets == Returns(r.pnl, notional)
      && r.turnover == Turnover(Column(a, 1))
  {
    var a := Align(rows);
    var spread := Column(a, 0);
    var signal := Column(a, 1);
    var pnl := SpreadPnl(spread, signal, notional);
    BacktestResult(seq(|a|, t requires 0 <= t < |a| => a[t].time), pnl, Returns(pnl, notional),
                   Positions(signal), Turnover(signal))
  }

  /** `pnl / abs(notional)` for one cell, in doubles: x/0 is NaN or an infinity, both missing. */
  function ReturnCell(pnl: Option<real>, notional: real): (r: Option<real>)
    ensures r.Some? <==> pnl.Some? && notional != 0.0
    ensures r.Some? ==> r.value * Abs(notional) == pnl.value
  {
    var q := Div(OfOption(pnl), Num(Abs(notional)));
    if q.Num? then
      assert q.v == pnl.value / Abs(notional);
      ToOption(q)
    else ToOption(q)
  }
}
