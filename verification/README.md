# Pairs-trading backtester, modelled in Dafny

This project models the deterministic core of a machine-learning pairs-trading
research system. Two legs y and x are tied by a hedge ratio β. Their spread
S = y − β·x (or y − (α + β·x)) is turned into a rolling z-score. A position
state machine trades the spread, and a ledger books lagged P&L, trade costs
and an equity curve. The model covers each of these pieces:

- the purged walk-forward cross-validator (`PurgedCV`);
- triple-barrier labelling and the meta-labelling dataset (`Labeling`);
- the three position rules (`Positions`, `Signal`):
  - the gated machine with a time stop;
  - the simple machine of the root script;
  - the forward-filled mean-reversion signal;
- the two backtest drivers and their shared bookkeeping (`Backtests`, `Ledger`);
- the spread backtester of the web backend (`SpreadBacktester`);
- the performance metrics (`Metrics`);
- the walk-forward plumbing (`CointUtils`, `Features`, `Pipeline`, `Training`, `Loader`, `Tables`);
- the backtest endpoint with its request validation (`Api`).

Conventions:

- Prices, z-scores and returns are exact `real`s.
- A pandas NaN is `Option<real>.None`.
- Where an infinity matters (x/0 in doubles, `replace([inf, -inf], nan)`), cells are `Base.Float`: finite, NaN or a signed infinity, with the IEEE rules for `+ − × ÷`.
- All series of one computation share a single bar axis, so pandas index alignment is the identity.
- Tables are rows carrying an integer time stamp and one optional cell per named column.

Nothing from outside the core is computed here. The statistical estimators,
the cointegration test, OLS slopes and standard deviations all arrive as
values or function parameters: square roots are not available on reals. For
each, the model states only the index windows it is given and the guards
placed around it.

## Model

| member | source | states |
|---|---|---|
| PurgedCV.Arange | src/models.py:19 | `np.arange(lo, hi)`: hi − lo consecutive integers from lo, or none when hi ≤ lo |
| PurgedCV.SplitClosedForm | src/models.py:14-19 | the splitter yields exactly fold i = ([0, fold·(i+1)), [fold·(i+1)+embargo, fold·(i+2))) for every i < n_splits, or nothing at all, with fold = n div (n_splits+1) |
| PurgedCV.SplitFromClosedForm | src/models.py:16-19 | the loop from fold i onward yields folds i .. n_splits−1 in order, or nothing, by induction on the remaining folds |
| PurgedCV.SkippedIff | src/models.py:15-18 | a fold is skipped exactly when fold ≤ embargo, which does not depend on i |
| PurgedCV.SplitCount | src/models.py:15-20 | at most n_splits folds; none when n < n_splits+1 or embargo ≥ fold; `get_n_splits` (n_splits whatever the data) equals the yielded count exactly when no fold is skipped |
| PurgedCV.FoldBounds | src/models.py:15-17 | every fold's test end fold·(i+2) stays within n |
| PurgedCV.FoldSeparation | src/models.py:17-19 | train and test of each yielded fold are non-empty; train starts at 0; the first test index is the last train index + embargo + 1; every train index + embargo is below every test index; test indices lie in [0, n) |
| PurgedCV.FoldsExpandAndAdvance | src/models.py:16-19 | for folds j < k the train set of j is a strict prefix of that of k, and j's test block ends before k's begins |
| Training.BuildTrainingSet | pairs_ml.py:279-285 | `train_model` fails with "Insufficient data for training" exactly when fewer than 100 complete rows remain, and with a KeyError when there is no target column; otherwise X has every name but `target` (`Tables.Without`) and each of its rows is the matching complete row projected onto those columns, and y is each complete row's target cell |
| Training.TrainMetaClassifier | src/models.py:58-69 | no classifier (all probabilities missing) exactly when there are fewer than 100 rows or a single label class; otherwise every row's probability is its out-of-fold prediction |
| Training.OutOfFoldIsPurged | src/models.py:66-69 | a row with an out-of-fold probability was predicted by a model trained only on rows before its block, at least the embargo away |
| Training.FoldStep | src/models.py:67-69 | one pass of the fold loop extends the out-of-fold probabilities by exactly the next block's test rows (the loop invariant) |
| Training.Scatter | src/models.py:69 | `proba.iloc[te] = …` sets the test rows and leaves every other row as it was |
| Labeling.FirstTouch | src/labeling.py:23-24 | `idxmax` of the touch mask: the first index in the window that touches the barrier, with no earlier touch; none when nothing touches |
| Labeling.BarrierLabel | src/labeling.py:18-30 | label +1 iff the upper barrier s[i]+pt·v[i] is touched at some j with no lower touch strictly before (ties go up); −1 iff the lower barrier s[i]−sl·v[i] is touched with no upper touch up to and including it; 0 iff neither is touched |
| Labeling.TripleBarrierLabels | src/labeling.py:13-31 | the labels have the input's length; bar i gets a label exactly when `Labelled` holds (it is not the last bar and no window up to its own was empty, where the loop breaks), and that label is `BarrierLabel` over the non-empty window `s[i+1 : min(i+max_h, n−1)+1]` read as a Python slice, on the back-then-forward filled volatility |
| Labeling.LabelledClosedForm | src/labeling.py:17-22 | which bars are labelled, for every horizon: with max_h > 0 all but the last; with max_h of 0 or −1 none; with max_h ≤ −2, where the slice stop counts from the end, exactly the bars with i + max_h + 1 < 0 when n + max_h > 0 |
| Labeling.NegativeHorizonExample | src/labeling.py:20-22 | with max_h = −2 on five bars, bar 0 is labelled over bars 1..3 and the loop stops at bar 1 |
| Labeling.FillVolatilityComplete | src/labeling.py:13 | `bfill().ffill()` leaves no gap when any volatility value exists, and an all-missing series stays missing |
| Labeling.RisingSeriesLabelledUp | src/labeling.py:23-26 | with positive volatility and stop-loss multiple, a window that never falls below its start and reaches the upper barrier is labelled +1 |
| Labeling.TieGoesUp | src/labeling.py:25 | when the first bar touching either barrier touches both, the label is +1 |
| Labeling.MetaTarget | src/labeling.py:57-60 | the meta target is 1 iff a predicted short met label −1 or a predicted long met label +1, and 0 otherwise |
| Labeling.BuildMetaDataset | src/labeling.py:51-64 | the kept bars are exactly the candidates (\|pred_z\| ≥ entry_z) with complete features and a label, in order; X's names are the feature names without `target`, and each of its rows is the kept bar's feature row projected onto the non-target columns; y follows `MetaTarget` |
| Labeling.FeatureRows | src/labeling.py:52 | `features.loc[bars].drop(columns=["target"])`: one row per listed bar, names without `target`, each row the bar's feature row projected onto the non-target columns |
| Positions.Entry | src/backtest.py:46-48 | from flat: +1 iff the gate is on and pred_z < −entry_z, −1 iff the gate is on and pred_z > entry_z (and not below −entry_z), else 0 |
| Positions.GatedPositions | src/backtest.py:41-55 | positions are in {−1, 0, 1}; from flat only an open gate with a large enough \|pred_z\| opens; an open position either stays or goes flat, never flips, and goes flat when z crosses exit_z against it |
| Positions.GatedRuleSteps | src/backtest.py:44-55 | any sequence obeying the per-bar rule has the entry and exit properties above |
| Positions.GatedRuleUnique | src/backtest.py:41-55 | the per-bar rule has one solution: the position series is determined by the bars |
| Positions.GateIgnoredWhileOpen | src/backtest.py:46-54 | two gates that agree on the flat bars give the same positions: a closed gate never forces an exit |
| Positions.TimeStopBound | src/backtest.py:45-54 | with time_stop = k > 0, no run of non-zero positions is longer than k bars |
| Positions.TimeStopCloses | src/backtest.py:50-54 | with time_stop = k > 0 a position opened at bar e is flat again by bar e + k |
| Positions.SimplePositions | pairs_ml.py:344-356 | the root machine: positions in {−1, 0, 1}; an open position goes flat exactly when z crosses exit_z against it, otherwise keeps its sign |
| Positions.SimpleIsUngatedWithoutStop | pairs_ml.py:344-356 | the root machine is the gated machine with the gate always open and the time stop disabled |
| Signal.ComputeSpread | core/signal.py:4-8 | adding intercept + hedge_ratio·x back to the spread gives y, bar by bar, at the same length |
| Signal.ZScore | core/signal.py:10-27 | z is present exactly where the window is full and the sample deviation exists and is non-zero (an infinity becomes missing); a present z scaled by the deviation plus the mean restores the value |
| Signal.MeanReversionSignals | core/signal.py:29-59 | signals lie in {−1, 0, 1} at z's length; the exit rule \|z\| < exit_z overrides entry; a bar with no rule (or missing z) keeps the previous signal, and leading such bars are 0 |
| Signal.FilledSignalsInRange | core/signal.py:54-57 | forward filling raw signals in {−1, 0, 1} stays in {−1, 0, 1} |
| Signal.DirectFlip | core/signal.py:47-54 | with 0 ≤ exit_z ≤ entry_z, a z above entry_z followed by one below −entry_z gives −1 then +1: unlike the backtest machines, the signal flips in one bar |
| SpreadBacktester.Align | core/backtester.py:26-32 | the aligned rows are a time-sorted permutation of the rows where both spread and signal exist |
| SpreadBacktester.Positions | core/backtester.py:38 | the position on bar t is the signal of bar t−1; bar 0 has none |
| SpreadBacktester.SpreadPnl | core/backtester.py:41-45 | P&L exists from bar 1 on and is signal[t−1]·(spread[t] − spread[t−1])·notional |
| SpreadBacktester.Returns | core/backtester.py:48 | a return exists exactly where P&L exists and the notional is non-zero, and times \|notional\| it gives the P&L back |
| SpreadBacktester.BacktestSpreadStrategy | core/backtester.py:12-60 | every output has one entry per aligned row in time order; positions, P&L, returns and turnover are those of the aligned spread and signal |
| SpreadBacktester.TurnoverExample | core/backtester.py:53 | signals 0, 1, 1, 0, −1 turn over 3 |
| SpreadBacktester.TurnoverBound | core/backtester.py:53 | for signals in {−1, 0, 1} the turnover is at most 2·(n−1) |
| SpreadBacktester.TurnoverCoversNetChange | core/backtester.py:53 | the turnover is at least the net change from the first signal to the last |
| SpreadBacktester.TurnoverZeroIffConstant | core/backtester.py:53 | the turnover is zero exactly when the signal never changes |
| Metrics.CumProdStep | core/metrics.py:61 | the cumulative product starts at the first factor and each step multiplies by the next one |
| Metrics.EquityPositive | core/metrics.py:61 | with every return above −1 the equity curve stays positive |
| Metrics.HitRate | core/metrics.py:38-48 | the hit rate lies in [0, 1]; it is 0 without non-zero returns; it is 0 exactly when no return is positive and 1 exactly when some return is non-zero and all non-zero returns are positive |
| Metrics.RunningMax | core/metrics.py:34 | `cummax`: each bar's peak bounds every earlier value and is one of them |
| Metrics.MinSkipNaN | core/metrics.py:36 | `min()` skips NaN: NaN only when all cells are NaN, otherwise one of the cells and no larger than any non-NaN cell |
| Metrics.PositiveCurveDrawdown | core/metrics.py:26-36 | for a positive equity curve the maximum drawdown is a number in (−1, 0] |
| Metrics.DrawdownFormsAgree | src/backtest.py:76 | the backtest's `equity/equity.cummax() − 1` gives the same maximum drawdown as the metrics module's `(equity − peak)/peak` |
| Metrics.EquityDrawdownBound | pairs_ml.py:363-368 | when every return is above −1 the drawdown of the compounded curve lies in (−1, 0] |
| Metrics.SharpeRatio | core/metrics.py:13-24 | 0 when the sample deviation is undefined (fewer than 2 returns) or zero (constant returns); otherwise its sign is the sign of the mean return |
| Metrics.EpsilonSharpe | src/backtest.py:72 | the backtest Sharpe with its 1e-12 guard: defined for any non-empty return series, with the sign of the mean return |
| Metrics.Summarize | core/metrics.py:50-79 | turnover passes through; an empty series gives an all-zero summary; otherwise, with missing returns read as 0, the total return is the last equity − 1, the Sharpe ratio is `SharpeRatio` of the series, the hit rate is `HitRate` and the drawdown is `MaxDrawdown` of its equity; the hit rate lies in [0, 1]; with returns above −1 the drawdown lies in (−1, 0] |
| Ledger.LaggedPnl | src/backtest.py:63 | P&L on bar t is the leg return times the position held on bar t−1 (flat before bar 0) |
| Ledger.PnlNoLookAhead | src/backtest.py:63 | P&L on bar t depends only on positions before t and the leg return of t |
| Ledger.TradeMask | src/backtest.py:65 | bar 0 always counts as a trade; later bars trade exactly when the position changes |
| Ledger.TradesAreEntriesAndExits | pairs_ml.py:359 | without flips, the trade count is 1 (bar 0) plus the number of entries and exits |
| Ledger.EntriesExitsBalance | src/pairs_ml.py:291 | the entry count minus the exit count is whether the last bar is open minus whether the first one is |
| Ledger.TotalCost | src/backtest.py:66 | total cost is 2·cost_per_leg times the number of trades |
| Ledger.NetReturns | src/backtest.py:68 | net return plus cost gives back the P&L on every bar |
| Ledger.GateFacts | src/backtest.py:31-35 | without mask or probabilities the gate is always open; an open gate is open under each condition alone; a false mask closes it; a missing probability closes it when the threshold is positive |
| Ledger.PctChange | src/backtest.py:37-38 | for positive prices, compounding the return onto the previous price gives the price; bar 0's return is 0 |
| Ledger.LegReturns | src/backtest.py:39 | the leg return plus β·x_ret gives y_ret on every bar |
| Ledger.Account | src/backtest.py:63-78 | the P&L is `LaggedPnl` (yesterday's position times today's leg return); trades and costs follow `TradeMask` and `Costs`; net returns are `NetReturns` of that P&L and those costs; equity compounds the net returns; bar 0 pays one round-trip cost; two flat bars in a row earn nothing; the total return is the last equity − 1; hit rate, drawdown and Sharpe are `HitRate`, `MaxDrawdownRatio` and `EpsilonSharpe` of the net returns and equity |
| Ledger.AccountFigures | src/backtest.py:72-77 | the reported Sharpe carries the sign of the mean net return; the hit rate lies in [0, 1] and is 0 exactly when no net return is positive; net returns above −1 keep the drawdown in (−1, 0] |
| Backtests.PredictedSpread | src/backtest.py:19 | the predicted next spread exists where the spread and its predicted change do, and exceeds the spread by that change |
| Backtests.KeptBars | src/backtest.py:25-29 | the kept bars are exactly, and in order, those where z and pred_z both exist; none exactly when no bar has both |
| Backtests.PredZNeedsBeta | src/backtest.py:13-23 | a predicted z exists only on bars where the hedge ratio exists |
| Backtests.KeptBarsHaveBeta | src/backtest.py:13-29 | every kept bar has a hedge ratio, so the leg return there is defined |
| Backtests.Backtest | src/backtest.py:5-78 | fails (empty frame) exactly when no bar has both z and pred_z; otherwise the positions are the gated machine's on the kept bars with the built gate, and the run is the ledger's account of them |
| Backtests.BacktestStrategy | pairs_ml.py:319-369 | the same for the root script: kept bars, the simple machine on them, and the ledger's account |
| Backtests.DriversAgree | pairs_ml.py:324-356 | with a scalar β and no gate the root driver's predicted z equals the other driver's, and its position rule is the gated rule with the gate open and no time stop |
| CointUtils.Spread | src/coint_utils.py:23-26 | the spread exists exactly where β does, and adding β·x back gives y |
| CointUtils.RollingZ | src/coint_utils.py:27-29 | z exists exactly where the window of spreads ending at t is complete, the value exists and the population deviation is non-zero; z·sd + mean restores the value |
| CointUtils.SpreadAndZ | src/coint_utils.py:22-30 | `calculate_spread_and_z`: the spread above, and its `RollingZ` against its own window: a z exists exactly on complete windows with non-zero deviation, and z·sd + mean gives back the spread |
| CointUtils.ZNeedsBetaWindow | src/coint_utils.py:26-29 | one missing β makes z missing for the next `window` bars |
| CointUtils.RollingCointPValues | src/coint_utils.py:13-20 | the p-values have y's length and the first `window` are missing |
| CointUtils.CointWindowOnly | src/coint_utils.py:17 | p[i] depends only on y and x over [i − window, i) and so never on bar i itself |
| CointUtils.HalfLifeOf | src/coint_utils.py:32-40 | ∞ with fewer than 50 points or φ ≥ 0; otherwise a positive half-life h with h·φ = −ln 2 |
| CointUtils.Dropna | src/coint_utils.py:33 | dropping missing values never lengthens a series and leaves a complete one as it is |
| CointUtils.DropnaKeepsPresentValues | src/coint_utils.py:33 | the result has one value per present cell, and its k-th value is the cell at the k-th present position (`TrueIndices` of the presence mask) |
| Features.Returns | src/features.py:6-7 | a return exists from bar 1 where the previous price is non-zero (x/0 becomes missing), and compounding it onto that price gives the price |
| Features.Diff | src/features.py:8 | dS exists from bar 1 where both spreads exist, and adding it to the previous spread gives the spread |
| Features.RollingMean | src/features.py:13-14 | the trailing mean exists exactly on complete windows, and w times it is the window's sum |
| Features.EngineerFeatures | src/features.py:5-27 | one row per bar with the twenty named columns; the target of bar t is the spread change from t to t+1, missing on the last bar |
| Features.FeaturesCausal | src/features.py:10-22 | every column but the target at bar t is unchanged when inputs after t change |
| Features.LagColumnsAreShifts | src/features.py:19-22 | columns z_lagk, S_lagk and dS_lagk are z, the spread and dS shifted by k for k in 1, 2, 3, 5 |
| Features.TargetLooksAhead | src/features.py:25 | two spreads that agree up to bar t but differ at t + 1 give row t different targets: the target is forward-looking |
| Loader.FillColumns | core/data_loader.py:32-34 | each column is forward filled: a cell is missing exactly when every cell above it is, and present cells keep their value |
| Loader.SortRows | core/data_loader.py:28 | `sort_index`: a time-sorted permutation of the rows |
| Loader.LoadPrices | core/data_loader.py:28-41 | loading succeeds exactly when every requested column exists; the result is time-sorted, one row per input row, restricted to the requested columns when some are named, and cell (i, k) is row i of the forward fill of the time-sorted input column that column k names |
| Loader.LoadedCellMissing | core/data_loader.py:32-38 | a loaded cell is missing exactly when its source column is missing on every earlier sorted row |
| Loader.AlignPairs | core/data_loader.py:45-54 | succeeds exactly when every ticker is a column; the result has the ticker columns, is time-sorted, complete, and holds exactly the complete rows of the selection |
| Loader.AlignIdempotent | core/data_loader.py:45-54 | aligning an aligned pair again returns it unchanged |
| Tables.SortByTime | core/data_loader.py:53 | sorting yields a time-ordered permutation |
| Tables.SortSortedIsIdentity | core/data_loader.py:53 | sorting a sorted frame changes nothing |
| Tables.DropIncomplete | core/data_loader.py:52 | `dropna` keeps exactly the complete rows, each as often as before |
| Tables.SelectColumns | core/data_loader.py:51 | `df[cols]` succeeds exactly when all names exist and copies each named column's cells |
| Tables.DropColumn | src/labeling.py:52 | the remaining names are the original ones without the dropped name (`Tables.Without`), in order; each row keeps its time stamp and its cells at the non-dropped positions, in order |
| Tables.KeptColumnsNames | src/labeling.py:52 | the positions `drop` keeps name exactly the columns that the reference filter `Without` keeps |
| Pipeline.ParseTickers | src/pairs_ml.py:107-109 | anything but exactly one comma exits with the two-tickers message; otherwise the two pieces are stripped and upper-cased |
| Pipeline.SplitJoin | src/pairs_ml.py:107 | joining the pieces of `split(",")` with commas gives the argument back |
| Pipeline.Strip | src/pairs_ml.py:107 | the stripped string is the argument without leading and trailing whitespace, empty exactly when it was all whitespace |
| Pipeline.Upper | src/pairs_ml.py:107 | lower-case ASCII letters become upper case and nothing else changes |
| Pipeline.Years | pairs_ml.py:118-119 | N = ⌈max(1, days)/365⌉ ≥ 1, the least N with max(1, days) ≤ 365·N |
| Pipeline.DecimalRoundTrip | pairs_ml.py:120 | the decimal rendering of a year count reads back as that count |
| Pipeline.IbDuration | pairs_ml.py:115-120 | the duration string is a decimal count N ≥ 1 of years followed by " Y" |
| Pipeline.ChooseBeta | src/pairs_ml.py:91-102 | static mode gives the full-sample scalar; the adaptive modes give their estimate shifted one bar (bar 0 missing); any other mode raises "Unknown beta mode" |
| Pipeline.TradingBetaIsChooseBeta | src/pairs_ml.py:190-201 | the trading-β branch of `main` agrees with `choose_beta` for every trading mode |
| Pipeline.CointMask | src/pairs_ml.py:204-210 | with the gate on, bar t is open exactly when the previous bar's p-value exists and is at most the threshold; with it off there is no mask |
| Pipeline.GateUsesPastPrices | src/pairs_ml.py:206-207 | the gate at bar t depends only on prices strictly before t − 1 |
| Pipeline.NoGateMeansOpen | src/pairs_ml.py:209-210 | without the cointegration gate and without probabilities the backtest gate is open on every bar |
| Pipeline.GateClosesOnStaleOrHighP | src/pairs_ml.py:206-207 | a missing or too-high previous p-value closes the gate whatever the meta probabilities say |
| Pipeline.MetaPredZAsWritten | src/pairs_ml.py:240-243 | the meta predicted z as written is infinite only on a full window with zero deviation |
| Pipeline.FlatWindowGivesInfinity | src/pairs_ml.py:242-248 | a flat window with a non-zero predicted change gives +∞, which `dropna` keeps |
| Pipeline.MetaPredZ | src/pairs_ml.py:240-243 | the meta predicted z with a zero deviation treated as missing: present exactly when window, spread, prediction and a non-zero deviation exist, and it restores the predicted next spread |
| Pipeline.MetaPredZAgreesOffFlat | src/pairs_ml.py:240-243 | wherever the deviation is non-zero the written and the corrected forms agree |
| Api.Messages | backend/main.py:59-89 | the error list is empty exactly when every validator passes, and is never longer than the list of validators |
| Api.MessagesMembers | backend/main.py:59-89 | the reported messages are exactly the failing validators' messages, membership stated both ways |
| Api.RejectedFor | backend/main.py:59-89 | a request that fails exactly one of the four checks is rejected with that check's message alone |
| Api.Resolve | backend/main.py:51-57 | an omitted window, entry_z, exit_z or notional takes its default (60, 2.0, 0.5, 1000.0), and a sent one is kept |
| Api.WindowCheck | backend/main.py:67-73 | the window validator runs only on a sent window and passes exactly when 20 ≤ window ≤ 252; an omitted window draws no message |
| Api.EntryCheck | backend/main.py:75-81 | the entry_z validator runs only on a sent entry_z and passes exactly when 0 < entry_z ≤ 5 |
| Api.ExitCheck | backend/main.py:83-89 | an omitted exit_z draws no message; once entry_z passed (or was omitted), a sent exit_z passes exactly when 0 ≤ exit_z < entry_z, its default 2.0 when omitted; after a failed entry_z only non-negativity is checked |
| Api.Checks | backend/main.py:59-89 | the four validators, in field order, all pass exactly when `Accepted` holds: two distinct tickers, and each sent field in range, a sent exit_z compared with entry_z (its default when omitted) |
| Api.Validate | backend/main.py:51-89 | over real (non-NaN) thresholds, a request is accepted exactly when `Accepted` holds, and then yields the request with the defaults in place; a supplied entry_z that fails its check is not in `values`, so exit_z is not compared with it |
| Api.AcceptedIsResolved | backend/main.py:51-89 | every accepted request reaches the endpoint with two distinct tickers, 20 ≤ window ≤ 252, 0 < entry_z ≤ 5, 0 ≤ exit_z, and exit_z < entry_z unless exit_z is the unchecked default 0.5 |
| Api.ResolvedIsAccepted | backend/main.py:51-89 | conversely, every parameter set of that shape is what `Validate` yields for some accepted request, so the endpoint's precondition excludes nothing the source lets through |
| Api.OmittedFieldsUnchecked | backend/main.py:54-88 | entry_z 0.4 with exit_z omitted is accepted and runs with exit_z 0.5; exit_z 3.0 with entry_z omitted is rejected against the default 2.0 with only the "< Entry Z-score" message; a sent window of 5 is rejected with only the window message |
| Api.ValidationBoundaries | backend/main.py:59-89 | for any two different tickers and any notional, with every other field sent: window 20 and exit_z 0 are accepted; window 19, exit_z = entry_z, a ticker given twice and a single ticker are each rejected with exactly the matching message |
| Api.InvalidEntrySkipsExitComparison | backend/main.py:79-88 | when a supplied entry_z fails its check, an omitted or non-negative exit_z draws neither exit message whatever its value, and the entry message is reported |
| Api.CleanSeries | backend/main.py:228-230 | NaN and ±∞ become 0, finite values stay, and the length is kept |
| Api.CleanFinite | backend/main.py:228-230 | cleaning a finite series returns it unchanged |
| Api.FloatCumProdFinite | backend/main.py:219 | the double cumulative product of finite factors is the exact product |
| Api.FloatCumProd | backend/main.py:219 | the double cumulative product starts at the first factor and multiplies in one factor per step |
| Api.EquityCurve | backend/main.py:217-219 | with a non-zero capital base the equity is the compounded pnl/capital, missing P&L read as 0 |
| Api.MissingTickerError | backend/main.py:172-178 | an unknown ticker gives status 400 with a detail starting "Ticker '…' not found in data" |
| Api.Precheck | backend/main.py:171-192 | on the parameters of an accepted request (defaults in place): every pre-computation failure is a 400; an unknown ticker is reported first; with all tickers present, the request fails exactly when fewer aligned rows than `window` remain |
| Api.RunBacktest | backend/main.py:166-254 | on the parameters of an accepted request (defaults in place, so exit_z may be the unchecked 0.5 above entry_z): fails exactly when a pre-check fails, with status 400; on success the dates are the aligned rows' times, y is tickers[1], x is tickers[0], every series has the dates' length and fits the spread, P&L and equity relations, and `Api.Fitted` holds: hedge ratio and intercept are Engle-Granger's on (y, x), the capital is `CapitalBase`, and z-score and positions are those derived from the spread |
| Api.CapitalBase | backend/main.py:217 | the capital base is mean(y) + β·mean(x) |
| Api.SignalRowsPnl | backend/main.py:214 | on time-ordered dates the backtester's P&L for notional 1 is the previous signal times the spread change, missing on the first date |
| Api.Assemble | backend/main.py:206-243 | the response keeps dates, prices, β and α and the z-score it is given; its positions are the previous date's signal, flat on the first; its capital is `CapitalBase`; and it satisfies the spread, P&L and equity relations |
| Api.ZAndSignals | backend/main.py:207-210 | for any accepted parameters, an omitted exit_z above entry_z included: the z-score is `Signal.ZScore` of the spread where that has a value and 0 during the warm-up; the signals are `MeanReversionSignals` of that filled z-score, each in {−1, 0, 1} |

## Left out

- Reading CSV files, the IBKR connection and the data cache: these are file and network I/O. Tables arrive already parsed, with times as integers.
- `asfreq('B')` business-day resampling and date parsing: a calendar library. `strftime` formatting of the dates is left out too, so the response's dates are the integer time stamps.
- `select_dtypes(include=['number'])`: every cell in the model is a number, so loading without `price_cols` keeps every column.
- The hedge-ratio estimators (rolling OLS, RLS, Kalman and the full-sample OLS) are given as values. The Engle-Granger fit, the `coint` test and OLS slopes are function parameters. They are foreign numeric libraries.
- Standard deviations are parameters, and √252 is a fixed double constant: reals have no square root. The magnitudes of Sharpe ratios are therefore not modelled, only their guards and signs.
- Vol targeting in `backtest` (src/backtest.py:57-61): it needs a rolling standard deviation and clipping of doubles. The model books the unsized P&L.
- `train_regressor` and `train_model` fits, predictions and RMSE: foreign estimators. Only the 100-row guard and the purged out-of-fold bookkeeping are modelled.
- Plotting, argparse and console output, FastAPI routing, CORS, logging, the `/api/pairs` endpoint and the catch-all 500 handler: presentation and framework code.
- Validation errors are returned as a list of messages. The HTTP 422 wrapping done by pydantic and FastAPI is not modelled.
- A body without `tickers` gets pydantic's "field required" error before any validator runs. `Api.Request` always carries tickers, so that error is not modelled. The other four fields may be omitted.
- The metrics block of the API response (backend/main.py:222, 244-251) is not assembled. `Metrics.Summarize` models the function it calls.
- Backtests.Backtest: requires positive prices. A zero price would make pandas' `pct_change` infinite, and that case is not modelled.
- Backtests.BacktestStrategy: requires positive prices, for the same reason.
- Pipeline.Strip: only ASCII space, tab, newline and carriage return count as whitespace. Python's `str.strip` also removes other Unicode whitespace.
- Pipeline.Upper: only ASCII letters are upper-cased. Python's `str.upper` also maps other Unicode letters.
- Pipeline.ParseTickers: models src/pairs_ml.py, which keeps empty pieces. The root script's variant (pairs_ml.py:76-78) also drops empty pieces before counting; that variant is not modelled.
- Api.Validate: entry_z and exit_z are reals, so a NaN cannot be sent. Pydantic accepts a NaN for either, because every comparison with NaN is false (backend/main.py:77-88); "accepted exactly when" holds only for non-NaN values.
- Loader.LoadPrices: always forward-fills. The source fills only when the index is a `DatetimeIndex` (core/data_loader.py:32-34); times here are integers that stand for dates, so the table is taken to have one.
- Labeling.TripleBarrierLabels: `idxmax` returns index labels, and the tie-break compares them. The model compares positions, which agrees for a strictly increasing index.

## Findings

| source | as written | input that shows it | evidently intended | confidence | as-written member | corrected member |
|---|---|---|---|---|---|---|
| src/pairs_ml.py:242 | the population deviation's zeros are replaced by 0.0, which keeps them. A flat window then divides by zero, so the predicted z is ±∞ and survives `pred_z.dropna()` (line 248) as a meta candidate | spread 1, 1 with window 2 and a predicted change of 0.5 on bar 1: deviation 0, predicted z = +∞ | `replace(0, np.nan)`, as the same computation in src/backtest.py:22 and src/coint_utils.py:28 does, so a flat window gives a missing predicted z | medium, not executed | Pipeline.MetaPredZAsWritten (shown by Pipeline.FlatWindowGivesInfinity) | Pipeline.MetaPredZ (agreement elsewhere: Pipeline.MetaPredZAgreesOffFlat) |
