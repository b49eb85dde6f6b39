# Statistical-Arbitrage backtest engine in Dafny

This project models the backtest engine of a gold/silver pairs-trading
project. The engine exists in two copies that have drifted apart, and each is
modelled as its own variant.

- **First copy** (`scripts/backtest_strategy.py`):
  - the spread is a price differential, `gold − k·silver`;
  - a rolling z-score is taken over a window;
  - a memoryless, vectorised position rule sets the positions, where each
    later assignment overrides the earlier ones;
  - returns are the previous position times the spread's percentage change,
    compounded with a cumulative product;
  - the drawdown is additive;
  - `simulate_trades` is a unit-based trade simulation that walks the rows
    and updates cash and holdings in place.
- **Phoenix copy** (`Phoenix-Branch-One/scripts/backtest_strategy.py`):
  - the spread is a return differential, `pct_change(gold) − pct_change(silver)`;
  - the z-score is taken over a fixed window of 30 rows;
  - a stateful loop with hysteresis sets the positions, flat/long/short,
    from the previous position and the current z-score;
  - returns are the previous position times the spread itself;
  - it computes growth factors, a relative drawdown of the compounding
    equity curve, and the count of days held.

The modules are:

| module | file | contents |
|---|---|---|
| `Common` | `common.dfy` | `Option`, `Result` with `IndexError`/`UnboundLocalError`, the `Position` type, and NaN-aware comparisons |
| `Columns` | `columns.dfy` | pandas column semantics shared by both copies: `pct_change`, `rolling(w).mean()/.std()`, the z-score, `cumprod` that skips NaN, `cummax`, NaN-skipping `max`/`min`/`count`/`mean` |
| `Backtest` | `backtest.dfy` | the first copy's pipeline and metrics |
| `Trades` | `trades.dfy` | `simulate_trades` as an imperative loop, proved against recursive specifications |
| `Phoenix` | `phoenix.dfy` | the Phoenix copy: the in-place position loop over an array, proved against a recursive specification, plus its returns and metrics |

Conventions:

- **NaN** is `None` in a column of `Option<real>`. Every comparison with NaN
  is false (`Gt`, `Lt`).
- **Prices** are plain `real` sequences without NaN.
- **Square root.** Dafny has no square root, so the rolling standard deviation
  is the exact rolling sample variance (one degree of freedom) passed through
  a parameter `root: real -> real` that stands for it.
- **Zero standard deviation.** Wherever the standard deviation is 0 the
  z-score is NaN. With exact arithmetic a zero variance makes the numerator
  zero as well, so the quotient is 0/0.
- **Division by zero** in `pct_change` and in the relative drawdown gives
  infinity or NaN in pandas. Both are read as undefined here.
- **`Cumulative_Return[0]` is NaN, not 0.** `cumprod` leaves NaN rows NaN,
  so `Cumulative_Return` is NaN on every row whose return is NaN, row 0
  included.
- **`Cumulative_Growth_Factor`** of the Phoenix copy is modelled as written,
  a product of two consecutive growth factors (see "## Findings"). The
  running product it was evidently meant to be is `Columns.Equity`; the
  relative drawdown, which recomputes that running product, uses it.

## Model

| member | source | states |
|---|---|---|
| `Backtest.Spread` | scripts/backtest_strategy.py:5-12 | one spread per row, and each row's spread plus `k·silver` is that row's gold price |
| `Backtest.ZScore` | scripts/backtest_strategy.py:14-21 | `calculate_zscore` over a spread without NaN: no z-score before row `window−1` and none for a window of one row; `Backtest.RollingMeanOfSpread` and `Columns.ZScoreDefined` state the rest |
| `Backtest.RollingMeanOfSpread` | scripts/backtest_strategy.py:14-21 | mean is defined exactly from row `window−1` on, where it is the average of the last `window` spreads; std and z are undefined before that |
| `Columns.ZScoreNeedsFullWindow` | scripts/backtest_strategy.py:18-20 | a z-score exists only where a full window without NaN ends, and the mean is defined exactly there |
| `Columns.ZScoreDefined` | scripts/backtest_strategy.py:18-20 | where the window is full, has two rows or more and a nonzero std, the z-score exists and `z·std + mean` is the row's own value: it is `(s − mean)/std` |
| `Columns.RollingMean` | scripts/backtest_strategy.py:18 | one cell per row; its meaning (defined exactly at full windows, the window's average) is stated by `Columns.ZScoreNeedsFullWindow`, `Columns.RollingMeanWithinWindow` and `Backtest.RollingMeanOfSpread` |
| `Columns.RollingVariance` | scripts/backtest_strategy.py:19 | one cell per row, the square of `rolling().std()`; `Columns.RollingVarianceNonNegative` states where it exists and its sign |
| `Columns.RollingVarianceNonNegative` | scripts/backtest_strategy.py:19 | the sample variance exists exactly on full windows of two rows or more, and is never negative |
| `Columns.SquaredDeviationsNonNegative` | scripts/backtest_strategy.py:19 | the sum of squared deviations behind the sample variance is never negative |
| `Columns.RollingStd` | scripts/backtest_strategy.py:19 | one cell per row: the root of the sample variance over a full window, NaN elsewhere; `Columns.ConstantWindow` states the zero-variance case |
| `Columns.ZScores` | scripts/backtest_strategy.py:20 | one cell per row; `Columns.ZScoreNeedsFullWindow` states that a z-score needs a full window of two rows or more, and `Columns.ZScoreDefined` that it then exists wherever the std is nonzero, with value `(s − mean)/std` |
| `Columns.RollingMeanWithinWindow` | scripts/backtest_strategy.py:18 | the rolling mean lies between the smallest and largest value of its window |
| `Columns.ConstantWindow` | scripts/backtest_strategy.py:18-19 | over a constant window the rolling mean is that constant and the rolling variance is 0 |
| `Backtest.VectorisedRule` | scripts/backtest_strategy.py:27-32 | closed form of the three overriding assignments: 0 on NaN; 0 iff inside the exit band or beyond neither entry threshold; +1 iff outside the band and below `−z_entry`; −1 iff outside the band, not below `−z_entry`, and above `z_entry` |
| `Backtest.Assign` | scripts/backtest_strategy.py:30-32 | one `df.loc[mask, 'Position'] = v` write, one cell per row; `Backtest.VectorisedRule` states what the three writes leave on each row |
| `Common.Gt` | scripts/backtest_strategy.py:30 | `z > c` on a float cell; `Common.CellComparisons` states that NaN is never above a threshold |
| `Common.Lt` | scripts/backtest_strategy.py:31 | `z < c` on a float cell; `Common.CellComparisons` states that NaN is never below a threshold |
| `Common.AbsCell` | scripts/backtest_strategy.py:32 | `abs` of a float cell: NaN iff the cell is NaN, otherwise non-negative and equal to the cell or its negation |
| `Common.CellComparisons` | scripts/backtest_strategy.py:30-32 | a NaN cell compares false with every threshold; a defined cell is above, below or at it; `abs(z) < c` iff `−c < z < c` |
| `Backtest.VectorisedPositions` | scripts/backtest_strategy.py:27-32 | one position per row; what it holds on each row is stated by `Backtest.VectorisedRule` |
| `Backtest.VectorisedIsMemoryless` | scripts/backtest_strategy.py:27-32 | a row's position depends on that row's z-score alone |
| `Backtest.VectorisedFlipsDirectly` | scripts/backtest_strategy.py:27-32 | z-scores −3 then 3 give positions +1 then −1: the rule flips long to short in one row |
| `Columns.PctChange` | scripts/backtest_strategy.py:35 | one cell per row; its meaning is stated by `Columns.PctChangeGrowth` and `Columns.PctChangeCompounds` |
| `Columns.PctChangeGrowth` | scripts/backtest_strategy.py:35 | a percentage change exists iff the previous value is nonzero, and then it is the growth from the previous value to this one |
| `Columns.PctChangeCompounds` | scripts/backtest_strategy.py:35 | with nonzero earlier values, every value is the first value times the compounded percentage changes |
| `Backtest.StrategyReturns` | scripts/backtest_strategy.py:35 | one return per row; its meaning is stated by `Backtest.StrategyReturnMeaning` |
| `Backtest.StrategyReturnMeaning` | scripts/backtest_strategy.py:35 | undefined on row 0; afterwards defined iff the previous spread is nonzero, and then equal to the previous position times the spread's relative change; zero after a flat row; a long position's return is the spread's own growth |
| `Columns.CumulativeReturns` | scripts/backtest_strategy.py:36 | `(1 + r).cumprod() − 1`: one cell per row, defined exactly where the return is; `Columns.CumulativeReturnCompounds` states how it compounds |
| `Columns.Equity` | Phoenix-Branch-One/scripts/backtest_strategy.py:103 | the running product `(1 + r).cumprod()`: defined exactly where the return is; `Phoenix.CumulativeGrowthCompounds` states how it compounds |
| `Columns.GrowthConcat` | scripts/backtest_strategy.py:36 | the NaN-skipping cumulative product over two consecutive stretches is the product of the two |
| `Columns.CumulativeReturnCompounds` | scripts/backtest_strategy.py:36 | `1 + C` over a joined path is the product of `1 + C` over its parts |
| `Columns.CompoundingExample` | scripts/backtest_strategy.py:36 | returns NaN, +50%, −50% accumulate to NaN, +50%, −25% |
| `Columns.ZeroReturnsKeepGrowth` | scripts/backtest_strategy.py:36 | a stretch of zero or NaN returns compounds to a factor of 1 |
| `Backtest.FlatPositionsEarnNothing` | scripts/backtest_strategy.py:35-36 | after flat rows only, every return and the cumulative return are 0 or NaN |
| `Backtest.FlatDuringWarmup` | scripts/backtest_strategy.py:14-36 | positions are 0 before row `window−1`, and returns and cumulative returns are 0 or NaN through that row |
| `Backtest.ConstantSpreadHasNoZScore` | scripts/backtest_strategy.py:18-20 | a constant spread has no defined z-score, given that the root of 0 is 0 |
| `Backtest.ConstantSpreadStaysFlat` | scripts/backtest_strategy.py:9-36 | a constant spread gives no z-score anywhere, a flat position throughout, zero-or-NaN returns and cumulative returns, and a zero-or-NaN drawdown |
| `Backtest.RunBacktest` | scripts/backtest_strategy.py:5-37 | the frame of the three steps run in turn, one cell per price row in every column; `Backtest.FlatDuringWarmup` and `Backtest.ConstantSpreadStaysFlat` state what it holds |
| `Columns.MaxDefined` | scripts/backtest_strategy.py:47 | NaN-skipping `max()`: NaN iff every cell is NaN, otherwise an upper bound of all defined cells that some cell attains |
| `Columns.CumMax` | scripts/backtest_strategy.py:47 | one cell per row, NaN where the column is; at a defined row it is `MaxDefined` of the rows up to it, whose contract (an attained upper bound that skips NaN) and `Columns.CumMaxAt` make it the running maximum |
| `Backtest.AdditiveDrawdowns` | scripts/backtest_strategy.py:47 | one drawdown per row; `Backtest.AdditiveDrawdownAt` states that each is defined where C is, never negative, and 0 exactly at a running peak |
| `Backtest.MaxDrawdown` | scripts/backtest_strategy.py:47 | the largest per-row drawdown: NaN iff every per-row drawdown is NaN, otherwise at least each of them and equal to one of them |
| `Columns.CumMaxAt` | scripts/backtest_strategy.py:47 | the running maximum is defined at each defined cell, is at least every defined cell up to it and equal to one of them, and equals the row's own cell iff no earlier defined cell is larger |
| `Columns.NonDecreasingIffAtPeak` | scripts/backtest_strategy.py:47 | a column never falls iff every defined cell equals its running maximum |
| `Backtest.AdditiveDrawdownAt` | scripts/backtest_strategy.py:47 | at every row with a cumulative return the drawdown `cummax − C` is defined and ≥ 0, and it is 0 iff no earlier C is larger |
| `Backtest.MaxDrawdownBounds` | scripts/backtest_strategy.py:47 | the additive drawdown is NaN iff every cumulative return is NaN; otherwise it is ≥ 0, and it is 0 iff the cumulative return never falls |
| `Backtest.AdditiveDrawdownExceedsWholeStake` | scripts/backtest_strategy.py:47 | cumulative returns 200% then 50% give a drawdown of 1.5, more than the whole stake |
| `Backtest.ConstantHasNoDrawdown` | scripts/backtest_strategy.py:47 | a cumulative return that is 0 wherever defined has a drawdown of 0 or NaN |
| `Columns.SumDefinedSign` | scripts/backtest_strategy.py:44 | the NaN-skipping sum of nonnegative (nonpositive) cells is nonnegative (nonpositive) |
| `Columns.MeanDefinedSign` | scripts/backtest_strategy.py:44 | the NaN-skipping `mean()` is NaN iff every cell is NaN, and has the sign all the defined cells share |
| `Columns.MeanDefined` | scripts/backtest_strategy.py:44 | NaN-skipping `mean()` is NaN iff every cell is NaN |
| `Backtest.AnnualizedReturn` | scripts/backtest_strategy.py:44 | `mean() * 252` is NaN iff no return is defined |
| `Backtest.AnnualizedReturnSign` | scripts/backtest_strategy.py:44 | the annualised return is NaN iff no return is defined, and has the sign all the daily returns share |
| `Backtest.PerformanceMetrics` | scripts/backtest_strategy.py:39-47 | IndexError iff the frame is empty; otherwise the cumulative return is the last row's, the annualised return is `AnnualizedReturn` of the returns, and the drawdown is `MaxDrawdown` of the cumulative returns |
| `Backtest.MetricsOfRun` | scripts/backtest_strategy.py:39-47 | for any nonempty run the metrics exist; the drawdown is NaN iff every cumulative return is and otherwise ≥ 0; the annualised return is NaN iff no return is defined |
| `Trades.SimulateTrades` | scripts/backtest_strategy.py:93-135 | the loop yields exactly the specified value of every row, one per row; with no rows, the final report of the unbound `portfolio_value` raises UnboundLocalError |
| `Trades.PortfolioValues` | scripts/backtest_strategy.py:103-129 | one portfolio value is appended per row |
| `Trades.BookAfter` | scripts/backtest_strategy.py:98-125 | the book starts with the cash and no metal; what it holds after the rows is stated by `Trades.HoldingsAreLots` and `Trades.HoldingsHedged` |
| `Trades.Trade` | scripts/backtest_strategy.py:111-125 | one row's trade; it carries no contract of its own because one would make the loop's proof too costly. `Trades.TradeKeepsLots`, `Trades.TradeIsValueNeutral` and `Trades.FlatSignalCloses` state what it does |
| `Trades.Value` | scripts/backtest_strategy.py:128-129 | the book marked at the row's prices; `Trades.TradeIsValueNeutral`, `Trades.ValueOfCarriedBook` and `Trades.ValueChangeIsPriceMove` state what it is |
| `Trades.PortfolioValuesPrefix` | scripts/backtest_strategy.py:105-129 | the values of a prefix of the rows are the prefix of the values |
| `Trades.HoldingsAreLots` | scripts/backtest_strategy.py:111-125 | after any rows the book holds `NetLots` lots: that many gold units long and that many silver units short |
| `Trades.HoldingsHedged` | scripts/backtest_strategy.py:111-125 | `gold_position·silver_units + silver_position·gold_units = 0` after every row |
| `Trades.FlatSignalCloses` | scripts/backtest_strategy.py:121-125 | after a row with signal 0 both holdings and the lot count are 0 |
| `Trades.TradeIsValueNeutral` | scripts/backtest_strategy.py:111-125 | a trade leaves the value of the book at the row's prices unchanged |
| `Trades.TradeKeepsLots` | scripts/backtest_strategy.py:111-125 | a trade on a book of whole lots leaves whole lots: one more on signal 1, one fewer on −1, none on 0, unchanged on any other signal |
| `Trades.ValueOfCarriedBook` | scripts/backtest_strategy.py:98-129 | each row's value is the cash and holdings carried in, marked at that row's prices; the first value is the starting cash |
| `Trades.ValueChangeIsPriceMove` | scripts/backtest_strategy.py:105-129 | from one row to the next the value changes by the holdings carried between them times the price moves |
| `Trades.LongSignalsAddLots` | scripts/backtest_strategy.py:111-115 | each signal-1 row in a run adds one lot |
| `Trades.LongSignalsAccumulate` | scripts/backtest_strategy.py:111-115 | after a run of signal-1 rows the gold held has grown by `gold_units` per row, with no fixed target holding |
| `Trades.DefaultsExample` | scripts/backtest_strategy.py:93-129 | with the defaults (1 unit each, cash 100000), going long at gold 2000 and silver 25 and closing at gold 2010 records values 100000 and 100010 |
| `Phoenix.Spread` | Phoenix-Branch-One/scripts/backtest_strategy.py:8-16 | one spread per row; its meaning is stated by `Phoenix.SpreadMeaning` |
| `Phoenix.SpreadMeaning` | Phoenix-Branch-One/scripts/backtest_strategy.py:12-14 | the spread is defined iff `t ≥ 1` and both previous prices are nonzero; then it is the gold return minus the silver return, each the growth of its price, and it is 0 iff both prices moved in the same proportion |
| `Phoenix.ZScore` | Phoenix-Branch-One/scripts/backtest_strategy.py:19-27 | `calculate_zscore` with a window of 30: a z-score needs row 29 or later and a defined spread on its row; `Phoenix.SpreadWarmup` and `Columns.ZScoreDefined` state the rest |
| `Phoenix.SpreadWarmup` | Phoenix-Branch-One/scripts/backtest_strategy.py:12-25 | the mean and z-score are NaN through row 29; with nonzero prices the mean is defined from row 30 on |
| `Phoenix.Step` | Phoenix-Branch-One/scripts/backtest_strategy.py:63-84 | one row of the loop: an open position is only ever closed or held, never flipped, and a NaN z-score holds the previous position |
| `Phoenix.Hysteresis` | Phoenix-Branch-One/scripts/backtest_strategy.py:60-84 | one position per row; `Phoenix.HysteresisRule` states the rule row by row |
| `Phoenix.StatefulPositions` | Phoenix-Branch-One/scripts/backtest_strategy.py:60-84 | the in-place loop over a zero-filled array produces exactly the specified position column |
| `Phoenix.HysteresisPrefix` | Phoenix-Branch-One/scripts/backtest_strategy.py:62-84 | positions are causal: those of a prefix of the z-scores are the prefix of the positions |
| `Phoenix.HysteresisRule` | Phoenix-Branch-One/scripts/backtest_strategy.py:60-84 | the position on row 0 is 0. From flat: −1 iff `z > z_entry`, +1 iff not that and `z < −z_entry`. From open: 0 iff `−z_exit < z < z_exit`, otherwise held. A NaN z-score holds the previous position |
| `Phoenix.NoDirectFlip` | Phoenix-Branch-One/scripts/backtest_strategy.py:74-84 | consecutive positions are never +1 and −1 |
| `Phoenix.SignChangesPassThroughFlat` | Phoenix-Branch-One/scripts/backtest_strategy.py:74-84 | between a long row and a later short row (or the reverse) some row is flat |
| `Phoenix.FlatWhileUndefined` | Phoenix-Branch-One/scripts/backtest_strategy.py:66-84 | while every z-score so far is NaN every position is 0 |
| `Phoenix.HysteresisHoldsInsideBand` | Phoenix-Branch-One/scripts/backtest_strategy.py:74-78 | with thresholds 1.7 and 0.04, z-scores NaN, −2, 1, 0 give positions 0, 1, 1, 0 |
| `Phoenix.NoPositionBeforeWindow` | Phoenix-Branch-One/scripts/backtest_strategy.py:23-84 | every position before row 30 is 0 |
| `Phoenix.StrategyReturnMeaning` | Phoenix-Branch-One/scripts/backtest_strategy.py:87 | the return is defined exactly where the spread is; a long position earns the gold return minus the silver return, a short one the reverse, and a flat one 0 |
| `Phoenix.StrategyReturns` | Phoenix-Branch-One/scripts/backtest_strategy.py:87 | one return per row; its meaning is stated by `Phoenix.StrategyReturnMeaning` |
| `Phoenix.FlatPositionsEarnNothing` | Phoenix-Branch-One/scripts/backtest_strategy.py:87-90 | after flat rows only, every return and the cumulative return are 0 or NaN |
| `Phoenix.FlatDuringWarmup` | Phoenix-Branch-One/scripts/backtest_strategy.py:23-90 | positions are 0 before row 30, and returns and cumulative returns are 0 or NaN through row 30 |
| `Phoenix.GrowthFactors` | Phoenix-Branch-One/scripts/backtest_strategy.py:88 | a growth factor is defined exactly where the return is |
| `Phoenix.TwoRowGrowthFactors` | Phoenix-Branch-One/scripts/backtest_strategy.py:89 | the `Cumulative_Growth_Factor` column as written, one cell per row; `Phoenix.TwoRowGrowthIsWindowProduct` states what it holds |
| `Phoenix.TwoRowGrowthIsWindowProduct` | Phoenix-Branch-One/scripts/backtest_strategy.py:89 | the `Cumulative_Growth_Factor` column as written is defined iff a row and the row before it both have a return, and is then the compounded growth of those two rows only |
| `Phoenix.TwoRowGrowthIsNotCumulative` | Phoenix-Branch-One/scripts/backtest_strategy.py:89 | three 100% returns give a `Cumulative_Growth_Factor` of 4 on the third, where the running product is 8 |
| `Phoenix.CumulativeGrowthCompounds` | Phoenix-Branch-One/scripts/backtest_strategy.py:89-90 | each cumulative growth factor after an earlier defined one is that one times this row's factor, and is 1 plus the cumulative return |
| `Phoenix.CumulativeGrowthAt` | Phoenix-Branch-One/scripts/backtest_strategy.py:89-90 | at every row with a return, the first such row included, the cumulative growth factor is 1 plus the cumulative return; at the first such row it is that row's own factor |
| `Phoenix.GrowthAcrossGap` | Phoenix-Branch-One/scripts/backtest_strategy.py:90 | `cumprod` skips NaN: rows without a return between two rows leave the growth unchanged |
| `Phoenix.Backtest` | Phoenix-Branch-One/scripts/backtest_strategy.py:8-92 | the frame of the three steps run in turn, one cell per price row in every column, with `Cumulative_Growth_Factor` as written; `Phoenix.FlatDuringWarmup` and `Phoenix.MetricsOfBacktest` state what it holds |
| `Phoenix.RunBacktest` | Phoenix-Branch-One/scripts/backtest_strategy.py:8-92 | the pipeline run with the in-place loop produces exactly the specified frame |
| `Columns.Count` | Phoenix-Branch-One/scripts/backtest_strategy.py:100 | `count()` is at most the length, and 0 iff every cell is NaN |
| `Columns.CountAllButFirst` | Phoenix-Branch-One/scripts/backtest_strategy.py:100 | a column that is NaN on row 0 only counts all other rows |
| `Phoenix.DaysHeldIsRowsMinusOne` | Phoenix-Branch-One/scripts/backtest_strategy.py:100 | with nonzero prices, `days_held` is the number of rows minus one |
| `Columns.GrowthPositive` | Phoenix-Branch-One/scripts/backtest_strategy.py:103-104 | a running product of factors that are all positive is positive |
| `Columns.MinDefined` | Phoenix-Branch-One/scripts/backtest_strategy.py:103-104 | NaN-skipping `min()`: NaN iff every cell is NaN, otherwise a lower bound of all defined cells that some cell attains |
| `Phoenix.RelativeFall` | Phoenix-Branch-One/scripts/backtest_strategy.py:103-104 | a value at or below a positive peak is down by a fraction in (−1, 0], and by 0 iff it equals the peak |
| `Phoenix.RelativeDrawdownAt` | Phoenix-Branch-One/scripts/backtest_strategy.py:103-104 | where every return is above −100%, each row's relative drawdown lies in (−1, 0], and is 0 iff the equity is at its running peak |
| `Phoenix.RelativeDrawdowns` | Phoenix-Branch-One/scripts/backtest_strategy.py:103-104 | one relative drawdown per row; `Phoenix.RelativeDrawdownAt` states its range |
| `Phoenix.MaxDrawdown` | Phoenix-Branch-One/scripts/backtest_strategy.py:103-104 | `.min()` of the per-row drawdowns: NaN iff every one is NaN, otherwise at most each of them and equal to one of them |
| `Phoenix.MaxDrawdownBounds` | Phoenix-Branch-One/scripts/backtest_strategy.py:103-104 | where every return is above −100%, the drawdown is NaN iff no return is defined, lies in (−1, 0], and is 0 iff the equity curve never falls |
| `Phoenix.PerformanceMetrics` | Phoenix-Branch-One/scripts/backtest_strategy.py:95-104 | IndexError iff the frame is empty; otherwise the cumulative return is the last row's, the days held are `count()` of the returns (at most the rows), and the drawdown is `MaxDrawdown` of the returns |
| `Phoenix.MetricsOfBacktest` | Phoenix-Branch-One/scripts/backtest_strategy.py:95-104 | for a run over nonzero prices the metrics exist and every row but the first is a day held; where every return stays above −100% the drawdown lies in (−1, 0] |

## Left out

- The ADF and Engle-Granger cointegration test are left out. They wrap
  statsmodels, and the only local logic is a `p < 0.05` print.
- Data download, CSV loading, file deletion, plotting, the interactive entry
  script and every `print` are I/O and are not part of this model.
- Annualised volatility and the Sharpe ratios are floating-point quantities
  built on a square root. The Phoenix Sharpe ratio also downloads a
  risk-free rate.
- The Phoenix annualised return, `(1 + C) ** (252 / days_held) − 1`, is left
  out because it needs a fractional power.
- IEEE infinity is not modelled. A division by zero that pandas turns into
  ±inf or NaN is undefined here. This happens in `pct_change` after a zero
  value and in the relative drawdown after a zero peak.
- `Columns.RollingStd`: the square root is the parameter `root`, not a
  proved square root. No lemma relies on anything about `root` except, where
  stated, `root(0) = 0`.
- `Columns.ConstantWindow` proves only one direction: a constant window has
  zero variance. The converse, zero variance forces a constant window, is
  not proved.
- A rolling window of 0 is excluded by preconditions. pandas accepts
  `rolling(0)` and gives all-NaN rolling statistics there.
- The position loop's `df['Position'].iloc[i] = …` is a chained assignment.
  It is modelled as writing through to the frame. Under pandas copy-on-write
  it would leave the column at 0.
- `Trades.SimulateTrades` takes the unit sizes and the starting cash as reals.
  It does not model the difference between the integer defaults and float
  prices.

## Findings

| source | as written | input that shows it | evidently intended | confidence | as-written member | corrected member |
|---|---|---|---|---|---|---|
| Phoenix-Branch-One/scripts/backtest_strategy.py:89 | `Cumulative_Growth_Factor = Growth_Factor * Growth_Factor.shift(1)`, the product of two consecutive factors | three strategy returns of 100% after the NaN first row: the column shows 4 on the last row, the running product is 8 | the running product `(1 + Strategy_Return).cumprod()`, equal to `1 + Cumulative_Return` | not executed | `Phoenix.TwoRowGrowthIsNotCumulative` | `Phoenix.CumulativeGrowthAt` |
