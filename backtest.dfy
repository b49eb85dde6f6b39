/** The first copy of the backtest (scripts/backtest_strategy.py): a
    price-differential spread, a memoryless vectorised position rule, returns
    on the spread's percentage change, and an additive drawdown. */
module Backtest {
  import opened Common
  import opened Columns

  /** The thresholds the script's entry point passes. */
  const DefaultEntry: real := 2.0
  const DefaultExit: real := 0.5
  const TradingDays: real := 252.0

  /** `calculate_spread`: gold price minus the scaled silver price. */
  function Spread(gold: seq<real>, silver: seq<real>, scalingFactor: real): (spread: seq<real>)
    requires |gold| == |silver|
    ensures |spread| == |gold|
    ensures forall t :: 0 <= t < |gold| ==> spread[t] + scalingFactor * silver[t] == gold[t]
  {
    seq(|gold|, t requires 0 <= t < |gold| => gold[t] - scalingFactor * silver[t])
  }

  /** `calculate_zscore` on a spread without missing values: no z-score
      before the first full window, and none for a window of one row. */
  function ZScore(spread: seq<real>, window: nat, root: real -> real): (z: seq<Option<real>>)
    requires window >= 1
    ensures |z| == |spread|
    ensures forall t :: 0 <= t < |spread| && z[t].Some? ==> window >= 2 && t >= window - 1
  {
    ZScores(Lift(spread), window, root)
  }

  /** Rolling statistics are undefined before row `window - 1` and, from there
      on, the mean is the average of the last `window` spreads. */
  lemma RollingMeanOfSpread(spread: seq<real>, window: nat, root: real -> real, t: nat)
    requires window >= 1 && t < |spread|
    ensures RollingMean(Lift(spread), window)[t].Some? <==> t >= window - 1
    ensures t >= window - 1 ==>
      RollingMean(Lift(spread), window)[t] == Some(Sum(spread[t + 1 - window .. t + 1]) / window as real)
    ensures t < window - 1 ==> RollingStd(Lift(spread), window, root)[t].None?
    ensures t < window - 1 ==> ZScore(spread, window, root)[t].None?
  {
    var s := Lift(spread);
    if t >= window - 1 {
      var win := s[t + 1 - window .. t + 1];
      assert AllDefined(win);
      assert Values(win) == spread[t + 1 - window .. t + 1];
    }
  }

  /** `df.loc[mask, 'Position'] = v`: rows where the mask holds take `v`. */
  function Assign(column: seq<Position>, mask: seq<bool>, v: Position): (r: seq<Position>)
    requires |mask| == |column|
    ensures |r| == |column|
  {
    seq(|column|, t requires 0 <= t < |column| => if mask[t] then v else column[t])
  }

  /** The position column of `backtest_strategy`: zero, then -1 where
      `z > z_entry`, then +1 where `z < -z_entry`, then 0 where
      `|z| < z_exit`, each assignment overriding the ones before it. */
  function VectorisedPositions(z: seq<Option<real>>, zEntry: real, zExit: real): (p: seq<Position>)
    ensures |p| == |z|
  {
    var flat := seq(|z|, _ => 0);
    var short := Assign(flat, seq(|z|, t requires 0 <= t < |z| => Gt(z[t], zEntry)), -1);
    var long := Assign(short, seq(|z|, t requires 0 <= t < |z| => Lt(z[t], -zEntry)), 1);
    Assign(long, seq(|z|, t requires 0 <= t < |z| => Lt(AbsCell(z[t]), zExit)), 0)
  }

  /** The rule the three overriding assignments add up to: the exit band
      wins, then the long entry, then the short entry; NaN gives 0. */
  lemma VectorisedRule(z: seq<Option<real>>, zEntry: real, zExit: real, t: nat)
    requires t < |z|
    ensures z[t].None? ==> VectorisedPositions(z, zEntry, zExit)[t] == 0
    ensures z[t].Some? ==>
      var v, p := z[t].value, VectorisedPositions(z, zEntry, zExit)[t];
      var inExitBand := -zExit < v < zExit;
      && (p == 0 <==> inExitBand || (!(v < -zEntry) && !(v > zEntry)))
      && (p == 1 <==> !inExitBand && v < -zEntry)
      && (p == -1 <==> !inExitBand && !(v < -zEntry) && v > zEntry)
  {
  }

  /** The rule has no memory: a row's position depends on that row's z-score
      alone. */
  lemma VectorisedIsMemoryless(z: seq<Option<real>>, z': seq<Option<real>>, zEntry: real, zExit: real, t: nat)
    requires |z| == |z'| && t < |z| && z[t] == z'[t]
    ensures VectorisedPositions(z, zEntry, zExit)[t] == VectorisedPositions(z', zEntry, zExit)[t]
  {
  }

  /** Unlike the hysteresis rule, this one flips from long to short in one row. */
  lemma VectorisedFlipsDirectly()
    ensures VectorisedPositions([Some(-3.0), Some(3.0)], DefaultEntry, DefaultExit) == [1, -1]
  {
  }

  /** `Position.shift(1) * Spread.pct_change()` */
  function StrategyReturns(position: seq<Position>, spread: seq<real>): (r: seq<Option<real>>)
    requires |position| == |spread|
    ensures |r| == |spread|
  {
    var change := PctChange(spread);
    seq(|spread|, t requires 0 <= t < |spread| =>
      if t == 0 || change[t].None? then None else Some(position[t - 1] as real * change[t].value))
  }

  /** One defined cell of the return column: the definition read at one row,
      for callers to unfold. */
  lemma StrategyReturnAt(position: seq<Position>, spread: seq<real>, t: nat)
    requires |position| == |spread| && 0 < t < |spread| && PctChange(spread)[t].Some?
    ensures StrategyReturns(position, spread)[t] == Some(position[t - 1] as real * PctChange(spread)[t].value)
  {
    var r := StrategyReturns(position, spread);
    assert r[t].Some?;
    assert r[t].value == position[t - 1] as real * PctChange(spread)[t].value;
  }

  /** The strategy earns yesterday's position times today's relative change
      of the spread: nothing on row 0, nothing while flat, and a long
      position grows with the spread. */
  lemma StrategyReturnMeaning(position: seq<Position>, spread: seq<real>, t: nat)
    requires |position| == |spread| && t < |spread|
    ensures t == 0 ==> StrategyReturns(position, spread)[t].None?
    ensures t > 0 ==> (StrategyReturns(position, spread)[t].Some? <==> spread[t - 1] != 0.0)
    ensures t > 0 && spread[t - 1] != 0.0 ==>
      StrategyReturns(position, spread)[t].value == position[t - 1] as real * (spread[t] / spread[t - 1] - 1.0)
    ensures t > 0 && position[t - 1] == 0 && spread[t - 1] != 0.0 ==>
      StrategyReturns(position, spread)[t] == Some(0.0)
    ensures t > 0 && position[t - 1] == 1 && spread[t - 1] != 0.0 ==>
      spread[t] == spread[t - 1] * (1.0 + StrategyReturns(position, spread)[t].value)
  {
    if t > 0 {
      PctChangeGrowth(spread, t);
      if spread[t - 1] != 0.0 {
        StrategyReturnAt(position, spread, t);
        var change := PctChange(spread)[t].value;
        assert position[t - 1] == 0 ==> position[t - 1] as real * change == 0.0;
        assert position[t - 1] == 1 ==> position[t - 1] as real * change == change;
      }
    }
  }

  /** The columns `backtest_strategy` leaves on the frame. */
  datatype Frame = Frame(
    spread: seq<real>,
    spreadMean: seq<Option<real>>,
    spreadStd: seq<Option<real>>,
    zScore: seq<Option<real>>,
    position: seq<Position>,
    strategyReturn: seq<Option<real>>,
    cumulativeReturn: seq<Option<real>>)

  predicate WellFormed(f: Frame) {
    var n := |f.spread|;
    |f.spreadMean| == n && |f.spreadStd| == n && |f.zScore| == n && |f.position| == n
    && |f.strategyReturn| == n && |f.cumulativeReturn| == n
  }

  /** `calculate_spread`, `calculate_zscore` and `backtest_strategy` run in turn. */
  function RunBacktest(gold: seq<real>, silver: seq<real>, scalingFactor: real, window: nat,
                       zEntry: real, zExit: real, root: real -> real): (f: Frame)
    requires |gold| == |silver| && window >= 1
    ensures WellFormed(f) && |f.spread| == |gold|
  {
    var spread := Spread(gold, silver, scalingFactor);
    var z := ZScore(spread, window, root);
    var position := VectorisedPositions(z, zEntry, zExit);
    var r := StrategyReturns(position, spread);
    Frame(spread, RollingMean(Lift(spread), window), RollingStd(Lift(spread), window, root),
          z, position, r, CumulativeReturns(r))
  }

  /** Rows held flat earn nothing, so neither the returns they lead to nor
      the compounded return move. */
  lemma FlatPositionsEarnNothing(position: seq<Position>, spread: seq<real>, t: nat)
    requires |position| == |spread| && t < |spread|
    requires forall i :: 0 <= i < t ==> position[i] == 0
    ensures forall i :: 0 <= i <= t ==> StrategyReturns(position, spread)[i] in {None, Some(0.0)}
    ensures CumulativeReturns(StrategyReturns(position, spread))[t] in {None, Some(0.0)}
  {
    var r := StrategyReturns(position, spread);
    ZeroReturnsKeepGrowth(r[..t + 1]);
  }

  /** Before the window fills the strategy is flat, so every return up to and
      including row `window - 1`, and the return compounded so far, is zero
      wherever it is defined. */
  lemma FlatDuringWarmup(gold: seq<real>, silver: seq<real>, scalingFactor: real, window: nat,
                         zEntry: real, zExit: real, root: real -> real, t: nat)
    requires |gold| == |silver| && window >= 1 && t < |gold|
    ensures t < window - 1 ==> RunBacktest(gold, silver, scalingFactor, window, zEntry, zExit, root).position[t] == 0
    ensures t <= window - 1 ==>
      var f := RunBacktest(gold, silver, scalingFactor, window, zEntry, zExit, root);
      f.strategyReturn[t] in {None, Some(0.0)} && f.cumulativeReturn[t] in {None, Some(0.0)}
  {
    var f := RunBacktest(gold, silver, scalingFactor, window, zEntry, zExit, root);
    var spread := Spread(gold, silver, scalingFactor);
    var z := ZScore(spread, window, root);
    var position := VectorisedPositions(z, zEntry, zExit);
    assert f.position == position && f.strategyReturn == StrategyReturns(position, spread);
    assert f.cumulativeReturn == CumulativeReturns(f.strategyReturn);
    forall i | 0 <= i < window - 1 && i < |gold| ensures position[i] == 0 {
      RollingMeanOfSpread(spread, window, root, i);
      VectorisedRule(z, zEntry, zExit, i);
    }
    if t <= window - 1 {
      FlatPositionsEarnNothing(position, spread, t);
    }
  }

  /** `cummax() - Cumulative_Return` on every row. */
  function AdditiveDrawdowns(c: seq<Option<real>>): (d: seq<Option<real>>)
    ensures |d| == |c|
  {
    var peak := CumMax(c);
    seq(|c|, t requires 0 <= t < |c| =>
      if c[t].Some? && peak[t].Some? then Some(peak[t].value - c[t].value) else None)
  }

  /** `(Cumulative_Return.cummax() - Cumulative_Return).max()` */
  function MaxDrawdown(c: seq<Option<real>>): (m: Option<real>)
    ensures var d := AdditiveDrawdowns(c);
      && (m.None? <==> NoneDefined(d))
      && (m.Some? ==> forall t :: 0 <= t < |d| && d[t].Some? ==> d[t].value <= m.value)
      && (m.Some? ==> exists t :: 0 <= t < |d| && d[t] == m)
  {
    MaxDefined(AdditiveDrawdowns(c))
  }

  /** Each row's additive drawdown is defined where the cumulative return is,
      is never negative, and is zero exactly at a running peak. */
  lemma AdditiveDrawdownAt(c: seq<Option<real>>, t: nat)
    requires t < |c| && c[t].Some?
    ensures AdditiveDrawdowns(c)[t].Some? && AdditiveDrawdowns(c)[t].value >= 0.0
    ensures AdditiveDrawdowns(c)[t].value == 0.0
        <==> forall i :: 0 <= i < t && c[i].Some? ==> c[i].value <= c[t].value
  {
    CumMaxAt(c, t);
  }

  /** The additive drawdown is never negative, is undefined only when every
      cumulative return is, and is zero exactly when the cumulative return
      never falls. */
  lemma MaxDrawdownBounds(c: seq<Option<real>>)
    ensures MaxDrawdown(c).None? <==> NoneDefined(c)
    ensures MaxDrawdown(c).Some? ==> MaxDrawdown(c).value >= 0.0
    ensures MaxDrawdown(c).Some? ==> (MaxDrawdown(c).value == 0.0 <==> NonDecreasing(c))
  {
    var d := AdditiveDrawdowns(c);
    forall t | 0 <= t < |c| && c[t].Some?
      ensures d[t].Some? && d[t].value >= 0.0
      ensures d[t].value == 0.0 <==> CumMax(c)[t] == c[t]
    {
      AdditiveDrawdownAt(c, t);
      CumMaxAt(c, t);
    }
    assert forall t :: 0 <= t < |c| ==> (d[t].Some? <==> c[t].Some?);
    NonDecreasingIffAtPeak(c);
  }

  /** An additive drawdown can exceed 100%: a cumulative return of 200%
      falling to 50% is a drawdown of 1.5, though the equity only halved. */
  lemma AdditiveDrawdownExceedsWholeStake()
    ensures MaxDrawdown([Some(2.0), Some(0.5)]) == Some(1.5)
  {
    var c: seq<Option<real>> := [Some(2.0), Some(0.5)];
    assert c[..1] == [Some(2.0)] && c[..2] == c && c[..2][..1] == c[..1] && c[..1][..0] == [];
    assert CumMax(c) == [Some(2.0), Some(2.0)];
    assert AdditiveDrawdowns(c) == [Some(0.0), Some(1.5)];
    var d := AdditiveDrawdowns(c);
    assert d[..1] == [Some(0.0)] && d[..1][..0] == [];
  }

  /** The metrics of `calculate_performance_metrics` that need no square root. */
  datatype Metrics = Metrics(cumulativeReturn: Option<real>, annualizedReturn: Option<real>,
                             maxDrawdown: Option<real>)

  /** `Strategy_Return.mean() * 252` */
  function AnnualizedReturn(r: seq<Option<real>>): (a: Option<real>)
    ensures a.None? <==> NoneDefined(r)
  {
    match MeanDefined(r)
    case None => None
    case Some(m) => Some(m * TradingDays)
  }

  /** The annualised return has the sign the daily returns share, and is
      undefined only when no return is defined. */
  lemma AnnualizedReturnSign(r: seq<Option<real>>)
    ensures AnnualizedReturn(r).None? <==> NoneDefined(r)
    ensures (forall i :: 0 <= i < |r| && r[i].Some? ==> r[i].value >= 0.0) && AnnualizedReturn(r).Some?
            ==> AnnualizedReturn(r).value >= 0.0
    ensures (forall i :: 0 <= i < |r| && r[i].Some? ==> r[i].value <= 0.0) && AnnualizedReturn(r).Some?
            ==> AnnualizedReturn(r).value <= 0.0
  {
    MeanDefinedSign(r);
  }

  /** `calculate_performance_metrics`; reading the last cumulative return of
      an empty frame raises IndexError. */
  function PerformanceMetrics(f: Frame): (m: Result<Metrics>)
    requires WellFormed(f)
    ensures m.Err? <==> |f.spread| == 0
    ensures m.Ok? ==> m.value.cumulativeReturn == f.cumulativeReturn[|f.spread| - 1]
    ensures m.Ok? ==> m.value.annualizedReturn == AnnualizedReturn(f.strategyReturn)
    ensures m.Ok? ==> m.value.maxDrawdown == MaxDrawdown(f.cumulativeReturn)
  {
    if |f.spread| == 0 then Err(IndexError)
    else Ok(Metrics(f.cumulativeReturn[|f.spread| - 1], AnnualizedReturn(f.strategyReturn),
                    MaxDrawdown(f.cumulativeReturn)))
  }

  /** The metrics of a whole run: defined for any nonempty frame, with a
      drawdown that is NaN only when every cumulative return is and is never
      negative otherwise. */
  lemma MetricsOfRun(gold: seq<real>, silver: seq<real>, scalingFactor: real, window: nat,
                     zEntry: real, zExit: real, root: real -> real)
    requires |gold| == |silver| >= 1 && window >= 1
    ensures var f := RunBacktest(gold, silver, scalingFactor, window, zEntry, zExit, root);
      var m := PerformanceMetrics(f);
      && m.Ok?
      && (m.value.maxDrawdown.None? <==> NoneDefined(f.cumulativeReturn))
      && (m.value.maxDrawdown.Some? ==> m.value.maxDrawdown.value >= 0.0)
      && (m.value.annualizedReturn.None? <==> NoneDefined(f.strategyReturn))
  {
    var f := RunBacktest(gold, silver, scalingFactor, window, zEntry, zExit, root);
    MaxDrawdownBounds(f.cumulativeReturn);
  }

  /** A constant spread has zero rolling variance, so (with the square root
      of zero being zero) every z-score is NaN, the strategy stays flat, and
      every return, cumulative return and the drawdown are zero or NaN. */
  lemma ConstantSpreadStaysFlat(gold: seq<real>, silver: seq<real>, scalingFactor: real, window: nat,
                                zEntry: real, zExit: real, root: real -> real, c: real)
    requires |gold| == |silver| && window >= 1 && root(0.0) == 0.0
    requires forall t :: 0 <= t < |gold| ==> gold[t] - scalingFactor * silver[t] == c
    ensures var f := RunBacktest(gold, silver, scalingFactor, window, zEntry, zExit, root);
      && (forall t :: 0 <= t < |gold| ==> f.zScore[t].None? && f.position[t] == 0)
      && (forall t :: 0 <= t < |gold| ==> f.strategyReturn[t] in {None, Some(0.0)})
      && (forall t :: 0 <= t < |gold| ==> f.cumulativeReturn[t] in {None, Some(0.0)})
      && MaxDrawdown(f.cumulativeReturn) in {None, Some(0.0)}
  {
    var f := RunBacktest(gold, silver, scalingFactor, window, zEntry, zExit, root);
    var spread := Spread(gold, silver, scalingFactor);
    var z := ZScore(spread, window, root);
    var position := VectorisedPositions(z, zEntry, zExit);
    assert f.zScore == z && f.position == position && f.strategyReturn == StrategyReturns(position, spread);
    assert f.cumulativeReturn == CumulativeReturns(f.strategyReturn);
    forall t | 0 <= t < |gold| ensures z[t].None? {
      ConstantSpreadHasNoZScore(spread, window, root, c, t);
    }
    forall t | 0 <= t < |gold| ensures position[t] == 0 {
      VectorisedRule(z, zEntry, zExit, t);
    }
    if |gold| > 0 {
      FlatPositionsEarnNothing(position, spread, |gold| - 1);
    }
    forall t | 0 <= t < |gold| ensures f.cumulativeReturn[t] in {None, Some(0.0)} {
      FlatPositionsEarnNothing(position, spread, t);
    }
    ConstantHasNoDrawdown(f.cumulativeReturn);
  }

  lemma ConstantSpreadHasNoZScore(spread: seq<real>, window: nat, root: real -> real, c: real, t: nat)
    requires window >= 1 && t < |spread| && root(0.0) == 0.0
    requires forall i :: 0 <= i < |spread| ==> spread[i] == c
    ensures ZScore(spread, window, root)[t].None?
  {
    var s := Lift(spread);
    if t + 1 >= window {
      ConstantWindow(s, window, t, c);
    }
  }

  /** A cumulative return that is zero wherever it is defined never falls. */
  lemma ConstantHasNoDrawdown(c: seq<Option<real>>)
    requires forall t :: 0 <= t < |c| ==> c[t] in {None, Some(0.0)}
    ensures MaxDrawdown(c) in {None, Some(0.0)}
  {
    MaxDrawdownBounds(c);
  }
}
