/** The second copy of the backtest (Phoenix-Branch-One/scripts/backtest_strategy.py):
    a spread of daily returns, a stateful position rule with hysteresis,
    returns on the spread itself, and a relative drawdown. */
module Phoenix {
  import opened Common
  import opened Columns

  /** The rolling window is fixed at 30 rows. */
  const Window: nat := 30
  /** The thresholds the script's entry point passes. */
  const MainEntry: real := 1.7
  const MainExit: real := 0.04

  /** `calculate_spread`: the gold return minus the silver return. */
  function Spread(gold: seq<real>, silver: seq<real>): (spread: seq<Option<real>>)
    requires |gold| == |silver|
    ensures |spread| == |gold|
  {
    var g, s := PctChange(gold), PctChange(silver);
    seq(|gold|, t requires 0 <= t < |gold| =>
      if g[t].Some? && s[t].Some? then Some(g[t].value - s[t].value) else None)
  }

  /** The spread is defined from row 1 on wherever both previous prices are
      nonzero; it is how much faster gold grew than silver, and it is zero
      exactly when both moved in the same proportion. */
  lemma SpreadMeaning(gold: seq<real>, silver: seq<real>, t: nat)
    requires |gold| == |silver| && t < |gold|
    ensures Spread(gold, silver)[t].Some? <==> t > 0 && gold[t - 1] != 0.0 && silver[t - 1] != 0.0
    ensures Spread(gold, silver)[t].Some? ==>
      var gr, sr := PctChange(gold)[t].value, PctChange(silver)[t].value;
      && gold[t] == gold[t - 1] * (1.0 + gr)
      && silver[t] == silver[t - 1] * (1.0 + sr)
      && Spread(gold, silver)[t].value == gr - sr
    ensures Spread(gold, silver)[t].Some? ==>
      (Spread(gold, silver)[t].value == 0.0 <==> gold[t] / gold[t - 1] == silver[t] / silver[t - 1])
  {
    if t > 0 {
      PctChangeGrowth(gold, t);
      PctChangeGrowth(silver, t);
    }
  }

  /** `calculate_zscore` with its window of 30 rows: a z-score needs the
      last 30 spreads to be defined. */
  function ZScore(spread: seq<Option<real>>, root: real -> real): (z: seq<Option<real>>)
    ensures |z| == |spread|
    ensures forall t :: 0 <= t < |spread| && z[t].Some? ==> t >= Window - 1 && spread[t].Some?
  {
    ZScores(spread, Window, root)
  }

  /** The spread of row 0 is NaN and the window needs 30 defined rows, so
      the rolling mean and the z-score stay NaN through row 29 (one row
      longer than a window over prices), and with nonzero prices the mean
      is defined from row 30 on. */
  lemma SpreadWarmup(gold: seq<real>, silver: seq<real>, root: real -> real, t: nat)
    requires |gold| == |silver| && t < |gold|
    ensures t < Window ==> RollingMean(Spread(gold, silver), Window)[t].None?
    ensures t < Window ==> ZScore(Spread(gold, silver), root)[t].None?
    ensures t >= Window && (forall i :: 0 <= i < t ==> gold[i] != 0.0 && silver[i] != 0.0) ==>
      RollingMean(Spread(gold, silver), Window)[t].Some?
  {
    var s := Spread(gold, silver);
    SpreadMeaning(gold, silver, 0);
    ZScoreNeedsFullWindow(s, Window, root, t);
    if t < Window && Window <= t + 1 {
      assert s[t + 1 - Window .. t + 1][0] == s[0];
    }
    if t >= Window && (forall i :: 0 <= i < t ==> gold[i] != 0.0 && silver[i] != 0.0) {
      forall i | t + 1 - Window <= i <= t ensures s[i].Some? {
        SpreadMeaning(gold, silver, i);
      }
    }
  }

  /** One row of the loop in `backtest_strategy`: from flat, enter short
      above the entry threshold and long below its negative; from an open
      position, exit strictly inside the exit band and hold otherwise. A
      NaN z-score satisfies no comparison. */
  function Step(prev: Position, z: Option<real>, zEntry: real, zExit: real): (p: Position)
    ensures prev != 0 ==> p == 0 || p == prev
    ensures z.None? ==> p == prev
  {
    if prev == 0 then
      if Gt(z, zEntry) then -1 else if Lt(z, -zEntry) then 1 else 0
    else if Lt(z, zExit) && Gt(z, -zExit) then 0
    else prev
  }

  /** The position column the loop leaves: 0 on row 0, then `Step` from the
      previous row's position and this row's z-score. */
  function Hysteresis(z: seq<Option<real>>, zEntry: real, zExit: real): (p: seq<Position>)
    ensures |p| == |z|
  {
    if |z| <= 1 then seq(|z|, _ => 0)
    else
      var prev := Hysteresis(z[..|z| - 1], zEntry, zExit);
      prev + [Step(prev[|prev| - 1], z[|z| - 1], zEntry, zExit)]
  }

  /** The position loop of `backtest_strategy`, updating a zero-filled
      column in place row by row. */
  method StatefulPositions(z: seq<Option<real>>, zEntry: real, zExit: real) returns (positions: seq<Position>)
    ensures positions == Hysteresis(z, zEntry, zExit)
  {
    var column := new Position[|z|](_ => 0);
    if |z| > 0 {
      var i := 1;
      while i < |z|
        invariant 1 <= i <= |z|
        invariant column[..i] == Hysteresis(z[..i], zEntry, zExit)
      {
        var prevPosition := column[i - 1];
        var zScore := z[i];
        if prevPosition == 0 {
          if Gt(zScore, zEntry) {
            column[i] := -1;
          } else if Lt(zScore, -zEntry) {
            column[i] := 1;
          } else {
            column[i] := 0;
          }
        } else if prevPosition == 1 {
          if Lt(zScore, zExit) && Gt(zScore, -zExit) {
            column[i] := 0;
          } else {
            column[i] := 1;
          }
        } else if prevPosition == -1 {
          if Lt(zScore, zExit) && Gt(zScore, -zExit) {
            column[i] := 0;
          } else {
            column[i] := -1;
          }
        }
        assert z[..i + 1][..i] == z[..i];
        assert column[..i + 1] == column[..i] + [column[i]];
        i := i + 1;
      }
      assert z[..|z|] == z;
    }
    positions := column[..];
  }

  /** Positions are causal: the positions of a prefix of the z-scores are
      the prefix of the positions. */
  lemma {:induction false} HysteresisPrefix(z: seq<Option<real>>, zEntry: real, zExit: real, k: nat)
    requires k <= |z|
    ensures Hysteresis(z, zEntry, zExit)[..k] == Hysteresis(z[..k], zEntry, zExit)
  {
    if k < |z| {
      HysteresisPrefix(z[..|z| - 1], zEntry, zExit, k);
      assert z[..|z| - 1][..k] == z[..k];
    } else {
      assert z[..k] == z;
    }
  }

  /** The rule on each row: flat on row 0, and after that the previous
      position and this row's z-score decide, as follows. From flat the
      position becomes -1 exactly above the entry threshold, +1 exactly below
      its negative, and stays 0 otherwise; an open position becomes 0 exactly
      when the z-score lies strictly inside the exit band and is held
      otherwise, including on a NaN z-score. */
  lemma HysteresisRule(z: seq<Option<real>>, zEntry: real, zExit: real, t: nat)
    requires t < |z|
    ensures t == 0 ==> Hysteresis(z, zEntry, zExit)[t] == 0
    ensures t > 0 ==>
      var p, prev := Hysteresis(z, zEntry, zExit)[t], Hysteresis(z, zEntry, zExit)[t - 1];
      && (prev == 0 ==> (p == -1 <==> z[t].Some? && z[t].value > zEntry))
      && (prev == 0 ==> (p == 1 <==> z[t].Some? && !(z[t].value > zEntry) && z[t].value < -zEntry))
      && (prev != 0 ==> (p == 0 <==> z[t].Some? && -zExit < z[t].value < zExit))
      && (prev != 0 ==> p == 0 || p == prev)
      && (z[t].None? ==> p == prev)
  {
    HysteresisPrefix(z, zEntry, zExit, t + 1);
    if t > 0 {
      var w := z[..t + 1];
      assert w[..t] == z[..t];
      assert Hysteresis(z, zEntry, zExit)[t - 1] == Hysteresis(w, zEntry, zExit)[t - 1];
    }
  }

  /** The position never flips between long and short in one row. */
  lemma NoDirectFlip(z: seq<Option<real>>, zEntry: real, zExit: real, t: nat)
    requires 0 < t < |z|
    ensures Hysteresis(z, zEntry, zExit)[t - 1] * Hysteresis(z, zEntry, zExit)[t] != -1
  {
    HysteresisRule(z, zEntry, zExit, t);
  }

  /** Every change of direction passes through a flat row: between a long
      row and a later short row (or the reverse) there is a row held flat. */
  lemma {:induction false} SignChangesPassThroughFlat(z: seq<Option<real>>, zEntry: real, zExit: real, i: nat, j: nat)
    requires i < j < |z|
    requires Hysteresis(z, zEntry, zExit)[i] * Hysteresis(z, zEntry, zExit)[j] == -1
    ensures exists k :: i < k < j && Hysteresis(z, zEntry, zExit)[k] == 0
  {
    var p := Hysteresis(z, zEntry, zExit);
    NoDirectFlip(z, zEntry, zExit, j);
    if p[j - 1] != 0 {
      assert p[j - 1] == p[j];
      SignChangesPassThroughFlat(z, zEntry, zExit, i, j - 1);
    }
  }

  /** While every z-score so far is NaN the strategy stays flat. */
  lemma {:induction false} FlatWhileUndefined(z: seq<Option<real>>, zEntry: real, zExit: real, t: nat)
    requires t < |z|
    requires forall i :: 0 <= i <= t ==> z[i].None?
    ensures forall i :: 0 <= i <= t ==> Hysteresis(z, zEntry, zExit)[i] == 0
  {
    HysteresisRule(z, zEntry, zExit, t);
    if t > 0 {
      FlatWhileUndefined(z, zEntry, zExit, t - 1);
    }
  }

  /** Unlike a memoryless rule, a position opened at z = -2 is still held at
      z = 1, and is only closed inside the band (-0.04, 0.04). */
  lemma HysteresisHoldsInsideBand()
    ensures Hysteresis([None, Some(-2.0), Some(1.0), Some(0.0)], MainEntry, MainExit) == [0, 1, 1, 0]
  {
    var z: seq<Option<real>> := [None, Some(-2.0), Some(1.0), Some(0.0)];
    assert z[..3][..2] == z[..2] && z[..2][..1] == z[..1] && z[..3] == [None, Some(-2.0), Some(1.0)];
    assert Hysteresis(z[..1], MainEntry, MainExit) == [0];
    assert Hysteresis(z[..2], MainEntry, MainExit) == [0, 1];
    assert Hysteresis(z[..3], MainEntry, MainExit) == [0, 1, 1];
  }

  /** `Position.shift(1) * Spread` */
  function StrategyReturns(position: seq<Position>, spread: seq<Option<real>>): (r: seq<Option<real>>)
    requires |position| == |spread|
    ensures |r| == |spread|
  {
    seq(|spread|, t requires 0 <= t < |spread| =>
      if t == 0 || spread[t].None? then None else Some(position[t - 1] as real * spread[t].value))
  }

  /** A long position earns gold's return minus silver's, a short one the
      reverse, and a flat one nothing; nothing is earned on row 0. */
  lemma StrategyReturnMeaning(gold: seq<real>, silver: seq<real>, position: seq<Position>, t: nat)
    requires |gold| == |silver| == |position| && t < |gold|
    ensures var r := StrategyReturns(position, Spread(gold, silver));
      && (r[t].Some? <==> Spread(gold, silver)[t].Some?)
      && (r[t].Some? ==>
        var gr, sr := PctChange(gold)[t].value, PctChange(silver)[t].value;
        && (position[t - 1] == 1 ==> r[t].value == gr - sr)
        && (position[t - 1] == -1 ==> r[t].value == sr - gr)
        && (position[t - 1] == 0 ==> r[t].value == 0.0))
  {
    SpreadMeaning(gold, silver, t);
  }

  /** `1 + Strategy_Return` */
  function GrowthFactors(r: seq<Option<real>>): (g: seq<Option<real>>)
    ensures |g| == |r|
    ensures forall t :: 0 <= t < |r| ==> (g[t].Some? <==> r[t].Some?)
  {
    seq(|r|, t requires 0 <= t < |r| => if r[t].Some? then Some(Factor(r[t])) else None)
  }

  /** `Growth_Factor * Growth_Factor.shift(1)`, the column the script names
      `Cumulative_Growth_Factor`: the product of two consecutive factors. */
  function TwoRowGrowthFactors(r: seq<Option<real>>): (c: seq<Option<real>>)
    ensures |c| == |r|
  {
    var g := GrowthFactors(r);
    seq(|r|, t requires 0 <= t < |r| =>
      if t > 0 && g[t].Some? && g[t - 1].Some? then Some(g[t].value * g[t - 1].value) else None)
  }

  /** The column is the compounded growth of a window of two rows only: it
      is defined where a row and the one before it both have a return. */
  lemma TwoRowGrowthIsWindowProduct(r: seq<Option<real>>, t: nat)
    requires t < |r|
    ensures TwoRowGrowthFactors(r)[t].Some? <==> t > 0 && r[t - 1].Some? && r[t].Some?
    ensures TwoRowGrowthFactors(r)[t].Some? ==> TwoRowGrowthFactors(r)[t].value == Growth(r[t - 1 .. t + 1])
  {
    if t > 0 && r[t - 1].Some? && r[t].Some? {
      var w := r[t - 1 .. t + 1];
      assert w[..1][..0] == [] && w[..1] == [r[t - 1]] && w[1] == r[t];
      var a, b := Factor(r[t - 1]), Factor(r[t]);
      assert Growth(w[..1]) == a;
      assert Growth(w) == a * b;
      assert TwoRowGrowthFactors(r)[t].value == b * a;
    }
  }

  /** A return of 100% on three rows in a row should compound to a factor of
      8, but the column shows 4. */
  lemma TwoRowGrowthIsNotCumulative()
    ensures TwoRowGrowthFactors([None, Some(1.0), Some(1.0), Some(1.0)])[3] == Some(4.0)
    ensures Equity([None, Some(1.0), Some(1.0), Some(1.0)])[3] == Some(8.0)
  {
    var r: seq<Option<real>> := [None, Some(1.0), Some(1.0), Some(1.0)];
    assert r[..4] == r && r[..3] == r[..4][..3] && r[..2] == r[..3][..2] && r[..1] == r[..2][..1];
    assert r[..1][..0] == [];
    assert Growth(r[..1]) == 1.0;
    assert Growth(r[..2]) == 2.0;
    assert Growth(r[..3]) == 4.0;
  }

  /** The intended cumulative growth factor is the running product of the
      factors, `(1 + Strategy_Return).cumprod()` (`Equity`): each one is the
      previous defined one times this row's factor, and it is one plus the
      cumulative return of the same row. */
  lemma CumulativeGrowthCompounds(r: seq<Option<real>>, s: nat, t: nat)
    requires s < t < |r| && r[s].Some? && r[t].Some?
    requires forall i :: s < i < t ==> r[i].None?
    ensures var c := Equity(r);
      c[t].Some? && c[s].Some? && c[t].value == c[s].value * GrowthFactors(r)[t].value
    ensures Equity(r)[t].value == 1.0 + CumulativeReturns(r)[t].value
  {
    CumulativeGrowthAt(r, t);
    assert Equity(r)[s] == Some(Growth(r[..s + 1]));
    assert Equity(r)[t] == Some(Growth(r[..t + 1]));
    assert GrowthFactors(r)[t] == Some(Factor(r[t]));
    GrowthAcrossGap(r, s, t);
  }

  /** Rows without a return between `s` and `t` leave the growth unchanged,
      so the growth up to `t` is the growth up to `s` times `t`'s factor. */
  lemma GrowthAcrossGap(r: seq<Option<real>>, s: nat, t: nat)
    requires s < t < |r|
    requires forall i :: s < i < t ==> r[i].None?
    ensures Growth(r[..t + 1]) == Growth(r[..s + 1]) * Factor(r[t])
  {
    var before, gap := r[..s + 1], r[s + 1 .. t];
    assert r[..t + 1] == before + gap + [r[t]];
    ZeroReturnsKeepGrowth(gap);
    GrowthConcat(before + gap, [r[t]]);
    GrowthConcat(before, gap);
    assert [r[t]][..0] == [];
  }

  /** At every row with a return the intended cumulative growth factor is one
      plus the cumulative return, and at the first such row it is that row's
      own factor. */
  lemma CumulativeGrowthAt(r: seq<Option<real>>, t: nat)
    requires t < |r| && r[t].Some?
    ensures Equity(r)[t].Some? && CumulativeReturns(r)[t].Some?
    ensures Equity(r)[t].value == 1.0 + CumulativeReturns(r)[t].value
    ensures NoneDefined(r[..t]) ==> Equity(r)[t].value == GrowthFactors(r)[t].value
  {
    assert Equity(r)[t] == Some(Growth(r[..t + 1]));
    CumulativeReturnAt(r, t);
    assert GrowthFactors(r)[t] == Some(Factor(r[t]));
    if NoneDefined(r[..t]) {
      assert Growth(r[..t + 1]) == Factor(r[t]) by {
        assert r[..t + 1][..t] == r[..t];
        ZeroReturnsKeepGrowth(r[..t]);
      }
    }
  }

  /** With nonzero prices every row but the first has a return, so the
      count of days held is the number of rows minus one. */
  lemma DaysHeldIsRowsMinusOne(gold: seq<real>, silver: seq<real>, position: seq<Position>)
    requires |gold| == |silver| == |position| >= 1
    requires forall i :: 0 <= i < |gold| ==> gold[i] != 0.0 && silver[i] != 0.0
    ensures Count(StrategyReturns(position, Spread(gold, silver))) == |gold| - 1
  {
    var r := StrategyReturns(position, Spread(gold, silver));
    forall t | 0 <= t < |gold| ensures r[t].Some? <==> t > 0 {
      SpreadMeaning(gold, silver, t);
    }
    CountAllButFirst(r);
  }

  /** `(E - E.cummax()) / E.cummax()` on every row, with `E` the running
      product; a zero peak divides by zero and reads as undefined. */
  function RelativeDrawdowns(r: seq<Option<real>>): (d: seq<Option<real>>)
    ensures |d| == |r|
  {
    var e := Equity(r);
    var peak := CumMax(e);
    seq(|r|, t requires 0 <= t < |r| =>
      if e[t].Some? && peak[t].Some? && peak[t].value != 0.0
      then Some((e[t].value - peak[t].value) / peak[t].value) else None)
  }

  /** The `.min()` of the relative drawdowns. */
  function MaxDrawdown(r: seq<Option<real>>): (m: Option<real>)
    ensures var d := RelativeDrawdowns(r);
      && (m.None? <==> NoneDefined(d))
      && (m.Some? ==> forall t :: 0 <= t < |d| && d[t].Some? ==> m.value <= d[t].value)
      && (m.Some? ==> exists t :: 0 <= t < |d| && d[t] == m)
  {
    MinDefined(RelativeDrawdowns(r))
  }

  /** A value at or below a positive peak is down by less than 100% of it. */
  lemma RelativeFall(e: real, m: real)
    requires 0.0 < e <= m
    ensures -1.0 < (e - m) / m <= 0.0
    ensures (e - m) / m == 0.0 <==> e == m
  {
    var q := (e - m) / m;
    assert q * m == e - m;
    if q > 0.0 {
      ProductPositive(q, m);
    }
    if q + 1.0 <= 0.0 {
      assert (q + 1.0) * m == q * m + m;
      ProductNonPositive(q + 1.0, m);
    }
  }

  /** The relative drawdown of one row with a defined return, where every
      return keeps the stake positive. */
  lemma RelativeDrawdownAt(r: seq<Option<real>>, t: nat)
    requires forall i :: 0 <= i < |r| && r[i].Some? ==> 1.0 + r[i].value > 0.0
    requires t < |r| && r[t].Some?
    ensures var d := RelativeDrawdowns(r)[t];
      d.Some? && -1.0 < d.value <= 0.0 && (d.value == 0.0 <==> CumMax(Equity(r))[t] == Equity(r)[t])
  {
    var e := Equity(r);
    var prefix := r[..t + 1];
    forall i | 0 <= i < |prefix| && prefix[i].Some? ensures 1.0 + prefix[i].value > 0.0 {
      assert prefix[i] == r[i];
    }
    GrowthPositive(prefix);
    CumMaxAt(e, t);
    RelativeFall(e[t].value, CumMax(e)[t].value);
  }

  /** Where every defined return keeps the stake positive (a return above
      -100%), the drawdown is undefined only when no return is, lies in
      (-100%, 0], and is zero exactly when the running product never falls. */
  lemma MaxDrawdownBounds(r: seq<Option<real>>)
    requires forall i :: 0 <= i < |r| && r[i].Some? ==> 1.0 + r[i].value > 0.0
    ensures MaxDrawdown(r).None? <==> NoneDefined(r)
    ensures MaxDrawdown(r).Some? ==> -1.0 < MaxDrawdown(r).value <= 0.0
    ensures MaxDrawdown(r).Some? ==> (MaxDrawdown(r).value == 0.0 <==> NonDecreasing(Equity(r)))
  {
    var e := Equity(r);
    var d := RelativeDrawdowns(r);
    forall t | 0 <= t < |r| && r[t].Some?
      ensures d[t].Some? && -1.0 < d[t].value <= 0.0
      ensures d[t].value == 0.0 <==> CumMax(e)[t] == e[t]
    {
      RelativeDrawdownAt(r, t);
    }
    assert forall t :: 0 <= t < |r| ==> (d[t].Some? <==> r[t].Some?);
    assert forall t :: 0 <= t < |r| ==> (e[t].Some? <==> r[t].Some?);
    NonDecreasingIffAtPeak(e);
  }

  /** The columns `backtest_strategy` leaves on the frame. */
  datatype Frame = Frame(
    goldReturn: seq<Option<real>>,
    silverReturn: seq<Option<real>>,
    spread: seq<Option<real>>,
    spreadMean: seq<Option<real>>,
    spreadStd: seq<Option<real>>,
    zScore: seq<Option<real>>,
    position: seq<Position>,
    strategyReturn: seq<Option<real>>,
    growthFactor: seq<Option<real>>,
    cumulativeGrowthFactor: seq<Option<real>>,
    cumulativeReturn: seq<Option<real>>)

  predicate WellFormed(f: Frame) {
    var n := |f.spread|;
    && |f.goldReturn| == n && |f.silverReturn| == n && |f.spreadMean| == n && |f.spreadStd| == n
    && |f.zScore| == n && |f.position| == n && |f.strategyReturn| == n && |f.growthFactor| == n
    && |f.cumulativeGrowthFactor| == n && |f.cumulativeReturn| == n
  }

  /** The frame `calculate_spread`, `calculate_zscore` and
      `backtest_strategy` produce, in turn. `Cumulative_Growth_Factor` is the
      two-row product the script computes; `Cumulative_Return` compounds
      every row. */
  function Backtest(gold: seq<real>, silver: seq<real>, zEntry: real, zExit: real, root: real -> real): (f: Frame)
    requires |gold| == |silver|
    ensures WellFormed(f) && |f.spread| == |gold|
  {
    var spread := Spread(gold, silver);
    var z := ZScore(spread, root);
    var position := Hysteresis(z, zEntry, zExit);
    var r := StrategyReturns(position, spread);
    Frame(PctChange(gold), PctChange(silver), spread, RollingMean(spread, Window),
          RollingStd(spread, Window, root), z, position, r, GrowthFactors(r),
          TwoRowGrowthFactors(r), CumulativeReturns(r))
  }

  /** The pipeline, with the position loop run as the script runs it. */
  method RunBacktest(gold: seq<real>, silver: seq<real>, zEntry: real, zExit: real, root: real -> real)
    returns (f: Frame)
    requires |gold| == |silver|
    ensures f == Backtest(gold, silver, zEntry, zExit, root)
  {
    var spread := Spread(gold, silver);
    var z := ZScore(spread, root);
    var position := StatefulPositions(z, zEntry, zExit);
    var r := StrategyReturns(position, spread);
    f := Frame(PctChange(gold), PctChange(silver), spread, RollingMean(spread, Window),
               RollingStd(spread, Window, root), z, position, r, GrowthFactors(r),
               TwoRowGrowthFactors(r), CumulativeReturns(r));
  }

  /** No z-score is defined before row 30, so no position is opened. */
  lemma NoPositionBeforeWindow(gold: seq<real>, silver: seq<real>, zEntry: real, zExit: real, root: real -> real, t: nat)
    requires |gold| == |silver| && t < |gold| && t < Window
    ensures forall i :: 0 <= i <= t ==> Hysteresis(ZScore(Spread(gold, silver), root), zEntry, zExit)[i] == 0
  {
    var z := ZScore(Spread(gold, silver), root);
    forall i | 0 <= i <= t ensures z[i].None? {
      SpreadWarmup(gold, silver, root, i);
    }
    FlatWhileUndefined(z, zEntry, zExit, t);
  }

  /** Rows that follow only flat rows earn nothing, so neither their returns
      nor the return compounded so far move. */
  lemma FlatPositionsEarnNothing(position: seq<Position>, spread: seq<Option<real>>, t: nat)
    requires |position| == |spread| && t < |spread|
    requires forall i :: 0 <= i < t ==> position[i] == 0
    ensures forall i :: 0 <= i <= t ==> StrategyReturns(position, spread)[i] in {None, Some(0.0)}
    ensures CumulativeReturns(StrategyReturns(position, spread))[t] in {None, Some(0.0)}
  {
    var r := StrategyReturns(position, spread);
    var prefix := r[..t + 1];
    forall i | 0 <= i < |prefix| ensures prefix[i] in {None, Some(0.0)} {
      assert prefix[i] == r[i];
    }
    ZeroReturnsKeepGrowth(prefix);
  }

  /** No position is open before row 30, so every return through row 30 and
      the return compounded so far are zero wherever they are defined. */
  lemma FlatDuringWarmup(gold: seq<real>, silver: seq<real>, zEntry: real, zExit: real, root: real -> real, t: nat)
    requires |gold| == |silver| && t < |gold|
    ensures t < Window ==> Backtest(gold, silver, zEntry, zExit, root).position[t] == 0
    ensures t <= Window ==>
      var f := Backtest(gold, silver, zEntry, zExit, root);
      f.strategyReturn[t] in {None, Some(0.0)} && f.cumulativeReturn[t] in {None, Some(0.0)}
  {
    var f := Backtest(gold, silver, zEntry, zExit, root);
    var spread := Spread(gold, silver);
    var position := Hysteresis(ZScore(spread, root), zEntry, zExit);
    assert f.position == position && f.strategyReturn == StrategyReturns(position, spread);
    assert f.cumulativeReturn == CumulativeReturns(f.strategyReturn);
    if t <= Window {
      if t > 0 {
        NoPositionBeforeWindow(gold, silver, zEntry, zExit, root, t - 1);
      }
      FlatPositionsEarnNothing(position, spread, t);
    }
    if t < Window {
      NoPositionBeforeWindow(gold, silver, zEntry, zExit, root, t);
    }
  }

  /** The metrics of `calculate_performance_metrics` that need neither a
      fractional power, a square root nor a download. */
  datatype Metrics = Metrics(cumulativeReturn: Option<real>, daysHeld: nat, maxDrawdown: Option<real>)

  /** `calculate_performance_metrics`; reading the last cumulative return of
      an empty frame raises IndexError. */
  function PerformanceMetrics(f: Frame): (m: Result<Metrics>)
    requires WellFormed(f)
    ensures m.Err? <==> |f.spread| == 0
    ensures m.Ok? ==> m.value.cumulativeReturn == f.cumulativeReturn[|f.spread| - 1]
    ensures m.Ok? ==> m.value.daysHeld == Count(f.strategyReturn) && m.value.daysHeld <= |f.spread|
    ensures m.Ok? ==> m.value.maxDrawdown == MaxDrawdown(f.strategyReturn)
  {
    if |f.spread| == 0 then Err(IndexError)
    else Ok(Metrics(f.cumulativeReturn[|f.spread| - 1], Count(f.strategyReturn),
                    MaxDrawdown(f.strategyReturn)))
  }

  /** The metrics of a whole run over prices that are never zero: every row
      but the first counts as a day held, and where every return stays above
      -100% the drawdown lies in (-100%, 0]. */
  lemma MetricsOfBacktest(gold: seq<real>, silver: seq<real>, zEntry: real, zExit: real, root: real -> real)
    requires |gold| == |silver| >= 1
    requires forall i :: 0 <= i < |gold| ==> gold[i] != 0.0 && silver[i] != 0.0
    ensures var m := PerformanceMetrics(Backtest(gold, silver, zEntry, zExit, root));
      m.Ok? && m.value.daysHeld == |gold| - 1
    ensures var f := Backtest(gold, silver, zEntry, zExit, root);
      var m := PerformanceMetrics(f);
      (forall i :: 0 <= i < |gold| && f.strategyReturn[i].Some? ==> 1.0 + f.strategyReturn[i].value > 0.0) ==>
        m.Ok? && (m.value.maxDrawdown.Some? ==> -1.0 < m.value.maxDrawdown.value <= 0.0)
  {
    var f := Backtest(gold, silver, zEntry, zExit, root);
    DaysHeldIsRowsMinusOne(gold, silver, f.position);
    if forall i :: 0 <= i < |gold| && f.strategyReturn[i].Some? ==> 1.0 + f.strategyReturn[i].value > 0.0 {
      MaxDrawdownBounds(f.strategyReturn);
    }
  }
}
