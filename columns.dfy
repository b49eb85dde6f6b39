/** The pandas column operations both backtest copies are built from:
    `pct_change`, trailing `rolling(window)` mean and sample standard
    deviation, `cumprod` of growth factors, `cummax`, and the NaN-skipping
    `max` / `min` reductions. A column is a sequence of cells, NaN is `None`. */
module Columns {
  import opened Common

  predicate AllDefined(s: seq<Option<real>>) {
    forall i :: 0 <= i < |s| ==> s[i].Some?
  }

  predicate NoneDefined(s: seq<Option<real>>) {
    forall i :: 0 <= i < |s| ==> s[i].None?
  }

  /** The defined cells never decrease from one row to a later one. */
  predicate NonDecreasing(s: seq<Option<real>>) {
    forall i, j :: 0 <= i < j < |s| && s[i].Some? && s[j].Some? ==> s[i].value <= s[j].value
  }

  /** A float column read from prices that have no missing values. */
  function Lift(xs: seq<real>): (s: seq<Option<real>>)
    ensures |s| == |xs| && AllDefined(s)
    ensures forall i :: 0 <= i < |xs| ==> s[i].value == xs[i]
  {
    seq(|xs|, i requires 0 <= i < |xs| => Some(xs[i]))
  }

  function Values(s: seq<Option<real>>): (xs: seq<real>)
    requires AllDefined(s)
    ensures |xs| == |s|
    ensures forall i :: 0 <= i < |s| ==> Some(xs[i]) == s[i]
  {
    seq(|s|, i requires 0 <= i < |s| => s[i].value)
  }

  function Sum(xs: seq<real>): real {
    if xs == [] then 0.0 else Sum(xs[..|xs| - 1]) + xs[|xs| - 1]
  }

  /** Sum of squared deviations of `xs` from `m`. */
  function SquaredDeviations(xs: seq<real>, m: real): real {
    if xs == [] then 0.0
    else SquaredDeviations(xs[..|xs| - 1], m) + (xs[|xs| - 1] - m) * (xs[|xs| - 1] - m)
  }

  /** `Series.pct_change()`: undefined on row 0; a zero previous value gives
      an infinite or NaN change, both read as undefined here. */
  function PctChange(x: seq<real>): (r: seq<Option<real>>)
    ensures |r| == |x|
  {
    seq(|x|, t requires 0 <= t < |x| =>
      if t == 0 || x[t - 1] == 0.0 then None else Some(x[t] / x[t - 1] - 1.0))
  }

  /** The change is the growth that takes the previous value to this one. */
  lemma PctChangeGrowth(x: seq<real>, t: nat)
    requires 1 <= t < |x|
    ensures PctChange(x)[t].Some? <==> x[t - 1] != 0.0
    ensures PctChange(x)[t].Some? ==> x[t] == x[t - 1] * (1.0 + PctChange(x)[t].value)
  {
  }

  /** The trailing window of `w` rows ending at row `t` exists and has no NaN
      (`min_periods` defaults to the window length). */
  predicate WindowFull(s: seq<Option<real>>, t: nat, w: nat)
    requires t < |s|
  {
    w <= t + 1 && AllDefined(s[t + 1 - w .. t + 1])
  }

  function WindowValues(s: seq<Option<real>>, t: nat, w: nat): (xs: seq<real>)
    requires t < |s| && WindowFull(s, t, w)
    ensures |xs| == w
  {
    Values(s[t + 1 - w .. t + 1])
  }

  /** `rolling(window=w).mean()` */
  function RollingMean(s: seq<Option<real>>, w: nat): (m: seq<Option<real>>)
    requires w >= 1
    ensures |m| == |s|
  {
    seq(|s|, t requires 0 <= t < |s| =>
      if WindowFull(s, t, w) then Some(Sum(WindowValues(s, t, w)) / w as real) else None)
  }

  /** The square of `rolling(window=w).std()`: the sample variance (one
      degree of freedom), undefined for a window of one row. */
  function RollingVariance(s: seq<Option<real>>, w: nat): (v: seq<Option<real>>)
    requires w >= 1
    ensures |v| == |s|
  {
    seq(|s|, t requires 0 <= t < |s| =>
      if w >= 2 && WindowFull(s, t, w) then
        var xs := WindowValues(s, t, w);
        Some(SquaredDeviations(xs, Sum(xs) / w as real) / (w - 1) as real)
      else None)
  }

  /** `rolling(window=w).std()`; `root` stands for the square root. */
  function RollingStd(s: seq<Option<real>>, w: nat, root: real -> real): (sd: seq<Option<real>>)
    requires w >= 1
    ensures |sd| == |s|
  {
    var v := RollingVariance(s, w);
    seq(|s|, t requires 0 <= t < |s| => match v[t] case None => None case Some(x) => Some(root(x)))
  }

  /** `(s - mean) / std`: NaN wherever an operand is NaN or the deviation is
      zero (with exact arithmetic a zero variance makes the numerator zero too,
      so the quotient is 0/0). */
  function ZScores(s: seq<Option<real>>, w: nat, root: real -> real): (z: seq<Option<real>>)
    requires w >= 1
    ensures |z| == |s|
  {
    var m := RollingMean(s, w);
    var sd := RollingStd(s, w, root);
    seq(|s|, t requires 0 <= t < |s| =>
      if s[t].Some? && m[t].Some? && sd[t].Some? && sd[t].value != 0.0
      then Some((s[t].value - m[t].value) / sd[t].value)
      else None)
  }

  /** Every z-score is undefined until a full window without NaN ends at its row. */
  lemma ZScoreNeedsFullWindow(s: seq<Option<real>>, w: nat, root: real -> real, t: nat)
    requires w >= 1 && t < |s|
    ensures ZScores(s, w, root)[t].Some? ==> WindowFull(s, t, w) && w >= 2
    ensures RollingMean(s, w)[t].Some? <==> WindowFull(s, t, w)
  {
  }

  /** Where the window is full, has at least two rows and a nonzero standard
      deviation, the z-score exists and is the spread's deviation from the
      mean measured in standard deviations: `z * std + mean == s`. */
  lemma ZScoreDefined(s: seq<Option<real>>, w: nat, root: real -> real, t: nat)
    requires w >= 2 && t < |s| && WindowFull(s, t, w)
    requires RollingStd(s, w, root)[t].Some? && RollingStd(s, w, root)[t].value != 0.0
    ensures ZScores(s, w, root)[t].Some?
    ensures ZScores(s, w, root)[t].value * RollingStd(s, w, root)[t].value + RollingMean(s, w)[t].value
         == s[t].value
  {
    assert s[t + 1 - w .. t + 1][w - 1] == s[t];
    var m, sd := RollingMean(s, w)[t], RollingStd(s, w, root)[t];
    assert m.Some?;
    var z := ZScores(s, w, root)[t];
    assert z == Some((s[t].value - m.value) / sd.value);
  }

  /** A sum of squares is never negative. */
  lemma {:induction false} SquaredDeviationsNonNegative(xs: seq<real>, m: real)
    ensures SquaredDeviations(xs, m) >= 0.0
  {
    if xs != [] {
      SquaredDeviationsNonNegative(xs[..|xs| - 1], m);
      var d := xs[|xs| - 1] - m;
      assert d * d >= 0.0;
    }
  }

  /** The rolling variance exists exactly on full windows of two rows or
      more, and it is never negative there. */
  lemma RollingVarianceNonNegative(s: seq<Option<real>>, w: nat, t: nat)
    requires w >= 1 && t < |s|
    ensures RollingVariance(s, w)[t].Some? <==> w >= 2 && WindowFull(s, t, w)
    ensures RollingVariance(s, w)[t].Some? ==> RollingVariance(s, w)[t].value >= 0.0
  {
    if w >= 2 && WindowFull(s, t, w) {
      var xs := WindowValues(s, t, w);
      SquaredDeviationsNonNegative(xs, Sum(xs) / w as real);
      var q := SquaredDeviations(xs, Sum(xs) / w as real);
      assert RollingVariance(s, w)[t] == Some(q / (w - 1) as real);
      AverageBounds(q, (w - 1) as real, 0.0, q);
    }
  }

  lemma {:induction false} SumBounds(xs: seq<real>, lo: real, hi: real)
    requires forall i :: 0 <= i < |xs| ==> lo <= xs[i] <= hi
    ensures |xs| as real * lo <= Sum(xs) <= |xs| as real * hi
  {
    if xs != [] {
      SumBounds(xs[..|xs| - 1], lo, hi);
    }
  }

  lemma ProductPositive(a: real, b: real)
    requires a > 0.0 && b > 0.0
    ensures a * b > 0.0
  {
  }

  lemma ProductNonPositive(a: real, b: real)
    requires a <= 0.0 && b > 0.0
    ensures a * b <= 0.0
  {
  }

  /** Bounds on a total of `n` terms bound their average. */
  lemma AverageBounds(total: real, n: real, lo: real, hi: real)
    requires n > 0.0 && n * lo <= total <= n * hi
    ensures lo <= total / n <= hi
  {
    var q := total / n;
    assert n * q == total;
  }

  /** The rolling mean is an average: it lies between the window's bounds. */
  lemma RollingMeanWithinWindow(s: seq<Option<real>>, w: nat, t: nat, lo: real, hi: real)
    requires w >= 1 && t < |s| && WindowFull(s, t, w)
    requires forall i :: t + 1 - w <= i <= t ==> s[i].Some? && lo <= s[i].value <= hi
    ensures RollingMean(s, w)[t].Some?
    ensures lo <= RollingMean(s, w)[t].value <= hi
  {
    var xs := WindowValues(s, t, w);
    forall i | 0 <= i < |xs| ensures lo <= xs[i] <= hi {
      assert s[t + 1 - w .. t + 1][i] == s[t + 1 - w + i];
    }
    SumBounds(xs, lo, hi);
    AverageBounds(Sum(xs), w as real, lo, hi);
  }

  lemma {:induction false} SumOfConstant(xs: seq<real>, c: real)
    requires forall i :: 0 <= i < |xs| ==> xs[i] == c
    ensures Sum(xs) == |xs| as real * c
    ensures SquaredDeviations(xs, c) == 0.0
  {
    if xs != [] {
      SumOfConstant(xs[..|xs| - 1], c);
    }
  }

  /** A window holding one value throughout has that value as its mean and
      zero variance, which is what leaves its z-score undefined. */
  lemma ConstantWindow(s: seq<Option<real>>, w: nat, t: nat, c: real)
    requires w >= 1 && w <= t + 1 <= |s|
    requires forall i :: t + 1 - w <= i <= t ==> s[i] == Some(c)
    ensures RollingMean(s, w)[t] == Some(c)
    ensures w >= 2 ==> RollingVariance(s, w)[t] == Some(0.0)
  {
    var win := s[t + 1 - w .. t + 1];
    assert forall i :: 0 <= i < w ==> win[i] == s[t + 1 - w + i];
    var xs := WindowValues(s, t, w);
    SumOfConstant(xs, c);
    AverageBounds(Sum(xs), w as real, c, c);
  }

  /** `1 + r` of one return cell, skipped (factor one) where it is NaN. */
  function Factor(x: Option<real>): real {
    match x
    case None => 1.0
    case Some(v) => 1.0 + v
  }

  /** Product of `1 + r` over the defined cells: `cumprod` skips NaN. */
  function Growth(r: seq<Option<real>>): real {
    if r == [] then 1.0 else Growth(r[..|r| - 1]) * Factor(r[|r| - 1])
  }

  /** `(1 + r).cumprod()`: NaN where `r` is NaN, the running product elsewhere. */
  function Equity(r: seq<Option<real>>): (e: seq<Option<real>>)
    ensures |e| == |r|
    ensures forall t :: 0 <= t < |r| ==> (e[t].Some? <==> r[t].Some?)
  {
    seq(|r|, t requires 0 <= t < |r| => if r[t].Some? then Some(Growth(r[..t + 1])) else None)
  }

  /** `(1 + r).cumprod() - 1` */
  function CumulativeReturns(r: seq<Option<real>>): (c: seq<Option<real>>)
    ensures |c| == |r|
    ensures forall t :: 0 <= t < |r| ==> (c[t].Some? <==> r[t].Some?)
  {
    seq(|r|, t requires 0 <= t < |r| => if r[t].Some? then Some(Growth(r[..t + 1]) - 1.0) else None)
  }

  /** A stretch of returns that are all zero or NaN compounds to nothing. */
  lemma {:induction false} ZeroReturnsKeepGrowth(r: seq<Option<real>>)
    requires forall i :: 0 <= i < |r| ==> r[i] in {None, Some(0.0)}
    ensures Growth(r) == 1.0
  {
    if r != [] {
      ZeroReturnsKeepGrowth(r[..|r| - 1]);
    }
  }

  /** Compounding: growth over two consecutive periods is the product of the
      growth over each. */
  lemma {:induction false} GrowthConcat(a: seq<Option<real>>, b: seq<Option<real>>)
    ensures Growth(a + b) == Growth(a) * Growth(b)
  {
    if b != [] {
      var b' := b[..|b| - 1];
      assert (a + b)[..|a + b| - 1] == a + b';
      GrowthConcat(a, b');
    } else {
      assert a + b == a;
    }
  }

  /** A defined cell of the cumulative return column is the growth up to it,
      less one: the definition read at one row, for callers to unfold. */
  lemma CumulativeReturnAt(r: seq<Option<real>>, t: nat)
    requires t < |r| && r[t].Some?
    ensures CumulativeReturns(r)[t] == Some(Growth(r[..t + 1]) - 1.0)
  {
  }

  /** The last cell of the cumulative return column, where it is defined. */
  lemma LastCumulativeReturn(r: seq<Option<real>>)
    requires |r| > 0 && r[|r| - 1].Some?
    ensures CumulativeReturns(r)[|r| - 1].Some?
    ensures 1.0 + CumulativeReturns(r)[|r| - 1].value == Growth(r)
  {
    CumulativeReturnAt(r, |r| - 1);
    assert r[..|r|] == r;
  }

  /** `1 + C` multiplies when the growths it stands for multiply. */
  lemma ShiftedProduct(x: real, y: real, xy: real, gx: real, gy: real, gxy: real)
    requires 1.0 + x == gx && 1.0 + y == gy && 1.0 + xy == gxy && gxy == gx * gy
    ensures 1.0 + xy == (1.0 + x) * (1.0 + y)
  {
  }

  /** Cumulative returns compound rather than add: `1 + C` over a joined
      path is the product of `1 + C` over its parts. */
  lemma CumulativeReturnCompounds(a: seq<Option<real>>, b: seq<Option<real>>)
    requires |a| > 0 && |b| > 0
    requires a[|a| - 1].Some? && b[|b| - 1].Some?
    ensures CumulativeReturns(a + b)[|a + b| - 1].Some?
    ensures 1.0 + CumulativeReturns(a + b)[|a + b| - 1].value
         == (1.0 + CumulativeReturns(a)[|a| - 1].value) * (1.0 + CumulativeReturns(b)[|b| - 1].value)
  {
    assert (a + b)[|a + b| - 1] == b[|b| - 1];
    var x, y, xy := CumulativeReturns(a)[|a| - 1].value, CumulativeReturns(b)[|b| - 1].value,
                    CumulativeReturns(a + b)[|a + b| - 1].value;
    assert 1.0 + xy == (1.0 + x) * (1.0 + y) by {
      LastCumulativeReturn(a);
      LastCumulativeReturn(b);
      LastCumulativeReturn(a + b);
      GrowthConcat(a, b);
      ShiftedProduct(x, y, xy, Growth(a), Growth(b), Growth(a + b));
    }
  }

  /** A return of +50% followed by one of -50% is a loss of 25%, where
      adding the two returns would show no loss. */
  lemma CompoundingExample()
    ensures CumulativeReturns([None, Some(0.5), Some(-0.5)]) == [None, Some(0.5), Some(-0.25)]
  {
    var r: seq<Option<real>> := [None, Some(0.5), Some(-0.5)];
    assert r[..1] == [None] && r[..2] == [None, Some(0.5)] && r[..3] == r;
    assert r[..2][..1] == r[..1] && r[..1][..0] == [];
    assert Growth(r[..1]) == 1.0;
    assert Growth(r[..2]) == 1.5;
    assert Growth(r[..3]) == 0.75;
  }

  /** Growth factors that are all positive never compound to a total loss. */
  lemma {:induction false} GrowthPositive(r: seq<Option<real>>)
    requires forall i :: 0 <= i < |r| && r[i].Some? ==> 1.0 + r[i].value > 0.0
    ensures Growth(r) > 0.0
  {
    if r != [] {
      GrowthPositive(r[..|r| - 1]);
    }
  }

  /** Compounding a price's `pct_change` from the first row rebuilds the
      price, as long as no earlier price is zero. */
  lemma {:induction false} PctChangeCompounds(x: seq<real>, t: nat)
    requires t < |x|
    requires forall i :: 0 <= i < t ==> x[i] != 0.0
    ensures x[t] == x[0] * Growth(PctChange(x)[..t + 1])
  {
    var p := PctChange(x);
    if t == 0 {
      assert p[..1][..0] == [];
    } else {
      PctChangeCompounds(x, t - 1);
      assert p[..t + 1][..t] == p[..t];
      var q := x[t] / x[t - 1];
      assert Factor(p[t]) == q;
      assert x[t - 1] * q == x[t];
    }
  }

  /** The largest defined cell (`max()` skips NaN); `None` for an all-NaN column. */
  function MaxDefined(s: seq<Option<real>>): (m: Option<real>)
    ensures m.None? <==> NoneDefined(s)
    ensures m.Some? ==> forall i :: 0 <= i < |s| && s[i].Some? ==> s[i].value <= m.value
    ensures m.Some? ==> exists i :: 0 <= i < |s| && s[i] == m
  {
    if s == [] then None
    else
      var m := MaxDefined(s[..|s| - 1]);
      assert forall i :: 0 <= i < |s| - 1 ==> s[..|s| - 1][i] == s[i];
      match s[|s| - 1]
      case None => m
      case Some(x) => if m.Some? && m.value >= x then m else Some(x)
  }

  /** The smallest defined cell (`min()` skips NaN); `None` for an all-NaN column. */
  function MinDefined(s: seq<Option<real>>): (m: Option<real>)
    ensures m.None? <==> NoneDefined(s)
    ensures m.Some? ==> forall i :: 0 <= i < |s| && s[i].Some? ==> m.value <= s[i].value
    ensures m.Some? ==> exists i :: 0 <= i < |s| && s[i] == m
  {
    if s == [] then None
    else
      var m := MinDefined(s[..|s| - 1]);
      assert forall i :: 0 <= i < |s| - 1 ==> s[..|s| - 1][i] == s[i];
      match s[|s| - 1]
      case None => m
      case Some(x) => if m.Some? && m.value <= x then m else Some(x)
  }

  /** `cummax()`: NaN stays NaN, other rows carry the running maximum. */
  function CumMax(s: seq<Option<real>>): (c: seq<Option<real>>)
    ensures |c| == |s|
  {
    seq(|s|, t requires 0 <= t < |s| => if s[t].Some? then MaxDefined(s[..t + 1]) else None)
  }

  /** The running maximum at a defined row is the largest defined cell up to
      and including that row: at least every one of them, and equal to one.
      It is the row itself exactly when no earlier defined row is larger. */
  lemma CumMaxAt(s: seq<Option<real>>, t: nat)
    requires t < |s| && s[t].Some?
    ensures CumMax(s)[t].Some? && CumMax(s)[t].value >= s[t].value
    ensures CumMax(s)[t] == s[t] <==> forall i :: 0 <= i < t && s[i].Some? ==> s[i].value <= s[t].value
    ensures forall i :: 0 <= i <= t && s[i].Some? ==> s[i].value <= CumMax(s)[t].value
    ensures exists i :: 0 <= i <= t && s[i] == CumMax(s)[t]
  {
    var p := s[..t + 1];
    assert p[t] == s[t];
    assert forall i :: 0 <= i <= t ==> p[i] == s[i];
  }

  /** A column never decreases exactly when every defined row is its own
      running maximum. */
  lemma NonDecreasingIffAtPeak(s: seq<Option<real>>)
    ensures NonDecreasing(s) <==> forall t :: 0 <= t < |s| && s[t].Some? ==> CumMax(s)[t] == s[t]
  {
    forall t | 0 <= t < |s| && s[t].Some? {
      CumMaxAt(s, t);
    }
  }

  /** `count()`: the number of cells that are not NaN. */
  function Count(s: seq<Option<real>>): (n: nat)
    ensures n <= |s|
    ensures n == 0 <==> NoneDefined(s)
  {
    if s == [] then 0
    else
      assert forall i :: 0 <= i < |s| - 1 ==> s[..|s| - 1][i] == s[i];
      Count(s[..|s| - 1]) + (if s[|s| - 1].Some? then 1 else 0)
  }

  /** A column that is NaN on its first row only counts every other row. */
  lemma {:induction false} CountAllButFirst(s: seq<Option<real>>)
    requires |s| >= 1 && s[0].None?
    requires forall i :: 1 <= i < |s| ==> s[i].Some?
    ensures Count(s) == |s| - 1
  {
    if |s| > 1 {
      CountAllButFirst(s[..|s| - 1]);
    }
  }

  /** Sum of the cells that are not NaN. */
  function SumDefined(s: seq<Option<real>>): real {
    if s == [] then 0.0
    else SumDefined(s[..|s| - 1]) + (match s[|s| - 1] case None => 0.0 case Some(v) => v)
  }

  /** `mean()`: NaN cells are skipped, an all-NaN column has a NaN mean. */
  function MeanDefined(s: seq<Option<real>>): (m: Option<real>)
    ensures m.None? <==> NoneDefined(s)
  {
    if Count(s) == 0 then None else Some(SumDefined(s) / Count(s) as real)
  }

  lemma {:induction false} SumDefinedSign(s: seq<Option<real>>)
    ensures (forall i :: 0 <= i < |s| && s[i].Some? ==> s[i].value >= 0.0) ==> SumDefined(s) >= 0.0
    ensures (forall i :: 0 <= i < |s| && s[i].Some? ==> s[i].value <= 0.0) ==> SumDefined(s) <= 0.0
  {
    if s != [] {
      var init := s[..|s| - 1];
      assert forall i :: 0 <= i < |init| ==> init[i] == s[i];
      SumDefinedSign(init);
    }
  }

  /** The mean of the defined cells has the sign they share, and is undefined
      only for an all-NaN column. */
  lemma MeanDefinedSign(s: seq<Option<real>>)
    ensures MeanDefined(s).None? <==> NoneDefined(s)
    ensures (forall i :: 0 <= i < |s| && s[i].Some? ==> s[i].value >= 0.0) && MeanDefined(s).Some?
            ==> MeanDefined(s).value >= 0.0
    ensures (forall i :: 0 <= i < |s| && s[i].Some? ==> s[i].value <= 0.0) && MeanDefined(s).Some?
            ==> MeanDefined(s).value <= 0.0
  {
    SumDefinedSign(s);
  }
}
