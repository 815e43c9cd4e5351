/** `calculateBasicStats`: count, extremes, range, class width, mean, population variance,
    standard deviation and coefficient of variation of the sample. The square root is a
    parameter, and so is the Sturges class count `k`. */
module BasicStatistics {
  import opened Seqs

  /** `x === Math.floor(x)`. */
  predicate IsInteger(x: real) {
    x.Floor as real == x
  }

  /** Every value equals its floor. */
  predicate AllIntegers(data: seq<real>) {
    forall i :: 0 <= i < |data| ==> IsInteger(data[i])
  }

  /** `Math.ceil`. */
  function Ceil(x: real): (c: int)
    ensures x <= c as real < x + 1.0
  {
    if IsInteger(x) then x.Floor else x.Floor + 1
  }

  /** `Math.ceil` gives the least integer at or above its argument. */
  lemma CeilLeast(x: real, m: int)
    requires x <= m as real
    ensures Ceil(x) <= m
  {
  }

  /** `Math.round`, which rounds halves up: `floor(x + 0.5)`. */
  function Round(x: real): (r: int)
    ensures x - 0.5 < r as real <= x + 0.5
  {
    (x + 0.5).Floor
  }

  /** `Math.round(x * 100) / 100`. */
  function RoundToHundredths(x: real): (r: real)
    ensures x - 0.005 < r <= x + 0.005
  {
    Round(x * 100.0) as real / 100.0
  }

  /** Multiplying both sides of an inequality by a non-negative factor; the products are
      passed in as `xz` and `yz` so that callers reason about them by name. */
  lemma MulMonotone(x: real, y: real, z: real, xz: real, yz: real)
    requires x <= y && 0.0 <= z && xz == x * z && yz == y * z
    ensures xz <= yz
  {
  }

  /** Multiplying both sides of a strict inequality by a positive factor. */
  lemma MulStrict(x: real, y: real, z: real, xz: real, yz: real)
    requires x < y && 0.0 < z && xz == x * z && yz == y * z
    ensures xz < yz
  {
  }

  /** `Math.pow(d, 2)`. */
  function Square(d: real): real {
    d * d
  }

  /** A square is never negative, and is zero only at zero: a non-zero `d` has an inverse `t`,
      and `Square(d) * Square(t) == 1`. */
  lemma SquareNonNegative(d: real)
    ensures Square(d) >= 0.0
    ensures d != 0.0 ==> Square(d) > 0.0
  {
    if d != 0.0 {
      var t := 1.0 / d;
      assert d * t == 1.0;
      assert Square(d) * Square(t) == (d * t) * (d * t);
    }
  }

  /** Dividing a lower bound `n·lo <= total` by a positive `n`. */
  lemma DivLowerBound(lo: real, total: real, n: real)
    requires 0.0 < n && n * lo <= total
    ensures lo <= total / n
  {
    if total / n < lo {
      MulStrict(total / n, lo, n, total, n * lo);
    }
  }

  /** Dividing an upper bound `total <= n·hi` by a positive `n`. */
  lemma DivUpperBound(hi: real, total: real, n: real)
    requires 0.0 < n && total <= n * hi
    ensures total / n <= hi
  {
    if hi < total / n {
      MulStrict(hi, total / n, n, n * hi, total);
    }
  }

  /** The class width: `ceil(range / k)` for integer data, otherwise `range / k` rounded to hundredths. */
  function Amplitude(range: real, k: nat, allIntegers: bool): (a: real)
    requires k >= 1 && range >= 0.0
    ensures a >= 0.0
    ensures range == 0.0 ==> a == 0.0
  {
    var q := range / (k as real);
    DivLowerBound(0.0, range, k as real);
    if allIntegers then Ceil(q) as real else RoundToHundredths(q)
  }

  /** For integer data the width is the least integer whose k-fold covers the range; otherwise it
      is within half a hundredth of `range / k`. */
  lemma AmplitudeBounds(range: real, k: nat, allIntegers: bool)
    requires k >= 1 && range >= 0.0
    ensures var a := Amplitude(range, k, allIntegers);
      && (allIntegers ==> IsInteger(a) && range <= (k as real) * a && (k as real) * (a - 1.0) < range)
      && (!allIntegers ==> range / (k as real) - 0.005 < a <= range / (k as real) + 0.005)
  {
    var q := range / (k as real);
    if allIntegers {
      var c := Ceil(q);
      MulMonotone(q, c as real, k as real, range, (k as real) * (c as real));
      MulStrict(c as real - 1.0, q, k as real, (k as real) * (c as real - 1.0), range);
    }
  }

  /** `sum / n`. */
  function Mean(s: seq<real>): real
    requires |s| > 0
  {
    Sum(s) / (|s| as real)
  }

  /** The sum of the squared deviations from `m`, accumulated left to right. */
  function SumSquaredDeviations(s: seq<real>, m: real): real
    decreases |s|
  {
    if s == [] then 0.0
    else SumSquaredDeviations(s[..|s| - 1], m) + Square(s[|s| - 1] - m)
  }

  /** The population variance: squared deviations from the mean, divided by n. */
  function Variance(s: seq<real>): real
    requires |s| > 0
  {
    SumSquaredDeviations(s, Mean(s)) / (|s| as real)
  }

  /** A sum of values of at least `lo` is at least n·lo. */
  lemma {:induction false} SumAtLeast(s: seq<real>, lo: real)
    requires forall i :: 0 <= i < |s| ==> lo <= s[i]
    ensures (|s| as real) * lo <= Sum(s)
    decreases |s|
  {
    if s != [] {
      SumAtLeast(s[..|s| - 1], lo);
    }
  }

  /** A sum of values of at most `hi` is at most n·hi. */
  lemma {:induction false} SumAtMost(s: seq<real>, hi: real)
    requires forall i :: 0 <= i < |s| ==> s[i] <= hi
    ensures Sum(s) <= (|s| as real) * hi
    decreases |s|
  {
    if s != [] {
      SumAtMost(s[..|s| - 1], hi);
    }
  }

  /** A lower bound of every value bounds the mean. */
  lemma MeanAtLeast(s: seq<real>, lo: real)
    requires |s| > 0
    requires forall i :: 0 <= i < |s| ==> lo <= s[i]
    ensures lo <= Mean(s)
  {
    SumAtLeast(s, lo);
    DivLowerBound(lo, Sum(s), |s| as real);
  }

  /** An upper bound of every value bounds the mean. */
  lemma MeanAtMost(s: seq<real>, hi: real)
    requires |s| > 0
    requires forall i :: 0 <= i < |s| ==> s[i] <= hi
    ensures Mean(s) <= hi
  {
    SumAtMost(s, hi);
    DivUpperBound(hi, Sum(s), |s| as real);
  }

  /** The mean lies between the minimum and the maximum. */
  lemma MeanBetween(s: seq<real>)
    requires |s| > 0
    ensures MinOf(s) <= Mean(s) <= MaxOf(s)
  {
    MeanAtLeast(s, MinOf(s));
    MeanAtMost(s, MaxOf(s));
  }

  /** The mean of a constant sample is that constant. */
  lemma MeanConstant(s: seq<real>, c: real)
    requires |s| > 0
    requires forall i :: 0 <= i < |s| ==> s[i] == c
    ensures Mean(s) == c
  {
    MeanAtLeast(s, c);
    MeanAtMost(s, c);
  }

  /** Squared deviations add up to zero or more, and to zero exactly when every value is `m`. */
  lemma {:induction false} SumSquaredDeviationsZero(s: seq<real>, m: real)
    ensures SumSquaredDeviations(s, m) >= 0.0
    ensures SumSquaredDeviations(s, m) == 0.0 <==> forall i :: 0 <= i < |s| ==> s[i] == m
    decreases |s|
  {
    if s != [] {
      var init, x := s[..|s| - 1], s[|s| - 1];
      SumSquaredDeviationsZero(init, m);
      SquareNonNegative(x - m);
      assert (forall i :: 0 <= i < |s| ==> s[i] == m) <==>
             (forall i :: 0 <= i < |init| ==> init[i] == m) && x == m by {
        forall i | 0 <= i < |init| ensures init[i] == s[i] { }
      }
    }
  }

  /** The population variance is never negative. */
  lemma VarianceNonNegative(s: seq<real>)
    requires |s| > 0
    ensures Variance(s) >= 0.0
  {
    SumSquaredDeviationsZero(s, Mean(s));
  }

  /** The variance is zero exactly when every value equals the mean, that is, when all values are equal. */
  lemma VarianceZeroIff(s: seq<real>)
    requires |s| > 0
    ensures Variance(s) == 0.0 <==> forall i :: 0 <= i < |s| ==> s[i] == Mean(s)
    ensures Variance(s) == 0.0 <==> forall i, j :: 0 <= i < |s| && 0 <= j < |s| ==> s[i] == s[j]
  {
    var n := |s| as real;
    SumSquaredDeviationsZero(s, Mean(s));
    assert Variance(s) * n == SumSquaredDeviations(s, Mean(s));
    if forall i, j :: 0 <= i < |s| && 0 <= j < |s| ==> s[i] == s[j] {
      MeanConstant(s, s[0]);
    }
  }

  /** The range is zero exactly when all values are equal. */
  lemma RangeZeroIff(s: seq<real>)
    requires |s| > 0
    ensures MaxOf(s) - MinOf(s) == 0.0 <==> forall i, j :: 0 <= i < |s| && 0 <= j < |s| ==> s[i] == s[j]
  {
    if forall i, j :: 0 <= i < |s| && 0 <= j < |s| ==> s[i] == s[j] {
      var a :| 0 <= a < |s| && s[a] == MinOf(s);
      var b :| 0 <= b < |s| && s[b] == MaxOf(s);
      assert s[a] == s[b];
    }
  }

  /** A coefficient of variation as JavaScript computes it: `(stdDev / mean) * 100` is a number
      when the mean is not zero, and otherwise NaN (`0 / 0`) or an infinity. */
  datatype Cv = Finite(value: real) | NaN | PositiveInfinity | NegativeInfinity

  /** `(stdDev / mean) * 100`, with IEEE division by zero. */
  function CoefficientOfVariation(stdDev: real, mean: real): (cv: Cv)
    ensures cv.Finite? <==> mean != 0.0
    ensures cv == NaN <==> mean == 0.0 && stdDev == 0.0
    ensures cv == PositiveInfinity <==> mean == 0.0 && stdDev > 0.0
  {
    if mean != 0.0 then Finite(stdDev / mean * 100.0)
    else if stdDev == 0.0 then NaN
    else if stdDev > 0.0 then PositiveInfinity
    else NegativeInfinity
  }

  /** A finite coefficient of variation is the standard deviation as a percentage of the mean. */
  lemma CoefficientOfVariationPercent(stdDev: real, mean: real)
    requires mean != 0.0
    ensures CoefficientOfVariation(stdDev, mean).value * mean == stdDev * 100.0
  {
  }

  /** The object `calculateBasicStats` stores in `stats`. */
  datatype BasicStats = BasicStats(
    n: nat, min: real, max: real, range: real, k: nat, amplitude: real,
    mean: real, variance: real, stdDev: real, cv: Cv, allIntegers: bool)

  /** `calculateBasicStats` for a non-empty sample, its class count `k` and the square root. */
  function BasicStatsOf(data: seq<real>, k: nat, sqrt: real -> real): (st: BasicStats)
    requires |data| > 0 && k >= 1
    ensures st.n == |data| && st.k == k
  {
    var min := MinOf(data);
    var max := MaxOf(data);
    var allIntegers := AllIntegers(data);
    var amplitude := Amplitude(max - min, k, allIntegers);
    var mean := Mean(data);
    var variance := Variance(data);
    var stdDev := sqrt(variance);
    BasicStats(|data|, min, max, max - min, k, amplitude, mean, variance, stdDev,
               CoefficientOfVariation(stdDev, mean), allIntegers)
  }

  /** `min` and `max` are sample values bounding every value, and `range` is their distance. */
  lemma BasicStatsExtremes(data: seq<real>, k: nat, sqrt: real -> real)
    requires |data| > 0 && k >= 1
    ensures var st := BasicStatsOf(data, k, sqrt);
      && st.min in data && st.max in data
      && (forall i :: 0 <= i < |data| ==> st.min <= data[i] <= st.max)
      && st.range == st.max - st.min >= 0.0
  {
  }

  /** `allIntegers` holds exactly when every value is an integer. The class width is
      non-negative and zero for a zero range; for integer data it is an integer and k classes
      of it cover the range, while k classes of one less do not. */
  lemma BasicStatsWidth(data: seq<real>, k: nat, sqrt: real -> real)
    requires |data| > 0 && k >= 1
    ensures var st := BasicStatsOf(data, k, sqrt);
      && (st.allIntegers <==> forall i :: 0 <= i < |data| ==> IsInteger(data[i]))
      && st.amplitude == Amplitude(st.range, k, st.allIntegers)
      && st.amplitude >= 0.0 && (st.range == 0.0 ==> st.amplitude == 0.0)
      && (st.allIntegers ==> IsInteger(st.amplitude) && st.range <= (k as real) * st.amplitude
                             && (k as real) * (st.amplitude - 1.0) < st.range)
  {
    BasicStatsExtremes(data, k, sqrt);
    var st := BasicStatsOf(data, k, sqrt);
    AmplitudeBounds(st.range, k, st.allIntegers);
  }

  /** The summary measures are mutually consistent: the mean lies between the extremes, the
      variance is non-negative and vanishes exactly when the range does. */
  lemma BasicStatsConsistent(data: seq<real>, k: nat, sqrt: real -> real)
    requires |data| > 0 && k >= 1
    ensures var st := BasicStatsOf(data, k, sqrt);
      && st.min <= st.mean <= st.max
      && st.variance >= 0.0
      && (st.variance == 0.0 <==> st.range == 0.0)
  {
    MeanBetween(data);
    VarianceNonNegative(data);
    VarianceZeroIff(data);
    RangeZeroIff(data);
  }
}
